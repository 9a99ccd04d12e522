/**
 The SQL tables of the RBAC model: rows under auto-increment ids, tombstoned by `is_del` and never removed. Rows
 carry the columns that some query or check reads; see README for the audit columns left out.
 */
module Tables {
  import opened Wrappers

  /** `next` is the next auto-increment id. */
  datatype Table<R> = Table(rows: map<nat, R>, next: nat) {
    ghost predicate Valid() {
      0 < next && forall id :: id in rows ==> 0 < id < next
    }

    /** INSERT without an id. */
    function Insert(r: R): Table<R> {
      Table(rows[next := r], next + 1)
    }

    /** The id an INSERT of a row with id column `id` gets: zero asks for an auto-increment id. */
    function NewId(id: nat): nat {
      if id == 0 then next else id
    }

    /** INSERT with an explicit id: None stands for a duplicate-key error. */
    function InsertAs(id: nat, r: R): Option<Table<R>> {
      if id == 0 then Some(Insert(r))
      else if id in rows then None
      else Some(Table(rows[id := r], if id < next then next else id + 1))
    }

    function Put(id: nat, r: R): Table<R> {
      this.(rows := rows[id := r])
    }
  }

  // ---------- Rows ----------

  /** A row of admin_role, role_menu or menu_perm; `status` and `isDel` are 0 on live rows. */
  datatype Join = Join(left: nat, right: nat, status: int, isDel: int)

  datatype AdminRow = AdminRow(account: string, name: string, password: string, isLock: int, status: int, isDel: int)

  datatype RoleRow = RoleRow(name: string, typ: int, status: int, sort: int, isDel: int)

  datatype MenuRow = MenuRow(code: string, parent: nat, name: string, path: string, icon: string, title: string,
                             typ: int, sort: int, status: int, isDel: int, isLink: int, included: string,
                             valueKey: string, valueWidth: string, valueEllipsis: int, remark: string)

  datatype PermRow = PermRow(name: string, route: string, httpMethod: int, isIntercept: int, sort: int,
                             status: int, isDel: int, parent: nat)

  const DEFAULT_METHOD: int := 2
  const DEFAULT_INTERCEPT: int := 1

  /** GORM's Create replaces a zero in a column that declares a default: internal/model/rbac.go:70-72. */
  function PermDefaults(r: PermRow): PermRow {
    r.(httpMethod := if r.httpMethod == 0 then DEFAULT_METHOD else r.httpMethod,
       isIntercept := if r.isIntercept == 0 then DEFAULT_INTERCEPT else r.isIntercept)
  }

  type JoinTable = Table<Join>

  datatype Db = Db(admins: Table<AdminRow>, roles: Table<RoleRow>, menus: Table<MenuRow>, perms: Table<PermRow>,
                   adminRole: JoinTable, roleMenu: JoinTable, menuPerm: JoinTable)
  {
    ghost predicate Valid() {
      && admins.Valid() && roles.Valid() && menus.Valid() && perms.Valid()
      && adminRole.Valid() && roleMenu.Valid() && menuPerm.Valid()
    }
  }

  // ---------- Join tables as relations ----------

  predicate LiveJoin(j: Join) {
    j.isDel == 0 && j.status == 0
  }

  /** The pairs on live rows. */
  ghost function Rel(t: JoinTable): set<(nat, nat)> {
    set id | id in t.rows && LiveJoin(t.rows[id]) :: (t.rows[id].left, t.rows[id].right)
  }

  lemma InRel(t: JoinTable, id: nat)
    requires id in t.rows && LiveJoin(t.rows[id])
    ensures (t.rows[id].left, t.rows[id].right) in Rel(t)
  {
  }

  /** UPDATE ... SET is_del = 1 WHERE <left column> = k. */
  function TombstoneLeft(t: JoinTable, k: nat): JoinTable {
    t.(rows := map id | id in t.rows :: if t.rows[id].left == k then t.rows[id].(isDel := 1) else t.rows[id])
  }

  function TombstoneRight(t: JoinTable, k: nat): JoinTable {
    t.(rows := map id | id in t.rows :: if t.rows[id].right == k then t.rows[id].(isDel := 1) else t.rows[id])
  }

  function Bind(t: JoinTable, l: nat, r: nat): JoinTable {
    t.Insert(Join(l, r, 0, 0))
  }

  /** One new row for each nonzero id, in order. */
  function BindAll(t: JoinTable, l: nat, ids: seq<nat>): JoinTable {
    if ids == [] then t
    else
      var t' := BindAll(t, l, ids[..|ids| - 1]);
      var r := ids[|ids| - 1];
      if r == 0 then t' else Bind(t', l, r)
  }

  /** The source's loop over the ids. */
  method BindLoop(t: JoinTable, l: nat, ids: seq<nat>) returns (t': JoinTable)
    ensures t' == BindAll(t, l, ids)
  {
    t' := t;
    for i := 0 to |ids|
      invariant t' == BindAll(t, l, ids[..i])
    {
      assert ids[..i + 1][..i] == ids[..i];
      if ids[i] == 0 {
        continue;
      }
      t' := Bind(t', l, ids[i]);
    }
    assert ids[..|ids|] == ids;
  }

  function NonZero(ids: seq<nat>): set<nat> {
    set r | r in ids && r != 0
  }

  lemma RelTombstoneLeft(t: JoinTable, k: nat)
    ensures Rel(TombstoneLeft(t, k)) == set p | p in Rel(t) && p.0 != k
    ensures t.Valid() ==> TombstoneLeft(t, k).Valid()
  {
    var t' := TombstoneLeft(t, k);
    forall p | p in Rel(t) && p.0 != k ensures p in Rel(t') {
      var id :| id in t.rows && LiveJoin(t.rows[id]) && p == (t.rows[id].left, t.rows[id].right);
      InRel(t', id);
    }
  }

  lemma RelTombstoneRight(t: JoinTable, k: nat)
    ensures Rel(TombstoneRight(t, k)) == set p | p in Rel(t) && p.1 != k
    ensures t.Valid() ==> TombstoneRight(t, k).Valid()
  {
    var t' := TombstoneRight(t, k);
    forall p | p in Rel(t) && p.1 != k ensures p in Rel(t') {
      var id :| id in t.rows && LiveJoin(t.rows[id]) && p == (t.rows[id].left, t.rows[id].right);
      InRel(t', id);
    }
  }

  lemma RelBind(t: JoinTable, l: nat, r: nat)
    requires t.Valid()
    ensures Bind(t, l, r).Valid() && Rel(Bind(t, l, r)) == Rel(t) + {(l, r)}
  {
    var t' := Bind(t, l, r);
    forall p | p in Rel(t) ensures p in Rel(t') {
      var id :| id in t.rows && LiveJoin(t.rows[id]) && p == (t.rows[id].left, t.rows[id].right);
      InRel(t', id);
    }
    InRel(t', t.next);
  }

  ghost function Image(l: nat, rs: set<nat>): set<(nat, nat)> {
    set r | r in rs :: (l, r)
  }

  lemma {:induction false} RelBindAll(t: JoinTable, l: nat, ids: seq<nat>)
    requires t.Valid()
    ensures BindAll(t, l, ids).Valid() && Rel(BindAll(t, l, ids)) == Rel(t) + Image(l, NonZero(ids))
  {
    if ids != [] {
      var n := |ids| - 1;
      RelBindAll(t, l, ids[..n]);
      assert ids == ids[..n] + [ids[n]];
      if ids[n] == 0 {
        assert NonZero(ids) == NonZero(ids[..n]);
      } else {
        RelBind(BindAll(t, l, ids[..n]), l, ids[n]);
        assert NonZero(ids) == NonZero(ids[..n]) + {ids[n]};
        assert Image(l, NonZero(ids)) == Image(l, NonZero(ids[..n])) + {(l, ids[n])};
      }
    }
  }

  /** No two undeleted rows join the same ids. */
  ghost predicate PairsUnique(t: JoinTable) {
    forall i, j | i in t.rows && j in t.rows && t.rows[i].isDel == 0 && t.rows[j].isDel == 0 ::
      t.rows[i].left == t.rows[j].left && t.rows[i].right == t.rows[j].right ==> i == j
  }

  // ---------- History ----------

  /** `t'` comes after `t`: no row is lost or repointed, tombstones stay, and new rows have larger ids. */
  ghost predicate Later(t: JoinTable, t': JoinTable) {
    && t.next <= t'.next
    && (forall id :: id in t.rows ==>
          && id in t'.rows && t'.rows[id].left == t.rows[id].left && t'.rows[id].right == t.rows[id].right
          && (t.rows[id].isDel != 0 ==> t'.rows[id].isDel != 0))
    && (forall id :: id in t'.rows && id !in t.rows ==> t.next <= id)
  }

  lemma {:induction false} LaterBindAll(t: JoinTable, l: nat, ids: seq<nat>)
    requires t.Valid()
    ensures Later(t, BindAll(t, l, ids))
  {
    if ids != [] {
      LaterBindAll(t, l, ids[..|ids| - 1]);
      RelBindAll(t, l, ids[..|ids| - 1]);
    }
  }
}
