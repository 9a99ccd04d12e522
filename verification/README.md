# ClipSync Admin: a verified model

This project models the back end of the ClipSync admin console (Go, Gin, GORM, Redis) and proves what its session,
authorization, seeding and string-format code guarantees. It is self-contained Dafny 4.11; `dafny verify dfyconfig.toml`
checks all of it.

## What is modelled

**Sessions** (`redis.dfy`, `session.dfy`, `auth_service.dfy`, `interleaving.dfy`, and the modules that import them).
Redis is a store of keys with optional deadlines read against one clock. A request is a `Local`: the command it is
about to send and the values it has read. `Session.Step` sends one command. Two things are defined from it: the
imperative `AuthService` (login, logout, reissue, the `Sign` and `JWTAuth` middleware, one method per source function),
whose every method is proved to end in the state and answer of `Session.Alone`; and an interleaved system in which any
number of requests send their commands in any order while time passes. `request_answers.dfy` and `signature_check.dfy`
say what `Alone` comes to in terms of headers, store and lookup alone. Properties over whole runs are proved on the
interleaved system: the session window, final revocation, replay protection, the bound on the login-error counter.
Properties that only hold when requests do not interleave (one live token per login, the rate of counted failures) are
proved on sequential runs, and `RenewalRace` says under exactly which configurations interleaving breaks the first. The
runs that show a bound is reached or a property can fail (`renewal_race.dfy`, `logout_race.dfy`, `lockout_reached.dfy`,
`rate_reached.dfy`, the replays in `nonces.dfy` and `token_replay.dfy`) are built with `run_building.dfy` from requests
that carry a right signature; they ask of the keyed hash only that it never answers the empty string. Times are
milliseconds; the JWT `exp` claim is cut to whole seconds (section 4.1.4 of RFC 7519).

**RBAC** (`tables.dfy`, `rbac_service.dfy`, `policy.dfy`, `decisions.dfy`, `authorizer.dfy`, `row_history.dfy`,
`sent_columns.dfy`, `mutator_answers.dfy`, `super_account.dfy`, `login_lookup.dfy`). Tables are maps from auto-increment
ids to rows with an `is_del` tombstone. `RBAC.Do` is a mutator call on the tables, `RBACService` the imperative form of
each mutator. `Policies.Abs` reads the live rows as plain relations, and the central theorem says that every sequence of
mutator calls is a sequence of plain edits of these relations. The staged queries of the middleware are proved to decide
by them, and by `Decisions.Permitted`, which reads table columns and the request line alone. `SentColumns` says what
each column of each row holds after any run, and which ids are bound. Role ids, menu ids and permission ids in
`admin_role`, `role_menu` and `menu_perm` are both columns `left` and `right` of a `Join` row.

**The seeder** (`seeder.dfy`, `seeder_convergence.dfy`, `seeder_fixpoint.dfy`, `seeder_decisions.dfy`,
`seeder_coverage.dfy`). The recursive upsert of the menu tree and the final sweep, on the same tables, from any prior
state and for any tree.

**Strings** (`text.dfy`, `decimal.dfy`, `base64.dfy`, `password.dfy`, `signing.dfy`, `sorted_query.dfy`,
`payload_splits.dfy`). The stored scrypt string as a printer and a parser, with decimal numbers and unpadded base64
(sections 3.2 and 4 of RFC 4648) written out; the six-line signing payload; the canonical query. Which paths reach the
signature check is a parameter, instantiated by lists of route patterns.

**Lists** (`listings.dfy`, `paging.dfy`). The user list with its group-by count of devices.

## What the proofs show about the code

- The signing secret is stored at login and never extended or renewed, while `JWTAuth` renews tokens. So the sliding
  renewal ends at the signature check: the last request of a session passes it at most one lifetime after the login
  (`SessionWindow.SessionWindowHolds`), although the token layer alone would go on for ever (`Renewal.RenewalIff`).
- A logout can take effect between the signature check and the handler of another request of the same session, which
  then still runs; so the window is stated for the signature check. Some run shows this exactly for the configurations
  with a static secret and a positive lifetime (`LogoutRace.LateHandlerIff`), and in any run the window holds at the
  handler exactly when the secret that signed the request can still be read there (`SessionWindow.WindowAtHandlerIff`).
- A request whose timestamp is ahead of the server's clock can pass the signature layer twice, since the nonce lives as
  long as half the window; a request accepted at or after its own timestamp cannot (`Nonces.ReplayableIff`,
  `Nonces.ClockAheadReplay`). With a token it also takes one that outlives the nonce, so under a lifetime of five
  minutes or less no such request can (`TokenReplay.TokenReplayIff`).
- Two interleaved requests can both reissue one token and leave two live successors. This is so exactly for the
  configurations that refresh tokens, have a positive lifetime and a static secret (`RenewalRace.ForkIff`).
- Both lockout bounds are reached: `limit - 1 + n` under interleaving (`LockoutReached.BoundReached`) and
  `2 * limit - 1` within one counter lifetime (`RateReached.RateBoundReached`).
- With a lifetime of one second, the cut of `exp` to whole seconds breaks sliding renewal; from two seconds on it holds
  (`Renewal.RenewalIff`).
- A login to a disabled or locked account is told so before its password is looked at, and counts no failure: such an
  account is never locked out by attempts (`RequestAnswers.BarredNeverLimited`).
- A request refused for its signature has used up its nonce (`SignatureCheck.SignAnswers`).
- A disabled role still grants its routes (`Policies.DisablingARoleKeepsGrants`); its status matters only for admins who
  are super by this role alone (`Policies.UpdateRoleDecides`).
- With an empty `super_admin_account`, the start-up creates `admin` but the service protects no account, so the built-in
  admin can be deleted; with a configured name it cannot (`SuperAccount.SurvivalIff`).
- The first run of the seeder on a fresh database stores open routes as intercepted, because `Create` replaces
  `is_intercept` 0 by the column default 1; the second run corrects this, and nothing changes after it. The exact
  condition is `SeederFixpoint.SecondRunChangesNothingIff`. The comment at internal/bootstrap/seed_rbac.go:204 calls the
  seeder idempotent; the model follows the code.
- The sweep tombstones menus but not their bindings, so permissions held through a swept menu stay granted
  (`SeederFixpoint.SeedingNeverShrinksGrants`). Decisions can still shrink: a run closes again a route that was opened
  by hand. The exact condition is `SeederDecisions.DecisionsSurviveIff`.
- `CreateAdmin` tombstones no bindings, and `UpdateAdmin` binds roles to ids that no admin has. So an admin created
  without roles, under a generated id, can be a super admin at once (`Policies.NewAdminInheritsRole`); it has exactly
  the roles of the call if and only if its id had no other live binding (`Policies.NewAdminRolesIff`).
- `CreatePerm` cannot open a route or register it for every method: `Create` replaces both zeros by column defaults, so
  such a permission is closed and for POST alone (`MutatorAnswers.CreatedPermOpensNothing`). `UpdatePerm` can.
- The name of a deleted admin is never free again: `CreateAdmin` answers a database error for it
  (`MutatorAnswers.AccountNeverReused`).
- The account that the configuration names is protected from `UpdateAdminStatus`, but `UpdateAdmin` can disable or lock
  it (`LoginLookup.BuiltInCanBeBarred`).
- The seeder never enables what an administrator has disabled: a disabled permission of a seeded route leaves the route
  unregistered (`SeederCoverage.RegisteredIff`, `SeederCoverage.SeedRespectsEdits`).
- A start-up repairs neither a disabled super role nor a disabled binding of the built-in admin; when it does leave a
  super admin is `SuperAccount.SeededAdminIsSuperIff`.
- The payload separates path and query by a line feed that a percent-decoded path or query may contain, so two requests
  the middleware can receive may have one payload. Which requests these are depends on the routes:
  `PayloadSplits.ReceivableAmbiguousIff` is exact for any set of them. `/users/5%0Ax=1` has a partner, and
  `/users?x=1%0Ay=2` has none (`PayloadSplits.LineFeedAmbiguity`, `PayloadSplits.ListIsUnambiguous`). The two requests
  agree on all other fields (`Signing.PayloadDeterminesOuterFields`).

## Model

| member | source | states |
|---|---|---|
| SessionWindow.SessionWindowHolds | internal/middleware/sign.go:86-137 | In every interleaved run, a protected handler that runs as an admin belongs to a request that passed the signature check within one lifetime after a login of that admin, signed with the secret that login issued, with no logout and no other login of the admin in between |
| SessionWindow.UninterruptedWindow | internal/middleware/sign.go:86-138 | For a request that no other request interrupts, the same window reaches to the handler itself |
| SessionWindow.SecretReadable | internal/service/auth_service.go:160-180 | A secret can be read exactly when it is the one the admin's last login issued, no logout came after that login, and it is at most one lifetime old |
| SessionWindow.LastSessionMeaning | internal/service/auth_service.go:117-141 | The open session read off a log is a login entry with no later login or logout of that admin |
| SessionWindow.Always | internal/service/auth_service.go:117-170 | Stored secrets, tokens, threads and log agree in every reachable state |
| SessionWindow.WindowAtHandlerIff | internal/middleware/sign.go:86-138 | In every run, at the position where a protected handler runs, the session whose secret signed its request is still open if and only if that secret can still be read in the state there |
| RequestAnswers.WholeRequest | internal/router/router.go:50-69 | Every request in every store: nothing is served without headers, time, a free nonce and a holding signature; then public routes ask for nothing more, logins are answered by the lookup, and protected routes ask for an accepted token |
| RequestAnswers.LoginAnswers | internal/service/auth_service.go:74-135 | Which answer and which store belong to each result of the lookup, for every store, account and password |
| RequestAnswers.BarredKeepsCounter | internal/service/auth_service.go:95-100 | Under any interleaving in which every lookup of an account finds it disabled or locked, its counter does not change |
| RequestAnswers.BarredNeverLimited | internal/service/auth_service.go:80-100 | From the empty store such an account is never answered with the login-error limit |
| RequestAnswers.TokenAnswers | internal/middleware/rbac.go:27-81 | Which requests get past JWTAuth, as whom, with which new token and which whitelist, and what every other one is answered |
| RequestAnswers.RenewalHasNoGap | internal/service/auth_service.go:187-202 | Between any two commands of a renewal the old or the new token is live |
| SignatureCheck.SignAnswers | internal/middleware/sign.go:45-137 | Which requests get past Sign and what every other one is answered; the nonce is used up before the signature is compared |
| SignatureCheck.ComparesIff | internal/middleware/sign.go:86-137 | The comparison passes exactly the keyed hash of the six lines under the chosen, nonempty secret |
| SignatureCheck.PassesIff | internal/auth/sign.go:28-33 | For a keyed hash without collisions, the hash of a text under a key passes if and only if the key is the chosen secret and the text is the request's six lines |
| SignatureCheck.SignatureIsForOneRequest | internal/auth/sign.go:28-33 | Then a signature never passes for another method, timestamp, nonce or digest, nor, without line feeds in path and query, for any other request |
| Revocation.RevocationIsFinal | internal/service/auth_service.go:138-158 | Under any interleaving a whitelisted jti that was deleted or has expired is never active again |
| Revocation.InactiveTokenRejected | internal/middleware/rbac.go:50-60 | In every continuation, a request with a revoked token ends with "expired" at the whitelist check |
| Revocation.WhitelistOutlivesToken | internal/service/auth_service.go:111-113 | A whitelist entry still present is alive for as long as its JWT is unexpired, so the check can only fail by deletion |
| Revocation.Always | internal/service/auth_service.go:190-202 | Every whitelisted jti was minted once, is pending in at most one request, and has a deadline at or after its JWT's expiry |
| Nonces.AcceptancesApart | internal/middleware/sign.go:73-84 | Two acceptances of one nonce are more than the nonce lifetime apart in every run |
| Nonces.ReplayNeedsEarlyAcceptance | internal/middleware/sign.go:56-84 | Every request, whatever signs it, whose nonce is taken twice was first let in before its own timestamp plus the delay between the second time check and SETNX |
| Nonces.ReplayableIff | internal/middleware/sign.go:45-140 | A request signed with the static secret and sent at instant t can pass the whole signature layer twice in some run if and only if its timestamp lies after t by at most the window |
| Nonces.ClockAheadReplay | internal/middleware/sign.go:57-84 | Under every configuration with a static secret, a request signed one millisecond ahead of the server, for any route, passes twice |
| Nonces.WaitAndResendIff | internal/middleware/sign.go:73-102 | Any request accepted at t, with or without a token, passes again after some undisturbed wait if and only if t is before its timestamp and its signature still holds (its session is still open) when the nonce is free again |
| TokenReplay.TokenReplayIff | internal/middleware/sign.go:45-140 | A request with a token, signed with its session's secret and sent at instant t, can pass the whole signature layer twice in some run if and only if the static secret is set, its timestamp lies after t by at most the window, and a token that can exist at t is unexpired when the nonce is free again; never with a lifetime of at most five minutes |
| Lockout.CounterBound | internal/service/auth_service.go:80-105 | With a positive limit and at most n logins of an account in flight, its counter never exceeds limit - 1 + n under any interleaving |
| LockoutReached.BoundReached | internal/service/auth_service.go:80-105 | For every positive limit and every positive n there is a run with at most n logins in flight that reaches limit - 1 + n |
| Lockout.CounterExpires | internal/service/auth_service.go:125-135 | A live counter without a deadline has a pending Expire by the request whose Incr created it |
| Lockout.DeadlineAlways | internal/service/auth_service.go:131-134 | The same for every account in every reachable state |
| Sequential.LockoutRate | internal/service/auth_service.go:81-135 | Sequentially and for every token lifetime, any closed interval of the counter's lifetime without a successful login holds at most 2 * limit - 1 counted failures |
| RateReached.RateBoundReached | internal/service/auth_service.go:125-135 | For every positive limit and every 64-bit counter lifetime there is a sequential run with 2 * limit - 1 counted failures within one lifetime |
| Sequential.BudgetStep | internal/service/auth_service.go:125-135 | Each request or wait uses up at least as much of an account's remaining failures as it counts |
| Sequential.OneLivePerLogin | internal/service/auth_service.go:190-202 | Sequentially and for every token lifetime, the chain of tokens reissued from one login has at most one live member |
| Sequential.LiveTokensBounded | internal/middleware/rbac.go:61-75 | Sequentially, there are never more live tokens than successful logins |
| Sequential.ServeEffect | internal/router/router.go:50-69 | What one whole request does to any whitelist entry and any counter, for each of its answers |
| RenewalRace.ForkIff | internal/middleware/rbac.go:61-75 | Some interleaving leaves two live successors of one token if and only if tokens are refreshed, their lifetime is positive and the static secret is set |
| RenewalRace.InterleavedReissueForks | internal/service/auth_service.go:187-202 | A run from the empty store, with one login and two signed requests one millisecond before the token expires, that ends so |
| RenewalRace.NoRenewal | internal/service/auth_service.go:153-158 | Without refreshing, or without a positive lifetime, no request of any interleaved run reissues a token |
| LogoutRace.LogoutInBetween | internal/router/router.go:60-69 | Under every configuration in which logins succeed, a run in which a handler runs after a logout ended the session whose secret signed its request |
| LogoutRace.LateHandlerIff | internal/router/router.go:60-69 | Some interleaving runs a handler after a logout ended the session of its request if and only if the static secret is set and the lifetime is positive; otherwise no request with a token ever passes the signature check |
| Renewal.RenewalIff | internal/middleware/rbac.go:61-75 | With refresh on, JWTAuth serves every client that swaps in reissued tokens and keeps gaps below half a lifetime, whatever others do, if and only if the lifetime is at least two seconds |
| Renewal.AmpleNeverRejected | internal/middleware/rbac.go:47-75 | The same from any state in which at least half a lifetime is left |
| Renewal.OneSecondIsTooShort | internal/auth/jwt.go:36-37 | A login and a visit that break renewal for a lifetime of one second |
| Renewal.HalfLifeGapRejected | internal/middleware/rbac.go:66-67 | The bound on gaps is sharp: at exactly half a lifetime left no token is reissued, and a visit half a lifetime later is refused |
| Interleaving.AloneIsARun | internal/middleware/sign.go:45-140 | A request served without interruption is one run of the interleaved system |
| Interleaving.MintsOnce | internal/service/auth_service.go:107-111 | One request mints at most one token |
| Session.StepDescends | internal/middleware/rbac.go:27-81 | Every request comes to an end: each command lowers a rank |
| Redis.RenderInjective | internal/service/auth_service.go:39-48 | No two keys of the service share a Redis key string |
| AuthServices.AuthService.Login | internal/service/auth_service.go:74-123 | Ends with the answer that belongs to the lookup: disabled and locked leave the store as it is, an unknown account or a wrong password counts once, a right one opens the session; at the limit nothing is looked up |
| AuthServices.AuthService.IssueSession | internal/service/auth_service.go:105-122 | Resets the counter, whitelists a fresh token and stores a fresh secret |
| AuthServices.AuthService.BumpLoginErr | internal/service/auth_service.go:125-135 | Counts a failure and gives only a new counter a deadline |
| AuthServices.AuthService.LogOut | internal/service/auth_service.go:138-141 | Clears the admin's secret, then the token, and nothing else |
| AuthServices.AuthService.IsTokenActive | internal/service/auth_service.go:144-150 | True exactly for a live whitelist entry |
| AuthServices.AuthService.RefreshToken | internal/service/auth_service.go:152-158 | A live entry then lasts exactly one lifetime from now, a dead or missing one stays so, and no other entry changes |
| AuthServices.AuthService.IssueSignSecret | internal/service/auth_service.go:160-175 | Reading the admin's secret then gives this one at every moment of the next lifetime and nothing after it, and no other entry changes |
| AuthServices.AuthService.Reissue | internal/service/auth_service.go:190-202 | Whitelists the new token before it deletes the old one |
| AuthServices.AuthService.CheckFreshness | internal/middleware/sign.go:47-84 | Passes exactly the requests with all headers, a timestamp within five minutes and a free nonce, which is then taken for five minutes; "expired" only for the timestamp |
| AuthServices.AuthService.CheckSignature | internal/middleware/sign.go:86-137 | Passes exactly the requests whose signature is the keyed hash of their six lines under the nonempty secret chosen for them |
| AuthServices.AuthService.Sign | internal/middleware/sign.go:45-140 | Both checks, in order: which requests pass, and what the others are answered |
| AuthServices.AuthService.JWTAuth | internal/middleware/rbac.go:27-81 | Passes exactly unexpired whitelisted tokens, as their admin, with a new token exactly below half a lifetime; the refusal of every other request |
| AuthServices.AuthService.Serve | internal/router/router.go:50-69 | Sign, then JWTAuth, then the handler |
| AuthServices.AuthService.ServeProtected | internal/router/router.go:60-69 | The protected half; logout ends the session |
| Policies.RunRefines | internal/service/rbac_service.go:47-462 | For every sequence of mutator calls from any tables, the live rows equal the relations obtained by replaying plain edits |
| Policies.DoRefines | internal/service/rbac_service.go:65-119 | One call is one edit: overwriting one key's image without zeros, adding pairs, or removing a row or column |
| Policies.DoValid | internal/service/rbac_service.go:47-462 | Row ids stay below the next auto-increment id |
| Policies.RunKeepsHistory | internal/service/rbac_service.go:100-116 | Join rows are never lost or repointed, tombstones are permanent, and new rows get larger ids, in every run |
| Policies.DeletionsNeverGrant | internal/service/rbac_service.go:144-175 | No sequence of deletions turns a denied request into an allowed one for anyone |
| Policies.NarrowerAllowsLess | internal/middleware/rbac.go:98-133 | The decision is monotone in every relation |
| Policies.AssignRoleMenusFrames | internal/service/rbac_service.go:268-286 | Reassigning a role's menus changes no decision about an admin without that role |
| Policies.UpdateAdminFrames | internal/service/rbac_service.go:83-119 | Rewriting an admin's roles changes no one else's decisions and makes the admin super exactly by the new roles |
| Policies.DisablingARoleKeepsGrants | internal/service/rbac_service.go:229-247 | Updating a role, its status included, changes no grant |
| Policies.UpdateRoleDecides | internal/service/rbac_service.go:229-247 | A successful UpdateRole changes a decision exactly when the admin holds this role, the update switches its being a super role, no other role makes the admin super, and the request is neither open nor granted to the admin anyway |
| Policies.NewAdminRolesIff | internal/service/rbac_service.go:65-80 | A created admin has exactly the roles of the call if and only if its id had no live binding to another role |
| Policies.NewAdminInheritsRole | internal/service/rbac_service.go:83-117 | A run of UpdateAdmin and CreateAdmin after which an admin created without roles, under a generated id, is a super admin |
| Authorizers.CodeDecides | internal/service/auth_service.go:296-309 | A permission row with method 1 to 4 decides a request exactly when its method is GET, POST, PUT or DELETE in that order, in any letter case; one with method 0 decides all |
| Authorizers.PolicyReadsRows | internal/service/auth_service.go:50-53 | The policy decides exactly as the columns of enabled, undeleted rows do |
| Decisions.GrantIsForOneMethod | internal/service/auth_service.go:268-309 | A grant for one of the four methods never allows another of them |
| Authorizers.Authorizer.Authorize | internal/middleware/rbac.go:85-135 | Allows exactly when the table columns do, by enabled rows and the request's method in any letter case, and when the policy does; super, unregistered and the permission list are exact too |
| Authorizers.Authorizer.CheckRoute | internal/service/auth_service.go:268-294 | Unregistered exactly when no enabled row is for the route and method; allowed exactly when one that is has it open or is held |
| Authorizers.Authorizer.UserRoleIDs | internal/service/auth_service.go:214-220 | Exactly the roles of the admin's live bindings |
| Authorizers.Authorizer.IsSuper | internal/service/auth_service.go:223-232 | True exactly when a role of the list is a live, enabled type-1 role |
| Authorizers.Authorizer.MenuIDsOfRoles | internal/service/auth_service.go:240-246 | Exactly the menus of the roles' live bindings |
| Authorizers.Authorizer.PermIDsOfRoles | internal/service/auth_service.go:236-258 | Exactly the permissions reachable through a live role_menu and a live menu_perm row |
| Authorizers.Authorizer.MenusForAdmin | internal/service/auth_service.go:314-345 | All enabled menus for a super admin, else exactly those of the admin's roles, each once, by sort and then by id |
| Authorizers.GrantsOfRoles | internal/service/auth_service.go:236-258 | The two-step join equals the three-way chain of the policy |
| RowHistory.DeadRowsStay | internal/service/rbac_service.go:83-462 | In every run no row leaves a table, and a deleted admin, role, menu or permission stays deleted with all its columns |
| RowHistory.AdminColumnsFrame | internal/service/rbac_service.go:83-199 | Each column of an admin row changes only by the call that is for it and only on the row that call names |
| RowHistory.PasswordIsTheLastOne | internal/service/rbac_service.go:47-142 | After every run an admin row holds the password of the last successful create or reset for its id, and exists exactly if there was one |
| RowHistory.CallsChangeOneRow | internal/service/rbac_service.go:47-462 | A refused call changes nothing; any other changes only its own entity table and there only the row it names |
| RowHistory.MenuHoldsWhatWasSent | internal/service/rbac_service.go:316-358 | After every run a menu's row is its row at the start with, in each column, the last value a successful update sent for it |
| RowHistory.DraggingMovesOnly | internal/service/rbac_service.go:316-318 | A run whose updates of a menu send only parent and sort changes no other column of its row |
| RowHistory.DisjointUpdatesCommute | internal/service/rbac_service.go:316-358 | Two updates of a menu that send different columns give the same row in either order |
| SentColumns.AdminHoldsWhatWasSent | internal/service/rbac_service.go:47-199 | After every run, account, name, status, lock and tombstone of an admin row are the last values that a successful call sent for its id |
| SentColumns.RoleHoldsWhatWasSent | internal/service/rbac_service.go:221-265 | The same for all columns of a role |
| SentColumns.PermHoldsWhatWasSent | internal/service/rbac_service.go:419-462 | The same for a permission, where only a create replaces method 0 by POST and an open route by a closed one |
| SentColumns.MenuHoldsEachColumn | internal/service/rbac_service.go:308-376 | The same for each of the fifteen columns of a menu and its tombstone, for menus created on the way too |
| SentColumns.LastWordOnBindings | internal/service/rbac_service.go:47-462 | After every run an admin has a role, a role a menu and a menu a permission exactly if the last successful call that says anything about the two says so |
| MutatorAnswers.AnswerMeans | internal/service/rbac_service.go:47-462 | Exactly when each refusal is given: ParamError by the call alone, the others by the named row, the account and the id |
| MutatorAnswers.DeletedForGood | internal/service/rbac_service.go:144-462 | After a deletion and whatever calls follow, the row has its tombstone and every call that needs it is refused |
| MutatorAnswers.DeletedMenuUnseen | internal/service/rbac_service.go:360-376 | No menu list shows a deleted menu to anyone after any calls |
| MutatorAnswers.AccountNeverReused | internal/service/rbac_service.go:47-81 | After a deletion, creating an admin with that account is answered with a database error for ever |
| MutatorAnswers.NoSelfDeletion | internal/service/rbac_service.go:144-152 | In every run an admin whose deletion only the admin itself asks for stays live |
| MutatorAnswers.CreatedPermOpensNothing | internal/service/rbac_service.go:419-425 | A created permission is closed, and for POST alone if sent for every method; it allows nothing new but to holders of bindings its id already had |
| LoginLookup.LookUp | internal/service/auth_service.go:86-104 | The lookup of a login, with its refusals in order; which one it is after any calls is LookUpAnswers |
| LoginLookup.OpensIff | internal/service/auth_service.go:86-104 | After every sequence of mutator calls a password opens an account exactly when the admin is live, the last status and lock sent are not 1, and the password matches the one set last |
| LoginLookup.LookUpAnswers | internal/service/auth_service.go:86-104 | After every run, which of not found, disabled, locked, wrong password and found a login gets, by the values the calls sent last |
| LoginLookup.BuiltInCanBeBarred | internal/service/rbac_service.go:83-199 | UpdateAdminStatus refuses the configured super account, and UpdateAdmin disables or locks it |
| LoginLookup.SeededLogsIn | internal/bootstrap/bootstrap.go:30-82 | After a start-up on tables without the account, any password that matches the configured one finds its admin, enabled and unlocked |
| LoginLookup.SeedFailsIff | internal/bootstrap/bootstrap.go:57-82 | A start-up fails exactly when only a tombstone has the account |
| LoginLookup.SeedKeepsAdmins | internal/bootstrap/bootstrap.go:57-82 | A start-up changes no admin row that is there |
| LoginLookup.DeletedNeverLogsIn | internal/service/rbac_service.go:144-175 | After a deletion, whatever calls follow, every login with that account finds nothing |
| LoginLookup.CreatedLogsIn | internal/service/rbac_service.go:47-81 | A new admin can log in with the password given exactly when its row is live, enabled and unlocked |
| SuperAccount.SurvivalIff | internal/bootstrap/bootstrap.go:30-82 | After a successful start-up, every sequence of mutator calls keeps exactly one row with the seeded account, and live, if and only if the configuration names the account |
| SuperAccount.AccountsStayUnique | internal/model/rbac.go:12 | Accounts stay unique across tombstones in every run |
| SuperAccount.SeedEstablishes | internal/bootstrap/bootstrap.go:41-105 | A start-up that succeeds leaves the account live, alone, and bound to a live type-1 role |
| SuperAccount.SeedIdempotent | internal/bootstrap/bootstrap.go:28-106 | A second start-up changes nothing |
| SuperAccount.SeededAdminIsSuperIff | internal/bootstrap/bootstrap.go:41-105 | After a start-up the built-in admin is a super admin exactly if it was one before, or the role found is enabled and its binding is new or was enabled |
| SuperAccount.SeedRoleIff | internal/bootstrap/bootstrap.go:41-56 | A start-up adds a role exactly when no undeleted role has type 1, and binds the admin to the one with the smallest id |
| SuperAccount.SeedBindsOnce | internal/bootstrap/bootstrap.go:84-105 | No start-up adds a second undeleted binding of a pair |
| RBAC.RBACService.CreateAdmin | internal/service/rbac_service.go:47-81 | New state and answer, the tombstoned-account and duplicate-id errors included |
| RBAC.RBACService.UpdateAdmin | internal/service/rbac_service.go:83-119 | New state; bindings are rewritten even if the admin row is gone, and kept when no role list is given; what the columns become is SentColumns.AdminHoldsWhatWasSent |
| RBAC.RBACService.ResetAdminPassword | internal/service/rbac_service.go:121-142 | Ends in the transition of which RowHistory.PasswordIsTheLastOne speaks: a live admin's password, and nothing else, is replaced |
| RBAC.RBACService.DeleteAdmin | internal/service/rbac_service.go:144-175 | New state and answer, with self-deletion and the super account refused; its meaning for decisions is Policies.DeletionsNeverGrant, for logins LoginLookup.DeletedNeverLogsIn |
| RBAC.RBACService.UpdateAdminStatus | internal/service/rbac_service.go:177-199 | Ends in the transition of which SentColumns.AdminHoldsWhatWasSent speaks: the status of a live admin becomes the one sent, and the super account is refused |
| RBAC.RBACService.CreateRole | internal/service/rbac_service.go:221-227 | Ends in the transition that Policies.DoRefines reads as adding one role |
| RBAC.RBACService.UpdateRole | internal/service/rbac_service.go:229-247 | Ends in the transition that Policies.DoRefines reads as putting one role, and whose effect on decisions is Policies.UpdateRoleDecides |
| RBAC.RBACService.DeleteRole | internal/service/rbac_service.go:249-265 | Tombstones the role, its admins' bindings and its menus' bindings |
| RBAC.RBACService.AssignRoleMenus | internal/service/rbac_service.go:268-286 | Tombstones, then appends in a loop that skips zeros |
| RBAC.RBACService.CreateMenu | internal/service/rbac_service.go:308-314 | Ends in the transition of which RowHistory.CallsChangeOneRow and Policies.DoRefines speak; refused without a name and a title, or under a taken id |
| RBAC.RBACService.UpdateMenu | internal/service/rbac_service.go:319-358 | Only the fields given change |
| RBAC.RBACService.DeleteMenu | internal/service/rbac_service.go:360-376 | Tombstones the menu and its bindings on both sides |
| RBAC.RBACService.AssignMenuPerms | internal/service/rbac_service.go:379-397 | Tombstones, then appends in a loop that skips zeros |
| RBAC.RBACService.CreatePerm | internal/service/rbac_service.go:419-425 | Ends in the transition that Policies.DoRefines reads as adding one permission, with the column defaults for zeros |
| RBAC.RBACService.UpdatePerm | internal/service/rbac_service.go:427-448 | Ends in the transition that Policies.DoRefines reads as putting one permission on a live row, the parent column included |
| RBAC.RBACService.DeletePerm | internal/service/rbac_service.go:450-462 | Tombstones the permission and its bindings |
| RBAC.RBACService.SeedSuperAdmin | internal/bootstrap/bootstrap.go:30-106 | New state; a tombstoned account ends the start-up with only a role added |
| Tables.RelBindAll | internal/service/rbac_service.go:69-78 | The append loop adds exactly the nonzero ids to the key's image |
| Tables.RelTombstoneLeft | internal/service/rbac_service.go:101-105 | Tombstoning by key removes exactly that key's pairs |
| Tables.RelTombstoneRight | internal/service/rbac_service.go:255-258 | Tombstoning by the other column removes exactly that column |
| SeederConvergence.SeedConverges | internal/bootstrap/seed_rbac.go:206-329 | From any tables, every node has a live row under its parent node's row, every permission seed a live row with a live binding, and live codes are exactly the tree's |
| SeederConvergence.SeedForestExact | internal/bootstrap/seed_rbac.go:212-288 | If live codes were unique, they stay so and the live parent pointers form exactly the seed forest |
| SeederConvergence.UpsertForestPlaces | internal/bootstrap/seed_rbac.go:235-288 | The upsert alone puts a forest in place and keeps all other codes, permission lookups and bindings |
| SeederConvergence.UpsertPermEffect | internal/bootstrap/seed_rbac.go:290-329 | One permission upsert places it and keeps every other lookup and binding |
| SeederFixpoint.SecondRun | internal/bootstrap/seed_rbac.go:206-329 | A second run changes no menu, row id, tombstone or binding |
| SeederFixpoint.ThirdRun | internal/bootstrap/seed_rbac.go:206-329 | From the second run on nothing changes at all |
| SeederFixpoint.SecondRunChangesNothingIff | internal/bootstrap/seed_rbac.go:290-313 | The second run is a no-op exactly when no open-route seed names a route and method without a live row that no other seed names |
| SeederFixpoint.PermFoldOutcome | internal/model/rbac.go:70-72 | What a run stores for a seeded route and method: the last seed's values, or the column default on a row created and not met again |
| SeederFixpoint.PermFoldPresent | internal/bootstrap/seed_rbac.go:306-313 | Where all rows exist, a run rewrites exactly the rows that lookups find, to the last seed's values |
| SeederFixpoint.SeedingNeverShrinksGrants | internal/bootstrap/seed_rbac.go:212-223 | No run, on any tables and for any tree, takes a permission from anyone or changes who is super |
| SeederDecisions.DecisionsSurviveIff | internal/bootstrap/seed_rbac.go:306-313 | Whatever was allowed to anyone is still allowed after a run if and only if every open permission that the run closes has another on its route and method that stays open |
| SeederCoverage.RegisteredIff | internal/bootstrap/seed_rbac.go:290-313 | After a run a seeded route is registered exactly if it was before or had no undeleted row |
| SeederCoverage.MenuHoldersAllowed | internal/bootstrap/seed_rbac.go:290-329 | After a run, whoever has a role with a seed's menu may call the seed's route, if its permission and its binding were new or enabled |
| SeederCoverage.SeedRespectsEdits | internal/bootstrap/seed_rbac.go:235-274 | A new menu row is enabled and has the seed's values; on an old one all that the seed does not set stays |
| SeederCoverage.OthersOnlyTombstoned | internal/bootstrap/seed_rbac.go:212-223 | Rows of codes that are not in the tree get their tombstone and nothing else, and deleted rows stay as they are |
| SeederCoverage.SuperSeesSeeded | internal/bootstrap/seed_rbac.go:206-224 | After a run a super admin sees the seeded menus whose row was new or enabled, and no menu of another code |
| SeederCoverage.SeedKeepsKeysUnique | internal/bootstrap/seed_rbac.go:290-305 | No run adds a second undeleted row for a route and method, even where the first is disabled |
| SeederCoverage.SeedBindsOnce | internal/bootstrap/seed_rbac.go:315-329 | No run adds a second undeleted binding of a menu to a permission |
| Seeder.CollectCodes | internal/bootstrap/seed_rbac.go:226-233 | The codes of the tree in preorder |
| Seeder.SeedJob.SeedMenusAndPerms | internal/bootstrap/seed_rbac.go:206-224 | The loop over roots and the sweep end in the specified tables |
| Seeder.SeedJob.UpsertMenuRows | internal/bootstrap/seed_rbac.go:235-288 | The recursive upsert ends in the specified tables |
| Seeder.SeedJob.UpsertOwnRow | internal/bootstrap/seed_rbac.go:236-274 | Create, or update of the columns the seed has values for |
| Seeder.SeedJob.UpsertPermAndBind | internal/bootstrap/seed_rbac.go:290-329 | Create with defaults or update, then bind if unbound; the row created is enabled (SeederCoverage.RegisteredIff) |
| Password.ParseFormat | internal/auth/password.go:60-81 | Splitting, parsing and decoding a printed hash returns the five values printed, for all 64-bit parameters and all byte strings |
| Password.FormatInjective | internal/auth/password.go:60-64 | Two hashes print alike only when all parts agree |
| Password.CheckOfHash | internal/auth/password.go:51-87 | A stored hash accepts a password exactly when the derivation gives the same key for it |
| Password.HashLength | internal/model/biz.go:11 | The stored string has 83 characters, so it fits the 255 of its column |
| Password.HashText | internal/auth/password.go:51-65 | The stored text: the tag, 32768, 8, 1, the salt and the derived key in base64, between dollar signs |
| Password.CheckIff | internal/auth/password.go:69-87 | Which strings accept which passwords, for every string |
| Password.CharsIff | internal/service/data_service.go:287 | The drawn characters are the letters and digits but for i, l, o, I, L, O, 0 and 1 |
| Password.DrawnBijective | internal/service/data_service.go:288-295 | Different draws give different passwords, and every password over these characters is drawn |
| Password.UserTable.ResetUserPassword | internal/service/data_service.go:286-313 | The row written accepts the password returned; each failure writes nothing and has its exact cause |
| Base64.DecodeEncode | internal/auth/password.go:62-78 | Decoding undoes encoding for every byte string |
| Base64.EncodeDecode | internal/auth/password.go:77-78 | A decodable string is the encoding of its bytes exactly when it has no line break and zero spare bits |
| Base64.EncodeLength | internal/auth/password.go:62-63 | The unpadded length |
| Base64.EncodeAlphabet | internal/auth/password.go:60-64 | No character outside the alphabet, so no dollar sign, occurs |
| Base64.EncodeGroup | internal/auth/password.go:62-63 | Three bytes as a number of 24 bits are the four letters as its digits to the base 64, and the tail is filled up with zero bits |
| Base64.DecodeIff | internal/auth/password.go:77-78 | Decodable are exactly the strings of letters and line breaks without a single letter left over |
| Decimal.AtoiPrint | internal/auth/password.go:74-76 | Every 64-bit integer survives printing and parsing |
| Decimal.AtoiNeedsDigits | internal/middleware/sign.go:57 | A number text holds only digits and a sign, so an accepted timestamp holds no line feed |
| Decimal.AtoiIff | internal/auth/password.go:74-76 | Exactly the texts that are read as a number: an optional sign, then digits, within 64 bits |
| Text.SplitJoin | internal/auth/password.go:70 | Splitting undoes joining when no part holds the separator |
| Text.JoinSplit | internal/auth/sign.go:68 | Joining undoes splitting for every string |
| Signing.PayloadDeterminesOuterFields | internal/auth/sign.go:28-33 | Equal payloads agree on method, timestamp, nonce and digest even if paths and queries hold line feeds |
| Signing.PayloadInjective | internal/auth/sign.go:28-33 | Without line feeds in path and query, equal payloads agree on all six fields |
| PayloadSplits.ReceivableAmbiguousIff | internal/middleware/sign.go:120-132 | For any set of routes, a request the middleware receives shares its payload with another request it can receive exactly when its path-and-query text has a line feed, other than the separator, such that a route matches the part before it and the part after it is empty or has an equals sign |
| PayloadSplits.SingleLineFeed | internal/router/router.go:50-53 | With one line feed in all, in the query, this comes down to one test: the path, a line feed and the query up to it are a path of some route |
| PayloadSplits.ListIsUnambiguous | internal/router/router.go:79 | The list of users with the query x=1%0Ay=2 is received and shares its payload with no other request, since no route matches the other reading |
| PayloadSplits.AmbiguousIff | internal/auth/sign.go:28-33 | As field lists, exactly when its path or its query holds a line feed |
| PayloadSplits.BuiltIff | internal/auth/sign.go:53-69 | The strings that are the query of some request are the empty one and those with an equals sign |
| PayloadSplits.LineFeedAmbiguity | internal/router/router.go:81 | Two different requests received by the route for one user, with one payload: /users/5%0Ax=1, and /users/5 with the query x=1%0A |
| SortedQuery.BuildSortedQuery | internal/auth/sign.go:53-69 | Walking the map in any order gives the canonical query |
| SortedQuery.CanonicalUnique | internal/auth/sign.go:50-52 | The query depends on the first values alone, not on map order or later values |
| SortedQuery.ParseCanonical | internal/auth/sign.go:64-68 | The query reads back as the first-value map exactly when keys avoid '=' and '&' and values avoid '&' |
| SortedQuery.CanonicalInjective | internal/auth/sign.go:53-69 | Clean parameter maps with one query have the same first values |
| SortedQuery.SortStrings | internal/auth/sign.go:63 | The same distinct keys in strictly increasing order |
| SortedQuery.SortedUnique | internal/auth/sign.go:63 | Only one list has given keys in strictly increasing order |
| SortedQuery.LessIff | internal/auth/sign.go:63 | The order of keys is dictionary order |
| SortedQuery.TwoParameters | internal/auth/sign.go:53-69 | Two parameters give the smaller key first, each with its first value |
| Paging.PagesPartition | internal/service/data_service.go:70-86 | Pages 1 to ceil(total / size) put together are the matching users, each once, in descending id order |
| Paging.PageLength | internal/service/data_service.go:79-86 | Pages up to the last have an entry, earlier ones are full, later ones empty |
| Paging.DeviceCountsAddUp | internal/service/data_service.go:88-108 | The device counts on all pages add up to the devices of matching users |
| Paging.OutOfRangeFallsBack | internal/service/data_service.go:44-52 | A page below 1 is answered as page 1 and a size outside 1 to 200 as size 20; a valid page and size are used as they are |
| Paging.ListedIff | internal/service/data_service.go:70-86 | The pages show exactly the users that keyword and filter ask for, newest first, each with the name, flag and device count of its row |
| Paging.OnlineCountsAddUp | internal/service/data_service.go:110-120 | The online counts on all pages add up to the online devices of matching users, and to none without Redis |
| Paging.FilterSplits | internal/service/data_service.go:75-78 | Where the column is 0 or 1, the enabled and the disabled list have together as many users as the whole list |
| Paging.AdminDataService.ListUsers | internal/service/data_service.go:70-130 | The page specified: window, total, and per-user device and online counts |
| Paging.AdminDataService.CountDevices | internal/service/data_service.go:97-104 | One nonzero count for each listed user with a device, and none for others |
| Paging.AdminDataService.DeviceMap | internal/service/data_service.go:98-108 | Reading the map, with zero for an absent user, gives every listed user's count |
| Paging.AdminDataService.Assemble | internal/service/data_service.go:110-128 | One entry per user in order |
| Listings.ListsUnique | internal/service/data_service.go:84 | Only one list has the ids of a set in descending order |
| Listings.Desc | internal/service/data_service.go:84 | The ids of a set, each once, descending |

## Left out

- Errors, timeouts and retries of MySQL and Redis, and a crash between two Redis commands of one request (a counter
  whose process dies between INCR and EXPIRE keeps no deadline): a command always succeeds.
- A database transaction is one step, and RBAC calls do not interleave with each other.
- The audit columns and the avatar, remark, validity period and login time of admins, roles and permissions: nothing
  modelled reads them.
- bcrypt, scrypt, HMAC-SHA256, MD5, random numbers and UUIDs: parameters, with freshness of minted token ids as an
  assumption of the interleaved system. The admin table keeps the password it is given instead of its bcrypt hash.
- The answer of the admin table is a parameter of a login request (`Env.lookup`). `LoginLookup` says what the tables
  make of it after any sequence of mutator calls, but logins and RBAC changes are not interleaved in one system.
- A password change by the admin ends with the same calls as a logout (internal/handler/auth_handler.go:111) and counts
  as one here; `ChangeOwnPassword` and `UpdateProfile` themselves would only add easy members.
- Trimming of the account at login and of header prefixes: requests carry the trimmed values. Handlers, uploads,
  logging, CORS and the start-up of the server are not part of this model.
- Clock steps below a millisecond, and clocks of several servers.
- The database's collation and LIKE wildcards (a parameter of the list query); account names compare by equality.
- MySQL may report no affected row when an update changes no column; the model answers by whether a live row matched.
- UpdateMenu takes a typed patch of the fifteen columns it allows instead of a JSON map, so a value of the wrong type is
  not modelled. The id lists that the authorization queries pass on have no fixed order, as in the database.
- Page offsets above 64 bits, ListAdmins and ListPerms (the same paging with other filters), ListAllDevices and the
  calls to the ClipSync server.
- SeedConverges: does not cover trees with repeated codes or with method 0, because the built-in tree has neither and a
  seed with method 0 would be stored as method 2.
- Facts the code does not decide: an empty whitelist after a logout whose request was just reissued a token, bindings to
  rows that do not exist, and cycles of menu parents made by CreateMenu and UpdateMenu.
