# BurnerByte: a verified model of its stateful cores

BurnerByte is a disposable-mail platform written in Go. This project models the parts of it that keep state over time,
and proves what holds over every run of them. Each core has a specification, a step function over values, with its
invariants and whole-run theorems; where the source updates objects or tables in place, a class whose methods do the
same is proved to perform exactly those steps.

| files | what they model |
|---|---|
| Sessions, SessionCap, SessionLive, SessionEffects, SessionService | refresh-token families with rotation and reuse detection, the per-user session limit counted both ways, two-phase login conflicts |
| Revocation | access tokens, the expiring revocation cache, the bearer-token checks of the middleware |
| SignOut, SignOutEffects | both together: what the session methods do to access tokens |
| AuthMethods, AccountEffects, Locks | passwords, SSO identities, auth-method locks and the sign-in paths they leave open |
| Text, SmtpWire, SmtpCommand, SmtpSession, SmtpListener, SmtpClient, SmtpOversize, SmtpPipeline, SmtpBounce, SmtpVerbs | an SMTP conversation from bytes to the ingest queue |
| IngestQueue | the bounded queue, its producers, workers and shutdown, as interleaved steps |
| InboxSettings, InboxCache, InboxRouter, InboxTtl, InboxEffects, InboxSpelling, InboxService | the inbox table, the Redis keys in front of it, and inbox lifetimes |
| MailFlow, MailFlowExample | conversations, router, queue, workers and inboxes interleaved |
| RateLimit, Hub, HubOverlap, HubEffects, Rollup, RollupRows | the fixed-window limiter, the WebSocket hub, the analytics counters |
| Membership, MembershipEffects, Invites, InviteEffects, BulkInvite | last-lead and last-owner guards, invitations with their team cascade, bulk invitations |

The modules named after effects, SmtpVerbs and RollupRows say what every operation does to every single row, key, channel
or reply, in words that do not mention the functions that compute it.

`dafny verify dfyconfig.toml` checks everything.

## Conventions

- Time is an explicit number. A service method is one atomic step; only the ingest queue with what surrounds it
  and the hub's broadcasts are interleaved more finely.
- A table is a map from key to row. A Redis key is a value with an optional expiry.
- Fresh random identifiers are drawn from a counter. Tokens are opaque and identified with their hashes.
- What other code answers (the router, the queue, DNS, failing Redis calls, resolved settings, the queries behind the
  session limit, whose failure the source survives) is a parameter of the step, so the theorems hold for every answer.

## What turned out differently from what is promised

The model follows the code. Where a promised property fails, one lemma gives the exact condition and, where that does not
show it already, another a run or a state in which it fails; they are named here.

- The session limit can be exceeded by a refresh at the very instant its session expires, as counting uses a strict
  comparison and refreshing does not; and by a login when the limit check fails, as the source then goes on
  (RunKeepsCapExactly, CapBrokenAtExpiryInstant, CapBrokenWhenChecksFail, CapBrokenByResolution). Counting the sessions
  that still refresh, it can be exceeded by a login at that instant (RunKeepsLiveCapExactly,
  LiveCapBrokenAtExpiryInstant, LiveCapBrokenByResolution).
- A login conflict resolved after an SSO login yields a session recorded as a password session (ResolvedMethodExactly,
  SsoConflictLosesSession).
- A revocation does not reach tokens of its own second (SameSecondSurvives, SameSecondReached). A token issued in the
  second of the registration is refused, because issue times are truncated to seconds and the password-change time is not
  (FreshTokenAcceptedExactly, RegistrationTokenRefused).
- Reuse of a refresh token is answered as revoking all sessions. It revokes one family, and no access token
  (ReplayKillsFamily, ReplayLeavesAccess). A revocation mark that Redis does not take leaves access tokens valid
  (LogoutEndsBoth). Signing out everywhere marks the user only when it revokes a row, so after either of these it leaves
  access tokens valid too (SignOutEverywhere, SignOutMarksNobody).
- An account can be closed on both sign-in paths (SomePathStaysOpen): locked to its password, with a linked identity while
  SSO is enforced (StrandedReachable) or with an unverified address where one is required (UnverifiedStranded); without
  any lock, with an unverified address outside every provider's list (UnadmittedStranded); or created by SSO, once the
  lists have changed (ListChangeStrands). Clearing the lock does not always help (ClearingLockExactly), and the
  administration handler (internal/handler/admin.go:425-427) skips an absent lock, so no deployed route clears one.
- The limiter admits up to 2*limit-1 requests within one window length, and that is tight (LimiterBurstBound,
  BurstReached).
- The stop flag and the queue are used in two steps, so a call in between can send on the closed channel
  (RunPanicsExactly, ShutdownPanics).
- The shutdown cancels the context that connections and workers look things up under: recipients with a live inbox are
  then refused for good (LiveRefusedExactly, ShutdownRefusesLive), and a confirmed mail in a worker's hands is dropped
  (RunRight, ShutdownCutsWorker). The process ends without waiting for the server, so what is queued may be lost as well
  (ProcessedExactly).
- Broadcasts hold a read lock only, so two clients may receive two messages in opposite orders (RunInOrderExactly,
  OppositeOrders).
- A domain transfer is commented as cleaning up Redis keys, but removing the assignments first removes the inboxes by
  foreign key, so no key is found to delete and the router goes on accepting those addresses (RouterExact,
  TransferStrandsKey). A new inbox whose key write is lost then loses its mail (RunAgreesExactly, StaleKeyTurnsMailAway).
- The default inbox lifetime is not compared with the maximum (LifetimeBound, DefaultOverMaximum). One that is not
  positive stores a key for an inbox that is never live (KeyFollowsInboxExactly). Renewals by default are commented as
  starting at the team's level, but leave it out (RenewalLeavesTeamOut).
- Deactivating a user and transferring a team do not look at the leads of teams, and deleting an account looks neither at
  leads nor at owners (RunKeepsLeadExactly, DeactivationStripsLead, TransferStripsLead, RunKeepsOwnerExactly,
  DeletionStripsBoth).
- The bulk removal check counts duplicates, so it can refuse a harmless request (BulkCheckExact, DuplicateRefused).
- An invitation may name an archived team in the legacy column (RunLegacyExactly, ArchivedLegacyReached). A repeated
  invitation that fails on that column has already withdrawn the previous one (RefusedSendExactly,
  RefusedResendWithdraws). The pending check of bulk invitations looks across organizations (SkipRightExactly,
  SkippedForForeignInvite). A team transfer leaves pending invitations to it behind (RunOwnTeamsExactly,
  TransferLeavesInvite). Both need a second organization, which the service itself does not create (SingleOrg).
- A message over the size limit is not read to its end, and one sent without an accepted recipient not at all; the rest
  is taken for commands, with the envelope still open (TransactionArrivesExactly, InjectedTransaction).
- A null reverse-path in MAIL is answered 501, so bounces are refused and their text read as commands (MailLineExactly,
  BounceReadAsCommands). HELO and EHLO do not reset the envelope (GreetingKeepsEnvelope). Section 4.5.5 and section 4.1.4
  of RFC 5321 ask for the opposite.
- A bulk invitation reports rows that could not be written one by one, but one such row aborts the transaction and with
  it the whole batch (BulkSendExactly, BulkInviteMembers).

## Model

| member | source | states |
|---|---|---|
| Sessions.FamiliesLinearInEveryRun | internal/service/auth_service.go:393-463 | In every state any run reaches, each refresh-token family has at most one unrevoked session. |
| Sessions.StepKeeps | internal/service/auth_service.go:393-463 | Every service step keeps the store consistent and the families linear, and leaves a family without unrevoked sessions that way. |
| Sessions.RefreshSucceedsExactly | internal/service/auth_service.go:393-463 | A refresh succeeds if and only if the token's row is stored, unrevoked, not past its expiry, and the owner's lock admits the session's method. |
| Sessions.RefreshRotates | internal/service/auth_service.go:393-463 | A successful refresh spends the presented token, adds one row of the same family, user and method, and changes no other row. |
| Sessions.DeadFamilyNeverRefreshes | internal/service/auth_service.go:393-463 | Once a family has no unrevoked session, no token ever issued in it refreshes, after any run. |
| Sessions.LogoutKills | internal/service/auth_service.go:598-613 | Logout leaves the family of the presented token without unrevoked sessions. |
| Sessions.ReplayKills | internal/service/auth_service.go:397-411 | Presenting a token whose stored row is revoked is refused and revokes its whole family. |
| Sessions.ReplayKillsFamily | internal/service/auth_service.go:393-463 | Reuse detection over runs: a spent token replayed at any later point, while its row is stored, ends the family, so no successor token refreshes from then on. |
| Sessions.RunEvolves | internal/repository/postgres/session_repo.go:27-44 | Through any run a stored row keeps its token and family and never returns from revoked. |
| Sessions.ResolvedMethodExactly | internal/service/auth_service.go:327-391 | A login deferred at a full cap and resolved after any run yields a session of that user that carries the method the user signed in with if and only if that was the password, and it refreshes if and only if the user is not locked to SSO by then. |
| Sessions.SsoConflictLosesSession | internal/service/auth_service.go:327-391 | Such a run from the empty store: an account locked to SSO signs in, resolves its conflict, and the token it is handed does not refresh. |
| SessionCap.KeptCount | internal/repository/postgres/session_repo.go:172-189 | Revoking the rows past a row number leaves exactly that many rows, or all when there are fewer. |
| SessionCap.KeptAreNewer | internal/repository/postgres/session_repo.go:172-189 | Every row that is kept is more recent than every row that is revoked. |
| SessionCap.StepKeepsCapExactly | internal/service/auth_service.go:1057-1141 | A step keeps a user within the session limit if and only if it is none of these: a refresh at the expiry instant of its row with a full cap; an administrator lowering the limit below the active count; a login with a full cap when neither a pending login could be stored nor the oldest sessions revoked; a resolution that could not count, naming no active session, with a full cap. |
| SessionCap.RunKeepsCapExactly | internal/service/auth_service.go:1057-1141 | Over a whole run the user is within the limit in every state if and only if no step of the run is one of those exceptions. |
| SessionCap.CapBrokenAtExpiryInstant | internal/service/auth_service.go:393-463 | The first exception is reachable: a run with limit one that ends with two active sessions. |
| SessionCap.CapBrokenWhenChecksFail | internal/service/auth_service.go:1095-1108 | The login exception is reachable: with limit one, a login that goes through while both fallbacks fail leaves two active sessions. |
| SessionCap.CapBrokenByResolution | internal/service/auth_service.go:361-386 | So is the resolution exception: it names no session, the count fails, and two sessions are active under limit one. |
| SessionCap.RotationKeepsCap | internal/service/auth_service.go:393-463 | A rotation keeps the cap if and only if the spent row was counted or a slot was free. |
| SessionCap.LoginFillsSlot | internal/service/auth_service.go:209-323 | A login that issues a token leaves exactly the limit when room was made at a full cap, and one active session more in every other case; its token refreshes. |
| SessionCap.ResolveSwapsSlot | internal/service/auth_service.go:327-391 | Resolving with a full cap swaps the chosen active session for the new one; naming anything else only yields another pending token. |
| SessionCap.ConflictResolves | internal/service/auth_service.go:327-391 | A login at the limit touches no session and hands out a pending token; resolving it swaps the chosen session; the pending token works once. |
| SessionEffects.LoginDeferredExactly | internal/service/auth_service.go:1016-1108 | With counting and storing in order, a login of an admitted user is deferred if and only if the active sessions number at least the override when it is set and at least one, else the default when it is positive, else five; any other login gets its token, and it is refused exactly for an unknown user or a lock on the other method. |
| SessionEffects.OverrideDefers | internal/service/auth_service.go:1016-1025 | A run in which an override of one under a default of five defers the second login, which is let through without it. |
| SessionEffects.RefreshSpends | internal/service/auth_service.go:393-463 | Presenting a stored, unrevoked token not past its expiry revokes its row whatever the outcome, a refusal by the lock included, and leaves every other row as it was. |
| SessionEffects.PresentedOnce | internal/service/auth_service.go:393-463 | Every refresh token ever handed out is good for one presentation: whatever came of it, the token is refused after any run from there. |
| SessionEffects.RowAfter | internal/service/auth_service.go:209-463 | Every stored row after every operation: removed exactly by these, revoked exactly by those, with the reuse of a revoked token, the family of a logout, and the least recent rows that a login at the limit pushes out spelled out; otherwise as it was. |
| SessionEffects.RunRowExactly | internal/service/auth_service.go:209-613 | Over any run a row is gone if and only if some step removed it, and revoked if and only if it was or some step ended it; its other fields never change. |
| SessionEffects.OutcomeExactly | internal/service/auth_service.go:209-463 | An operation hands out a token, or a pending login, if and only if the conditions spelled out for it hold. |
| SessionEffects.NewRowExactly | internal/service/auth_service.go:1119-1179 | A row is added if and only if a token is handed out: of the right user, method and family, with a token never issued before, unrevoked, from now until the end of its lifetime. |
| SessionEffects.PendingAfter | internal/service/auth_service.go:327-391 | Pending logins are added by deferrals, consumed by resolutions before they expire, and otherwise stay. |
| SessionEffects.UserAfter | internal/service/auth_service.go:991-1012 | Each account's lock and override are those last set. |
| SessionLive.StepKeepsLiveCapExactly | internal/repository/postgres/session_repo.go:152-166 | A step keeps the sessions that still refresh within the limit if and only if it is neither a login nor a resolution that goes through while they are as many as the limit, nor a limit lowered below their number. |
| SessionLive.RunKeepsLiveCapExactly | internal/service/auth_service.go:1057-1141 | Over a whole run they are within the limit in every state if and only if no step of the run is one of those. |
| SessionLive.LiveCapBrokenAtExpiryInstant | internal/repository/postgres/session_repo.go:152-166 | Reachable with everything working: a login at the instant the only session expires leaves two sessions that refresh, under a limit of one. |
| SessionLive.LiveCapBrokenByResolution | internal/service/auth_service.go:327-391 | So is a resolution at that instant that names no session. |
| SessionLive.RotationKeepsLive | internal/service/auth_service.go:393-463 | A rotation leaves every user with as many refreshing sessions as before. |
| SessionService.AuthService.GetByTokenHash | internal/repository/postgres/session_repo.go:39-44 | Finds the row of a token if it is stored. |
| SessionService.AuthService.RevokeOldestExceeding | internal/repository/postgres/session_repo.go:172-189 | Revokes exactly the user's active rows past the given row number in recency order, and nothing when the query fails. |
| SessionService.AuthService.EnforceSessionLimit | internal/service/auth_service.go:1057-1108 | Defers to a pending login at the limit if counting and storing work; otherwise goes on, having made room exactly if counting and revoking work. |
| SessionService.AuthService.CreateSession | internal/service/auth_service.go:1119-1179 | Inserts one session in a new family, having made room exactly if counting and revoking work. |
| SessionService.AuthService.Register | internal/service/auth_service.go:103-207 | Performs the registration step, of an account created by password or by SSO, and keeps the invariant. |
| SessionService.AuthService.Login | internal/service/auth_service.go:209-323 | Performs the login step and keeps the invariant. |
| SessionService.AuthService.SsoLogin | internal/service/auth_service.go:687-881 | Performs the session part of an SSO login and keeps the invariant. |
| SessionService.AuthService.ResolveLogin | internal/service/auth_service.go:327-391 | Performs the conflict-resolution step and keeps the invariant. |
| SessionService.AuthService.Refresh | internal/service/auth_service.go:393-463 | Performs the refresh step, with reuse detection and rotation, and keeps the invariant; SessionEffects.RefreshSpends and RowAfter say what the step does to every row. |
| SessionService.AuthService.Logout | internal/service/auth_service.go:598-613 | Performs the logout step and keeps the invariant. |
| SessionService.AuthService.RevokeAllSessions | internal/service/auth_service.go:583-592 | Leaves the user without active sessions and returns how many rows were unrevoked before. |
| Revocation.CacheRefinesRecord | internal/auth/middleware.go:167-202 | In every reachable state the middleware decides each generated token as it would against a revocation record that never expires. |
| Revocation.AcceptedExactly | internal/auth/middleware.go:167-202 | In every reachable state a generated token is accepted if and only if it has not expired, its user exists, its second began no earlier than the password change, and its second is not before that of the last revocation. |
| Revocation.TokenTimes | internal/auth/jwt.go:35-49 | A token's issue and expiry claims are the instants cut to whole seconds. |
| Revocation.MarkReadsBack | internal/auth/session_revocation.go:31-47 | A mark is read back as its second until the lifetime of access tokens is over, and then as none. |
| Revocation.OthersUnaffected | internal/auth/session_revocation.go:31-47 | What is done to one user leaves the tokens of every other user as they were. |
| Revocation.RevokedForever | internal/auth/session_revocation.go:31-47 | A token of an earlier second than a revocation is refused at every later time, after any run. |
| Revocation.OlderTokenExpiresFirst | internal/auth/jwt.go:35-49 | When a revocation entry expires, every token of an earlier second has expired already, truncation to seconds included. |
| Revocation.SameSecondSurvives | internal/auth/session_revocation.go:31-47 | The gap left by truncation, for every account: a token generated in the second of a revocation stays accepted exactly as long as it has not expired, provided it passes the password check. |
| Revocation.SameSecondReached | internal/auth/session_revocation.go:31-47 | The gap is reachable: a run in which a token handed out before a revocation is accepted after it. |
| Revocation.PasswordChangeInvalidates | internal/auth/middleware.go:183-192 | A token from before a password change is refused from then on, after any run. |
| Revocation.FreshTokenAcceptedExactly | internal/auth/middleware.go:167-202 | In every reachable state a token is accepted at the moment it is handed out if and only if its truncated expiry is still ahead and the current second began no earlier than the last password change; no revocation matters. |
| Revocation.RegistrationTokenRefused | internal/service/auth_service.go:103-207 | An account created off a second boundary has the first token of that same second refused for its whole life. |
| Revocation.TokenGate.GenerateAccessToken | internal/auth/jwt.go:35-49 | Issues claims truncated to seconds and records the grant. |
| Revocation.TokenGate.Revoke | internal/auth/session_revocation.go:31-35 | Overwrites the user's entry with the current second and a fresh expiry. |
| Revocation.TokenGate.Authenticate | internal/auth/middleware.go:167-202 | The ordered checks accept exactly the tokens the specification accepts. |
| SignOut.LogoutEndsBoth | internal/service/auth_service.go:598-613 | After a logout and any run: no refresh token of the family works, and no access token of the user from an earlier second is accepted if the revocation mark was written; a lost mark changes no access token. |
| SignOutEffects.RevokeSessionEndsBoth | internal/service/auth_service.go:569-577 | After one session is revoked no refresh token of its family works, if it was the user's own and unrevoked; and no access token of the user from an earlier second is accepted, on any device, if the mark was written. |
| SignOutEffects.AuthExactly | internal/service/auth_service.go:209-613 | A service method marks exactly the users it should, at this instant, and hands access tokens to exactly those it issues a session for; every other mark and all password times stay. |
| SignOutEffects.RegisterExactly | internal/service/auth_service.go:103-207 | A registration gives exactly the new user a password time and an access token of this instant. |
| SignOutEffects.PasswordEndsSessions | internal/service/auth_service.go:497-531 | A password change or reset revokes every session of that user and of nobody else; a change spares the session it was made from. |
| SignOutEffects.PasswordTimeExactly | internal/service/auth_service.go:497-531 | A password change or reset sets the time of that user alone and marks nobody. |
| SignOut.SignOutEverywhere | internal/service/auth_service.go:583-592 | After all sessions of a user are revoked and any run: no refresh token of any family the user had works; no access token from an earlier second is accepted if some session was still unrevoked and the mark was written; otherwise no access token changes. |
| SignOut.SignOutMarksNobody | internal/service/auth_service.go:583-592 | A run in which signing out everywhere, with a mark that works, leaves an access token of an earlier second accepted, as the only session was revoked before. |
| SignOut.ResetEndsBoth | internal/service/auth_service.go:652-685 | After a password reset and any run: the same, with every access token handed out before refused. |
| SignOut.ReplayLeavesAccess | internal/service/auth_service.go:397-411 | A replayed refresh token ends its family and leaves every access token accepted or refused as before. |
| SignOut.Projects | internal/service/auth_service.go:327-463 | A run of the service methods is a run of the session store together with a run of the token gate. |
| SignOut.RunInStep | internal/service/auth_service.go:103-207 | Both keep the same clock and the same users in every reachable state. |
| SignOut.RunOwner | internal/service/auth_service.go:393-463 | Through any run all sessions of a family belong to one user. |
| AuthMethods.SomePathStaysOpen | internal/service/auth_service.go:687-881 | In every reachable state each account holds a credential its lock admits, and some sign-in path is open if and only if the account is not stranded: locked to a password that is refused, locked to SSO with no provider that admits the user, or unlocked with neither. |
| AuthMethods.RunKeepsInv | internal/service/auth_service.go:1226-1292 | Through any run a lock to SSO implies an identity, a lock to password implies a hash, and one credential always exists. |
| AuthMethods.SsoOpenExactly | internal/service/auth_service.go:696-835 | Some SSO callback signs the user in if and only if the lock admits SSO and a provider admits some address with a linked identity, or the account's own address. |
| AuthMethods.IdentitySignsIn | internal/service/auth_service.go:696-741 | A callback with a linked identity signs its user in if and only if the provider admits the address it carries and the lock admits SSO. |
| AuthMethods.StrandedReachable | internal/service/auth_service.go:1594-1630 | A run of permitted operations that closes both sign-in paths while SSO is enforced. |
| AuthMethods.UnverifiedStranded | internal/service/auth_service.go:1636-1674 | A run that closes both where addresses must be verified. |
| AuthMethods.UnadmittedStranded | internal/service/auth_service.go:696-715 | A run that closes both without any lock: an unverified address outside every provider's list. |
| AuthMethods.ListChangeStrands | internal/service/auth_service.go:696-715 | A run that closes both for an account SSO created, once no provider admits it. |
| AuthMethods.ClearingLockExactly | internal/service/auth_service.go:1636-1674 | Clearing the lock of a stranded user always succeeds and reopens a path if and only if: locked to the password, a provider admits the user; locked to SSO, there is a password that is not refused; unlocked, never. |
| AuthMethods.LockNeedsCredential | internal/service/auth_service.go:1636-1674 | A lock is set if and only if the user holds the credential it demands. |
| AuthMethods.MigrationSwitchesPath | internal/service/auth_service.go:1555-1630 | Each migration succeeds exactly with what it needs, shuts the other path, and opens its own if and only if a provider admits the user, or the password is not refused. |
| AccountEffects.CallbackByAddressExactly | internal/service/auth_service.go:812-850 | A callback with an unlinked identity at the address of an account succeeds if and only if the provider admits it, the address is verified and the lock does not exclude SSO; then exactly that identity is linked to that account, and a refused one changes nothing. |
| AccountEffects.CallbackByIdentityExactly | internal/service/auth_service.go:696-741 | A callback with a linked identity signs in its account, whatever the address, if and only if it is admitted and the lock does not exclude SSO; no identity is added. |
| AccountEffects.CallbackCreatesExactly | internal/service/auth_service.go:746-850 | A callback with an unlinked identity at an unknown address makes an account if and only if it is admitted and may be created, with the identity linked to it. |
| AccountEffects.UnverifiedNeverLinks | internal/service/auth_service.go:812-850 | Over any run in which every callback has an unverified address and the user does not link one, an existing account gains no identity. |
| AccountEffects.IdentityOrigin | internal/service/auth_service.go:687-881 | Over any run, an identity that an account has come to hold was linked by a step that links it to that account. |
| AccountEffects.IdentityAfter | internal/service/auth_service.go:1226-1292 | Every identity after every operation: linked to whom it was unless the operation links or unlinks it. |
| AccountEffects.AddressAfter | internal/service/auth_service.go:103-207 | An address belongs to the account it was registered with, by password or by SSO, until that is deleted. |
| AccountEffects.AccountAfter | internal/service/auth_service.go:1555-1674 | Every account after every operation: password, lock, verification and administration as the operation says, otherwise as before. |
| AccountEffects.NewAccountAfter | internal/service/auth_service.go:103-207 | Accounts are made by registration and by callbacks, with the fields of that path. |
| AccountEffects.PasswordExactly | internal/service/auth_service.go:231-307 | A correct password signs in if and only if the account has one, its lock does not exclude it, its address is verified where that is required, and no linked identity meets a policy that enforces SSO. |
| AuthMethods.AccountService.HasLinkedIdentity | internal/service/auth_service.go:1555-1589 | Finds whether any identity is linked to the user. |
| AuthMethods.AccountService.LinkSsoIdentity | internal/service/auth_service.go:1226-1259 | Performs the linking step, with its conflicts. |
| AuthMethods.AccountService.UnlinkSsoIdentity | internal/service/auth_service.go:1262-1292 | Performs the unlinking step, with its guards. |
| AuthMethods.AccountService.MigrateUserToSso | internal/service/auth_service.go:1555-1589 | Performs the migration to SSO. |
| AuthMethods.AccountService.MigrateUserToPassword | internal/service/auth_service.go:1594-1630 | Performs the migration to password. |
| AuthMethods.AccountService.SetAuthMethodLock | internal/service/auth_service.go:1636-1674 | Performs the locking step, with its guards. |
| AuthMethods.AccountService.PasswordLogin | internal/service/auth_service.go:231-307 | The ordered gates of a password login admit exactly the users the specification admits. |
| AuthMethods.AccountService.SsoCallback | internal/service/auth_service.go:687-881 | Refuses what the provider does not admit, then resolves a callback by identity, by verified address or as a new account: the step of the three Callback theorems of AccountEffects. |
| SmtpWire.ReadEncoded | internal/smtp/listener.go:278-303 | Reading a dot-stuffed body returns exactly that body and leaves exactly the bytes after it when it fits, and reports it as too large when it does not. |
| SmtpWire.RoundTrip | internal/smtp/listener.go:278-303 | A dot-stuffed body is delivered unchanged if and only if it fits the limit. |
| SmtpWire.LimitIsExact | internal/smtp/listener.go:239-242 | On every input, checking the size while reading accepts exactly the messages that fit, so the later size check never fires. |
| SmtpWire.Canonical | internal/smtp/listener.go:278-303 | Whatever form a message arrived in, what was read is made of whole lines and reads back the same when sent in canonical form. |
| SmtpWire.StuffedLine | internal/smtp/listener.go:284-295 | A stuffed line is never taken for the terminator and unstuffs to the line it came from. |
| SmtpWire.Reader.ReadString | internal/smtp/listener.go:136-143 | Takes the first line off the stream, or everything when no line is complete. |
| SmtpWire.Reader.ReadData | internal/smtp/listener.go:278-303 | The reading loop computes what the specification of the framing says, and leaves the same bytes. |
| SmtpCommand.ExtractBracketed | internal/smtp/listener.go:409-430 | A bracketed address is extracted exactly, whatever parameters follow the bracket. |
| SmtpCommand.ParseVerb | internal/smtp/listener.go:398-405 | A command line splits into its verb and its argument. |
| SmtpSession.EveryConversation | internal/smtp/listener.go:117-274 | For every byte stream and every answer of router and queue: the mails offered to the queue are exactly those the transcript accounts for, every transcript entry is justified, and an envelope has at most 100 recipients. |
| SmtpSession.StepKeeps | internal/smtp/listener.go:132-273 | Every turn keeps the session's sender and recipients what its transcript says: those accepted since the last MAIL, RSET, STARTTLS or delivery. |
| SmtpSession.ServeKeeps | internal/smtp/listener.go:117-274 | That holds after any number of turns of a conversation and at its end. |
| SmtpSession.RcptKeeps | internal/smtp/listener.go:192-214 | An RCPT keeps the envelope in step with the transcript, and is answered 250 only with an open envelope, room left and the router's consent. |
| SmtpSession.DataKeeps | internal/smtp/listener.go:216-253 | A DATA that is processed offers one copy for each recipient, is confirmed exactly when all copies were taken, and closes the envelope. |
| SmtpSession.StepProgress | internal/smtp/listener.go:132-273 | Every turn of the command loop consumes input or ends the conversation. |
| SmtpClient.ScriptArrives | internal/smtp/listener.go:117-274 | What a client sends in order is handled in order, and the bytes that follow remain to be read. |
| SmtpClient.AfterTransaction | internal/smtp/listener.go:312-395 | A message with an accepted recipient is offered once for each accepted recipient, in order, with the sender and body sent, and confirmed exactly when all copies were taken. |
| SmtpClient.TransactionLegible | internal/smtp/listener.go:398-430 | The listener's parser understands every line of a well-formed transaction. |
| SmtpOversize.TransactionArrivesExactly | internal/smtp/listener.go:117-274 | Every well-formed message at any point of a conversation: its bytes are used up and it is handed over if and only if the router accepts a recipient and it fits; otherwise nothing is offered, the envelope stays, and a stated rest of the message is read as commands. |
| SmtpPipeline.PipelinedExactly | internal/smtp/listener.go:117-274 | From bytes to queue, for any well-formed messages sent back to back: those up to the first that does not fit or has no accepted recipient are offered, in order, with nothing lost, duplicated or mixed between envelopes; that is all of them if and only if every one is acceptable; what is left of that first one, and the bytes after it, are read as commands. |
| SmtpPipeline.AllArrive | internal/smtp/listener.go:117-274 | A conversation of acceptable messages alone offers exactly their copies. |
| SmtpOversize.BodyConsumedExactly | internal/smtp/listener.go:216-253 | DATA reads a message to its end if and only if an envelope is open and it fits, with the reply and the unread rest of each other case. |
| SmtpOversize.InjectedTransaction | internal/smtp/listener.go:278-303 | A message whose first line is over the limit and whose other lines spell a transaction is refused, and the transaction is performed. |
| SmtpOversize.TextEncodes | internal/smtp/listener.go:278-303 | Dot-stuffing the text of a transaction gives the bytes of that transaction. |
| SmtpBounce.MailLineExactly | internal/smtp/listener.go:182-190 | The bytes of a MAIL line open an envelope if and only if the address is not empty; the null reverse-path is answered 501 and changes nothing else. |
| SmtpBounce.BounceReadAsCommands | internal/smtp/listener.go:182-253 | A whole bounce, sent with the null reverse-path: the router is not asked, the queue is offered nothing, and the message is read as commands. |
| SmtpBounce.GreetingKeepsEnvelope | internal/smtp/listener.go:153-164 | The bytes of a HELO or EHLO line keep the envelope, so they do what a reset would if and only if none was open. |
| SmtpVerbs.ResetLine | internal/smtp/listener.go:255-258 | A line of R, S, E, T in any letter case, with any argument, clears the envelope and answers 250. |
| SmtpVerbs.NoopLine | internal/smtp/listener.go:260-261 | A line of N, O, O, P answers 250 and leaves the rest of the conversation as it was. |
| SmtpVerbs.VrfyLine | internal/smtp/listener.go:263-264 | A line of V, R, F, Y answers 252 and leaves the rest as it was. |
| SmtpVerbs.QuitLine | internal/smtp/listener.go:266-268 | A line of Q, U, I, T answers 221 and ends the conversation. |
| SmtpVerbs.StartTlsLine | internal/smtp/listener.go:166-180 | A line of STARTTLS in any letter case does what the handshake allows: 502 without TLS, the end of the session on a failed one, and otherwise a cleared envelope and the secured stream. |
| SmtpVerbs.GreetingLine | internal/smtp/listener.go:153-164 | HELO and EHLO in any letter case answer 250 and keep the envelope. |
| SmtpVerbs.UnknownLine | internal/smtp/listener.go:270-271 | A line with any other verb answers 502 and keeps the envelope. |
| SmtpVerbs.EmptyLine | internal/smtp/listener.go:145-147 | An empty line is skipped without an answer. |
| SmtpVerbs.MailLine | internal/smtp/listener.go:182-190 | MAIL in any letter case, with any parameters, takes the bracketed address as the new sender with no recipients, and answers 501 to an empty one. |
| SmtpVerbs.RcptLine | internal/smtp/listener.go:192-214 | RCPT in any letter case adds the bracketed address if and only if a sender is set, it is not empty, there is room and the router takes it; the answer says which. |
| SmtpVerbs.DataLine | internal/smtp/listener.go:216-253 | DATA in any letter case, with any argument, starts reading a message where the envelope allows it. |
| SmtpVerbs.DataRefused | internal/smtp/listener.go:216-224 | DATA without a sender or a recipient answers 503, keeps the envelope, and what follows is read as commands. |
| SmtpVerbs.MessageCutOff | internal/smtp/listener.go:234-238 | A message within the size limit whose stream ends before the line with the dot is answered 451; no part of it is offered to the queue, and the conversation is over. |
| SmtpVerbs.SpelledBare | internal/smtp/listener.go:409-430 | An address without brackets ends at the first space. |
| SmtpVerbs.NoPrefix | internal/smtp/listener.go:409-430 | Without FROM: or TO: the whole argument is looked at for a bracketed address. |
| SmtpVerbs.ResetAbandons | internal/smtp/listener.go:255-258 | A client that sends RSET after its recipients and then DATA gets 503: nothing is offered to the queue. |
| Text.NormalFormExactly | internal/smtp/handler.go:127-130 | The normal form has no capital letter, has no white space at its ends, and keeps every character in between but for its case. |
| Text.SameAddressExactly | internal/smtp/handler.go:127-130 | Two strings have the same normal form if and only if they differ in ASCII letter case and surrounding white space only. |
| SmtpListener.Session.ProcessData | internal/smtp/listener.go:312-395 | Offers one copy for each recipient, in order, and returns whether the queue took every one. |
| SmtpListener.Session.OnMail | internal/smtp/listener.go:182-190 | Performs the MAIL step. |
| SmtpListener.Session.OnRcpt | internal/smtp/listener.go:192-214 | Performs the RCPT step. |
| SmtpListener.Session.OnData | internal/smtp/listener.go:216-253 | Performs the DATA step, on the session and on the stream. |
| SmtpListener.Session.OnStartTls | internal/smtp/listener.go:166-180 | Performs the STARTTLS step: a new reader, and an empty envelope. |
| SmtpListener.Session.HandleConn | internal/smtp/listener.go:117-274 | The command loop ends in the state the specification of the whole conversation gives; SmtpVerbs says from the bytes on what each line does there. |
| IngestQueue.DrainedExactlyOnce | internal/smtp/server.go:33-95 | Under every interleaving the queue stays within capacity and is served in order, no mail is processed twice, and once Start has returned every accepted mail has been processed. |
| IngestQueue.RunKeeps | internal/smtp/server.go:33-95 | Every interleaving keeps each accepted mail in exactly one place: queued, in a worker's hands or processed. |
| IngestQueue.DrainNeverStalls | internal/smtp/server.go:53-60 | After the channel is closed some worker can move as long as work is left, and Start can return exactly when none is. |
| IngestQueue.DrainShrinks | internal/smtp/server.go:77-82 | Every move of a worker reduces the work left by one, so draining ends. |
| IngestQueue.PanicExactly | internal/smtp/server.go:64-75 | After the channel is closed a panic is possible if and only if some Enqueue call had passed the stop check and not yet sent. |
| IngestQueue.RunPanicsExactly | internal/smtp/server.go:33-95 | A run from Start panics if and only if some call that read the stop flag before it was raised, and did not send in between, sends after the channel was closed. |
| IngestQueue.ShutdownPanics | internal/smtp/server.go:53-75 | Such a run, with one call and any capacity and workers. |
| IngestQueue.Server.Enqueue | internal/smtp/server.go:64-75 | An uninterrupted call has the effect of the two interleaved steps, and succeeds exactly when the server runs and has room. |
| IngestQueue.Server.DrainClosed | internal/smtp/server.go:77-82 | A worker on the closed channel processes everything queued, in order. |
| MailFlow.ConfirmedIsProcessedOnce | internal/smtp/server.go:33-95 | Over every interleaving of connections, workers, inbox operations and shutdown: each copy of a confirmed message was accepted under a ticket of its own, has been processed by one worker once when the server has returned, and, if keys of new inboxes got written, went where a plain table lookup would have put it, unless the shutdown cut its worker off: then it was turned away. |
| MailFlow.TicketsDistinct | internal/smtp/server.go:64-75 | In every run two copies, of one delivery or two, on one connection or two, never share a ticket. |
| MailFlow.RefusedHadNoInbox | internal/smtp/listener.go:206-211 | A recipient a conversation turned away had no live inbox when the router was asked, whatever Redis calls failed, unless the shutdown had begun. |
| MailFlow.LiveRefusedExactly | internal/smtp/router.go:34-63 | In every run, of the recipients with a live inbox exactly those asked about after the shutdown began are refused. |
| MailFlow.ProcessedExactly | cmd/smtpd/main.go:124-155 | At any moment an accepted mail has been processed if and only if it is neither queued nor in a worker's hands; the process ends without waiting for the others. |
| MailFlow.RunRight | internal/smtp/handler.go:127-164 | As long as keys of new inboxes get written, workers treat every mail as a plain lookup at that moment would, except exactly those they are cut off from by the shutdown. |
| MailFlow.CutOffExactly | internal/smtp/server.go:84-95 | Over any run between a worker's taking a mail and working it off, its lookups are cut off if and only if the shutdown begins in that time. |
| MailFlow.WorkRecorded | internal/smtp/handler.go:127-164 | A mail that is worked off is recorded with its outcome and with whether a live inbox had its address; under the cancelled context it is turned away, otherwise processed. |
| MailFlow.AskRecorded | internal/smtp/router.go:34-63 | Every question to the router is recorded with its answer, whether a live inbox had the address, and whether the shutdown had begun. |
| MailFlow.RunKeeps | internal/smtp/listener.go:192-253 | Through every interleaving the queue, the inboxes and the record of what connections were told stay consistent. |
| MailFlowExample.OneMailArrives | internal/smtp/listener.go:117-274 | For any alias, domain, sender and text, a run from the bytes of a connection to a mail stored in its inbox, which meets the premises of the above. |
| MailFlowExample.ShutdownRefusesLive | internal/smtp/listener.go:206-211 | A run in which a recipient with a live inbox is refused after the shutdown began. |
| MailFlowExample.ShutdownCutsWorker | internal/smtp/server.go:84-95 | A run in which an accepted mail in a worker's hands at the shutdown is turned away from its live inbox. |
| InboxCache.RunKeeps | internal/repository/postgres/inbox_repo.go:28-75 | Under any faults, addresses stay unique, and a key that names an existing inbox is that inbox's own address. |
| InboxCache.ProcessExactly | internal/smtp/handler.go:127-164 | A mail is stored in an inbox if and only if that inbox is live at the normalised recipient and no readable key names another inbox. |
| InboxCache.SafeUnderAnyFaults | internal/smtp/handler.go:127-164 | Over every run and any failing Redis calls, mail is stored only in a live inbox of that very address, and the router refuses no live inbox. |
| InboxCache.StepAgreesExactly | internal/service/inbox_service.go:146-190 | Cache and table agree after a step if and only if it is not a creation whose key write is lost over a readable key of an earlier inbox. |
| InboxCache.RunAgreesExactly | internal/service/inbox_service.go:146-190 | They agree throughout a run if and only if no step of it is such a creation. |
| InboxCache.AgreementMeansRefinement | internal/smtp/handler.go:127-164 | Where cache and table agree, the two-level lookup gives the answer of the plain table lookup. |
| InboxCache.RefinementExactly | internal/smtp/handler.go:127-164 | The two-level lookup gives the plain lookup's answer for every recipient if and only if every live inbox with a normalised address agrees with its key. |
| InboxCache.CacheRefinesTable | internal/smtp/handler.go:127-164 | As long as keys of new inboxes get written, every run leaves the two-level lookup with the plain lookup's answer for every recipient, whatever other Redis calls fail. |
| InboxCache.StaleKeyTurnsMailAway | internal/service/domain_service.go:486-550 | A run in which a surviving key of a transferred domain turns away mail for the inbox that took the address. |
| InboxCache.WriteReadsBack | internal/repository/redis/inbox_repo.go:25-37 | A written key reads back as the inbox written, from then on exactly until its time to live is over, or until the expiry it kept, or for good; no other key reads differently. |
| InboxRouter.HonestRouter | internal/smtp/router.go:34-63 | With keys that do not outlive their inboxes, the router accepts exactly the addresses of live inboxes. |
| InboxRouter.StepHonestExactly | internal/service/inbox_service.go:219-261 | A step leaves no key without a live inbox if and only if it is not one of the listed stranding steps. |
| InboxRouter.RouterExact | internal/smtp/router.go:34-63 | Over a run no key is stranded if and only if no step strands one, and then the router is exact. |
| InboxRouter.TransferStrandsKey | internal/service/domain_service.go:513-533 | After a domain transfer the router still accepts the address of an inbox whose key was readable, although the inbox is gone. |
| InboxSpelling.SpellingIrrelevant | internal/smtp/handler.go:127-164 | Processing and routing answer alike, and change the state alike, for recipients that differ in letter case and surrounding white space only. |
| InboxSpelling.EverySpelling | internal/smtp/router.go:34-63 | Over every run, a live inbox with a plain address is accepted for under every spelling of it, and a worker stores mail in it if and only if the recipient is one and no readable key names another inbox. |
| InboxSpelling.CreatedPlain | internal/service/inbox_service.go:50-196 | An inbox created in a domain with a plain name has a plain address. |
| InboxEffects.RowAfter | internal/service/inbox_service.go:219-327 | Every inbox after every operation: removed exactly by its owner's deletion, a clean-up after its expiry, its domain's deletion or transfer, or a cascade; with a new expiry exactly by its owner's extension within the maximum; otherwise as it was. |
| InboxEffects.NewRowAfter | internal/service/inbox_service.go:50-196 | An inbox comes if and only if every condition of a creation holds, all spelled out, with its address, owner and lifetime. |
| InboxEffects.OutcomeAfter | internal/service/inbox_service.go:50-327 | Creations, extensions and deletions succeed exactly under those conditions. |
| InboxEffects.DomainAfter | internal/service/domain_service.go:269-289 | Domains come and go by their own operations; a transfer keeps the domain. |
| InboxEffects.KeyAfter | internal/repository/redis/inbox_repo.go:25-37 | What every key reads as after every operation: written by exactly these with this inbox and time, deleted by exactly those, corrupted, or as before. A domain transfer deletes none. |
| InboxEffects.RouterExactly | internal/smtp/router.go:34-63 | A recipient is accepted if and only if what follows the first @ of its normal form is a known domain and the address has a key that was read or a live inbox. |
| InboxEffects.RunRowExactly | internal/service/inbox_service.go:50-327 | Over any run an inbox is gone if and only if a step removed it; one that stays keeps all fields but its expiry, and that too unless its owner extended it. |
| InboxTtl.LifetimeBound | internal/service/inbox_service.go:127-144 | If no maximum in force exceeds M, an inbox stays within M of its creation through every later run if and only if its first lifetime does; an explicit lifetime always does. |
| InboxTtl.DefaultOverMaximum | internal/service/inbox_service.go:127-144 | For any maximum, a run that leaves an inbox of default lifetime past it. |
| InboxSettings.MaxIsNearest | internal/service/settings_resolver.go:113-145 | The maximum is that of the nearest level that has one: assignment, domain, organization, system; when one cannot be loaded the levels behind it are skipped. |
| InboxSettings.DefaultIsNearest | internal/service/settings_resolver.go:69-109 | The default is that of the nearest of team, domain, organization and system. |
| InboxSettings.DefaultWithoutDomain | internal/service/settings_resolver.go:69-109 | Without the assignment or the domain, it is the system's, or the team's where one is asked for. |
| InboxSettings.RenewalIs | internal/service/inbox_service.go:266-308 | A renewal lasts as the policy says if that is set and positive, otherwise the default without the team's. |
| InboxSettings.RenewalLeavesTeamOut | internal/service/inbox_service.go:263-308 | A renewal by default agrees with the default of a new inbox if and only if the team's level makes no difference. |
| InboxTtl.ExtensionRestoresBound | internal/service/inbox_service.go:219-261 | A successful extension leaves the inbox within the maximum in force. |
| InboxTtl.KeyFollowsInboxExactly | internal/service/inbox_service.go:146-190 | The key of a new inbox can be read exactly while the inbox is live if and only if the lifetime is positive. |
| InboxService.Store.RedisSet | internal/repository/redis/inbox_repo.go:25-29 | A write that is not lost reads back at once as the inbox written; other keys read as before at every time. |
| InboxService.Store.GetByFullAddress | internal/repository/postgres/inbox_repo.go:59-75 | Finds the live inbox of an address. |
| InboxService.Store.CreateInbox | internal/service/inbox_service.go:50-196 | Performs the creation step, with the tests of assignment, access, MX, quotas, alias, lifetime and address, and keeps the invariant. |
| InboxService.Store.ExtendTtl | internal/service/inbox_service.go:219-261 | Performs the extension step and keeps the invariant. |
| InboxService.Store.DeleteInbox | internal/service/inbox_service.go:310-327 | Performs the deletion step and keeps the invariant. |
| InboxService.Store.ListActiveAddressesByDomain | internal/repository/postgres/inbox_repo.go:219-240 | Lists exactly the addresses of the domain's live inboxes. |
| InboxService.Store.DeleteDomain | internal/service/domain_service.go:269-289 | Deletes the keys of live inboxes one by one, then the domain with its inboxes. |
| InboxService.Store.TransferDomain | internal/service/domain_service.go:513-533 | Removes the inboxes with the assignments first, then looks for keys to delete. |
| InboxService.Store.ReconcileOnce | internal/worker/reconciler.go:12-35 | A pass gives every live inbox without a readable key its own key, and changes no other. |
| InboxService.Store.ProcessMail | internal/smtp/handler.go:127-164 | Performs the lookup, repopulation and liveness part of processing and keeps the invariant; InboxSpelling.EverySpelling and InboxEffects.KeyAfter say what that step comes to. |
| InboxService.Store.RouterCanAccept | internal/smtp/router.go:34-63 | The ordered checks make the specified decision, which InboxEffects.RouterExactly spells out. |
| RateLimit.LimiterBurstBound | internal/middleware/ratelimit.go:77-93 | Over every run, with other traffic and clean-ups at any moments, an interval no longer than the window has at most 2*limit-1 allowed requests of a key. |
| RateLimit.BurstReached | internal/middleware/ratelimit.go:77-93 | That bound is reached for every limit and every window of at least one tick. |
| RateLimit.WindowAdmits | internal/middleware/ratelimit.go:77-93 | Inside one window exactly the requests left of the limit are allowed. |
| RateLimit.Projection | internal/middleware/ratelimit.go:55-93 | A key's answers depend on its own requests alone. |
| RateLimit.CleanupInvisible | internal/middleware/ratelimit.go:55-73 | Running the clean-up at any moments changes no answer to any key. |
| RateLimit.RateLimiter.Allow | internal/middleware/ratelimit.go:77-93 | Answers as specified, and reports a remaining count that is exactly the number of further requests allowed up to the reset instant. |
| RateLimit.RateLimiter.CleanupOnce | internal/middleware/ratelimit.go:55-73 | Removes exactly the visitors whose window is over. |
| Hub.RegisterKeepsExactly | internal/realtime/hub.go:40-54 | Registering keeps the hub sound if and only if the client was not registered and, unless refused, its channel is open. |
| Hub.RunSoundExactly | internal/realtime/hub.go:23-102 | Under every interleaving of locked operations the counts are exact and at most five, no inbox is left empty and no broadcast meets a closed channel, if and only if every registration was of a fit client. |
| Hub.ReceivesInOrder | internal/realtime/hub.go:74-90 | With broadcasts as single steps each client receives an in-order subsequence of its inbox's broadcasts and nothing else, within the buffer. |
| HubEffects.RegisteredAfter | internal/realtime/hub.go:40-102 | A client is registered after a registration that finds fewer than five connections of its user, until it is unregistered or the hub shuts down. |
| HubEffects.ChannelAfter | internal/realtime/hub.go:40-102 | Every channel after every operation: closed by exactly a refused registration, its unregistration and the shutdown; a message is added exactly when it is registered for that inbox with room; a receive moves the oldest out. |
| HubEffects.NothingAfterLeaving | internal/realtime/hub.go:56-72 | Over every sound run after a client is unregistered, nothing more reaches it. |
| HubEffects.UnregisterEnds | internal/realtime/hub.go:56-72 | An unregistered client is no longer registered and its channel is closed. |
| HubEffects.PanicAfter | internal/realtime/hub.go:74-90 | A broadcast panics exactly when it has a registered client with a closed channel. |
| HubOverlap.EachAtMostOnce | internal/realtime/hub.go:74-90 | Over every interleaving, overlapping broadcasts included: no send meets a closed channel, and what a client receives are messages broadcast to its inbox, each broadcast at most once. |
| HubOverlap.RunSoundExactly | internal/realtime/hub.go:23-102 | Over every such interleaving the hub and each client's channel stay sound in every state if and only if every registration was of a fit client. |
| HubOverlap.PanicExactly | internal/realtime/hub.go:74-90 | A step panics if and only if it sends to a client whose channel is closed. |
| HubOverlap.RunInOrderExactly | internal/realtime/hub.go:74-90 | A client receives its messages in the order the broadcasts began throughout a run if and only if none reaches it after a later one. |
| HubOverlap.SerialInOrder | internal/realtime/bridge.go:71-90 | With one broadcast at a time to each inbox, as when one goroutine makes them all, that never happens. |
| HubOverlap.OppositeOrders | internal/realtime/hub.go:74-90 | From any hub with two registered clients of an inbox and nothing broadcast yet, two overlapping broadcasts that they receive in opposite orders. |
| HubOverlap.UninterruptedIsOneStep | internal/realtime/hub.go:74-90 | A broadcast that is not interrupted, in whatever order it visits the clients, is the single step of the hub. |
| Hub.ClientHub.RegisterClient | internal/realtime/hub.go:40-54 | Performs the registration step for any client; the hub stays sound if and only if the client was fit. |
| Hub.ClientHub.UnregisterClient | internal/realtime/hub.go:56-72 | Performs the removal step and keeps the invariant. |
| Hub.ClientHub.BroadcastMessage | internal/realtime/hub.go:74-90 | Offers the message to every client of the inbox, skipping full buffers, and keeps the invariant. |
| Hub.ClientHub.CloseEverything | internal/realtime/hub.go:92-102 | Closes every registered client's channel and empties the hub. |
| Rollup.DailyRowsAddUp | internal/realtime/bridge.go:127-157 | After any events, an organization's all-time emails, inboxes and bytes are the sums of its daily rows, and so are a team's. |
| Rollup.PartialRowsAddUp | internal/repository/postgres/counter_repo.go:88-113 | Hourly and per-name rows add up to the all-time emails less exactly the mails without a valid hour or without the name. |
| Rollup.RowsAddUp | internal/repository/postgres/counter_repo.go:21-145 | Whatever rows a table spreads counts over, they add up to what the events were worth; other message types are worth nothing. |
| Rollup.UpsertAdds | internal/repository/postgres/counter_repo.go:54-63 | An upsert adds its amounts to the sum of its owner's rows and to no other. |
| RollupRows.RowExactly | internal/realtime/bridge.go:127-157 | After any run from empty tables every row of every table holds the number, and bytes, of exactly the events of its owner and its day, hour, receiving domain or sender domain. |
| RollupRows.EventAt | internal/repository/postgres/counter_repo.go:21-145 | One event adds to every row exactly what belongs there, by its own fields, and nothing elsewhere. |
| RollupRows.DomainsApart | internal/repository/postgres/counter_repo.go:97-113 | One mail, for instance, counts under its receiving domain in one table and under its sender's in the other, not the other way round. |
| Rollup.CounterRepo.HandleEvent | internal/realtime/bridge.go:127-157 | Makes the additions of one bridge message, in order; RollupRows.RowExactly says what every row then holds. |
| Rollup.CounterRepo.CountInbox | internal/service/inbox_service.go:171-185 | Makes the additions of a new inbox. |
| Membership.RunKeepsLeadExactly | internal/service/team_service.go:440-752 | A team keeps a lead as long as it exists, through any run over all organizations and teams, bulk removals with duplicates and failing deletes included, if and only if no step deactivates its only lead, deletes that account, or transfers the team to an organization none of its leads belongs to. |
| Membership.StepKeepsLeadExactly | internal/service/team_service.go:661-752 | The only steps that take the last lead are those three. |
| Membership.DeactivationStripsLead | internal/service/org_service.go:293-336 | A state in which a deactivation leaves a team without a lead. |
| Membership.TransferStripsLead | internal/service/team_service.go:704-737 | A run from the empty state after which a transfer, to the team's own organization, leaves the team without members. |
| Membership.SingleOrg | internal/service/org_service.go:69-76 | No run of the service has two organizations. |
| Membership.RunKeepsOwnerExactly | internal/service/org_service.go:268-336 | An organization has an owner as long as it exists, through any run from its creation, if and only if no step deletes the account of the only one. |
| Membership.StepKeepsOwnerExactly | internal/service/auth_service.go:543-563 | The one step that takes the last owner is the deletion of that account. |
| Membership.DeletionStripsBoth | migrations/000005_team_memberships.up.sql:3-4 | A state in which an account deletion leaves the organization without an owner and the team without a lead. |
| Membership.BulkCheckExact | internal/service/team_service.go:530-557 | On every list the bulk check refuses exactly the requests that leave no lead, if and only if none would be left or the repeated requests for leads are fewer than the leads that stay; it never passes a request that leaves none. |
| Membership.DistinctCheckRight | internal/service/team_service.go:530-557 | Without duplicates it is always right. |
| Membership.DuplicateRefused | internal/service/team_service.go:530-557 | One of two leads asked for twice is refused, although a lead would stay. |
| Membership.BulkRemoveKeepsLead | internal/service/team_service.go:510-568 | A bulk removal that passes the check leaves a lead, whatever deletes fail. |
| MembershipEffects.MemberAfter | internal/service/team_service.go:440-752 | Every member of every team after every operation: gone exactly if the operation takes the member out, with another lead left where one is needed; with a new role exactly if it gives one; in the team anew exactly if it brings the user in, with the role first named. |
| MembershipEffects.TeamAfter | internal/service/team_service.go:372-427 | A team goes with its deletion or its organization's, moves by a transfer that goes through, and is archived as last set. |
| MembershipEffects.NewTeamAfter | internal/service/team_service.go:77-174 | A team comes with its creator as lead and only member. |
| MembershipEffects.OrgRoleAfter | internal/service/org_service.go:268-336 | Every role in every organization after every operation, with another owner left where one is needed. |
| MembershipEffects.NewOrgRoleAfter | internal/service/org_service.go:68-124 | Users join with the role asked for; the first organization, and no second, comes with its creator as owner. |
| MembershipEffects.RequestsArePositions | internal/service/team_service.go:530-557 | The check of a bulk removal counts the positions at which a lead is named. |
| MembershipEffects.RemovableExactly | internal/service/team_service.go:530-557 | Members named in a bulk removal are kept as often as they are named, others dropped. |
| Membership.TeamService.CountLeads | internal/repository/postgres/team_repo.go:282-286 | Counts the leads. |
| Membership.TeamService.TransferTeam | internal/service/team_service.go:661-752 | Moves an unarchived team to an existing organization with room, and removes and reports exactly the members unknown there. |
| Membership.TeamService.LeaveTeam | internal/service/team_service.go:440-463 | Removes the member unless it is the last lead. |
| Membership.TeamService.RemoveMember | internal/service/team_service.go:632-655 | Removes the member unless it is the last lead or the team is archived. |
| Membership.TeamService.ChangeRole | internal/service/team_service.go:603-630 | Changes the role unless that demotes the last lead. |
| Membership.TeamService.BulkAddMembers | internal/service/team_service.go:465-508 | Adds each candidate at most once; added, skipped and failed counts add up, and the membership grows by the added ones. |
| Membership.TeamService.BulkRemoveMembers | internal/service/team_service.go:510-568 | Refuses or removes as specified; every id ends up removed, skipped or failed. |
| Invites.CascadeExactly | internal/service/org_service.go:915-956 | After the cascade no pending invitation is assigned to the team; the legacy column apart, one is deleted exactly when the team was its only assignment; survivors keep all other assignments and at least one. |
| Invites.NoInviteToArchivedTeam | internal/service/org_service.go:1016-1051 | Over every run no pending invitation is assigned to an archived or deleted team, and no address has two unaccepted invitations in an organization. |
| Invites.StepLegacyExactly | internal/service/org_service.go:387-411 | The legacy team column stays free of archived teams over a step if and only if the step does not send an invitation that names one; nothing refuses such an invitation. |
| Invites.RunLegacyExactly | internal/service/org_service.go:387-411 | Over a run it is free of them in every state if and only if no step is such an invitation. |
| Invites.ArchivedLegacyReached | internal/service/org_service.go:387-411 | A run that ends with a pending invitation naming an archived team there. |
| Invites.RefusedSendExactly | internal/service/org_service.go:340-468 | A refused invitation changes the store if and only if the refusal came after the withdrawal, on the legacy team or its role, and an open invitation was there; then exactly that one is gone. |
| Invites.RefusedResendWithdraws | internal/service/org_service.go:380-411 | A run in which a refused repetition leaves the address without an invitation. |
| Invites.AcceptedSendReplaces | internal/service/org_service.go:340-468 | An accepted one leaves the address with the new open invitation alone, with the teams asked for, and no other invitation changed. |
| Invites.SkipRightExactly | internal/service/org_service.go:1067-1070 | A bulk request skips an address that would pass otherwise if and only if some organization has a pending invitation for it; that is what this organization's invitations call for if and only if one of them is pending or none of anyone's is. |
| Invites.SkippedForForeignInvite | internal/repository/postgres/org_repo.go:442-463 | A run in which an address is left out because another organization has invited it. |
| Invites.BulkSendExactly | internal/service/org_service.go:752-886 | A bulk request that is refused, or meets a row it cannot write, changes nothing; any other ends with an open invitation, as asked for, for every address that passes the checks, and changes no invitation of another organization, of an address not written, or already accepted. |
| InviteEffects.InviteAfter | internal/service/org_service.go:340-956 | Every invitation after every operation: removed exactly by these, with their conditions spelled out, accepted while it has not expired, or with a team taken out; otherwise as it was. |
| InviteEffects.NewInviteAfter | internal/service/org_service.go:340-468 | A single invitation is added if and only if all its checks pass, for the address in normal form, with the expiry and teams asked for. |
| InviteEffects.TeamAfter | internal/service/team_service.go:372-427 | A team is archived, restored, moved and deleted by its own organization only, and moved only while not archived. |
| Invites.StepOwnTeamsExactly | internal/service/team_service.go:661-745 | Pending invitations stay assigned to teams of their own organization over a step if and only if it does not transfer an invited team elsewhere. |
| Invites.RunOwnTeamsExactly | internal/service/team_service.go:661-745 | Over a run they stay there in every state if and only if no step is such a transfer. |
| Invites.TransferLeavesInvite | internal/service/team_service.go:661-745 | A run that ends with a pending invitation of one organization to a team of another. |
| Invites.OrgService.ValidateTeamAssignments | internal/service/org_service.go:1016-1051 | Accepts exactly the lists of distinct, known, unarchived teams of the organization, each with a valid role. |
| Invites.OrgService.CascadeTeamInviteRevocation | internal/service/org_service.go:915-956 | The loop and the legacy sweep compute the specified cascade. |
| BulkInvite.Partition | internal/service/org_service.go:780-831 | Every judged address is in exactly one of three groups, as often as it was given. |
| InviteEffects.VerdictExactly | internal/service/org_service.go:780-886 | The verdict on each address: a duplicate if it came before, otherwise the first that applies of: no mail for its domain, a member, invited, not writable, created. |
| InviteEffects.NonBlankExactly | internal/service/org_service.go:780-790 | Every address is judged as often as it is given in any spelling; blank lines are not. |
| BulkInvite.ToWriteExactly | internal/service/org_service.go:780-831 | Exactly the addresses that pass the checks go to the second pass, each once. |
| BulkInvite.CreatedExactly | internal/service/org_service.go:780-886 | Exactly the qualified addresses are created, each once. |
| BulkInvite.Validate | internal/service/org_service.go:780-831 | The first pass sorts the addresses as judged. |
| BulkInvite.WriteAll | internal/service/org_service.go:833-882 | The second pass separates the rows that were written from those that could not be, and there are none of the latter exactly when all are writable. |
| BulkInvite.BulkInviteMembers | internal/service/org_service.go:752-886 | Fails as a whole if and only if it is too long or a row cannot be written; otherwise every non-blank address lands in exactly one of created, skipped and failed, the counts add up, and created are exactly the addresses that pass, each once. |

## Left out

- HTTP handlers, cookies, the web front end, setup and OpenAPI: plumbing around the modelled services.
- Cryptography, JWT signatures, MIME parsing, HTML sanitising, TLS records, DNS, S3 and OIDC: foreign libraries.
- Interleavings inside a service method: the source uses separate statements, the theorems are about atomic steps.
- Database errors that abort an operation. Failing Redis calls of the inbox cache and failing limit queries are modelled.
- The lockout counter, e-mail verification tokens and audit records of the auth service.
- The order RevokeOldestExceeding gives to rows with equal times: the query leaves it open, the model breaks ties by id.
- Folding of letters and recognition of white space beyond ASCII in commands and addresses.
- STARTTLS records: a handshake that succeeds switches to another stream of clear text, one that fails ends the session.
- Read and write deadlines, connection limits and message parsing of the SMTP listener.
- Bounds on the number of live inboxes over runs: an extension tests neither liveness nor quota, so none holds.
- Storing e-mails and attachments after the liveness check, with its errors and its ten-second limit during shutdown, and
  webhooks.
- The Redis variant of the rate limiter, and the notification and admin hubs, which are simpler twins.
- The target's existence and team limit in the team transfer of Invites, which only refuse it; Membership has them.
- Failing reads of the revocation cache, which the middleware takes for no revocation. In Revocation a mark that is lost is
  no step.
- How the lists of allowed domains are parsed: a provider admits an address or does not, as the configuration in force says.
- Client pointers of the hub: clients are values with an identity, and their channels a map, so aliasing is not captured.
- Cross-instance counter totals: one subscriber is modelled. Database errors other than refused hours are not.
- AcceptInvite's provisioning, and the roles carried by invitations.
- Differences between the clock of the server and that of the database, and rounding of stored times.
- Hub.ReceivesInOrder: is about broadcasts as single steps; HubOverlap has them overlap.
- Hub.ClientHub.BroadcastMessage: performs a broadcast without interruption; HubOverlap has it interrupted.
- SessionService.AuthService.GetByTokenHash: relies on tokens being unique, which they are because they are drawn fresh; the
  index on their hashes is a plain one.
- Sessions.ResolvedMethodExactly: takes a login whose conflict was stored; one that could not be stored is not deferred.
- RateLimit.RateLimiter.Allow: reports the reset instant itself, not its Unix second.
- IngestQueue.Server.DrainClosed: one worker, uninterrupted; several are covered by the interleaved theorems.
- Rollup.CounterRepo.HandleEvent: takes bridge messages only, as inbox creation is counted by another service.
- Membership.TeamService.BulkAddMembers: resolving users and roles is an input.
