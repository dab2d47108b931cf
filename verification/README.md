# Verified model of the stores, migrations, caches and redirect protocol

This project models the parts of the application that keep state in tables, caches or browser
marks, where the claim is about every run and not about one call, and proves those claims in
Dafny 4.11. `dafny verify dfyconfig.toml` checks everything.

What is modelled, one module per file:

* **One-shot rows** (`OneShot`, `OneShotConcurrency`, `WebAuthnChallenges`, `SsoLoginTickets`):
  WebAuthn challenges and SSO hand-off tickets. Requests are transactions over a shared table;
  a read may be out of date, a DELETE waits for the row lock, and nothing is visible to others
  before the commit. The ideal ledger that never deletes anything is the specification.
* **Back-channel logout** (`SessionRevocations`, `SessionRevocationRuns`, `SessionRetention`,
  `StraddlingRequests`): the ledger of logout notices (sections 2.6 and 2.7 of OpenID Connect
  Back-Channel Logout 1.0), its NULL-aware look-up, its retention, and whole runs of sign-ins,
  requests for a new token, notices, redeliveries and sweeps. A request decodes its token three
  times (to be let in, to ask the ledger, to carry its login over), sees the ledger and writes,
  each in its own step; receiving a notice and recording it are two steps as well.
* **DPoP replay** (`DpopReplay`, `DpopReplayConcurrency`): the acceptance window and the replay
  table (sections 4.3 and 11.1 of RFC 9449), run by any number of workers. The verifier's clock
  reading, the sweep's clock reading, the DELETE, the INSERT and the commit are separate steps.
* **Chunked purge** (`ExpiredLogs`, `ExpiredLogWorkers`): the loop, and any number of workers
  running it at once.
* **Roles and permissions** (`AuthTables`, `MasterDataSeeder`, `AuthMasterData`,
  `PermissionMigration`, `AuthoritySplit`, `AdministratorCensus`): the tables with their primary
  keys, unique columns and foreign keys as preconditions of each statement; the idempotent
  seeder; the two migrations, each against a set-theoretic meaning; the census query over bags
  of rows.
* **Tenant removal** (`TenantRemoval`): deletion in reverse foreign-key order.
* **Caches and limiters** (`OidcMetadata`, `ReleaseCache`, with `Windows` for the arithmetic of
  spaced-out moments).
* **Strings** (`LogSearch`, `ClientAddress`): LIKE escaping against LIKE matching (section 8.5 of
  SQL-92), and the client address behind trusted proxies.
* **Silent sign-in** (`SilentSso`): the marks and one tab's redirect machine (errors in section
  3.1.2.6 of OpenID Connect Core 1.0).

Source code that updates state in place is modelled by classes whose methods are proved against
functions; the lemmas about whole runs are about those functions.

## Where the code does not do what is written about it

* A DPoP proof is remembered until exactly `iat` + 120 s, without allowance for the time between
  the verifier's clock reading and the INSERT. A proof verified at the last moment of the window
  is used up twice when its own sweep comes a microsecond later
  (`DpopReplayConcurrency.UsedUpTwiceAcrossTheEdge`), and also when its own two clock readings
  agree but another request's sweep comes before its INSERT
  (`DpopReplayConcurrency.UsedUpTwiceAfterAnotherSweep`). `DpopReplayConcurrency.SecondUse` gives
  the exact condition. A slack added to the retention that covers the time from the verifier's
  reading to the INSERT is enough (`DpopReplayConcurrency.UsedUpAtMostOnce`).
* A request that fails after its proof was recorded is rolled back, and the proof with it
  (`DpopReplayConcurrency.RolledBackProofCanBeUsed`).
* `sql_webauthn_challenge_repository.py:72` says that an expired challenge stays deleted. The
  exception that follows rolls the session back (`shared/kernel/database/session.py:12-29`), so
  the row comes back. `OneShot.SweepingIsUnobservable` covers both; nobody can tell.
* A request for a new token decodes the token again for the ledger. If the token has ended
  meanwhile, the ledger is not asked, and the request goes on without a federated login: a stopped
  person leaves with a local one. `StraddlingRequests.StoppedPersonLeavesWithALocalLogin` is a
  whole run, and `StraddlingRequests.StoppedPersonGetsATokenExactlyByStraddling` says exactly when
  it happens; no retention of notices prevents it.
* Redeeming an SSO ticket does not look into the logout ledger, and a request may see the ledger
  before a notice is recorded and write after it. For federated tokens neither matters as long as
  notices are kept long enough: `SessionRetention.NothingIsForgottenExactlyWhenKeptLongEnough`
  gives the exact condition on the settings, which the defaults (minutes against days) meet with a
  wide margin. `SessionRetention.ForgottenNotice` is the run where it is not met.
* `LatestAppReleaseQuery.execute` remembers an unreadable store but no other exception, so the
  fetch bound needs one more term: without it any number of fetches can start in any window
  (`ReleaseCache.CrashesBreakTheBound`). `ReleaseCache.FetchesAgainExactlyWhen` gives the exact
  condition for a fetch within the TTL.
* With a chunk size of 0 the purge never returns (`ExpiredLogWorkers.ZeroChunksNeverReturn`).
* `oidc_metadata.py:213-216` says that fetching the document follows redirects; line 192 turns
  that off.
* `log_search_criteria.py` treats an empty text as a text; `_conditions` skips it. The model
  skips it.

## Model

| member | source | states |
|---|---|---|
| OneShot.OneStepAgrees | bounded_contexts/account_security/infrastructure/sql_webauthn_challenge_repository.py:26-75 | One request against the swept table replies what the ledger that never deletes replies, and table and ledger still agree |
| OneShot.SweepingIsUnobservable | bounded_contexts/account_security/infrastructure/sql_webauthn_challenge_repository.py:26-40 | For every sequence of requests with fresh keys and a clock that never goes back, sweeping and deleting are unobservable, whether or not a refused row's deletion survives |
| OneShotConcurrency.StepKeepsInv | bounded_contexts/account_security/infrastructure/sql_webauthn_challenge_repository.py:42-75 | Each read, sweep, locking delete, verdict, commit and rollback of any worker keeps the invariant: exclusive locks, honest phases, right winners, table agrees with ledger |
| OneShotConcurrency.AtMostOneWinner | bounded_contexts/account_security/infrastructure/sql_webauthn_challenge_repository.py:55-75 | In every interleaving at most one committed request obtains a row; it asked for the right purpose and the row had not expired when judged |
| OneShotConcurrency.RefusalIsJustified | bounded_contexts/account_security/infrastructure/sql_webauthn_challenge_repository.py:44-74 | A refused request asked for a row that was never issued for that purpose, was used by a committed request, or had expired |
| OneShotConcurrency.GrantIsDeserved | bounded_contexts/identity_federation/infrastructure/sql_sso_login_ticket_repository.py:71-85 | A row is handed out only when the ideal ledger would hand it out at that moment |
| OneShotConcurrency.WorkersDecideLikeTheRepositories | bounded_contexts/account_security/infrastructure/sql_webauthn_challenge_repository.py:67-75 | What the interleaved workers decide at each step is what the repositories' methods reply from the same reads |
| OneShotConcurrency.FreeRowCanBeObtained | bounded_contexts/identity_federation/infrastructure/sql_sso_login_ticket_repository.py:51-85 | A stored, unlocked, unexpired row can be obtained by any idle worker, who then is the winner |
| OneShotConcurrency.IssuingIsIssue | bounded_contexts/account_security/infrastructure/sql_webauthn_challenge_repository.py:30-40 | Undisturbed, starting and committing an issue changes the table as the repository's method does, and the ledger gets the row |
| OneShotConcurrency.IssuedRowCanBeObtained | bounded_contexts/account_security/infrastructure/sql_webauthn_challenge_repository.py:42-75 | After an issue and any run that does not use the row up, an idle worker whom nobody keeps waiting can obtain it for its purpose if and only if `now < expiresAt`, and the win carries the row that was issued |
| OneShotConcurrency.NobodyObtainsAnExpiredRow | bounded_contexts/account_security/infrastructure/sql_webauthn_challenge_repository.py:72-75 | Once the clock has reached a row's end nobody can obtain it for any purpose |
| OneShotConcurrency.RolledBackRowIsStillThere | shared/kernel/database/session.py:12-29 | After a request that deleted the row was rolled back, at every later moment up to the next committed use, an idle worker can obtain the row if and only if it has not expired |
| WebAuthnChallenges.SqlWebAuthnChallengeRepository.Issue | bounded_contexts/account_security/infrastructure/sql_webauthn_challenge_repository.py:26-40 | Sweeps strictly older rows and inserts; an existing key fails the whole statement sequence; ties the table to the functions the run results are about |
| WebAuthnChallenges.SqlWebAuthnChallengeRepository.Consume | bounded_contexts/account_security/infrastructure/sql_webauthn_challenge_repository.py:42-75 | From a possibly stale read: granted exactly when the purpose fits, this DELETE changed the row and it has not expired; a wrong purpose deletes nothing |
| WebAuthnChallenges.IssueThenConsume | bounded_contexts/account_security/infrastructure/sql_webauthn_challenge_repository.py:26-75 | An issued challenge is consumed with its stored bytes and user exactly when the purpose fits and it has not ended, and at most once |
| SsoLoginTickets.SqlSsoLoginTicketRepository.Issue | bounded_contexts/identity_federation/infrastructure/sql_sso_login_ticket_repository.py:34-49 | The same for tickets, which have no purpose |
| SsoLoginTickets.SqlSsoLoginTicketRepository.Redeem | bounded_contexts/identity_federation/infrastructure/sql_sso_login_ticket_repository.py:51-85 | Redeemed exactly when read, deleted by this statement and unexpired, and the ticket handed back carries what was stored |
| SsoLoginTickets.IssueThenRedeem | bounded_contexts/identity_federation/infrastructure/sql_sso_login_ticket_repository.py:34-85 | An issued ticket comes back unchanged exactly before its end, and at most once |
| SessionRevocations.QueryFindsTheCoveringRecords | bounded_contexts/identity_federation/infrastructure/sql_session_revocation_repository.py:64-79 | The WHERE clause under SQL's three truth values is true for exactly the records that cover the login by the domain's own rule, NULL session ids included |
| SessionRevocations.SqlSessionRevocationRepository.KeptUntil | bounded_contexts/identity_federation/infrastructure/sql_session_revocation_repository.py:49-55 | The later of the given end and the last end of any login on record, and no later than needed |
| SessionRevocations.SqlSessionRevocationRepository.Record | bounded_contexts/identity_federation/infrastructure/sql_session_revocation_repository.py:29-47 | Sweeps, ignores a jti that survived the sweep, otherwise stores the notice with that retention |
| SessionRevocations.SqlSessionRevocationRepository.CheckRevoked | bounded_contexts/identity_federation/infrastructure/sql_session_revocation_repository.py:57-79 | True exactly when a stored record names the login's issuer and subject, has no session id or the login's, and was revoked at its start or later |
| SessionRevocations.LogoutReachesExactly | bounded_contexts/identity_federation/domain/entities/session_revocation.py:86-98 | A new notice revokes, beside what was revoked, exactly the logins of its issuer and subject begun at or before it: all of them without a session id, those of its session with one |
| SessionRevocations.LogoutThenCheck | bounded_contexts/identity_federation/infrastructure/sql_session_revocation_repository.py:29-79 | Recording a notice and asking for a login: a new notice stops every such login, and on an empty ledger no other |
| SessionRevocationRuns.RevokedUpToItsEnd | bounded_contexts/identity_federation/infrastructure/sql_session_revocation_repository.py:29-55 | A recorded notice stops every token it covers up to the end that token has, whatever requests were in flight and whatever comes later, when a row of refresh_sessions lasts as long or the least retention does |
| SessionRevocationRuns.StepKeepsHonest | presentation/fastapi/dependencies/auth.py:311-346 | Every request passes its decodings in order, and only one whose token had ended by the second gets on without having seen a clean ledger |
| SessionRevocationRuns.StepKeepsStopped | presentation/fastapi/services/token_service.py:276-299 | No step of any request, sign-in, notice, redelivery or sweep adds a federated token to a stopped login: carrying the login over needs a token alive after the look-up |
| SessionRevocationRuns.StoppedExactlyWhenHeldBack | bounded_contexts/identity_federation/infrastructure/sql_session_revocation_repository.py:49-79 | Every federated token of a login is revoked in every continuation if and only if a covering record is kept until its last token's last moment |
| SessionRevocationRuns.KeptTooShort | bounded_contexts/identity_federation/infrastructure/sql_session_revocation_repository.py:31-33 | If every covering record goes before the token does, waiting and a notice about another subject give the login back |
| SessionRevocationRuns.NoticeStopsForGood | bounded_contexts/identity_federation/infrastructure/sql_session_revocation_repository.py:29-55 | Recording a notice stops for good every covered login whose last token ends within the retention or within some row of refresh_sessions |
| SessionRevocationRuns.RowHoldsTheNotice | bounded_contexts/identity_federation/infrastructure/sql_session_revocation_repository.py:49-55 | A row of refresh_sessions keeps every notice recorded after it at least to its own end |
| SessionRetention.StepKeepsInv | presentation/fastapi/dependencies/auth.py:311-346 | With fixed settings and notices kept long enough, every step keeps what each notice means for each token it covers: a bounded end, bounded requests, a record while it matters |
| SessionRetention.NothingIsForgottenExactlyWhenKeptLongEnough | bounded_contexts/identity_federation/presentation/dependencies.py:290-308 | In every run the swept ledger answers for every living federated token what one that keeps every notice would answer, if and only if notices are kept for a token's lifetime after the longer of the hand-over and of recording a notice plus one request |
| SessionRetention.HandedOverLate | bounded_contexts/identity_federation/application/use_cases/exchange_sso_ticket.py:24-30 | A run in which a ticket is redeemed after the notice that covers its login |
| SessionRetention.ExtendedLate | presentation/fastapi/services/session_cookies.py:52-63 | A run from sign-in through extensions and a request that has seen the ledger to a notice recorded then and a token written as late as it may be |
| SessionRetention.ForgottenNotice | bounded_contexts/identity_federation/domain/entities/session_revocation.py:39-54 | Where notices are kept any shorter, such a run goes on through a sweep to a living covered token that is not revoked |
| StraddlingRequests.StoppedPersonGetsATokenExactlyByStraddling | presentation/fastapi/services/token_service.py:276-314 | A stopped person's request writes a new token if and only if its token ends after it was let in and no later than the decoding for the ledger, whatever the retention; the new login is then local |
| StraddlingRequests.StraddlingWrites | presentation/fastapi/services/session_cookies.py:64-79 | Every such request can go through, whatever the ledger holds |
| StraddlingRequests.StoppedPersonLeavesWithALocalLogin | presentation/fastapi/routers/auth.py:182-211 | A whole run from sign-in through notice to a request that leaves with a local login while its notice is remembered |
| DpopReplay.KeyMaterialIsInjective | bounded_contexts/identity_federation/domain/value_objects/dpop_proof.py:42-45 | Thumbprint and jti can be read back from what is hashed, because a thumbprint has no colon |
| DpopReplay.CheckedIssuedAt | bounded_contexts/identity_federation/infrastructure/pyjwt_dpop_proof_verifier.py:129-141 | The claim is accepted exactly when it is a whole number that a datetime holds, from 120 s before to 60 s after the clock, and the result is that moment |
| DpopReplay.EdgesOfTheWindow | bounded_contexts/identity_federation/infrastructure/pyjwt_dpop_proof_verifier.py:138 | Both edges are inside and the microsecond beyond each is outside |
| DpopReplay.SqlDpopProofReplayRepository.RecordIfUnused | bounded_contexts/identity_federation/infrastructure/sql_dpop_proof_replay_repository.py:29-39 | Reports "unused" by the row count exactly when no unswept row has the key; a present row is not replaced |
| DpopReplayConcurrency.StepKeepsInv | bounded_contexts/identity_federation/infrastructure/sql_dpop_proof_replay_repository.py:29-39 | Each clock reading, sweep, INSERT, refusal, commit and rollback of any worker keeps the invariant: the table holds the last use of every key unless a committed sweep took it, every use came after its key's earlier uses were past their retention |
| DpopReplayConcurrency.CommitKeepsRow | bounded_contexts/identity_federation/infrastructure/sql_dpop_proof_replay_repository.py:30-33 | After a commit the table holds exactly the last use of every key that no committed sweep has taken since |
| DpopReplayConcurrency.SecondUse | bounded_contexts/identity_federation/infrastructure/pyjwt_dpop_proof_verifier.py:130-141 | In every reachable state: a key used before is accepted again if and only if a sweep has run since that use with a clock past its retention, a committed one of any worker or the request's own; the verifier had found the proof at most 120 s old and at most 60 s ahead |
| DpopReplayConcurrency.FirstUse | bounded_contexts/identity_federation/infrastructure/sql_dpop_proof_replay_repository.py:31-33 | A key that no committed request used is never refused |
| DpopReplayConcurrency.AnotherUseTakesLonger | bounded_contexts/identity_federation/domain/value_objects/dpop_proof.py:47-50 | In every interleaving a second committed use of one proof took longer than the slack from the verifier's clock reading to the INSERT |
| DpopReplayConcurrency.UsedUpAtMostOnce | bounded_contexts/identity_federation/domain/value_objects/dpop_proof.py:47-50 | In every interleaving where no request takes longer than the slack up to its INSERT, each proof is used up at most once |
| DpopReplayConcurrency.RecordingIsRecordIfUnused | bounded_contexts/identity_federation/infrastructure/sql_dpop_proof_replay_repository.py:29-33 | Undisturbed, the two statements and the commit do to the table what the repository's method does |
| DpopReplayConcurrency.UsedUpTwiceAcrossTheEdge | bounded_contexts/identity_federation/application/use_cases/authenticate_app_access_token.py:91-103 | For every slack a run with two uses of one proof, the second a microsecond over the slack |
| DpopReplayConcurrency.UsedUpTwiceAfterAnotherSweep | bounded_contexts/identity_federation/infrastructure/sql_dpop_proof_replay_repository.py:30-32 | A run with two uses of one proof where the second request's own clock readings agree and another worker sweeps before its INSERT |
| DpopReplayConcurrency.RolledBackProofCanBeUsed | shared/kernel/database/session.py:12-29 | After a rolled-back request, at every later moment up to the next committed use of its key, an idle worker can use the proof up if and only if it is in the window |
| ExpiredLogs.LogTable.DeleteChunk | bounded_contexts/audit/infrastructure/sql_expired_log_remover.py:71-74 | One transaction: counts only rows its own DELETE removed, which are expired ones with the lowest ids; a chunk that is not full was the last; a full one uses up that many expired rows |
| ExpiredLogs.LogTable.DeleteInChunks | bounded_contexts/audit/infrastructure/sql_expired_log_remover.py:50-76 | Terminates for chunk size at least 1 whatever other workers remove meanwhile; every row left is at or after the cutoff, every such row that nobody else removed is left, and the count is the number of old rows before the cutoff that nobody else removed |
| ExpiredLogWorkers.StepKeepsInv | bounded_contexts/audit/infrastructure/sql_expired_log_remover.py:70-76 | Every choice, deletion and concurrent write keeps the accounts of rows, counts, choices and remaining rounds |
| ExpiredLogWorkers.CountsAddUp | bounded_contexts/audit/infrastructure/sql_expired_log_remover.py:55-66 | The counts of all workers sum to exactly the rows that are gone, and no row at or after the cutoff is touched |
| ExpiredLogWorkers.NoneLeftWhenOneReturns | bounded_contexts/audit/infrastructure/sql_expired_log_remover.py:65-76 | When any worker returns every row in the table is at or after the cutoff |
| ExpiredLogWorkers.AWorkerCanFinish | bounded_contexts/audit/infrastructure/sql_expired_log_remover.py:70-76 | With chunk size at least 1 every worker between two chunks has a run in which it returns |
| ExpiredLogWorkers.RoundsAreBounded | bounded_contexts/audit/infrastructure/sql_expired_log_remover.py:70-76 | Full rounds of one worker times the chunk size never exceed the rows that were expired at the start |
| ExpiredLogWorkers.ZeroChunksNeverReturn | bounded_contexts/audit/infrastructure/sql_expired_log_remover.py:75-76 | With chunk size 0 no worker ever returns |
| AuthTables.AuthDb.InsertRole | shared/infrastructure/models/role.py:22-27 | Without an id the row takes the next one above all in use; ids and names stay unique |
| AuthTables.AuthDb.InsertGrant | shared/infrastructure/models/role.py:13-19 | A grant may be inserted only where its primary key is free and both rows exist |
| MasterDataSeeder.SeedRoles | shared/infrastructure/master_data_seeder.py:30-39 | Finds each declared name or adds it, under its fixed id unless that is taken; the dictionary leads to the row of that name |
| MasterDataSeeder.GrantMissing | shared/infrastructure/master_data_seeder.py:50-53 | With the role's codes read once before the loop, adds exactly the missing pairs and never inserts a pair twice |
| MasterDataSeeder.SeedMasterData | shared/infrastructure/master_data_seeder.py:23-55 | The three loops end in exactly the seeded tables |
| MasterDataSeeder.SeedingKeepsWhatIsThere | shared/infrastructure/master_data_seeder.py:24 | No existing role, permission or grant is changed or removed, keys stay unique, and nothing is left to seed |
| MasterDataSeeder.SeedingAddsOnlyTheMasterData | shared/infrastructure/master_data_seeder.py:30-47 | New codes and new role names are declared ones |
| MasterDataSeeder.SeededCodes | shared/infrastructure/master_data_seeder.py:49-53 | Every role ends with its old codes united with those declared for its name |
| MasterDataSeeder.FreeIdsAreUsed | shared/infrastructure/master_data_seeder.py:31-38 | Where no declared id or name is in use, every declared role gets its declared id |
| MasterDataSeeder.SeedingTwiceIsSeedingOnce | shared/infrastructure/master_data_seeder.py:23-55 | Seeding is idempotent |
| AuthMasterData.DeclarationsFitTogether | shared/domain/auth/master_data.py:39-184 | Today's declarations meet what the seeder relies on: every role and code granted is declared, and no code twice for a role |
| AuthMasterData.SystemAuthorityStaysOutside | shared/domain/auth/master_data.py:95-184 | Only the two system roles hold system-wide codes, and the owner holds every other code |
| AuthMasterData.EmptyTablesGetTheDeclaredIds | shared/infrastructure/master_data_seeder.py:31-38 | Seeding empty tables gives every declared role its declared id |
| AuthMasterData.OnlyOwnersAdminister | shared/domain/auth/master_data.py:117-184 | Of the declared roles the owner alone holds both codes the census asks for |
| PermissionMigration.RenamingIsARenaming | migrations/versions/0020_actors_and_roles.py:36-39 | After both renamings a code is there exactly when it was there and kept its name, or is the new name of one that was |
| PermissionMigration.ViewsFollowWrites | migrations/versions/0020_actors_and_roles.py:111-114 | View codes are added for exactly the holders of the write code, where both exist |
| PermissionMigration.NobodyLosesAnything | migrations/versions/0020_actors_and_roles.py:101-118 | A role keeps all its renamed codes but the dropped one, may look wherever it may change, and gains nothing but its template and those views |
| PermissionMigration.WhoeverMayChangeMayLook | migrations/versions/0020_actors_and_roles.py:9-10 | With today's declarations the view code always exists, so this holds without condition |
| PermissionMigration.RenamedInPlace | migrations/versions/0020_actors_and_roles.py:80-83 | Where only the old code exists, updating the row renames it for every role |
| PermissionMigration.MovingIsRenaming | migrations/versions/0020_actors_and_roles.py:84-85 | Where both codes exist, moving the grants and dropping the old row is the same renaming |
| PermissionMigration.Rename | migrations/versions/0020_actors_and_roles.py:74-85 | In all three cases the codes of every role and the table of codes change by the renaming; all other rows keep id and code, codes stay unique, no pair is inserted twice |
| PermissionMigration.Grant | migrations/versions/0020_actors_and_roles.py:88-92 | Adds exactly one pair per role, each of which must be new |
| PermissionMigration.Drop | migrations/versions/0020_actors_and_roles.py:95-98 | Removes a permission after its grants, so that no grant is left without its row |
| PermissionMigration.GrantViews | migrations/versions/0020_actors_and_roles.py:111-114 | The loop over the three pairs changes every role's codes by the added views and nothing else |
| PermissionMigration.Upgrade | migrations/versions/0020_actors_and_roles.py:101-118 | Existing roles stay, every declared role is there and no other is new, and the exact codes of every role and of the table afterwards |
| PermissionMigration.UpgradedInFull | migrations/versions/0020_actors_and_roles.py:101-118 | Which codes a role holds after the migration, with both renamings, the three views and the dropped code written out |
| AuthoritySplit.StripSystemPermissions | migrations/versions/0016_split_system_authority.py:79-84 | Every role but the system role loses exactly the system-wide codes |
| AuthoritySplit.NobodyIsBothSeatedAndSystemAdmin | migrations/versions/0016_split_system_authority.py:87-110 | Afterwards nobody is seated in a tenant and system administrator |
| AuthoritySplit.EverybodyElseStays | migrations/versions/0016_split_system_authority.py:90-98 | Whoever was not both keeps seat and roles |
| AuthoritySplit.HoldersLoseExactlyOne | migrations/versions/0016_split_system_authority.py:99-110 | Each holder loses exactly one of seat and system role, the seat exactly when there is no other role, and no other role changes |
| AuthoritySplit.NobodyIsLeftWithNothing | migrations/versions/0016_split_system_authority.py:9-11 | Nobody who had a role is left without one |
| AuthoritySplit.PeopleDb.ReseatSystemAdmins | migrations/versions/0016_split_system_authority.py:87-110 | Counting other roles in the table as the loop changes it gives the same result as deciding for all holders at once |
| AuthoritySplit.EveryRoleIsTemplateNewOrOwned | migrations/versions/0016_split_system_authority.py:65-72 | With a default tenant every role after seeding is exactly one of a template by its name, newly seeded and shared, or the tenant's own; every owned role existed before and exists after |
| AuthoritySplit.Upgrade | migrations/versions/0016_split_system_authority.py:113-124 | Exactly the roles that existed before under no template's name belong to the default tenant, the exact codes of every role afterwards, who was reseated, and that no code of the whole system reaches a seated person through any role |
| AdministratorCensus.InCoreRows | shared/infrastructure/administrator_census.py:20-27 | A (user, code) row is in the join exactly when the active user sits in that seat and reaches the core code through some role, NULL seats included |
| AdministratorCensus.GroupIsCountedExactlyWhenItAdministers | shared/infrastructure/administrator_census.py:28-29 | HAVING keeps a group exactly when the person holds the whole core |
| AdministratorCensus.CensusCountsTheAdministrators | shared/infrastructure/administrator_census.py:12-32 | Whatever duplicates the tables and joins hold, the query counts the active people of the seat who hold the whole core, each once |
| TenantRemoval.CleanExactlyWhenClosed | shared/infrastructure/tenant_registry.py:48-54 | Statements in the right order leave no dangling row and fire no cascade at any step if and only if nothing that stays names anything that goes |
| TenantRemoval.ReferringRowsGoFirst | shared/infrastructure/tenant_registry.py:53-60 | In reverse dependency order every removed row goes in an earlier statement than the rows it names |
| TenantRemoval.TenantRemovalRunsCleanExactlyWhenClosed | shared/infrastructure/tenant_registry.py:45-61 | A tenant can be removed cleanly if and only if nothing outside it names anything of it |
| TenantRemoval.Database.Clear | shared/infrastructure/tenant_registry.py:75-82 | One table loses exactly the rows its declaration selects; audit_log loses none |
| TenantRemoval.Database.RemoveTenant | shared/infrastructure/tenant_registry.py:45-61 | Integrity holds before and after every statement; gone are the tenant, the people seated in it with their rows, its own roles with their grants and its contents outside audit_log, and nothing else |
| TenantRemoval.DoomedIsWhatBelongs | shared/infrastructure/tenant_registry.py:51-82 | A row goes exactly when its key or columns name the tenant, a person with a seat in it or a role it owns, in a table declared so |
| TenantRemoval.ReadLateNobodyIsFound | shared/infrastructure/tenant_registry.py:51-54 | After the loop the lists of people and own roles would be empty, so they must be read before |
| TenantRemoval.AuditLogStays | shared/infrastructure/tenant_registry.py:27-28 | No audit_log row is ever removed |
| TenantRemoval.OtherContentsStay | shared/infrastructure/tenant_registry.py:79-80 | Contents of other tenants stay |
| TenantRemoval.OtherPeopleStay | shared/infrastructure/tenant_registry.py:58-59 | People seated elsewhere or nowhere stay |
| TenantRemoval.TheirRowsStay | shared/infrastructure/tenant_registry.py:81-82 | So do the rows that follow them |
| TenantRemoval.PeopleAreRemovedExactlyWhenClosed | shared/infrastructure/tenant_registry.py:64-72 | People can be removed cleanly if and only if nothing that stays names them or their rows |
| TenantRemoval.Database.RemovePeople | shared/infrastructure/tenant_registry.py:64-72 | Integrity holds before and after every statement; gone are the people and the rows that follow them, and nothing else |
| TenantRemoval.LeavingIsWhatFollows | shared/infrastructure/tenant_registry.py:68-71 | A row goes exactly when it is one of the people or names one in a personal table |
| OidcMetadata.GrantsAreSpaced | bounded_contexts/identity_federation/infrastructure/oidc_metadata.py:175-183 | Grants for one provider are at least 60 s apart, also from the last one before the run |
| OidcMetadata.GrantsInAnyWindow | bounded_contexts/identity_federation/infrastructure/oidc_metadata.py:126-131 | In any window of length W at most floor(W/60)+1 refreshes are granted per provider, whatever key ids arrive |
| OidcMetadata.OtherProvidersDoNotMatter | bounded_contexts/identity_federation/infrastructure/oidc_metadata.py:175-183 | Deleting all requests to other providers from a run changes no grant |
| OidcMetadata.NeverRefusedTooLong | bounded_contexts/identity_federation/infrastructure/oidc_metadata.py:180-183 | A request 60 s or more after everything granted so far is granted |
| OidcMetadata.BoundIsReached | bounded_contexts/identity_federation/infrastructure/oidc_metadata.py:175-183 | A request every 60 s is granted each time, so the bound on a window cannot be lowered |
| OidcMetadata.SlashesAreAllThatIsDropped | bounded_contexts/identity_federation/infrastructure/oidc_metadata.py:218 | Comparing issuers ignores slashes at the end and nothing else |
| OidcMetadata.OidcMetadataCache.GetMetadata | bounded_contexts/identity_federation/infrastructure/oidc_metadata.py:108-117 | Every answer has the asked issuer up to slashes at the end and was stored less than 300 s before, whatever other callers store between its two lock sections; a mismatch is never cached |
| OidcMetadata.OidcMetadataCache.MayRefresh | bounded_contexts/identity_federation/infrastructure/oidc_metadata.py:175-183 | Takes the turn exactly when the limiter permits it; a refusal leaves the clock alone |
| OidcMetadata.OidcMetadataCache.SigningKey | bounded_contexts/identity_federation/infrastructure/oidc_metadata.py:119-154 | Takes a turn only for an unknown key id, tells a missing key from an unusable provider, and finds the key exactly when one of the look-ups holds it |
| ReleaseCache.LatestAppReleaseQuery.Execute | bounded_contexts/app_release/application/latest_app_release.py:63-84 | Reads the store exactly when nothing fresh is remembered; what is remembered afterwards, also when the store raises |
| ReleaseCache.EveryReplyIsFresh | bounded_contexts/app_release/application/latest_app_release.py:31-32 | Every reply is the outcome of a fetch started less than its TTL earlier (300 s, or 60 s of "nothing" after a failure) |
| ReleaseCache.FetchesAreSpaced | bounded_contexts/app_release/application/latest_app_release.py:63-89 | Fetches are a failure TTL apart except after a crash or a forget |
| ReleaseCache.FetchesInAnyWindow | bounded_contexts/app_release/application/latest_app_release.py:63-89 | In any window of length W at most floor(W/60)+1 fetches start, plus those that follow a crash or a forget |
| ReleaseCache.FetchesInAnyWindowOfAQuietRun | bounded_contexts/app_release/application/latest_app_release.py:63-84 | Without either at most floor(W/60)+1 |
| ReleaseCache.FetchesAgainExactlyWhen | bounded_contexts/app_release/application/latest_app_release.py:63-89 | The store is read again once the TTL of the last read has passed, or before that if and only if the last read crashed or was followed by a forget |
| ReleaseCache.CrashesBreakTheBound | bounded_contexts/app_release/application/latest_app_release.py:70-83 | Without any forget there is, for every window, a run with any number of fetches in it |
| ReleaseCache.CrashesAreAskedEveryTime | bounded_contexts/app_release/application/latest_app_release.py:70-83 | A store that keeps raising another exception is read by every call |
| LogSearch.OnePass | bounded_contexts/audit/infrastructure/sql_application_log_repository.py:31-33 | A further replace pass equals one single pass over one more metacharacter |
| LogSearch.EscapedForLike | bounded_contexts/audit/infrastructure/sql_application_log_repository.py:25-33 | The three successive passes equal the single-pass escape |
| LogSearch.BackslashMustGoFirst | bounded_contexts/audit/infrastructure/sql_application_log_repository.py:31 | Of all orders of the three passes, those escape every text that take the backslash first, and only those |
| LogSearch.UnescapeInverts | bounded_contexts/audit/infrastructure/sql_application_log_repository.py:25-33 | A one-pass unescape gives the text back |
| LogSearch.EscapingIsInjective | bounded_contexts/audit/infrastructure/sql_application_log_repository.py:25-33 | Different texts never share a pattern |
| LogSearch.PrefixPatternMeansStartsWith | bounded_contexts/audit/infrastructure/sql_application_log_repository.py:60-62 | The logger pattern matches a text if and only if the input is a prefix of it |
| LogSearch.InfixPatternMeansContains | bounded_contexts/audit/infrastructure/sql_application_log_repository.py:63-65 | The message pattern matches a text if and only if the input occurs in it |
| LogSearch.UnescapedTheyAreWildcards | bounded_contexts/audit/infrastructure/sql_application_log_repository.py:25-33 | Unescaped, each metacharacter means something else; escaped it means itself |
| LogSearch.Conditions | bounded_contexts/audit/infrastructure/sql_application_log_repository.py:55-74 | The conditions keep exactly the rows the criteria ask for, as literal texts and inclusive times |
| ClientAddress.SplitInvertsJoin | presentation/fastapi/middleware/request_logging.py:81 | Splitting at commas loses nothing |
| ClientAddress.StripKeepsTheMiddle | presentation/fastapi/middleware/request_logging.py:81 | Stripping drops white space at the ends and nothing else |
| ClientAddress.ProxiesOnlyAppend | presentation/fastapi/middleware/request_logging.py:64-70 | After any chain of proxies the filtered fields are the client's followed by one address per proxy |
| ClientAddress.ClientCannotChooseTheAddress | presentation/fastapi/middleware/request_logging.py:74-85 | For every header the client sends, the result is what the outermost trusted proxy appended |
| ClientAddress.TooFewAddressesMeanThePeer | presentation/fastapi/middleware/request_logging.py:82-84 | With fewer addresses than hops the result is the peer of the connection |
| ClientAddress.BlankFieldsDoNotCount | presentation/fastapi/middleware/request_logging.py:81 | A field of white space alone adds no address |
| ClientAddress.StrippedCharacters | presentation/fastapi/middleware/request_logging.py:81 | The characters that stripping drops, one by one |
| ClientAddress.ClientHasNoInfluenceExactlyWhen | presentation/fastapi/middleware/request_logging.py:64-85 | Nothing the client sends has any influence on the result if and only if no more hops are declared than there are proxies that append an address |
| SilentSso.Marks.MaySilentSso | frontend/src/services/silentSso.ts:45-56 | May try exactly when the query is clean, storage readable, nobody signed out here, and the tab has not tried or was reloaded |
| SilentSso.Marks.MarkSilentSsoTried | frontend/src/services/silentSso.ts:59-66 | Reports success exactly when the mark can be read back |
| SilentSso.Marks.MarkSignedOut | frontend/src/services/silentSso.ts:78-84 | Sets the mark of the browser where the storage works and leaves the tab's mark alone |
| SilentSso.Marks.ClearSilentSsoMarks | frontend/src/services/silentSso.ts:87-94 | Removes both marks where the storage works and changes nothing elsewhere |
| SilentSso.Marks.OpenLogin | frontend/src/pages/LoginPage.tsx:43-55 | The page leaves only when it may try and the mark is set |
| SilentSso.StepPaysForAttempts | frontend/src/pages/LoginPage.tsx:43-71 | Every attempt uses up one of a measure over mark, reload flag and being away, which only a reload or a sign-in raises |
| SilentSso.CannotLoop | frontend/src/services/silentSso.ts:45-94 | In every run at most one attempt plus one per reload since the marks were cleared, whatever declines come and however the storage behaves |
| SilentSso.LeavesAfterReload | frontend/src/services/silentSso.ts:45-56 | After a reload the page leaves exactly when only the two parameters of the flow are in the query and nobody signed out here |
| SilentSso.DeclinedStaysPut | bounded_contexts/identity_federation/presentation/router.py:352-375 | After a decline nothing is tried again until a reload or a sign-in |
| SilentSso.SignedOutNeverTries | frontend/src/services/silentSso.ts:77-84 | After signing out nothing is tried, not even on a reload |
| SilentSso.ReloadTriesAgain | frontend/src/services/silentSso.ts:52 | The bound is reached: a first visit and a reload after the decline try once each |
| Windows.WindowBound | bounded_contexts/app_release/application/latest_app_release.py:63-84 | Moments at least one gap apart fall into a window of length W at most floor(W/gap)+1 times, plus those that nothing keeps apart |
| Windows.GapsInIsTheFloor | bounded_contexts/app_release/application/latest_app_release.py:63-84 | The number of gaps that the bound counts is the floor of W/gap |

## Left out

- HTTP, SMTP, push, file storage, FastAPI routes, schemas and error tables: plumbing with one-branch claims.
- Signatures, WebAuthn and JWT cryptography and SHA-256: a verified proof is an input; hashes are taken to be injective.
- SQL text, dialects, collations and the ORM identity map: tables are maps with their keys, `rowcount` is the number of rows changed, LIKE compares characters exactly.
- The precision of DATETIME columns: clocks are integers or reals and never go back.
- A read from an old snapshot that misses a row issued since: in the model a request that finds nothing has seen the committed table.
- OneShot.SweepingIsUnobservable: assumes that no key is issued twice, which the source gets from random ids.
- SessionRevocationRuns.NoticeStopsForGood: is about a login that no request is carrying over at that moment and tokens of any length; SessionRetention.NothingIsForgottenExactlyWhenKeptLongEnough is about all federated tokens where settings do not change.
- SessionRetention.NothingIsForgottenExactlyWhenKeptLongEnough: asks for tokens that live more than one tick of the clock; that notices kept long enough are never forgotten needs no such condition.
- StraddlingRequests.StoppedPersonGetsATokenExactlyByStraddling: leaves out what else may refuse a request at that point (a suspended tenant, a role the person does not hold, a moved password boundary).
- How long a request, a hand-over and recording a notice may take are bounds on the runs, not enforced by the source; the hand-over is bounded by the ticket's lifetime plus one request.
- Extra locks that a database may take between keys: the replay table's statements wait only for rows that others swept or inserted, so the model has more runs, not fewer.
- Logout notices are taken as verified; how the token is checked and how the least retention is computed is not part of this model.
- TenantRemoval.Database.RemoveTenant: asks for rows of the tenant to be named only from within it, because otherwise the database refuses or cascades; TenantRemoval.TenantRemovalRunsCleanExactlyWhenClosed shows that this is exactly the condition.
- TenantRemoval.Database.RemovePeople: asks for the same; people who own notes are outside it, because notes.owner_user_id (bounded_contexts/notes/infrastructure/note_model.py:22-24) is ON DELETE CASCADE and cascades are not modelled. The one caller removes people without a seat.
- MasterDataSeeder.SeedMasterData: asks for declarations that fit together; AuthMasterData.DeclarationsFitTogether shows that today's do.
- PermissionMigration.Rename: asks for two different names, as both pairs have; with equal names the code would drop the permission.
- `ensure_default_admin`, `member_counts` and the queries for system administrators: single statements.
- The downgrades of both migrations, and creating the table `role_tenants` with its index: schema changes.
- AuthoritySplit.Upgrade: takes the id of the tenant with slug "default" as a parameter, and speaks of the four system codes the migration lists, not of the codes declared later.
- The notification repository: its run-level facts follow from single statements.
- `PyJWKClient`'s own cache and fetch, and fetching itself.
- Counting, ordering and paging in the log search, and copying rows into entries.
- Marks shared by several tabs: one tab is modelled, and opening the page until sending the browser off is one step.
- The remaining client code: rendering, forms, translations, themes, the service worker.
