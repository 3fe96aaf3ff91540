# Verified model of the multi-tenant inspection service

A Dafny model of the parts of the service that keep state or compute something hard, with proofs of what
they promise. `dafny verify dfyconfig.toml` checks the whole project.

| module | what it models |
|---|---|
| `Coalescing`, `CoalescingAnswers` | `MemoryCacheService.getOrSet`: request coalescing, interleaved at every `await`, and where its answers come from |
| `Invitations`, `InvitationEmails` | the invitation table, its five operations, and the emails of a batch |
| `AccessRows` | the `PersonClientAccess` table and its primary flag, under all its writers |
| `Tenancy` | the services as one class over both tables, and runs of all of them together |
| `Scopes`, `AccessGrants` | scope order and the reduction of several grants to one |
| `GrantCacheKeys`, `GrantResolution` | the cache key of a request, and resolution of access records to a grant |
| `GrantCoherence` | the cache in front of resolution, interleaved with all writers of access rows |
| `PatternListeners` | `RedisService`: reference-counted pattern subscriptions |
| `SiteHierarchy`, `SiteVisibility` | site trees, the three-level query, and the two rules for who sees a site |
| `ComplianceHistory` | monthly compliance from a truncated inspection window |
| `ReminderSchedule` | which reminder group an asset falls in, day by day |
| `QuestionQuery` | the join, COUNT and HAVING query for the questions of an asset |
| `RouteOrder` | reordering the points of an inspection route |
| `SerialNumbers` | serial-number ranges for signed tag URLs |
| `GroupSaga` | adding and removing Keycloak groups with rollback |
| `Prelude` | options, results and sequence helpers |

How the model reads the code:

- Concurrent code is a set of steps, one for each stretch between two awaits; runs are arbitrary sequences
  of enabled steps. Database operations are atomic steps.
- A query without an order, or with an order that leaves ties, returns any result the query allows; the
  result is a parameter. Generated codes and group ids are parameters that must be fresh. Clocks are
  integers in milliseconds. What a caller can see under row-level security is an explicit parameter: rows of all
  clients or of one, and with one client only the people who hold a row there.
- Exceptions are error values. JavaScript maps and sets keep insertion order where the order shows.
- Code that updates fields is a class; code that loops is a method proved against a function of its inputs.

Claims one might expect that are false of the code are stated with the exact condition under which they
hold, next to an input on which they fail:

- a person with rows keeps a primary one: `AcceptLeavesPrimaryIff`, `MembersAddRolePrimaryIff` and
  `RemoveMemberAnchoredIff`, with the runs `AcceptStrands`, `MembersAddRoleStrands` and `MembersRemoveStrands`;
- removing a member keeps primary rows at one place: `RemoveMemberKeepsSinglePlaceIff`,
  `SightBeyondOwnClientBreaksSinglePlace`;
- a delete removes a value for good: `DeletedKeyComesBackIff`, `FactoryStarts` and `OverwriteTheDelete`;
- what the grant cache answers is what the tables give: `WriteKeepsIff` and `RunsAreCoherent`, with
  `LateAnswerIsStale`, `SyncLeavesStaleAnswer` and `PromotionMovesTheGrant`;
- a writer deletes the keys of all requests it concerns: `ConcernedKeyIsClearedIff`, `SiteAloneStaysStale`;
- subscriptions survive a rejection: `RejectionKeepsSetIff`, `RejectionStrandsSecondListener`;
- the three-level query returns the whole subtree: `AllowedSitesAreTheSubtreeIff`, `FifthInChainIsCut`;
- a member sees all that the records show: `MemberSeesUnionIff`, `TwoSitesAreNotBothSeen`;
- renewal conserves the offer: `EveryRenewalIsSound`, `RenewalCanLoseTheOffer`;
- the one-month report uses the last inspection: `LatestAloneTellsLatestTimeIff`, `LaterInspectionIsMissed`,
  `InspectionAtTheDateHides`;
- no reminder group is skipped: `NoGroupEverSkippedIff`, which constructs a shared day for shorter cycles;
- a failed group transaction restores membership: `AlwaysRestoredIff`, `RollbackGoesTooFar`;
- reordering moves the requested point: `MovesRequestedPointIff` and `UnknownIdEmitsNothingIff`, `UnknownIdMovesLast`;
- a serial range ends with its end: `EndsWithEndIff`, `RangeMayEndElsewhere`.

Two places where the code and its comments disagree; the model follows the code. The comment of
`members.remove` says that the oldest remaining client is promoted: when its reads see only the caller's
client there is never such a row, so nothing is promoted (`RemoveMemberKeepsSinglePlaceIff`). The comment of
`MINIMUM_INSPECTION_CYCLE` says that reminders span full days from that cycle on: with cycles of seven to
nine days two groups can still share a day (`NoGroupEverSkippedIff`).

## Model

| member | source | states |
|---|---|---|
| `Coalescing.MemoryCacheService.GetOrSet` | src/cache/memory-cache.service.ts:58-64 | starting a call changes nothing but its own continuation, which waits for the first read |
| `Coalescing.MemoryCacheService.FirstReadSettles` | src/cache/memory-cache.service.ts:64-64 | the value read is fixed at this step, before the caller resumes |
| `Coalescing.MemoryCacheService.AfterFirstRead` | src/cache/memory-cache.service.ts:65-93 | answers from the cache, follows the in-flight promise, or creates one and leads, as one uninterrupted step |
| `Coalescing.MemoryCacheService.SecondReadSettles` | src/cache/memory-cache.service.ts:79-79 | the leader's second look at the cache |
| `Coalescing.MemoryCacheService.AfterSecondRead` | src/cache/memory-cache.service.ts:80-84 | a value found on the second look settles the promise without running the factory |
| `Coalescing.MemoryCacheService.RunFinally` | src/cache/memory-cache.service.ts:87-89 | drops the key's entry and settles the leader's promise |
| `Coalescing.MemoryCacheService.AfterFactory` | src/cache/memory-cache.service.ts:84-90 | a thrown error settles the promise, a value is on its way to the cache |
| `Coalescing.MemoryCacheService.SetSettles` | src/cache/memory-cache.service.ts:85-85 | the write takes effect, or is rejected and stores nothing |
| `Coalescing.MemoryCacheService.AfterSet` | src/cache/memory-cache.service.ts:85-90 | returns the value, or the rejection of the write |
| `Coalescing.MemoryCacheService.LeaderSettled` | src/cache/memory-cache.service.ts:70-73 | a follower takes over its leader's outcome |
| `Coalescing.MemoryCacheService.Set` | src/cache/memory-cache.service.ts:29-31 | a put from elsewhere changes one entry |
| `Coalescing.MemoryCacheService.Mdel` | src/cache/memory-cache.service.ts:36-45 | removes exactly the given keys and leaves promises alone |
| `Coalescing.MemoryCacheService.ClearAll` | src/cache/memory-cache.service.ts:116-118 | empties the cache and leaves promises alone |
| `Coalescing.MemoryCacheService.Coalesces` | src/cache/memory-cache.service.ts:47-94 | in whatever order the methods are called, a key is in flight exactly while its one unfinished leader is suspended, and answers through a leader are that leader's |
| `Coalescing.RunsAreValid` | src/cache/memory-cache.service.ts:58-94 | in every interleaving entries and unfinished leaders correspond, followers have a leader of their key, answers equal the leader's |
| `Coalescing.InFlightExactlyWhileLed` | src/cache/memory-cache.service.ts:69-93 | a key is in flight exactly while an unfinished leader for it exists, and that leader is unique, so factories for a key never overlap |
| `Coalescing.FinallyRemovesOwnEntry` | src/cache/memory-cache.service.ts:87-89 | the finally block only ever removes the entry its own call put there; no other step removes one |
| `Coalescing.FollowersGetTheirLeadersOutcome` | src/cache/memory-cache.service.ts:70-73 | every follower gets its leader's result or error |
| `CoalescingAnswers.AnswersAreExplained` | src/cache/memory-cache.service.ts:63-93 | in every run an answer is what the call's own first read found or threw; or, when that found nothing, its leader's: what the leader's second read found or threw, or else what its factory returned or the error of its factory or write |
| `CoalescingAnswers.EntryAfter` | src/cache/memory-cache.service.ts:29-45 | an entry changes only by a put, a deletion, or a successful write, which stores what that call's factory returned |
| `CoalescingAnswers.KeyIsInvoked` | src/cache/memory-cache.service.ts:58-62 | a call is for the key it was made with |
| `Coalescing.EveryCallCanFinish` | src/cache/memory-cache.service.ts:58-94 | from every reachable state some continuation answers any given call: nobody waits for a promise that cannot settle |
| `Coalescing.FactorySucceedsAtMostOnce` | src/cache/memory-cache.service.ts:78-86 | over a whole run without delete, clear, expiry, rejected writes or nil results a key's factory succeeds at most once |
| `Coalescing.DeletedKeyComesBackIff` | src/cache/memory-cache.service.ts:84-85 | a deleted key can come back with an old value exactly when, at the delete, a call is running its factory for the key or storing its value |
| `Coalescing.OverwriteTheDelete` | src/cache/memory-cache.service.ts:84-85 | the steps by which a running factory re-creates the deleted entry |
| `Coalescing.FactoryStarts` | src/cache/memory-cache.service.ts:58-84 | the run by which a call comes to run its factory, so that a delete can be overwritten |
| `Invitations.ParsedOffersAreDistinct` | src/clients/invitations/dto/create-invitation.dto.ts:25-57 | an accepted request is nonempty and names each (email, site, role) once after flattening |
| `Invitations.FlattenHas` | src/clients/invitations/dto/create-invitation.dto.ts:34-45 | a request offers its flat entries and every assignment of its nested ones, emails lowered |
| `Invitations.ParseIff` | src/clients/invitations/dto/create-invitation.dto.ts:25-57 | a request is accepted exactly within the limits and if no tuple is named twice |
| `Invitations.CaseIsIgnored` | src/clients/invitations/invitations.service.ts:558-558 | emails are the same exactly up to the case of letters |
| `Invitations.ConflictKeysAreTuples` | src/clients/invitations/invitations.service.ts:234-241 | comparing the bar-separated texts is comparing the tuples |
| `Invitations.FindCode` | src/clients/invitations/invitations.service.ts:522-529 | finds a row with the code, or there is none |
| `Invitations.AcceptSucceedsIff` | src/clients/invitations/invitations.service.ts:527-562 | an accept succeeds exactly for the pending, unexpired row of the code and an email that is the same up to case |
| `Invitations.EveryAcceptSucceedsIff` | src/clients/invitations/invitations.service.ts:527-562 | so in every run |
| `Invitations.AcceptFailsIff` | src/clients/invitations/invitations.service.ts:527-562 | when each of the four errors is answered |
| `Invitations.AcceptChanges` | src/clients/invitations/invitations.service.ts:564-649 | an accept marks the row and the pending rows of its group and nothing else |
| `Invitations.RevokeAnswers` | src/clients/invitations/invitations.service.ts:680-700 | a revoke is refused exactly for rows out of sight and accepted ones |
| `Invitations.RevokeChanges` | src/clients/invitations/invitations.service.ts:700-714 | it revokes the row, or the visible pending rows of its group; neither the row nor a visible sibling stays pending |
| `Invitations.RenewAnswers` | src/clients/invitations/invitations.service.ts:734-790 | a renewal is refused exactly for rows out of sight and rows not pending; there is always something to renew |
| `Invitations.ExpireChanges` | src/clients/invitations/invitations.service.ts:825-832 | expiring revokes exactly the visible pending rows past their date |
| `Invitations.CreateSucceedsIff` | src/clients/invitations/invitations.service.ts:197-250 | creation succeeds exactly when all sites and roles are valid and no tuple is pending at the client |
| `Invitations.CreateFailsWith` | src/clients/invitations/invitations.service.ts:197-250 | otherwise the first bad site is named, or else the first bad role, or else all conflicts |
| `Invitations.CreateKeepsGood` | src/clients/invitations/invitations.service.ts:252-297 | distinct offers that are not pending, added with fresh codes and a group for each repeated email, keep the table's invariants |
| `Invitations.NewRowsShareGroupIff` | src/clients/invitations/invitations.service.ts:257-282 | two rows created together share a group exactly when they are for one email |
| `Invitations.NewGroupsAreShared` | src/clients/invitations/invitations.service.ts:266-271 | no row is created in a group of one |
| `Invitations.SetStatusKeepsGood` | src/clients/invitations/invitations.service.ts:640-649 | moving rows out of PENDING, whole groups at a time, keeps the table's invariants |
| `Invitations.ExpireIsInvisible` | src/clients/invitations/invitations.service.ts:825-832 | expiring leaves no visible stale row, and every code is answered as before, now and later |
| `Invitations.StepKeepsGood` | src/clients/invitations/invitations.service.ts:171-297 | every operation keeps: one pending row per tuple, uniform groups of at least two rows, unique codes |
| `Invitations.RunsAreGood` | src/clients/invitations/invitations.service.ts:171-832 | these hold after every run of createBulk, accept, revoke, renew and expireStale |
| `Invitations.StepEvolves` | src/clients/invitations/invitations.service.ts:640-649 | an operation loses no row and changes only statuses, and only forward |
| `Invitations.RunsEvolve` | src/clients/invitations/invitations.service.ts:509-832 | between any two points of a run rows only move forward; ACCEPTED is never left |
| `Invitations.AcceptTakesWholeGroup` | src/clients/invitations/invitations.service.ts:564-588 | under the invariants an accept takes all rows of the group, none of them expired, of one client and email, with different assignments |
| `Invitations.EveryAcceptTakesWholeGroup` | src/clients/invitations/invitations.service.ts:564-588 | so in every run; the partial-group warning is unreachable |
| `Invitations.RenewCreationFailsIff` | src/clients/invitations/invitations.service.ts:770-813 | renewal never trips the duplicate check; its creation fails exactly when a site or role is no longer valid |
| `Invitations.RenewConservesTheOffer` | src/clients/invitations/invitations.service.ts:770-813 | a valid renewal replaces the group by as many pending rows with exactly its tuples, in one fresh group or ungrouped for one row, and the tuples on offer stay the same |
| `Invitations.RenewOfInvalidRowsLosesTheOffer` | src/clients/invitations/invitations.service.ts:770-813 | otherwise the old rows stay revoked and their tuples are no longer on offer |
| `Invitations.EveryRenewalIsSound` | src/clients/invitations/invitations.service.ts:734-813 | in every run all of this holds, and the tuples on offer are conserved exactly when sites and roles are still valid |
| `Invitations.RenewalCanLoseTheOffer` | src/clients/invitations/invitations.service.ts:770-813 | a run in which an invitation is created and renewed by a caller who does not see its site, which leaves nothing on offer |
| `InvitationEmails.SplitByGroup` | src/clients/invitations/invitations.service.ts:130-141 | the Map holds each group's invitations in order, its keys in order of first appearance |
| `InvitationEmails.BuildInvitationEmails` | src/clients/invitations/invitations.service.ts:127-151 | one email for each invitation without a group and one for each group; together they hold every invitation exactly once |
| `InvitationEmails.GroupedEmailsAreGroups` | src/clients/invitations/invitations.service.ts:101-108 | each grouped email is about a whole group and never empty, so its builder does not throw |
| `InvitationEmails.EmailsAre` | src/clients/invitations/invitations.service.ts:143-148 | first one email for each invitation without a group, about it alone, then one for each group about all of it, in order |
| `InvitationEmails.MailedWith` | src/clients/invitations/invitations.service.ts:133-141 | an invitation is mailed alone exactly without a group id or with an empty one, else with those of its group |
| `AccessRows.UpsertAllAt` | src/clients/invitations/invitations.service.ts:602-638 | the loop of upserts touches only the listed rows, keeps creation times, and makes a row primary only if told to |
| `AccessRows.UsersAddRoleChanges` | src/clients/users/users.service.ts:282-317 | users.addRole writes one row, primary exactly if no primary row of the person is elsewhere |
| `AccessRows.AcceptRowsChange` | src/clients/invitations/invitations.service.ts:590-638 | an accept writes the rows of its group; only the clicked one can be primary, exactly if no primary row is elsewhere |
| `AccessRows.RemoveRoleChanges` | src/clients/users/users.service.ts:352-398 | removing a role, in either service, deletes its row and no other; a flag changes only to true, exactly at the place of the oldest visible row when the last visible primary row was removed |
| `AccessRows.MembersAddRoleChanges` | src/clients/members/members.service.ts:192-216 | members.addRole creates one row, primary exactly if the person has a primary row at the same client and site |
| `AccessRows.MembersRemoveChanges` | src/clients/members/members.service.ts:353-399 | members.remove deletes exactly the rows at the client; a flag changes only to true, at the place of the oldest visible row left, if a primary row was visible |
| `AccessRows.SyncChanges` | src/auth/keycloak/keycloak-access-sync.service.ts:163-209 | the sync adds exactly the missing rows, primary exactly for a person who had none |
| `AccessRows.StepKeepsSinglePlace` | src/clients/members/members.service.ts:192-216 | every writer keeps all primary rows of a person at one client and site |
| `AccessRows.RunsKeepSinglePlace` | src/clients/users/users.service.ts:282-398 | so it holds after every run of accept, users and members addRole and removeRole, members.remove with own-client reads, and sync |
| `AccessRows.RemoveMemberKeepsSinglePlaceIff` | src/clients/members/members.service.ts:353-399 | members.remove keeps it exactly when it does not promote a row away from a surviving visible primary; with own-client reads always, and then it promotes nothing |
| `AccessRows.SightBeyondOwnClientBreaksSinglePlace` | src/clients/members/members.service.ts:353-399 | with every client's rows visible it can leave two primary places |
| `AccessRows.AcceptLeavesPrimaryIff` | src/clients/invitations/invitations.service.ts:612-637 | after an accept the person has a primary row exactly when the clicked row may be primary or a primary row lies outside the accepted group |
| `AccessRows.MembersAddRolePrimaryIff` | src/clients/members/members.service.ts:164-216 | members.addRole never creates a first primary row; it leaves someone without one exactly when the caller sees beyond the own client and the person held no row |
| `AccessRows.RemoveMemberAnchoredIff` | src/clients/members/members.service.ts:353-399 | members.remove leaves someone without a primary row exactly when it sees the caller's client only, the primary was there and rows remain elsewhere; never when it sees all clients |
| `AccessRows.StepKeepsAnchored` | src/clients/users/users.service.ts:352-398 | every other step under the stated hypotheses keeps a primary row for a person with rows |
| `AccessRows.CarefulRunsKeepAPrimary` | src/auth/keycloak/keycloak-access-sync.service.ts:163-209 | over every run without members.remove, with members.addRole by callers who see beyond their client only on holders, and no group re-offering a held primary row as a sibling, a person with rows has a primary one |
| `Tenancy.Database.CountByEmail` | src/clients/invitations/invitations.service.ts:260-265 | the Map counts how often each email occurs |
| `Tenancy.Database.AssignGroups` | src/clients/invitations/invitations.service.ts:266-271 | a group id for exactly the emails that occur more than once |
| `Tenancy.Database.CheckSites` | src/clients/invitations/invitations.service.ts:197-209 | the first site that is missing or of another client |
| `Tenancy.Database.CheckRoles` | src/clients/invitations/invitations.service.ts:211-217 | the first role that is missing |
| `Tenancy.Database.BuildRows` | src/clients/invitations/invitations.service.ts:273-283 | one pending row for each offer, in order, with the group of its email |
| `Tenancy.Database.CreateBulk` | src/clients/invitations/invitations.service.ts:197-297 | the first invalid site, then role, then all conflicts; otherwise the table grows by the new rows |
| `Tenancy.Database.UpsertAccess` | src/clients/invitations/invitations.service.ts:623-638 | one upsert for each accepted invitation, primary only for the clicked one |
| `Tenancy.Database.Accept` | src/clients/invitations/invitations.service.ts:509-652 | each error case, or both tables changed as their table functions say |
| `Tenancy.ClickedIndex` | src/clients/invitations/invitations.service.ts:595-600 | the position of the clicked code if it is among the rows, else 0 |
| `Tenancy.Database.Revoke` | src/clients/invitations/invitations.service.ts:680-714 | refuses accepted rows, else revokes the visible pending group or the row |
| `Tenancy.Database.Renew` | src/clients/invitations/invitations.service.ts:734-813 | each error case; revokes first and keeps the revocation when creation fails |
| `Tenancy.Database.ExpireStale` | src/clients/invitations/invitations.service.ts:825-832 | counts and revokes the visible pending rows past their expiry, leaves none, and no invitee can tell at this or any later time |
| `Tenancy.Database.UsersAddRole` | src/clients/users/users.service.ts:282-317 | upserts the row, primary if there is no primary row or one at the same place |
| `Tenancy.Database.UsersRemoveRole` | src/clients/users/users.service.ts:352-398 | deletes the row and, if it was the last primary one, promotes the place of the oldest |
| `Tenancy.Database.DeleteAndPromote` | src/clients/users/users.service.ts:368-398 | the shared delete-and-promote, over the rows the caller sees |
| `Tenancy.Database.MembersAddRole` | src/clients/members/members.service.ts:164-216 | not found for a person without a row at the visible client, refused for an existing row; a new row takes the primary status of the member's rows at the site |
| `Tenancy.Database.MembersRemoveRole` | src/clients/members/members.service.ts:240-315 | not found for a person out of sight or without the row, refused for a member's last row, else deleted and promoted |
| `Tenancy.Database.MembersRemove` | src/clients/members/members.service.ts:342-399 | not found for a person out of sight; deletes the member's rows of the client, then promotes as the visible rows say |
| `Tenancy.Database.SyncUser` | src/auth/keycloak/keycloak-access-sync.service.ts:163-209 | creates the missing rows, primary only if the person had none at all |
| `Tenancy.JoinIsRowsOp` | src/clients/invitations/invitations.service.ts:590-638 | under the invitation invariants an accept writes distinct rows of one person including the clicked one |
| `Tenancy.RunsKeepBothInvariants` | src/clients/invitations/invitations.service.ts:521-652 | every run of all services together keeps the invariants of both tables |
| `Tenancy.JoinDeliversTheOffer` | src/clients/invitations/invitations.service.ts:564-652 | in every run an accept gives the person a row for every assignment of the group and leaves none of it pending |
| `Tenancy.AcceptStrands` | src/clients/invitations/invitations.service.ts:612-637 | a run in which a group offers the held primary row again and a click on its sibling leaves no primary row |
| `Tenancy.MembersAddRoleStrands` | src/clients/members/members.service.ts:192-216 | a run in which a first role, added as a member's by a caller who sees all clients, is not primary |
| `Tenancy.MembersRemoveStrands` | src/clients/members/members.service.ts:342-399 | a run in which a member removed from the primary client keeps rows and no primary one |
| `Scopes.IndexOf` | src/auth/utils/scope.ts:29-47 | the position of a scope in the hierarchy |
| `Scopes.HierarchyIsStrict` | src/auth/utils/scope.ts:29-47 | from SYSTEM down to SELF every scope is strictly more permissive than the next |
| `Scopes.GetScopesAtLeast` | src/auth/utils/scope.ts:45-51 | the slice holds exactly the scopes that are at least the given one |
| `AccessGrants.AddAll` | src/auth/utils/access-grants.ts:143-145 | a set union that keeps the order of insertion |
| `AccessGrants.ReduceAccessGrants` | src/auth/utils/access-grants.ts:120-155 | the loop computes the reduction; the empty list is the thrown error |
| `AccessGrants.ReduceMeans` | src/auth/utils/access-grants.ts:127-154 | scope is the maximum, client, site and role come from the last record attaining it, capabilities are all of them in order of first appearance |
| `AccessGrants.ReduceIsHomomorphic` | src/auth/utils/access-grants.ts:133-154 | reducing a concatenation is reducing the two reductions, in every field |
| `AccessGrants.ScopeAndCapabilitiesIgnoreOrder` | src/auth/utils/access-grants.ts:133-154 | scope and capability set depend only on which records there are |
| `GrantCacheKeys.KeysAgreeIff` | src/auth/utils/access-grants.ts:163-167 | keys of ids without a bar agree exactly when user, client, site and intent do after defaults |
| `GrantCacheKeys.KeyIsInjective` | src/auth/utils/access-grants.ts:163-167 | on proper contexts the key determines the context |
| `GrantCacheKeys.DefaultClientCollides` | src/auth/utils/access-grants.ts:163-167 | a client named "default" shares its key with naming no client |
| `GrantCacheKeys.ClearKeys` | src/auth/utils/access-grants.ts:171-217 | the keys deleted are those of the requests that name nothing, the client alone, or the client with one of the sites, under every intent, and no others |
| `GrantCacheKeys.ClearedKeysAre` | src/auth/utils/access-grants.ts:184-214 | the same of the key lists the writers are modelled with |
| `GrantCacheKeys.ConcernedKeysAreCleared` | src/auth/utils/access-grants.ts:184-214 | they include the key of every request a write at that place concerns, whatever its intent |
| `GrantCacheKeys.ConcernedKeyIsClearedIff` | src/auth/utils/access-grants.ts:184-214 | the key of a request the write concerns is deleted exactly when it names a client or no site |
| `GrantCacheKeys.DifferentClientDifferentKey` | src/auth/utils/access-grants.ts:163-167 | requests for different clients never share a key, whatever their sites |
| `GrantResolution.MostPermissiveRole` | src/auth/auth.service.ts:299-344 | no other role has a larger scope, or the same scope with more capabilities |
| `GrantResolution.MostPermissiveMeans` | src/auth/auth.service.ts:321-341 | the role chosen has the largest scope, of those the most capabilities, and of those it comes first |
| `GrantResolution.ElevatedAnswer` | src/auth/auth.service.ts:138-154 | an elevated or system request for a client is granted the most permissive SYSTEM role there, for the site asked for or the first; without such a role or site it is decided on the records |
| `GrantResolution.GrantIsHeld` | src/auth/auth.service.ts:132-297 | whatever the intent, a grant is of a role the person holds, for the client asked for, at the place asked for or of SYSTEM scope |
| `GrantResolution.ConsideredAre` | src/auth/auth.service.ts:194-268 | the records of a request are those at the place asked for, or else the primary ones, or else the first, in the order of the query |
| `GrantResolution.InactiveBecause` | src/auth/auth.service.ts:416-521 | why a grant is not built: an inactive client below GLOBAL scope, or else an inactive site below CLIENT scope |
| `GrantResolution.UnmatchedAnswer` | src/auth/auth.service.ts:207-297 | the answer when no record matches: the denial and its reason, or the bootstrap administrator's grant |
| `GrantResolution.BuiltGrant` | src/auth/auth.service.ts:416-521 | a grant is built exactly when activation allows it; the "failed to find statuses" error is unreachable |
| `GrantResolution.UserGrantIsOwnRecord` | src/auth/auth.service.ts:199-297 | a grant for a 'user' request is that of one of the person's own matching records, with the union of capabilities, and given exactly when client and site are active where the scope requires it |
| `GrantResolution.DefaultGrantIsForPrimaryPlace` | src/auth/auth.service.ts:250-260 | with primary rows at one place, a default grant is for that place |
| `GrantResolution.SomeListing` | src/auth/auth.service.ts:156-197 | the query for the records always has a result |
| `GrantResolution.KeptRecordsKeepOutcomes` | src/auth/auth.service.ts:199-268 | if no list of records a request can be decided on is lost, no possible outcome is, whatever the roles, clients and sites are |
| `GrantResolution.WriteKeepsOtherRequests` | src/auth/auth.service.ts:199-268 | a write to one row neither adds nor removes a list of records for a request it does not concern |
| `GrantResolution.WritesKeepUncleared` | src/clients/invitations/invitations.service.ts:654-668 | addRole and accept neither add nor remove a possible outcome of a request whose key they do not delete |
| `GrantCoherence.RemovalKeepsIff` | src/clients/users/users.service.ts:368-413 | removing a role keeps the records of a request it does not concern exactly when the promotion does not put its place before a row that came first so far |
| `GrantCoherence.MemberRemovalKeeps` | src/clients/members/members.service.ts:342-413 | members.remove with own-client reads keeps the records of every request whose key it does not delete |
| `GrantCoherence.RemovedRoleIsGone` | src/clients/users/users.service.ts:368-372 | after a role is removed no result of the query has it and no request is decided on it |
| `GrantCoherence.RemovedMemberIsGone` | src/clients/members/members.service.ts:370-377 | after a member is removed requests for the client are decided on no record |
| `GrantCoherence.SyncKeepsIff` | src/auth/keycloak/keycloak-access-sync.service.ts:163-209 | the sync, which deletes no key, keeps the records of a request exactly when it adds no row that counts for it |
| `GrantCoherence.SyncLosesAnswerIff` | src/auth/keycloak/keycloak-access-sync.service.ts:163-209 | with a clock later than the person's rows, some answer becomes wrong for some roles, clients and sites exactly when the sync outdates the request |
| `GrantCoherence.OldestRowDecides` | src/auth/auth.service.ts:262-268 | without a primary row a default request is decided on one of the oldest rows, and on any of them |
| `GrantCoherence.WriteKeepsIff` | src/auth/utils/access-grants.ts:171-217 | for every writer and every 'user' request whose key it does not delete: the lists of records the request can be decided on, and with them all possible answers, are kept; the lists exactly unless the sync adds rows that count for the request or a promotion reorders its rows |
| `GrantCoherence.RunsAreCoherent` | src/auth/auth.service.ts:116-130 | in every run of reads, stores, writes of all services and key deletions, interleaved at every await, a cached 'user' answer is one the tables give unless its key is about to be deleted, it was on its way to the cache when its key was deleted, or the sync or a promotion outdated it |
| `GrantCoherence.CalmRunsAreCoherent` | src/auth/auth.service.ts:116-130 | in runs where that does not happen, cached answers are right once the writers have deleted their keys |
| `GrantCoherence.LateAnswerIsStale` | src/cache/memory-cache.service.ts:84-85 | the run read, write, delete keys, store leaves a stale answer |
| `GrantCoherence.SyncLeavesStaleAnswer` | src/auth/keycloak/keycloak-access-sync.service.ts:163-209 | the run in which the sync gives a first role to someone whose denial is cached |
| `GrantCoherence.SiteAloneStaysStale` | src/auth/utils/access-grants.ts:187-203 | a denial cached for a request that names a site without a client outlives the first role, its key in no writer's list |
| `GrantCoherence.PromotionMovesTheGrant` | src/clients/users/users.service.ts:368-413 | rows reached by four added roles, and a removal after which a cached grant of another client is one the tables no longer give, its key not deleted |
| `PatternListeners.RedisService.AddPatternListener` | src/redis/redis.service.ts:81-93 | registers the listener, and subscribes if the pattern was not subscribed |
| `PatternListeners.RedisService.SubscribeRejected` | src/redis/redis.service.ts:94-99 | the rejection handler drops the listener and the pattern |
| `PatternListeners.RedisService.RemovePatternListener` | src/redis/redis.service.ts:103-114 | drops one registration, and unsubscribes when none is left |
| `PatternListeners.RedisService.StaysInStep` | src/redis/redis.service.ts:81-114 | in whatever order the methods are called without a rejection, subscriptions follow the listeners |
| `PatternListeners.RunsStayInStep` | src/redis/redis.service.ts:81-114 | without rejections a pattern is subscribed, with exactly one callback, just when it has a listener |
| `PatternListeners.SubscriptionsFollowListeners` | src/redis/redis.service.ts:81-114 | in such runs set membership and the last command follow the listeners, and two subscribes always have an unsubscribe between them |
| `PatternListeners.MessagesAreDeliveredOnce` | src/redis/redis.service.ts:90-93 | a message reaches each registration exactly once |
| `PatternListeners.RegistrationsAre` | src/redis/redis.service.ts:85-107 | after any run a listener is registered once for each add less each effective removal |
| `PatternListeners.RejectionKeepsSetIff` | src/redis/redis.service.ts:94-99 | a rejection keeps the set right exactly when no other listener has joined |
| `PatternListeners.RejectionStrandsSecondListener` | src/redis/redis.service.ts:94-99 | two listeners join, the subscribe is rejected: the second stays without a subscription |
| `SiteHierarchy.BuildChildrenMap` | src/auth/utils/site-visibility.ts:42-53 | the Map gives the children of every site in list order |
| `SiteHierarchy.GetDescendants` | src/auth/utils/site-visibility.ts:56-62 | on an acyclic list the recursion ends, since a child has fewer sites below it |
| `SiteHierarchy.BuildSiteHierarchy` | src/auth/utils/site-visibility.ts:42-71 | every entry lists exactly the strict descendants of its site, each once |
| `SiteHierarchy.DescendantsAre` | src/auth/utils/site-visibility.ts:56-62 | a site is listed exactly when a chain of parents leads from it to the root of the listing |
| `SiteHierarchy.DescendantsDistinct` | src/auth/utils/site-visibility.ts:56-62 | no descendant is listed twice |
| `SiteHierarchy.AllowedSitesAreTheSubtreeIff` | src/prisma/prisma.service.ts:268-310 | the query returns only the site and its descendants, and all of them exactly when none is deeper than three levels |
| `SiteHierarchy.FifthInChainIsCut` | src/prisma/prisma.service.ts:296-306 | the fifth site of any chain lies below the first and is not returned |
| `SiteVisibility.VisibleMeans` | src/auth/utils/site-visibility.ts:80-108 | what a grant shows, said without the descendant map |
| `SiteVisibility.MemberSeesNoMoreThanRecords` | src/auth/utils/site-visibility.ts:199-220 | after reduction a member sees no site that none of the records shows alone |
| `SiteVisibility.MemberSeesUnionIff` | src/auth/utils/site-visibility.ts:199-220 | a member sees all that the records show exactly when the record the reduction keeps shows the own site of every SITE and SITE_GROUP record |
| `SiteVisibility.TwoSitesAreNotBothSeen` | src/auth/utils/site-visibility.ts:199-220 | of two SITE records at different sites only the later one's site is seen |
| `SiteVisibility.ResolveAccessForClient` | src/assets/tags/tags.service.ts:157-244 | the first record that admits to the tag's site, none exactly if no record does; the first record at all for a tag without a site |
| `SiteVisibility.AdmitsWhatItShows` | src/assets/tags/tags.service.ts:200-240 | with at most three levels a record admits to exactly what it shows, and a SELF record to its own site |
| `SiteVisibility.AdmitsNoMoreThanItShows` | src/assets/tags/tags.service.ts:200-240 | with deeper trees it admits to no more |
| `SiteVisibility.TagRuleIsRecordByRecord` | src/assets/tags/tags.service.ts:157-244 | without SELF records the tag rule grants a site exactly when some record alone shows it |
| `SiteVisibility.VisibleSitesAreGranted` | src/auth/utils/site-visibility.ts:199-220 | every site visible after reduction is granted by the tag rule |
| `ComplianceHistory.SubMonthsLandsInMonth` | src/stats/stats.service.ts:63-64 | clamping the day keeps the result in the month counted back to |
| `ComplianceHistory.ReportDatesAfterCutoff` | src/stats/stats.service.ts:63-64 | with more than one month every reported date is after the cutoff |
| `ComplianceHistory.CutoffIs` | src/stats/stats.service.ts:63-64 | the cutoff for several months is the start of the month so many back |
| `ComplianceHistory.ReportDatesAreMonthEnds` | src/stats/stats.service.ts:167-234 | later records are for consecutive earlier month ends |
| `ComplianceHistory.MergedContents` | src/stats/stats.service.ts:141-164 | the merged list is the history from the cutoff on and the latest inspection up to it |
| `ComplianceHistory.MergedTellsLatestTime` | src/stats/stats.service.ts:141-193 | for every date after the cutoff the first earlier inspection of the merged list has the time of the latest one in the full history |
| `ComplianceHistory.LatestAloneTellsLatestTimeIff` | src/stats/stats.service.ts:128-138 | with one month, where only the latest inspection is read, exactly when this still holds |
| `ComplianceHistory.LaterInspectionIsMissed` | src/stats/stats.service.ts:128-138 | an inspection made after the cutoff is missed |
| `ComplianceHistory.InspectionAtTheDateHides` | src/stats/stats.service.ts:128-138 | an inspection at the very date hides the one before it |
| `ComplianceHistory.CompliantIff` | src/stats/stats.service.ts:195-230 | an asset is compliant exactly until a full cycle has passed since its last inspection, and due later until a week before or half the cycle, whichever is later |
| `ComplianceHistory.ClassifyAssets` | src/stats/stats.service.ts:183-231 | the loop puts each asset that exists by the date in the bucket of its status |
| `ComplianceHistory.BucketSelects` | src/stats/stats.service.ts:183-231 | a bucket is the selection, in order, of the assets with its status |
| `ComplianceHistory.TotalsAgree` | src/stats/stats.service.ts:189-230 | totals are the sums of the buckets |
| `ComplianceHistory.BucketsPartition` | src/stats/stats.service.ts:183-231 | an asset is in the bucket its full history puts it in, and in no other |
| `ComplianceHistory.RecordPlacesRow` | src/stats/stats.service.ts:183-231 | the bucket of an asset in times: compliant until a cycle after its last inspection, due later until a week before or half the cycle, inspected from then on, never inspected without one |
| `ComplianceHistory.MergedRecordIsTrue` | src/stats/stats.service.ts:141-231 | after the cutoff the whole record equals the one made from the full histories |
| `ComplianceHistory.GetComplianceHistoryByMonth` | src/stats/stats.service.ts:59-238 | as many records as months, each for its date and, for several months, equal to the one from full data; every asset stands where the time since its last inspection puts it, by its own cycle, or the client's, or thirty days |
| `ReminderSchedule.AscIsSorted` | src/notifications/processors/client-notifications.processor.ts:768-774 | the groups reordered by strictly ascending percentage |
| `ReminderSchedule.MinimumIsSeven` | src/notifications/notification-types.ts:111-118 | the minimum cycle is seven days |
| `ReminderSchedule.PickGroup` | src/notifications/processors/client-notifications.processor.ts:202-213 | the most urgent group whose threshold falls on the day, none exactly if there is none |
| `ReminderSchedule.LesserThresholdCounts` | src/notifications/processors/client-notifications.processor.ts:796-810 | at the threshold the time left is the lesser of the days and the percentage of the cycle |
| `ReminderSchedule.ThresholdsAsDocumented` | src/notifications/notification-types.ts:24-73 | the days left at each threshold for long cycles and the part of the cycle left for short ones |
| `ReminderSchedule.OffsetsIncrease` | src/notifications/processors/client-notifications.processor.ts:791-811 | more urgent thresholds fall strictly later |
| `ReminderSchedule.RemindersGrowMoreUrgent` | src/notifications/processors/client-notifications.processor.ts:195-214 | over any sequence of daily runs reminders strictly grow in urgency, so no group is sent twice |
| `ReminderSchedule.SkippedOnlyForMoreUrgent` | src/notifications/processors/client-notifications.processor.ts:202-213 | a group is sent exactly when its day is run and no more urgent group falls on that day |
| `ReminderSchedule.Level4ADayAheadIff` | src/notifications/notification-types.ts:64-73 | the level 4 threshold falls at least 24 hours before the due date exactly from the minimum cycle on |
| `ReminderSchedule.NoGroupEverSkippedIff` | src/notifications/notification-types.ts:107-118 | no two groups ever share a day exactly for cycles of ten days or more |
| `ReminderSchedule.FillBuckets` | src/notifications/processors/client-notifications.processor.ts:194-214 | each bucket holds, in order, the assets whose group of the day it is, counted from the latest inspection or else the creation, with the asset's own cycle or else the client's |
| `ReminderSchedule.OneBucketADay` | src/notifications/processors/client-notifications.processor.ts:194-214 | an asset is in at most one bucket, and in one exactly when a threshold of its falls on the day |
| `QuestionQuery.BuildOrClauses` | src/products/asset-questions/asset-questions.service.ts:384-426 | the alternatives together say exactly that a condition holds of the asset |
| `QuestionQuery.MetadataHoldsIff` | src/products/asset-questions/asset-questions.service.ts:404-424 | a metadata condition holds exactly if it mentions a pair of the asset's metadata or of its product's |
| `QuestionQuery.TypesAsked` | src/products/asset-questions/asset-questions.service.ts:364-376 | the type clause lets through exactly the compatible types |
| `QuestionQuery.CountOfQuestion` | src/products/asset-questions/asset-questions.service.ts:338-362 | the joined rows that pass are the product of matched conditions, client rows and surviving customizations |
| `QuestionQuery.CountIsMatchedConditions` | src/products/asset-questions/asset-questions.service.ts:338-443 | with unique keys the COUNT of a question is its number of matched conditions, or zero if another clause excludes it |
| `QuestionQuery.HavingIff` | src/products/asset-questions/asset-questions.service.ts:439-443 | the COUNT equals the total exactly when nothing excludes the question and all its conditions, at least one, are matched |
| `QuestionQuery.FindQuestionIdsByAsset` | src/products/asset-questions/asset-questions.service.ts:294-449 | an id is returned exactly when the question is active, top-level, type-compatible, not disabled, and has conditions that all hold |
| `RouteOrder.FindIndex` | src/assets/inspection-routes/inspection-routes.service.ts:191-194 | a position of the id, or -1 exactly if it is absent |
| `RouteOrder.ReorderPoints` | src/assets/inspection-routes/inspection-routes.service.ts:181-232 | the emitted updates are those of the moved sequence; a route without points is the TypeError |
| `RouteOrder.MoveRenumbers` | src/assets/inspection-routes/inspection-routes.service.ts:219-232 | applying just the emitted updates numbers the points 0 to n-1 in the new sequence |
| `RouteOrder.NoUpdatesIff` | src/assets/inspection-routes/inspection-routes.service.ts:225-232 | nothing is emitted exactly when the sequence is numbered already |
| `RouteOrder.OthersKeepTheirSequence` | src/assets/inspection-routes/inspection-routes.service.ts:196-217 | apart from the moved point the sequence is the old one |
| `RouteOrder.TargetSplitsOthers` | src/assets/inspection-routes/inspection-routes.service.ts:199-217 | on a sorted list the others are split by the target, equal orders going in front only when moving forward |
| `RouteOrder.ReadBack` | src/assets/inspection-routes/inspection-routes.service.ts:186-189 | reading a numbered route back in order gives this sequence and no other |
| `RouteOrder.LandsAt` | src/assets/inspection-routes/inspection-routes.service.ts:199-214 | on a numbered route, where any real target lands |
| `RouteOrder.LandsAtClampedTarget` | src/assets/inspection-routes/inspection-routes.service.ts:199-214 | a whole-number target is reached exactly, clamped to the route |
| `RouteOrder.FoundWhereItLanded` | src/assets/inspection-routes/inspection-routes.service.ts:191-197 | the next call finds the point where it landed |
| `RouteOrder.RepeatingEmitsNothing` | src/assets/inspection-routes/inspection-routes.service.ts:199-232 | repeating a move changes and emits nothing |
| `RouteOrder.MovingBackRestores` | src/assets/inspection-routes/inspection-routes.service.ts:199-232 | moving the point back restores the route |
| `RouteOrder.MovesRequestedPointIff` | src/assets/inspection-routes/inspection-routes.service.ts:191-197 | the point moved is the one asked for exactly when the route has it |
| `RouteOrder.UnknownIdMovesLast` | src/assets/inspection-routes/inspection-routes.service.ts:192-197 | the failing input: an unknown id moves the last point |
| `RouteOrder.UnknownIdEmitsNothingIff` | src/assets/inspection-routes/inspection-routes.service.ts:191-232 | a call with an unknown id leaves the route alone exactly when it is numbered and the target is beyond the last point but one |
| `SerialNumbers.ParseOfMatch` | src/assets/tags/dto/bulk-generate-signed-tag-url.dto.ts:7-15 | an accepted string parses into a prefix that does not end in a digit and at least one digit |
| `SerialNumbers.ParseOfJoined` | src/assets/tags/tags.service.ts:486-493 | parsing undoes joining |
| `SerialNumbers.PaddedValueIsSelf` | src/assets/tags/tags.service.ts:505-511 | padding the numeral of a string's value gives back the string, leading zeros included |
| `SerialNumbers.SerialAtMeans` | src/assets/tags/tags.service.ts:505-513 | the i-th serial parses to the same prefix and the value start+i, also past the pad width; the first is the start string |
| `SerialNumbers.SerialsDiffer` | src/assets/tags/tags.service.ts:505-513 | different counts give different serials |
| `SerialNumbers.AcceptsOwnRangeIff` | src/assets/tags/dto/bulk-generate-signed-tag-url.dto.ts:29-64 | from a start to its own i-th serial a range is accepted exactly for fewer than a hundred thousand steps |
| `SerialNumbers.RefusedRanges` | src/assets/tags/dto/bulk-generate-signed-tag-url.dto.ts:34-56 | ranges across prefixes and backwards are refused |
| `SerialNumbers.EndsWithEndIff` | src/assets/tags/tags.service.ts:498-513 | the last serial is the end string exactly when the end has as many digits as the start, or more and no leading zero |
| `SerialNumbers.RangeMayEndElsewhere` | src/assets/tags/tags.service.ts:498-513 | the accepted range from A1 to A007 ends with A7 |
| `SerialNumbers.SerialsToSign` | src/assets/tags/tags.service.ts:495-531 | an accepted range gives end-start+1 serials, between 1 and 100000, pairwise different, each acceptable itself; a manual list is signed as it is |
| `GroupSaga.Partition` | src/auth/keycloak/keycloak.service.ts:346-362 | successes and failures in the order of the groups |
| `GroupSaga.Keycloak.AllSettled` | src/auth/keycloak/keycloak.service.ts:336-344 | whatever order concurrent calls take effect in, membership changes by exactly those that did not fail |
| `GroupSaga.Keycloak.Transactional` | src/auth/keycloak/keycloak.service.ts:326-414 | succeeds exactly if no call fails; otherwise reports failures and rollback failures, with the membership that results |
| `GroupSaga.FinalMeans` | src/auth/keycloak/keycloak.service.ts:336-394 | group by group: a group whose call succeeded is changed if nothing failed, else exactly if its rollback failed; all others are left alone |
| `GroupSaga.AllOrReported` | src/auth/keycloak/keycloak.service.ts:317-325 | for a user in none of the groups to add, or all of those to remove: everything happens, or exactly the reported rollback failures do |
| `GroupSaga.FailureLeavesRollbackFailuresIff` | src/auth/keycloak/keycloak.service.ts:371-396 | for any user, this holds exactly if the user was where each rolled back call took them from |
| `GroupSaga.AlwaysRestoredIff` | src/auth/keycloak/keycloak.service.ts:425-513 | it holds whatever fails exactly when there is one group at most or the user starts untouched by all of them |
| `GroupSaga.RollbackGoesTooFar` | src/auth/keycloak/keycloak.service.ts:376-383 | failures under which the rollback undoes a membership the transaction did not bring about |

## Left out

- Role administration (`createRole`, `updateRole`, `setScope` and the role caches): its invariants are one table and one cache entry each and would only add easier members.
- `generatePassword`, `isSingleSiteUser`, `filterAssetsByVisibleSites`: short selections without a strong specification.
- Invitation `resend`, `validateCode`, listings, and the text of emails: reads and presentation.
- Controllers, modules, other DTOs, templates, seed scripts, health and landing pages: wiring and I/O.
- Row-level security policies and raw report SQL: the policies are not part of this model; what a caller sees is a parameter.
- JWT, JWKS and HMAC signatures: done by libraries. The model stops at the serial numbers that are signed.
- Legacy migration and demo data: one-off or randomized.
- Leaf comparisons of alert conditions: the number and date arms compare in opposite directions, so there is no single meaning to prove against.
- Races between the statements of one database transaction: operations on the tables are atomic.
- RunsAreCoherent: is about answers to 'user' requests, on ids that are nonempty, not "default" and free of bars, and contexts that name a site only with a client; answers to 'system' and 'elevated' requests, which also depend on tables that are not part of this model, may be anything. The members service reads its own client's rows.
- WriteKeepsIff: is exact for the lists of records a request can be decided on; after a promotion two lists can still lead to the same answer, when the roles involved are the same. For the sync `SyncLosesAnswerIff` is exact for the answers.
- FactorySucceedsAtMostOnce: a rejected cache write is taken not to have stored the value, and time to live appears only as deletion of entries at any time.
- Lower-casing of emails is modelled for ASCII letters only.
- Time zones and daylight saving: a day has 86400000 milliseconds, and months are whole days long.
- GetComplianceHistoryByMonth: months are integers; its schema lets fractions through. Both queries are taken to see the same assets and inspections.
- Floating-point rounding of thresholds: percentages are exact.
- SerialsToSign: numbers are exact, so serial numbers above 2^53, where JavaScript numbers lose precision, are not captured.
- FindQuestionIdsByAsset: condition values are arrays of strings, as the schema for writing them demands; how a state is abbreviated and how metadata is validated are parameters.
- Paging and logging of the Keycloak sync: each synced user is one step.
- Which invitation or access row a listing returns first beyond the stated order: any order is allowed.
