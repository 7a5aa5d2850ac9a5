# Groups service: verified model

The groups service keeps one fact in two places: rows for groups and memberships in a
relational store, and authorization tuples in an external tuple store. The two are written one
after the other without a common transaction, so every request can stop half way. This project
models the code that keeps the two together, and proves what it keeps and what it repairs.

- **Reconciliation.** `Server.Reconcile` is an imperative model of `Reconcile`, with its real loops
  over the listed rows, its key-string maps and its calls to the store, the tuple store, the
  identity directory and the publisher, each of which may fail. Every client keeps a ghost history
  of what became of its calls, so a run fails exactly when one of its own calls did. Between any
  two calls other requests may run: a ghost `Scope` names the groups and (group, member) pairs they
  may touch, and the contract holds for everything outside it. `Progress` states what a run means: every
  difference from the starting world is a difference towards a goal that the starting world
  determines (`Goal`), and no row that stays loses its tuple. From this follow convergence,
  recovery from any number of interruptions, exact accounting, idempotence and locality.
- **Requests.** `CreateGroup`, `UpdateGroup`, `AddMember`, `RemoveMember` and `DeleteGroup` are
  methods proved equal to functions of the old world and of what became of each call: carried out,
  refused without effect, or carried out with the reply lost (`Sagas`); their contracts also say
  which calls are made, and that the outcomes acted on are those the clients recorded. `Answers`
  says of each request exactly when it gets which answer and what the world is then. `Agreement`,
  `Ordering` and `Replays` prove what runs of requests and reconciliations keep, and name exactly
  the combinations of failures that break it; `FlawlessRuns` draws the conclusions for runs in
  which nothing fails. `Interleavings` takes requests apart into single calls and shows that any
  interleaving of them is interference that a reconciliation allows for.
- **Listings.** `Query` compiles clauses, placeholders and arguments as the store does and gives
  them their relational meaning; `Keyset` says what a page is and what following cursors returns
  while rows come and go; `Store` connects both for the four listings, the join included.
- **Texts.** Tuple texts, key strings, identifier texts (RFC 9562, section 4) and page tokens
  (base64url, RFC 4648, section 5, unpadded) are byte strings, so that look-ups by key string are
  proved to be look-ups of tuples.

The files follow the program: `Uuids`, `Base64Url`, `Pagination`, `Schema`, `Tuples`, `Worlds` hold
the data; `Keyset`, `Query`, `Store`, `Clients`, `ReconciliationStates`, `Server` the operations;
`Goal`, `Progress`, `Reconciling`, `RunSteps`, `Sweeps` the theory of a reconciliation run; `Sagas`,
`Answers`, `Histories`,
`Agreement`, `Ordering`, `Replays`, `FlawlessRuns`, `Interleavings`, `Limits` that of runs of the
whole service.

## What does not hold of the code

- Ordering safety takes group creations whose tuple write either happens or leaves no trace. If the
  write happens, its reply is lost and the row is taken back, two tuples outlive their group
  (`Limits.LostReplyOutlivesGroup`); `Ordering.StepSafe` shows that this is the only way.
- The deleted event of a group does not always find a listener that knows none of its memberships.
  A removal whose tuple write fails is never announced, and a later deletion announces only rows
  (`Replays.FailedRemovalOutlivesGroup`). `Replays.DeletionClosedExactly` gives the exact condition,
  whichever removals arrive, and `Replays.DeliveredDeletionClosed` what it comes to when all do.
- An `org` tuple whose object is a non-canonical text of a live group's identifier counts as backed
  and stays (`Limits.NonCanonicalOrgStays`); `Sweeps.OrgTuplesAfterRun` says exactly which there are.
- Lost `admin` tuples are not made again (`Limits.LostAdminStaysLost`): `Sweeps.AdminTuplesAfterRun`.
- A reconciliation panics when the second listing shows a membership whose group the first did not
  (`RunSteps.GroupBetweenListings`). Such a group is always one that a running request touches, so
  with only pairs in scope, and alone, there is no panic; if no call fails, it panics exactly then.
- One admin tuple whose user does not parse stops `DeleteGroup` before it changes anything
  (`Limits.UnreadableAdmin`); with every call answered, nothing else does
  (`Limits.DeletionNeedsReadableAdmins`).

## Model

| member | source | states |
|---|---|---|
| Progress.Recovery | internal/server/reconciliation.go:27-96 | However many runs were cut off, at whatever calls, the next complete run leaves the tuples, memberships and groups that one complete run from the first state would have left |
| Progress.CompleteRunReachesGoal | internal/server/reconciliation.go:27-96 | A completed undisturbed run from any tuple set leaves exactly the goal set, memberships of existing identities only and the same groups, so nothing depends on listing order |
| Progress.ProgressIsTowardsGoal | internal/server/reconciliation.go:39-94 | Wherever a run stops, no tuple differs from the goal that did not differ at the start |
| Progress.ProgressIsTransitive | internal/server/reconciliation.go:27-96 | Two interrupted runs in a row amount to one interrupted run |
| Progress.InterruptedRunsProgress | internal/server/reconciliation.go:27-96 | The same for any number of interrupted runs |
| Progress.GoalSetIsStable | internal/server/reconciliation.go:266-304 | Moving towards the goal does not move the goal |
| Progress.CompleteRunSettles | internal/server/reconciliation.go:27-96 | After a completed run nothing is left to repair |
| Progress.RelyKeepsProgress | internal/server/reconciliation.go:28-96 | What other requests do inside their scope does not undo a run's progress outside it |
| Goal.GoalMembership | internal/server/reconciliation.go:266-304 | The goal set holds exactly the tuples that the backing rules call for or tolerate |
| Sweeps.ForeignObjectsKept | internal/server/reconciliation.go:249-250 | No run, complete or cut off, whoever else runs, adds or deletes a tuple whose object is no group, an organization membership for one |
| Sweeps.ForeignUsersAndRelationsKept | internal/server/reconciliation.go:266-277 | Nor one whose user is not of the kind its relation takes, nor one of a relation other than org, member and admin |
| Sweeps.OrgTuplesAfterRun | internal/server/reconciliation.go:281-287 | After a completed run an org tuple of an organization on a group is there if and only if the object parses to a group with that organization, and it was there or its object is the canonical text |
| Sweeps.MemberTuplesAfterRun | internal/server/reconciliation.go:288-290 | A member tuple of an identity on a group is there if and only if it is the canonical tuple of a membership whose identity exists |
| Sweeps.AdminTuplesAfterRun | internal/server/reconciliation.go:291-300 | An admin tuple of an identity on a group is there if and only if it was there, on the canonical text of a group, for a user that parses to an existing identity |
| Server.Server.Reconcile | internal/server/reconciliation.go:27-96 | Fails exactly when one of its calls failed, and then only one did; otherwise it completes, converged outside the scope, exactly if every listed membership has its group listed, and panics exactly if not, which takes a group in scope; progress and accepted writes always; exact report alone; one removal event for each row it removed, whoever else runs; at most one removed row not followed up when cut off alone |
| Server.Server.RepairListed | internal/server/reconciliation.go:37-95 | The same from the two listings on |
| Server.Server.ReconcileOnce | internal/server/reconciler.go:35-52 | A tick completes exactly when no call failed, and reports repaired drift exactly when it changed tuples or memberships |
| Server.Server.ReadTuples | internal/server/reconciliation.go:209-229 | Fails exactly on an unanswered page; otherwise the pages joined are the matching tuples, each once, in spite of requests elsewhere |
| Server.Server.TupleExists | internal/server/reconciliation.go:196-207 | Comparing key strings decides true membership of the tuple |
| Server.Server.IdentityExists | internal/server/reconciliation.go:231-240 | Not found means absent; an error exactly when the lookup was not answered |
| Server.Server.EnsureTuple | internal/server/reconciliation.go:166-179 | Afterwards the tuple is there, written counted only if it was missing; on failure the world is as before or has the tuple |
| Server.Server.DeleteTupleIfPresent | internal/server/reconciliation.go:181-194 | Afterwards the tuple is gone, deletion counted only if it was there; on failure the world is as before or lacks it |
| Server.Server.ReadValidGroupAdmins | internal/server/reconciliation.go:98-118 | Exactly the admin tuples on the group's object whose user parses to an identity that exists |
| Server.Server.RepairGroups | internal/server/reconciliation.go:39-52 | After the first loop every listed group has its org tuple and exactly the valid admin tuples are held |
| Server.Server.RepairGroup | internal/server/reconciliation.go:39-52 | The same for one group; an error leaves the run in a state it may stop in |
| Server.Server.RepairMemberships | internal/server/reconciliation.go:54-88 | Fails exactly when a call failed; otherwise settles every listed membership, or panics exactly when a membership's group was not listed |
| Server.Server.RepairMembership | internal/server/reconciliation.go:54-88 | One membership is settled: tuple ensured, or row, key and tuple removed and the removal published |
| Server.Server.RemoveOrphan | internal/server/reconciliation.go:62-80 | Row, held key and tuple of an orphan go, in this order, and one event is published about a pair not announced before; a row already gone is skipped |
| Server.Server.StaleTuples | internal/server/reconciliation.go:247-255 | Picks exactly the managed tuples read that the run cannot back, each once |
| Server.Server.DeleteStaleGroupTuples | internal/server/reconciliation.go:242-264 | One batched delete, none when nothing is stale, that leaves the goal and counts what it deleted |
| Reconciling.SweepExact | internal/server/reconciliation.go:242-304 | After both loops, of the tuples found the sweep keeps exactly those of the goal |
| Reconciling.SweepConverges | internal/server/reconciliation.go:242-264 | Deleting what the sweep picks completes the run |
| RunSteps.SweepDone | internal/server/reconciliation.go:242-264 | The sweep's count is exact and its write deletes only present, distinct tuples outside the goal |
| RunSteps.SnapshotListed | internal/server/reconciliation.go:28-37 | Two listings with requests running around them agree with the start wherever no request went |
| RunSteps.RunStarts | internal/server/reconciliation.go:28-38 | The listings establish the loops' invariants and the scan counts |
| Reconciling.HeldOrgBacked | internal/server/reconciliation.go:281-287 | The org test on the snapshot is the org test on the tables, for untouched groups |
| Reconciling.HeldMemberBacked | internal/server/reconciliation.go:288-290 | The member test on held keys is having a live membership, for untouched pairs |
| Reconciling.HeldAdminBacked | internal/server/reconciliation.go:291-300 | The admin test is having been there, on a live group's canonical object, for an existing identity |
| RunSteps.CountWritten | internal/server/reconciliation.go:44-46 | Tuples written is the size of the final set minus the initial one |
| RunSteps.CountDeleted | internal/server/reconciliation.go:74-76 | Tuples deleted is the size of the initial set minus the final one |
| RunSteps.CountRemoved | internal/server/reconciliation.go:67-69 | Orphans removed is the drop in membership rows |
| RunSteps.PublishOneMore | internal/server/reconciliation.go:151-160 | One removal event for each removed row and no other event |
| RunSteps.EveryWriteShrinksDifference | internal/server/reconciliation.go:166-194 | Every write of an undisturbed run takes at least one difference to the goal away and adds none |
| RunSteps.WrittenIsNeverDeleted | internal/server/reconciliation.go:166-194 | No tuple is both written and deleted in one undisturbed run |
| RunSteps.RequestIsGood | internal/server/reconciliation.go:166-194 | Writes add absent tuples and delete present, distinct ones; from a settled world there is no write at all |
| RunSteps.SecondRunReportsScanOnly | internal/server/reconciliation.go:37-95 | A run from a settled world changes nothing and reports only its scan counts |
| RunSteps.CountsTell | internal/server/reconciler.go:40-42 | The three repair counts are all zero exactly when tuples and memberships are unchanged |
| RunSteps.CutOffAfterRow | internal/server/reconciliation.go:63-73 | Cut off between row and event, a run leaves that one row to follow up and no other |
| RunSteps.StoppedAtRemoval | internal/server/reconciliation.go:63-66 | A removal that failed, with or without effect, leaves a state a run may stop in |
| RunSteps.UnlistedGroupsTouched | internal/server/reconciliation.go:28-57 | A listed membership without its group listed is one of a group that a running request touches |
| RunSteps.GroupBetweenListings | internal/server/reconciliation.go:28-57 | A group and its membership created between the two listings are such |
| RunSteps.AnnounceOrphan | internal/server/reconciliation.go:151-160 | Under interference too, every event is about a listed orphan, and no two about one pair |
| ReconciliationStates.ReconciliationState.constructor | internal/server/reconciliation.go:126-139 | Holds the listed groups by identifier and exactly the key strings of the listed memberships |
| ReconciliationStates.ReconciliationState.AddAdmin | internal/server/reconciliation.go:141-143 | Holds one more admin tuple |
| ReconciliationStates.ReconciliationState.AddAdmins | internal/server/reconciliation.go:145-149 | Holds all of them |
| ReconciliationStates.ReconciliationState.RemoveMembership | internal/server/reconciliation.go:162-164 | Removing one membership's key removes no other membership |
| ReconciliationStates.ReconciliationState.BackedExact | internal/server/reconciliation.go:279-304 | Looking up key strings answers exactly whether the tuple itself is backed |
| ReconciliationStates.MemberKeyHeld | internal/server/reconciliation.go:288-290 | A held member key string names a held membership's tuple and nothing else |
| ReconciliationStates.AdminKeyHeld | internal/server/reconciliation.go:291-300 | A held admin key string names a held admin tuple and nothing else |
| ReconciliationStates.KeysWithout | internal/server/reconciliation.go:162-164 | Deleting one key from the map deletes exactly one pair's membership |
| Tuples.KeyStringExact | internal/server/reconciliation.go:333-335 | If one tuple is free of bars, equal key strings mean equal tuples |
| Tuples.MemberKeyExact | internal/server/reconciliation.go:288-290 | A member tuple's key string is shared with no other tuple |
| Tuples.AdminKeyExact | internal/server/reconciliation.go:291-300 | An accepted admin tuple's key string is shared with no other admin tuple, whatever form its user text has |
| Tuples.ConstructedTuplesHaveNoBars | internal/server/tuples.go:55-65 | No tuple the service writes contains a bar |
| Tuples.ConstructedTuplesAreManaged | internal/server/reconciliation.go:266-277 | Every tuple the service writes is one its sweep looks at |
| Tuples.TuplesInjective | internal/server/tuples.go:55-65 | A tuple determines the identifiers it was made from |
| Tuples.GroupObjectReadBack | internal/server/reconciliation.go:321-331 | Parsing a printed group object gives the identifier back |
| Tuples.IdentityObjectReadBack | internal/server/authz.go:188-202 | Parsing a printed identity object gives the identifier back |
| Server.Server.CreateGroup | internal/server/groups.go:37-56 | Row, then both tuples in one write; a failed write takes the row back; world and result are `Sagas.CreateGroupSaga` of the outcomes recorded for exactly these calls, which `Answers.CreateAnswer` spells out |
| Server.Server.WriteGroupCreateTuples | internal/server/tuples.go:20-26 | Org and admin tuple together or not at all |
| Server.Server.UpdateGroup | internal/server/groups.go:110-130 | Missing group, no field to set, clash, or the row updated, as the recorded calls had it; `Answers.UpdateAnswer` spells it out |
| Server.Server.AddMember | internal/server/memberships.go:32-69 | Row, tuple, event; a row already there is returned; every early exit changes nothing and is due to a recorded answer; `Answers.AddAnswer` and `Answers.AddReturnsStoredMembership` spell it out |
| Server.Server.WriteNewMember | internal/server/memberships.go:56-66 | Tuple and event of a new row; a failed tuple write takes the row back |
| Server.Server.ValidateMemberIdentity | internal/server/memberships.go:163-179 | Accepts exactly an existing identity of the named type, no runner, that belongs to the organization |
| Server.Server.RemoveMember | internal/server/memberships.go:80-111 | Row, tuple, event, with no compensation, as the recorded calls had it; `Answers.RemoveAnswer` and `Answers.RemovedIsGone` spell it out |
| Server.Server.DeleteGroup | internal/server/groups.go:138-179 | Tuples of the group in one batch, then row and memberships, then the events, as the recorded calls had it; stops before its first change exactly when a read was not answered or an admin does not parse |
| Server.Server.DeleteListedGroup | internal/server/groups.go:155-179 | The changes of a deletion, given the complete listings |
| Server.Server.DeleteGroupTuples | internal/server/tuples.go:28-39 | Deletes the org tuple, every listed admin tuple and every listed membership tuple, all or nothing |
| Server.Server.AnnounceDeletion | internal/server/groups.go:163-177 | One removal event per deleted membership in listing order, then the deleted event |
| Server.Server.ListGroupAdmins | internal/server/authz.go:149-173 | Succeeds if and only if every page was answered and every user parses; then returns the users of all the group's admin tuples |
| Server.Server.ListAllMembers | internal/server/memberships.go:147-161 | Terminates; succeeds exactly when every page was answered, and then returns every membership of the group in strictly increasing identifier order |
| Server.AdminsOfListing | internal/server/authz.go:162-168 | Users parsed page by page are the users of the group's admin tuples |
| Server.GroupTuplesListed | internal/server/tuples.go:28-36 | The listed batch is the set of tuples of the group |
| Histories.RunKeepsSchema | migrations/0001_init.sql:6-30 | In every run, with any failures, the uniqueness and reference constraints hold in every state |
| Histories.StepKeepsSchema | migrations/0001_init.sql:15-29 | No request and no reconciliation breaks a constraint |
| Histories.MemberTypeInvariant | internal/server/memberships.go:163-179 | In every reachable state a membership whose identity exists has that identity's type and is no runner |
| Histories.RepeatedAddReturnsRequestedType | internal/server/memberships.go:43-55 | An addition that finds a row returns one of the requested pair and type |
| Answers.CreateAnswer | internal/server/groups.go:37-56 | Success exactly if nothing of the group was taken and both calls were answered; then exactly the row, its org tuple and the caller's admin tuple are new; already exists exactly if the identifier, the name or the external identifier was taken, and then nothing changes |
| Answers.CreationMakesCallerAdmin | internal/server/tuples.go:20-26 | A success makes the caller admin, and no creation, however it ends, makes anyone else admin of anything |
| Answers.UpdateAnswer | internal/server/groups.go:110-130 | Exactly when an update is not found, invalid, clashing or successful; on success the stored row is the returned one, with exactly the named fields set |
| Answers.UpdateChangesOneRow | internal/store/store.go:147-170 | However it ends, an update changes no other row, tuple or event, and all named fields or none |
| Store.OnlyNamesClash | migrations/0001_init.sql:15-16 | Of the constraints only the name of another group of the organization and source can stand in the way of an update |
| Answers.AddAnswer | internal/server/memberships.go:32-58 | Exactly when an addition is not found, invalid or successful: admitted, of the identity's own type, and the row reread or the new row's tuple written |
| Answers.AddReturnsStoredMembership | internal/server/memberships.go:53-68 | The membership returned is one in the table: for a known pair the old one with nothing changed, for a new one the one asked for with its tuple and one event |
| Answers.RemoveAnswer | internal/server/memberships.go:80-110 | An absent membership is a success; otherwise exactly if row and tuple calls were answered; not found is about the group only |
| Answers.RemovedIsGone | internal/server/memberships.go:92-110 | After a success the membership is gone, and its tuple if they agreed before; if it was there, exactly row, tuple and one event changed |
| Answers.DeleteAnswer | internal/server/groups.go:138-179 | Success exactly if the group was there, every call was answered and every admin user parses; an unreadable admin leaves the world as it was |
| Answers.DeletedIsGone | internal/store/store.go:172-211 | After a success the group and all its memberships are gone and no others |
| Answers.DeletionEvents | internal/server/groups.go:163-177 | One removal with group, type and member for each membership, then the deleted event with the group's organization |
| Answers.DeletedTuples | internal/server/tuples.go:28-39 | Exactly the org tuple, the members' tuples and the admins' canonical tuples of the group go |
| Answers.NothingOfGroupIsLeft | internal/server/groups.go:145-161 | From an agreeing, anchored world no org, admin or member tuple of the group is left |
| Worlds.EffectsKeepSchema | migrations/0001_init.sql:6-30 | A statement the database accepts keeps every constraint, the cascade included |
| Agreement.AgreementInvariant | internal/server/groups.go:37-52 | Without drifting failures every state of every run has org and member tuples exactly for its rows |
| Agreement.RequestFromAgreement | internal/server/memberships.go:43-59 | From agreement, a request ends in agreement if and only if its calls avoided the drifting combinations |
| Agreement.CreateFromAgreement | internal/server/groups.go:37-52 | A creation drifts exactly when row and tuples were left one without the other |
| Agreement.AddFromAgreement | internal/server/memberships.go:43-59 | An addition drifts exactly when row and tuple were left one without the other |
| Agreement.RemoveFromAgreement | internal/server/memberships.go:92-101 | A removal drifts exactly when the row went and the tuple did not |
| Agreement.DeleteFromAgreement | internal/server/groups.go:145-161 | A deletion drifts exactly when the tuples went and the row did not |
| Agreement.TuplesOfGroupExact | internal/server/tuples.go:28-36 | The deletion's batch has the group's own org tuple, its listed admins' and its members' tuples and no others |
| Agreement.ReconciliationRestoresAgreement | internal/server/reconciliation.go:27-96 | From any world at all, a completed reconciliation ends in agreement |
| Agreement.PartialReconciliation | internal/server/reconciliation.go:39-94 | A reconciliation cut off anywhere bares no row and leaves no org tuple stale that was not before |
| Agreement.CutOffLeavesOneStalePair | internal/server/reconciliation.go:63-73 | From agreement, a reconciliation cut off anywhere leaves at most one member tuple without its row |
| Agreement.NewDriftHasCause | internal/server/memberships.go:56-59 | A drift that appears in a step is one that the step's failed combination is named for |
| Agreement.DriftHasCulprit | internal/server/groups.go:49-52 | Every drift a run ends with comes from one step of it: a failed compensation, a deletion stopped before its row, a removal stopped before its tuple |
| Ordering.OrderingSafety | internal/server/groups.go:145-161 | In every state of every run, an org or admin tuple refers to a group that has its row, and is the one this service writes |
| Ordering.StepSafe | internal/server/groups.go:37-52 | A step keeps that if and only if it is not a creation whose write succeeded unheard and whose row was taken back |
| Ordering.BatchHoldsAnchoredTuples | internal/server/tuples.go:28-39 | Deletion clears every org and admin tuple of the group before its row goes |
| Ordering.RequestWritesAreStrict | internal/server/tuples.go:20-49 | In an agreeing world every request writes only absent tuples and deletes only present ones |
| Replays.EventReplay | internal/server/groups.go:163-177 | While every step is heard, the delivered events fold to exactly the memberships, and every deleted event finds its group's memberships taken back |
| Replays.ReplayCovers | internal/server/memberships.go:56-66 | As long as additions are heard, the memberships are a subset of the replay, whatever else fails |
| Replays.StepHeard | internal/server/memberships.go:99-108 | A step keeps the replay exact if and only if its change was announced and delivered |
| Replays.AddHeard | internal/server/memberships.go:56-66 | An addition keeps the replay exact exactly when the row it leaves was announced and the event arrived |
| Replays.RemoveHeard | internal/server/memberships.go:92-108 | A removal keeps the replay exact exactly when the row it drops was announced and the event arrived; it never uncovers a membership |
| Replays.DeleteHeard | internal/server/groups.go:156-172 | A deletion keeps the replay exact exactly when every row it drops was announced and the events arrived; it never uncovers a membership |
| Replays.ReconcileHeard | internal/server/reconciliation.go:63-77 | A reconciliation, cut off or not, keeps the replay exact exactly when every removed row was announced and the event arrived |
| Replays.DeletionClosedExactly | internal/server/groups.go:163-177 | Whichever removals arrive, the deleted event finds the listener knowing none of the group exactly when every membership it knew of was told to be gone |
| Replays.DeliveredDeletionClosed | internal/server/groups.go:163-177 | When all removals arrive, exactly when it knew no more of the group than there was |
| Replays.FailedRemovalOutlivesGroup | internal/server/memberships.go:99-101 | After a removal whose tuple write failed, a flawless deletion still leaves the listener believing in that membership |
| FlawlessRuns.FlawlessRunIsHeard | internal/server/memberships.go:56-66 | In a run in which every call is answered and every event arrives, every step is heard and none drifts |
| FlawlessRuns.FlawlessRun | internal/server/groups.go:133-180 | From the empty world, such a run keeps agreement, anchored tuples, member types, an exact replay and closed deletions in every state |
| FlawlessRuns.CompensatedRun | internal/server/memberships.go:56-66 | From the empty world, the memberships are always a subset of the replay if additions are not inserted unheard, are compensated and are announced, whatever else fails |
| Limits.LostReplyOutlivesGroup | internal/server/groups.go:49-52 | A creation whose write succeeded unheard and whose row was taken back leaves exactly its two tuples |
| Limits.NonCanonicalOrgStays | internal/server/reconciliation.go:281-287 | An org tuple on the URN text of a live group's identifier is never swept |
| Limits.LostAdminStaysLost | internal/server/reconciliation.go:98-118 | A lost admin tuple of a live group and identity is not made again |
| Limits.DeletionNeedsReadableAdmins | internal/server/authz.go:162-166 | With every call answered, a deletion succeeds if and only if all users of the group's admin tuples parse, and otherwise changes nothing |
| Limits.UnreadableAdminStopsDeletion | internal/server/groups.go:145-148 | Whatever becomes of the calls, one user that does not parse stops the deletion before its first change |
| Limits.UnreadableAdmin | internal/server/authz.go:192-202 | Such a tuple, which the sweep manages all the same |
| Interleavings.RequestUnderRely | internal/server/memberships.go:43-101 | However it fails, a request changes nothing outside the group or pair it names |
| Interleavings.CallsUnderRely | internal/server/reconciliation.go:28-96 | Any interleaving of single calls of any requests in flight amounts to the interference that the contract of `Reconcile` allows |
| Interleavings.CallKeepsToScope | internal/server/groups.go:37-161 | Every call that a request may make, whatever it read and however long ago, keeps to the scope of what it names |
| Interleavings.ScopesAreTight | internal/server/memberships.go:43-101 | A scope holds the one group or pair that the request names and nothing else |
| Interleavings.BatchOfAnyListing | internal/server/tuples.go:28-39 | A deletion's batch from any listing, stale or mixed, is one of these calls |
| Interleavings.RequestIsCalls | internal/server/memberships.go:43-111 | Every request, wherever it stops, is a sequence of these calls |
| Interleavings.CallUnderRely | internal/server/reconciliation.go:28-96 | A call that keeps to the scope, at whatever moment, changes nothing a run relies on |
| Interleavings.GroupLocality | internal/server/reconciliation.go:39-46 | After a completed run among requests, an untouched group has its org tuple, and no other, exactly if it has its row |
| Interleavings.PairLocality | internal/server/reconciliation.go:54-88 | After a completed run among requests, an untouched pair has its row exactly if its identity exists, and its tuple exactly if it has its row |
| Keyset.TraversalAscends | internal/store/query_helpers.go:48-115 | Following cursors while rows come and go, identifiers strictly increase over all pages |
| Keyset.ReturnedExactlyOnce | internal/store/query_helpers.go:48-115 | A row that matches throughout a complete traversal is returned exactly once |
| Keyset.UnchangedTraversal | internal/store/query_helpers.go:48-115 | With no change, the pages joined are the whole matching table in order |
| Keyset.FirstOfUnique | internal/store/query_helpers.go:65-66 | Filter, order and limit determine the page |
| Keyset.FewerAbove | internal/server/memberships.go:147-161 | Every page that promises another leaves strictly fewer matching rows above its cursor |
| Query.AppendClause | internal/store/query_helpers.go:41-46 | The new placeholder is bound to the new argument and the old clauses keep their meaning |
| Query.BuildListEntitiesQuery | internal/store/query_helpers.go:48-69 | Placeholders are exactly $1 to $n, each bound to its argument; the rows selected are those of the clauses above the cursor; the limit looks one row ahead |
| Query.ListEntities | internal/store/query_helpers.go:71-116 | The compiled query and the row loop return the page that filter, sort and take describe, with a next cursor exactly when a further row exists |
| Query.ScanPage | internal/store/query_helpers.go:91-115 | Keeps at most the limit, and the last kept row is the cursor if a row was left |
| Query.CutLookAhead | internal/store/query_helpers.go:97-114 | Cutting the look-ahead row off gives the page of the smaller limit, and proves that more follow |
| Query.MatchesAppend | internal/store/query_helpers.go:41-46 | A clause appended with its argument adds exactly its own condition |
| Query.UpdateBuilder.Add | internal/store/query_helpers.go:18-22 | One more assignment, bound to its own argument |
| Query.UpdateBuilder.Build | internal/store/query_helpers.go:28-39 | The identifier takes the last placeholder and the assignments keep their effect |
| Store.Store.CreateGroup | internal/store/store.go:66-86 | Inserts the row unless a key or unique constraint forbids it |
| Store.Store.GetGroup | internal/store/store.go:88-101 | The row of the identifier or not found |
| Store.Store.ListGroups | internal/store/store.go:103-124 | A page of the organization's groups, of one source if asked |
| Store.Store.ListMembers | internal/store/store.go:278-299 | A page of the group's memberships, of one type if asked |
| Store.Store.ListMemberGroups | internal/store/store.go:322-343 | A page of the organization's groups that the member is in, each group at most once |
| Store.Store.ListAllGroups | internal/store/store.go:126-145 | Every group once, in any order |
| Store.Store.ListAllMemberships | internal/store/store.go:301-320 | Every membership once, in any order |
| Store.Store.UpdateGroup | internal/store/store.go:147-170 | On success the named fields have the requested values, every other field its old one, and no other row changes; a clash exactly when another group of the organization and source has the name; absence and clash change nothing |
| Store.Store.ExecuteUpdate | internal/store/store.go:158-168 | What the database makes of the compiled update |
| Store.Store.DeleteGroup | internal/store/store.go:172-211 | Row and memberships go together and are returned |
| Store.Store.AddMember | internal/store/store.go:213-237 | Inserts, or leaves the existing row of the pair and returns it |
| Store.Store.GetMembershipByGroupMember | internal/store/store.go:239-253 | The row of the pair or not found |
| Store.Store.RemoveMember | internal/store/store.go:255-276 | Removes and returns the row of the pair, or nothing |
| Store.JoinKeyedForMember | migrations/0001_init.sql:29 | Because the pair is unique, the join shows a group at most once for one member |
| Store.JoinSelection | internal/store/store.go:322-343 | The join's clauses select exactly the groups of the member, one row each |
| Store.PlainIdIsAmbiguous | internal/store/store.go:335 | Only the qualified cursor column names a column of the join |
| Store.GroupClausesExact | internal/store/store.go:103-108 | The compiled group filter selects exactly the rows it is about |
| Store.MemberClausesExact | internal/store/store.go:278-283 | The compiled member filter selects exactly the rows it is about |
| Store.GroupListedWhereItBelongs | internal/store/store.go:103-108 | A group is in exactly the listings of its organization, the full one and its source's |
| Store.MemberListedWhereItBelongs | internal/store/store.go:278-283 | A membership is in exactly the listings of its group, the full one and its type's |
| Store.ListingsAreDual | internal/store/store.go:322-343 | A group is among a member's groups exactly if the member is among the group's members of that type, and the organization is its own |
| Store.GroupReturnedOnce | internal/store/store.go:103-124 | A group that is listed throughout a traversal is returned once |
| Store.MembershipReturnedOnce | internal/store/store.go:278-299 | A membership that is listed throughout a traversal is returned once |
| Pagination.NormalizePageSize | internal/store/pagination.go:20-28 | Every int32 gives a size between 1 and 100: kept where it was one, 50 where none was asked for, 100 where too much was |
| Pagination.PageTokenRoundTrip | internal/store/pagination.go:30-47 | Decoding the token of any identifier gives it back, and no token is empty |
| Pagination.CursorRoundTrip | internal/server/errors.go:21-37 | A client that sends a token back resumes at the cursor it was given, the absent one included |
| Pagination.CursorsAreTold | internal/server/errors.go:32-37 | Different cursors have different tokens |
| Pagination.CursorAnswers | internal/server/errors.go:21-30 | Only the empty token is the absent cursor; a token that does not decode is an invalid one |
| Pagination.ForeignTokenRefused | internal/store/pagination.go:38-41 | A token with any character outside the alphabet is refused |
| Base64Url.RoundTrip | internal/store/pagination.go:30-41 | Decoding the unpadded base64url text of any bytes gives the bytes back |
| Base64Url.Examples | internal/store/pagination.go:31 | The published example texts, unpadded and in the URL-safe alphabet |
| Base64Url.ForeignCharacterRefused | internal/store/pagination.go:38-41 | A text with any other character, padding included, does not decode |
| Uuids.ParseToText | internal/store/pagination.go:31-42 | Parsing the canonical text of any identifier gives it back |
| Uuids.TextShape | internal/store/pagination.go:31 | The canonical text: four dashes, 32 lower-case digits in order |
| Uuids.OtherFormsParse | internal/store/pagination.go:42 | URN, braced and bare texts parse to the same identifier |
| Uuids.RankLexicographic | internal/store/query_helpers.go:65 | Identifiers are ordered digit by digit, as the database compares them |

## Left out

- gRPC, protobuf and NATS messages, headers, logging, contexts and notifications: only the outcome of a call and the publish attempts remain.
- Permission checks and caller metadata: callers are taken to be admitted, except that the organization check of an added member has three outcomes.
- Name, external identifier and enum validation of requests: each is settled by reading one function.
- The server's read handlers: they add permission checks to the store listings modelled here.
- SQL text and isolation levels: tables are values with the constraints of the migration, and each statement or transaction is one atomic step.
- Timestamps, the update time and the ticker of the reconciler: a run is one call.
- The base64 and identifier parsing of the libraries is written out from their published behaviour; the libraries are not part of this model.
- Clients.AuthorizationClient.Read: pages are cut from a snapshot taken with the first page, because how the tuple store pages while it changes is not said anywhere in the repository.
- Clients.IdentityClient.GetIdentityType: identities neither appear nor disappear during a run of the service.
- Server.Server.Reconcile: while other requests run, the tuple and scan counts of the report are not related to the world, because the world changes meanwhile.
- Server.Server.CreateGroup: requests are verified one at a time; requests racing with each other are modelled only as interference with a reconciliation.
- Server.Server.AddMember: the fresh identifier is a parameter, and one already taken is an insert the database refuses.
