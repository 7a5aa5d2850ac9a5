/** How each step of a reconciliation run carries what `Reconciling` says of it,
    from the listings to the sweep, and what its accounts come to. */
module RunSteps {
  import opened Uuids
  import opened Schema
  import opened Tuples
  import opened Worlds
  import opened Goal
  import opened Progress
  import opened Clients
  import opened Reconciling
  import Store

  // ----- the accounts ------------------------------------------------------------------------------

  /** A tuple the run writes was missing from the start, so it is never one it deletes. */
  lemma WrittenWasMissing(run: Run, w: World, t: TupleKey)
    requires run.sc == ALONE && Underway(run, w)
    requires t !in w.tuples && InGoal(run.ids, run.w0, t)
    ensures t !in run.w0.tuples
  {
  }

  lemma DeletedWasThere(run: Run, w: World, t: TupleKey)
    requires run.sc == ALONE && Underway(run, w)
    requires t in w.tuples && !InGoal(run.ids, run.w0, t)
    ensures t in run.w0.tuples
  {
  }

  lemma CountWritten(run: Run, w: World, t: TupleKey, r: Report)
    requires run.sc == ALONE && Underway(run, w) && Counts(run, w, r)
    requires t !in w.tuples && InGoal(run.ids, run.w0, t)
    ensures Counts(run, WithTuple(w, t), r.(tuplesWritten := r.tuplesWritten + 1))
  {
    WrittenWasMissing(run, w, t);
    hide InGoal, Progressed;
    var w' := WithTuple(w, t);
    assert w'.tuples - run.w0.tuples == (w.tuples - run.w0.tuples) + {t};
    assert run.w0.tuples - w'.tuples == run.w0.tuples - w.tuples;
  }

  lemma CountDeleted(run: Run, w: World, deletes: TupleSet, r: Report)
    requires run.sc == ALONE && Underway(run, w) && Counts(run, w, r)
    requires forall t :: t in deletes ==> t in w.tuples && !InGoal(run.ids, run.w0, t)
    ensures Counts(run, w.(tuples := w.tuples - deletes), r.(tuplesDeleted := r.tuplesDeleted + |deletes|))
  {
    forall t | t in deletes ensures t in run.w0.tuples {
      DeletedWasThere(run, w, t);
    }
    hide InGoal, Progressed;
    var w' := w.(tuples := w.tuples - deletes);
    assert run.w0.tuples - w'.tuples == (run.w0.tuples - w.tuples) + deletes;
    assert w'.tuples - run.w0.tuples == w.tuples - run.w0.tuples;
  }

  lemma RemovedIsOneRow(w: World, m: Membership)
    requires ValidWorld(w) && m in w.members
    ensures WithoutMember(w.members, m.groupId, m.memberId) == w.members - {m}
  {
  }

  lemma CountRemoved(run: Run, w: World, m: Membership, r: Report)
    requires run.sc == ALONE && Underway(run, w) && Counts(run, w, r) && m in w.members
    ensures Counts(run, w.(members := w.members - {m}),
                   r.(orphanedMembershipsRemoved := r.orphanedMembershipsRemoved + 1))
  {
    AloneGroups(run.ids, run.w0, w);
    hide Progressed;
    assert run.w0.members - (w.members - {m}) == (run.w0.members - w.members) + {m};
  }

  lemma SettledStaysPut(run: Run, w: World)
    requires run.sc == ALONE && Underway(run, w) && Settled(run.ids, run.w0)
    ensures w.tuples == run.w0.tuples
  {
  }

  /** A strictly valid request towards the goal, and so none at all from a settled start. */
  lemma RequestIsGood(run: Run, w: World, requests: seq<WriteRequest>, q: WriteRequest)
    requires run.sc == ALONE && GoodRequests(run, requests) && GoodRequest(run.ids, run.w0, q)
    requires Underway(run, w) && q.before == w.tuples
    ensures GoodRequests(run, requests + [q])
  {
    assert q.writes != [] ==> q.writes[0] in q.writes;
    assert q.deletes != [] ==> q.deletes[0] in q.deletes;
    if Settled(run.ids, run.w0) {
      SettledStaysPut(run, w);
    }
  }

  lemma PublishOneMore(log0: seq<Attempt>, log: seq<Attempt>, removed: Memberships, m: Membership, delivered: bool)
    requires PublishedExactly(log0, log, removed) && m !in removed
    ensures PublishedExactly(log0, log + [Attempt(RemovedEvent(m), delivered)], removed + {m})
  {
    var log' := log + [Attempt(RemovedEvent(m), delivered)];
    var news, news' := log[|log0|..], log'[|log0|..];
    assert news' == news + [Attempt(RemovedEvent(m), delivered)];
    forall i | |log0| <= i < |log'| ensures IsRemovalOf(removed + {m}, log'[i].event) {
      if i < |log| {
        assert IsRemovalOf(removed, log[i].event);
      }
    }
    forall x | x in removed + {m} ensures HasRemoval(news', x) {
      if x == m {
        assert news'[|news|].event == RemovedEvent(m);
      } else {
        assert HasRemoval(news, x);
        var i :| 0 <= i < |news| && news[i].event == RemovedEvent(x);
        assert news'[i].event == RemovedEvent(x);
      }
    }
  }

  // ----- one repair, from the test to the write ---------------------------------------------------

  /** Everything a repair must keep, whatever happens between its calls. */
  ghost predicate Going(run: Run, w: World, requests: seq<WriteRequest>, r: Report) {
    Underway(run, w) && GoodRequests(run, requests) && Counts(run, w, r)
  }

  lemma RelyKeepsGoing(run: Run, w: World, w': World, requests: seq<WriteRequest>, r: Report)
    requires Going(run, w, requests, r) && Rely(run.sc, w, w') && w'.log == w.log
    ensures Going(run, w', requests, r)
  {
    RelyKeepsProgress(run.sc, run.ids, run.w0, w, w');
    RelyKeepsAccounts(run, w, w', r);
  }

  lemma FoundTuple(run: Run, start: World, w: World, t: TupleKey)
    requires Rely(run.sc, start, w) && (Quiet(run.sc, t) ==> t in start.tuples)
    ensures Rely(run.sc, WithTuple(start, t), w)
  {
  }

  lemma MissedTuple(run: Run, start: World, w: World, t: TupleKey)
    requires Rely(run.sc, start, w) && (Quiet(run.sc, t) ==> t !in start.tuples)
    ensures Rely(run.sc, WithoutTuple(start, t), w)
  {
  }

  lemma WriteUnderRely(run: Run, start: World, w: World, t: TupleKey)
    requires Rely(run.sc, start, w)
    ensures Rely(run.sc, WithTuple(start, t), WithTuple(w, t))
    ensures Rely(run.sc, WithoutTuple(start, t), WithoutTuple(w, t))
  {
  }

  lemma WrittenAlone(run: Run, w: World, t: TupleKey, requests: seq<WriteRequest>, r: Report)
    requires run.sc == ALONE && Going(run, w, requests, r)
    requires t !in w.tuples && InGoal(run.ids, run.w0, t)
    ensures GoodRequests(run, requests + [WriteRequest(w.tuples, [t], [])])
    ensures Counts(run, WithTuple(w, t), r.(tuplesWritten := r.tuplesWritten + 1))
  {
    hide InGoal, Progressed, Settled, Counts, GoodRequests;
    var q := WriteRequest(w.tuples, [t], []);
    assert GoodRequest(run.ids, run.w0, q);
    RequestIsGood(run, w, requests, q);
    CountWritten(run, w, t, r);
  }

  lemma DeletedAlone(run: Run, w: World, t: TupleKey, requests: seq<WriteRequest>, r: Report)
    requires run.sc == ALONE && Going(run, w, requests, r)
    requires t in w.tuples && !InGoal(run.ids, run.w0, t)
    ensures GoodRequests(run, requests + [WriteRequest(w.tuples, [], [t])])
    ensures Counts(run, WithoutTuple(w, t), r.(tuplesDeleted := r.tuplesDeleted + 1))
  {
    hide InGoal, Progressed, Settled, Counts, GoodRequests;
    var q := WriteRequest(w.tuples, [], [t]);
    assert GoodRequest(run.ids, run.w0, q);
    RequestIsGood(run, w, requests, q);
    CountDeleted(run, w, {t}, r);
  }

  lemma WrittenTuple(run: Run, w: World, t: TupleKey, requests: seq<WriteRequest>, r: Report)
    requires Going(run, w, requests, r)
    requires Quiet(run.sc, t) ==> InGoal(run.ids, run.w0, t)
    requires run.sc == ALONE ==> t !in w.tuples
    ensures Going(run, WithTuple(w, t), requests + [WriteRequest(w.tuples, [t], [])],
                  r.(tuplesWritten := r.tuplesWritten + 1))
  {
    EverythingQuiet(t);
    hide InGoal, Quiet, Progressed;
    AddingKeepsProgress(run.sc, run.ids, run.w0, w, t);
    if run.sc == ALONE {
      WrittenAlone(run, w, t, requests, r);
    }
  }

  lemma DeletedTuple(run: Run, w: World, t: TupleKey, requests: seq<WriteRequest>, r: Report)
    requires Going(run, w, requests, r)
    requires (Quiet(run.sc, t) ==> !InGoal(run.ids, run.w0, t)) && RowGone(run, w, t)
    requires run.sc == ALONE ==> t in w.tuples
    ensures Going(run, WithoutTuple(w, t), requests + [WriteRequest(w.tuples, [], [t])],
                  r.(tuplesDeleted := r.tuplesDeleted + 1))
  {
    EverythingQuiet(t);
    hide InGoal, Quiet, Progressed, MembershipTuple;
    DeletingKeepsProgress(run.sc, run.ids, run.w0, w, {t});
    if run.sc == ALONE {
      DeletedAlone(run, w, t, requests, r);
    }
  }

  // ----- loop invariants ------------------------------------------------------------------------------

  ghost predicate GroupLoop(run: Run, w: World, requests: seq<WriteRequest>, r: Report, i: nat)
    requires i <= |run.gs|
  {
    && Going(run, w, requests, r) && Published(run, w)
    && GroupsRepaired(run, w, i) && MembersRepaired(run, w, 0)
  }

  ghost predicate MemberLoop(run: Run, w: World, requests: seq<WriteRequest>, r: Report, j: nat)
    requires j <= |run.ms|
  {
    && Going(run, w, requests, r) && Published(run, w)
    && GroupsRepaired(run, w, |run.gs|) && MembersRepaired(run, w, j)
  }

  lemma RelyKeepsGroupLoop(run: Run, w: World, w': World, requests: seq<WriteRequest>, r: Report, i: nat)
    requires i <= |run.gs| && GroupLoop(run, w, requests, r, i) && Rely(run.sc, w, w') && w'.log == w.log
    ensures GroupLoop(run, w', requests, r, i)
  {
    hide Going, GroupsRepaired, MembersRepaired, Published, Rely;
    RelyKeepsGoing(run, w, w', requests, r);
    RelyKeepsRepairs(run, w, w', i, 0);
    RelyKeepsAccounts(run, w, w', r);
  }

  lemma RelyKeepsMemberLoop(run: Run, w: World, w': World, requests: seq<WriteRequest>, r: Report, j: nat)
    requires j <= |run.ms| && MemberLoop(run, w, requests, r, j) && Rely(run.sc, w, w') && w'.log == w.log
    ensures MemberLoop(run, w', requests, r, j)
  {
    hide Going, GroupsRepaired, MembersRepaired, Published, Rely;
    RelyKeepsGoing(run, w, w', requests, r);
    RelyKeepsRepairs(run, w, w', |run.gs|, j);
    RelyKeepsAccounts(run, w, w', r);
  }

  lemma TupleStepKeepsPublished(run: Run, w: World, t: TupleKey)
    ensures Published(run, w) <==> Published(run, WithTuple(w, t))
    ensures Published(run, w) <==> Published(run, WithoutTuple(w, t))
    ensures MembersRepaired(run, w, 0) ==> MembersRepaired(run, WithTuple(w, t), 0)
  {
  }

  /** From one group to the next, given that its org tuple was ensured. */
  lemma GroupStep(run: Run, w: World, w': World, requests: seq<WriteRequest>, r: Report,
                  requests': seq<WriteRequest>, r': Report, i: nat)
    requires SnapshotOf(run) && i < |run.gs| && GroupLoop(run, w, requests, r, i)
    requires Rely(run.sc, WithTuple(w, OrgTupleOf(run.gs[i])), w') && w'.log == w.log
    requires Going(run, w', requests', r')
    ensures GroupLoop(run, w', requests', r', i + 1)
  {
    hide Progressed, GroupsRepaired, MembersRepaired, Published, Rely, OrgTupleOf, SnapshotOf, GoodRequests, Counts;
    var t := OrgTupleOf(run.gs[i]);
    OrgTupleRepaired(run, w, i);
    TupleStepKeepsPublished(run, w, t);
    RelyKeepsRepairs(run, WithTuple(w, t), w', i + 1, 0);
    RelyKeepsAccounts(run, WithTuple(w, t), w', r);
  }

  lemma LiveStep(run: Run, w: World, w': World, requests: seq<WriteRequest>, r: Report,
                 requests': seq<WriteRequest>, r': Report, j: nat)
    requires ValidWorld(run.w0) && SnapshotOf(run)
    requires j < |run.ms| && run.ms[j].memberId in run.ids && MemberLoop(run, w, requests, r, j)
    requires Rely(run.sc, WithTuple(w, MembershipTuple(run.ms[j])), w') && w'.log == w.log
    requires Going(run, w', requests', r')
    ensures MemberLoop(run, w', requests', r', j + 1)
  {
    hide Progressed, GroupsRepaired, MembersRepaired, Published, Rely, MembershipTuple, SnapshotOf, GoodRequests,
         Counts;
    var t := MembershipTuple(run.ms[j]);
    LiveMemberRepaired(run, w, j);
    TupleStepKeepsPublished(run, w, t);
    RelyKeepsRepairs(run, WithTuple(w, t), w', |run.gs|, j + 1);
    RelyKeepsAccounts(run, WithTuple(w, t), w', r);
  }

  // ----- orphans ---------------------------------------------------------------------------------------

  lemma RemovedTuplesGone(run: Run, w: World, j: nat)
    requires run.sc == ALONE && SnapshotOf(run) && Underway(run, w) && j <= |run.ms| && MembersRepaired(run, w, j)
    ensures forall m :: m in run.w0.members - w.members ==> MembershipTuple(m) !in w.tuples && m.memberId !in run.ids
    ensures j == 0 ==> run.w0.members - w.members == {}
  {
    hide MembershipTuple;
    forall m | m in run.w0.members - w.members
      ensures MembershipTuple(m) !in w.tuples && m.memberId !in run.ids && j > 0 {
      assert QuietPair(run.sc, m.groupId, m.memberId);
      assert m in run.ms;
      var k :| 0 <= k < |run.ms| && run.ms[k] == m;
    }
  }

  lemma MemberLoopFollowedUp(run: Run, w: World, requests: seq<WriteRequest>, r: Report, j: nat)
    requires SnapshotOf(run) && j <= |run.ms| && MemberLoop(run, w, requests, r, j)
    ensures CutOff(run, w)
  {
    if run.sc == ALONE {
      RemovedTuplesGone(run, w, j);
    }
  }

  /** Cut off while ensuring a tuple that is no removed row's. */
  lemma CutOffInEnsure(run: Run, w: World, w': World, requests: seq<WriteRequest>, r: Report, j: nat, t: TupleKey)
    requires SnapshotOf(run) && j <= |run.ms| && MemberLoop(run, w, requests, r, j)
    requires Rely(run.sc, w, w') || Rely(run.sc, WithTuple(w, t), w')
    requires w'.log == w.log
    requires forall m :: m in run.w0.members && m.memberId !in run.ids ==> t != MembershipTuple(m)
    ensures CutOff(run, w')
  {
    if run.sc == ALONE {
      RemovedTuplesGone(run, w, j);
      if Rely(run.sc, w, w') {
        AloneMeansUnchanged(w, w');
      } else {
        AloneMeansUnchanged(WithTuple(w, t), w');
      }
    }
    hide MembershipTuple, Rely, MembersRepaired, GroupsRepaired, SnapshotOf, Progressed;
  }

  lemma CutOffInGroups(run: Run, w: World, w': World, requests: seq<WriteRequest>, r: Report, i: nat, t: TupleKey)
    requires SnapshotOf(run) && i <= |run.gs| && GroupLoop(run, w, requests, r, i)
    requires Rely(run.sc, w, w') || Rely(run.sc, WithTuple(w, t), w')
    requires w'.log == w.log
    ensures CutOff(run, w')
  {
    if run.sc == ALONE {
      RemovedTuplesGone(run, w, 0);
      if Rely(run.sc, w, w') {
        AloneMeansUnchanged(w, w');
      } else {
        AloneMeansUnchanged(WithTuple(w, t), w');
      }
    }
    hide MembershipTuple, Rely, MembersRepaired, GroupsRepaired, SnapshotOf, Progressed;
  }

  function RowRemoved(run: Run, w: World, j: nat): World
    requires j < |run.ms|
  {
    w.(members := WithoutMember(w.members, run.ms[j].groupId, run.ms[j].memberId))
  }

  /** The row a removal finds; with nobody interfering it is the listed one. */
  ghost predicate RowFound(run: Run, w: World, j: nat, m: Membership)
    requires j < |run.ms|
  {
    m in w.members && m.groupId == run.ms[j].groupId && m.memberId == run.ms[j].memberId
  }

  lemma OrphanRowRemoved(run: Run, w: World, requests: seq<WriteRequest>, r: Report, j: nat, m: Membership)
    requires ValidWorld(w) && SnapshotOf(run) && j < |run.ms| && run.ms[j].memberId !in run.ids
    requires MemberLoop(run, w, requests, r, j) && RowFound(run, w, j, m)
    ensures Going(run, RowRemoved(run, w, j), requests,
                  r.(orphanedMembershipsRemoved := r.orphanedMembershipsRemoved + 1))
    ensures GroupsRepaired(run, RowRemoved(run, w, j), |run.gs|)
  {
    hide MembersRepaired, Published;
    OrphanRowDropped(run, w, j);
    RemovedIsOneRow(w, m);
    hide Progressed, GroupsRepaired, GoodRequest;
    if run.sc == ALONE {
      CountRemoved(run, w, m, r);
    }
  }

  /** Without interference, the removal leaves one row to follow up. */
  lemma OneRowToFollowUp(run: Run, w: World, requests: seq<WriteRequest>, r: Report, j: nat, m: Membership)
    requires run.sc == ALONE && ValidWorld(w) && SnapshotOf(run) && j < |run.ms| && run.ms[j].memberId !in run.ids
    requires MemberLoop(run, w, requests, r, j) && RowFound(run, w, j, m)
    ensures var w1 := RowRemoved(run, w, j);
            && m in run.w0.members - w1.members
            && run.w0.members - w1.members - {m} == run.w0.members - w.members
            && FollowedUp(run, w, run.w0.members - w.members)
  {
    hide MembershipTuple;
    RemovedTuplesGone(run, w, j);
    AloneGroups(run.ids, run.w0, w);
    RemovedIsOneRow(w, m);
    hide Progressed, SnapshotOf, MembersRepaired, GroupsRepaired, Going;
  }

  lemma CutOffAfterRow(run: Run, w: World, w': World, requests: seq<WriteRequest>, r: Report, j: nat, m: Membership)
    requires ValidWorld(w) && SnapshotOf(run) && j < |run.ms| && run.ms[j].memberId !in run.ids
    requires MemberLoop(run, w, requests, r, j) && RowFound(run, w, j, m)
    requires || Rely(run.sc, RowRemoved(run, w, j), w')
             || Rely(run.sc, WithoutTuple(RowRemoved(run, w, j), MembershipTuple(m)), w')
    requires w'.log == w.log
    ensures CutOff(run, w')
  {
    if run.sc == ALONE {
      OneRowToFollowUp(run, w, requests, r, j, m);
      var w1 := RowRemoved(run, w, j);
      if Rely(run.sc, w1, w') {
        AloneMeansUnchanged(w1, w');
      } else {
        AloneMeansUnchanged(WithoutTuple(w1, MembershipTuple(m)), w');
      }
      hide MembershipTuple, Rely, MembersRepaired, GroupsRepaired, SnapshotOf, Progressed, PublishedExactly, Going;
      var removed := run.w0.members - w'.members;
      assert m in removed && FollowedUp(run, w', removed - {m});
    }
  }

  lemma OrphanRepairsKept(run: Run, w: World, w2: World, requests: seq<WriteRequest>, r: Report, j: nat, m: Membership)
    requires ValidWorld(run.w0) && SnapshotOf(run)
    requires j < |run.ms| && run.ms[j].memberId !in run.ids
    requires MemberLoop(run, w, requests, r, j) && RowFound(run, w, j, m)
    requires Rely(run.sc, WithoutTuple(RowRemoved(run, w, j), MembershipTuple(m)), w2)
    ensures GroupsRepaired(run, w2, |run.gs|) && MembersRepaired(run, w2, j + 1)
  {
    var w1 := WithoutTuple(RowRemoved(run, w, j), MembershipTuple(m));
    assert MembershipTuple(m) == MembershipTuple(run.ms[j]);
    hide MembershipTuple, Published, GroupsRepaired, MembersRepaired, SnapshotOf, Counts, GoodRequests, Progressed,
         Rely, ValidWorld;
    OrphanRepaired(run, w, j);
    RelyKeepsRepairs(run, w1, w2, |run.gs|, j + 1);
  }

  lemma OrphanPublished(run: Run, w: World, w2: World, requests: seq<WriteRequest>, r: Report, j: nat, m: Membership,
                        delivered: bool)
    requires ValidWorld(w) && SnapshotOf(run) && j < |run.ms| && run.ms[j].memberId !in run.ids
    requires MemberLoop(run, w, requests, r, j) && RowFound(run, w, j, m)
    requires Rely(run.sc, WithoutTuple(RowRemoved(run, w, j), MembershipTuple(m)), w2) && w2.log == w.log
    ensures Published(run, w2.(log := w2.log + [Attempt(RemovedEvent(m), delivered)]))
  {
    hide MembershipTuple, GroupsRepaired, MembersRepaired, SnapshotOf, Going, PublishedExactly, Rely, ValidWorld;
    if run.sc == ALONE {
      OneRowToFollowUp(run, w, requests, r, j, m);
      var w1 := RowRemoved(run, w, j);
      AloneMeansUnchanged(WithoutTuple(w1, MembershipTuple(m)), w2);
      assert w2.members == w1.members;
      hide RowRemoved, WithoutTuple;
      PublishOneMore(run.w0.log, w.log, run.w0.members - w.members, m, delivered);
      assert run.w0.members - w2.members == (run.w0.members - w.members) + {m};
    }
  }

  lemma LogIsNoRepair(run: Run, w: World, a: Attempt, requests: seq<WriteRequest>, r: Report, j: nat)
    requires j <= |run.ms|
    ensures var w' := w.(log := w.log + [a]);
            && (Going(run, w, requests, r) ==> Going(run, w', requests, r))
            && (GroupsRepaired(run, w, |run.gs|) ==> GroupsRepaired(run, w', |run.gs|))
            && (MembersRepaired(run, w, j) ==> MembersRepaired(run, w', j))
  {
  }

  /** Row removed, tuple deleted or found missing, removal announced. */
  lemma OrphanStep(run: Run, w: World, w2: World, requests: seq<WriteRequest>, r: Report,
                   requests': seq<WriteRequest>, r': Report, j: nat, m: Membership, delivered: bool)
    requires ValidWorld(run.w0) && ValidWorld(w) && SnapshotOf(run)
    requires j < |run.ms| && run.ms[j].memberId !in run.ids
    requires MemberLoop(run, w, requests, r, j) && RowFound(run, w, j, m)
    requires Rely(run.sc, WithoutTuple(RowRemoved(run, w, j), MembershipTuple(m)), w2) && w2.log == w.log
    requires Going(run, w2, requests', r')
    ensures MemberLoop(run, w2.(log := w2.log + [Attempt(RemovedEvent(m), delivered)]), requests', r', j + 1)
  {
    hide Rely, SnapshotOf, Going, Published, GroupsRepaired, MembersRepaired, MembershipTuple, ValidWorld;
    OrphanRepairsKept(run, w, w2, requests, r, j, m);
    OrphanPublished(run, w, w2, requests, r, j, m, delivered);
    LogIsNoRepair(run, w2, Attempt(RemovedEvent(m), delivered), requests', r', j + 1);
  }

  /** The removal found no row: somebody else took it. */
  lemma OrphanSkipped(run: Run, w: World, requests: seq<WriteRequest>, r: Report, j: nat, kept: Memberships)
    requires j < |run.ms| && MemberLoop(run, w, requests, r, j) && KeptAfter(run, kept, j)
    requires run.ms[j] !in w.members
    ensures MemberLoop(run, w, requests, r, j + 1) && KeptAfter(run, kept, j + 1)
  {
  }

  // ----- where a run may stop -----------------------------------------------------------------------------

  /** What holds when an error ends a run early. */
  ghost predicate Stopped(run: Run, w: World, requests: seq<WriteRequest>) {
    Underway(run, w) && GoodRequests(run, requests) && CutOff(run, w)
  }

  /** The member tuple of a listed orphan is not called for. */
  lemma OrphanTupleNotInGoal(run: Run, j: nat, m: Membership)
    requires ValidWorld(run.w0) && SnapshotOf(run) && j < |run.ms| && run.ms[j].memberId !in run.ids
    requires m.groupId == run.ms[j].groupId && m.memberId == run.ms[j].memberId
    ensures Quiet(run.sc, MembershipTuple(m)) ==> !InGoal(run.ids, run.w0, MembershipTuple(m))
  {
    hide ToText, Parse;
    assert MembershipTuple(m) == MembershipTuple(run.ms[j]);
    MemberTupleQuiet(run.sc, m.groupId, m.memberId);
    if QuietPair(run.sc, m.groupId, m.memberId) {
      assert run.ms[j] in run.w0.members;
      MemberTupleGoal(run, run.ms[j]);
    }
  }

  lemma LiveTupleInGoal(run: Run, j: nat)
    requires ValidWorld(run.w0) && SnapshotOf(run) && j < |run.ms| && run.ms[j].memberId in run.ids
    ensures Quiet(run.sc, MembershipTuple(run.ms[j])) ==> InGoal(run.ids, run.w0, MembershipTuple(run.ms[j]))
  {
    hide ToText, Parse;
    var m := run.ms[j];
    MemberTupleQuiet(run.sc, m.groupId, m.memberId);
    if QuietPair(run.sc, m.groupId, m.memberId) {
      MemberTupleGoal(run, m);
    }
  }

  /** The removed row's reply was lost, or there was no row: either way the run may stop here. */
  lemma StoppedAtRemoval(run: Run, w: World, requests: seq<WriteRequest>, r: Report, j: nat)
    requires ValidWorld(w) && SnapshotOf(run) && j < |run.ms| && run.ms[j].memberId !in run.ids
    requires MemberLoop(run, w, requests, r, j)
    ensures Stopped(run, RowRemoved(run, w, j), requests)
  {
    var w' := RowRemoved(run, w, j);
    if m :| RowFound(run, w, j, m) {
      OrphanRowRemoved(run, w, requests, r, j, m);
      assert ValidWorld(w');
      RelyReflexive(run.sc, w');
      hide MembershipTuple, Rely, GroupsRepaired, MembersRepaired, SnapshotOf, Progressed, CutOff;
      CutOffAfterRow(run, w, w', requests, r, j, m);
    } else {
      assert forall x :: x in w.members && x !in w'.members ==> RowFound(run, w, j, x);
      assert w'.members == w.members;
      hide MembershipTuple, GroupsRepaired, MembersRepaired, SnapshotOf, Progressed, CutOff, WithoutMember;
      MemberLoopFollowedUp(run, w, requests, r, j);
    }
  }

  // ----- the sweep, from the read to the write --------------------------------------------------------------

  /** What the sweep has picked, judged against the world it finds. */
  ghost predicate Swept(run: Run, w: World, kept: Memberships, admins: TupleSet, deletes: TupleSet) {
    forall t :: Quiet(run.sc, t) ==>
      (t in deletes <==> t in w.tuples && IsManagedGroupTuple(t) && !HeldBacked(run, kept, admins, t))
  }

  lemma SweptNotInGoal(run: Run, w: World, kept: Memberships, admins: TupleSet, deletes: TupleSet)
    requires run.sc == ALONE && Repaired(run, w, kept, admins) && Swept(run, w, kept, admins, deletes)
    ensures forall t :: t in deletes ==> t in w.tuples && !InGoal(run.ids, run.w0, t)
  {
    hide InGoal, HeldBacked, IsManagedGroupTuple, Repaired;
    forall t | t in deletes ensures t in w.tuples && !InGoal(run.ids, run.w0, t) {
      EverythingQuiet(t);
      SweepExact(run, w, kept, admins, t);
    }
  }

  lemma {:induction false} DistinctSize(ts: seq<TupleKey>)
    requires Distinct(ts)
    ensures |SetOf(ts)| == |ts|
  {
    if ts != [] {
      var front, last := ts[..|ts| - 1], ts[|ts| - 1];
      DistinctSize(front);
      assert last !in SetOf(front);
      assert SetOf(ts) == SetOf(front) + {last};
    }
  }

  /** Deleting what was picked finishes the run; the accounts come out exact. */
  lemma SweepDone(run: Run, w: World, requests: seq<WriteRequest>, r: Report, kept: Memberships, admins: TupleSet,
                  deletes: seq<TupleKey>)
    requires MemberLoop(run, w, requests, r, |run.ms|) && Repaired(run, w, kept, admins)
    requires Distinct(deletes) && Swept(run, w, kept, admins, SetOf(deletes))
    ensures var w' := w.(tuples := w.tuples - SetOf(deletes));
            && Converged(run.sc, run.ids, run.w0, w') && Published(run, w')
            && Counts(run, w', r.(tuplesDeleted := r.tuplesDeleted + |deletes|))
    ensures deletes != [] ==> GoodRequests(run, requests + [WriteRequest(w.tuples, [], deletes)])
  {
    hide InGoal, HeldBacked, IsManagedGroupTuple, GroupsRepaired, MembersRepaired, SnapshotOf, Progressed, Settled,
         AdminsFound, KeptAfter, PublishedExactly, ValidTables, Repaired;
    SweepConverges(run, w, kept, admins, SetOf(deletes));
    hide Converged, Swept;
    DistinctSize(deletes);
    if run.sc == ALONE {
      SweptNotInGoal(run, w, kept, admins, SetOf(deletes));
      CountDeleted(run, w, SetOf(deletes), r);
      if deletes != [] {
        var q := WriteRequest(w.tuples, [], deletes);
        assert forall t :: t in deletes ==> t in SetOf(deletes);
        assert GoodRequest(run.ids, run.w0, q);
        RequestIsGood(run, w, requests, q);
      }
    }
  }

  lemma SweepStopped(run: Run, w: World, requests: seq<WriteRequest>, r: Report, deletes: TupleSet)
    requires SnapshotOf(run) && MemberLoop(run, w, requests, r, |run.ms|)
    ensures CutOff(run, w.(tuples := w.tuples - deletes))
  {
    if run.sc == ALONE {
      RemovedTuplesGone(run, w, |run.ms|);
    }
    hide MembershipTuple, GroupsRepaired, MembersRepaired, SnapshotOf, Progressed;
  }

  // ----- the listing a run starts from ----------------------------------------------------------------------

  lemma {:induction false} ListedSize<T(!new)>(rows: seq<T>, table: set<T>)
    requires Lists(rows, table)
    ensures |rows| == |table|
  {
    if rows == [] {
      assert forall t :: t !in table;
      assert table == {};
    } else {
      var front, last := rows[..|rows| - 1], rows[|rows| - 1];
      assert rows == front + [last];
      ListedSize(front, table - {last});
    }
  }

  lemma GroupRowsOfOneLess(groups: Groups, g: Uuid)
    requires (forall id :: id in groups ==> groups[id].id == id) && g in groups
    ensures Store.GroupRows(groups) == Store.GroupRows(groups - {g}) + {groups[g]}
    ensures groups[g] !in Store.GroupRows(groups - {g})
  {
    var rest := groups - {g};
    forall x ensures x in Store.GroupRows(groups) <==> x in Store.GroupRows(rest) || x == groups[g] {
      assert x in Store.GroupRows(groups) <==> x.id in groups && groups[x.id] == x;
      assert x in Store.GroupRows(rest) <==> x.id in rest && rest[x.id] == x;
    }
  }

  lemma {:induction false} GroupRowsSize(groups: Groups)
    requires forall id :: id in groups ==> groups[id].id == id
    ensures |Store.GroupRows(groups)| == |groups|
    decreases |groups|
  {
    if g :| g in groups {
      var rest := groups - {g};
      assert groups.Keys == rest.Keys + {g} && |groups.Keys| == |groups| && |rest.Keys| == |rest|;
      GroupRowsOfOneLess(groups, g);
      hide Store.GroupRows;
      GroupRowsSize(rest);
    } else {
      assert Store.GroupRows(groups) == {};
      assert groups == map[];
    }
  }

  /** Two listings, with handlers free to run before, between and after them. */
  lemma SnapshotListed(run: Run, a: World, b: World)
    requires Rely(run.sc, run.w0, a) && Rely(run.sc, a, b)
    requires Lists(run.gs, Store.GroupRows(a.groups)) && Lists(run.ms, b.members)
    ensures SnapshotOf(run)
  {
    hide Quiet;
    forall i | 0 <= i < |run.gs| ensures run.gs[i].id in a.groups && a.groups[run.gs[i].id] == run.gs[i] {
      assert run.gs[i] in run.gs;
    }
    forall g | g in run.w0.groups && QuietGroup(run.sc, g) ensures run.w0.groups[g] in run.gs {
      assert a.groups[g] in Store.GroupRows(a.groups);
    }
    forall i, j | 0 <= i < j < |run.ms|
      ensures run.ms[i].groupId != run.ms[j].groupId || run.ms[i].memberId != run.ms[j].memberId {
      assert run.ms[i] in run.ms && run.ms[j] in run.ms;
    }
  }

  lemma ScanCounted(run: Run, a: World, b: World)
    requires run.sc == ALONE && ValidWorld(run.w0)
    requires Rely(run.sc, run.w0, a) && Rely(run.sc, a, b) && b.log == run.w0.log
    requires Lists(run.gs, Store.GroupRows(a.groups)) && Lists(run.ms, b.members)
    ensures Counts(run, b, Report(|run.gs|, |run.ms|, 0, 0, 0)) && Published(run, b)
  {
    AloneMeansUnchanged(run.w0, a);
    AloneMeansUnchanged(a, b);
    ListedSize(run.gs, Store.GroupRows(a.groups));
    GroupRowsSize(a.groups);
    ListedSize(run.ms, b.members);
    hide Rely, Lists, Store.GroupRows, ValidTables;
    assert b.tuples - run.w0.tuples == {} && run.w0.tuples - b.tuples == {} && run.w0.members - b.members == {};
  }

  lemma NothingRepairedYet(run: Run, b: World)
    requires forall m :: m in run.ms ==> m in b.members
    ensures GroupsRepaired(run, b, 0) && MembersRepaired(run, b, 0)
    ensures KeptAfter(run, set m | m in run.ms, 0) && AdminsFound(run, {}, 0)
  {
    hide MembershipTuple, Quiet, QuietPair, OrgTupleOf, ValidAdminUser;
    assert forall k :: 0 <= k < |run.ms| ==> run.ms[k] in run.ms;
  }

  lemma NothingAnnouncedYet(run: Run)
    ensures Announced(run, run.w0.log, 0, 0) && AnnouncedSoFar(run, run.w0.log)
  {
  }

  /** The event of the orphan just removed is about a pair not announced before. */
  lemma AnnounceOrphan(run: Run, log: seq<Attempt>, removed: int, j: nat, m: Membership, delivered: bool)
    requires SnapshotOf(run) && j < |run.ms| && run.ms[j].memberId !in run.ids
    requires m.groupId == run.ms[j].groupId && m.memberId == run.ms[j].memberId
    requires Announced(run, log, removed, j)
    ensures Announced(run, log + [Attempt(RemovedEvent(m), delivered)], removed + 1, j + 1)
  {
    var log' := log + [Attempt(RemovedEvent(m), delivered)];
    forall i | |run.w0.log| <= i < |log'| ensures RemovalOfListed(run, log'[i].event, j + 1) {
      if i < |log| {
        assert RemovalOfListed(run, log[i].event, j);
      }
    }
    forall i | |run.w0.log| <= i < |log| ensures !SamePair(log[i].event, RemovedEvent(m)) {
      assert RemovalOfListed(run, log[i].event, j);
    }
  }

  lemma AnnouncedLater(run: Run, log: seq<Attempt>, removed: int, j: nat, j': nat)
    requires j <= j' <= |run.ms| && Announced(run, log, removed, j)
    ensures Announced(run, log, removed, j') && AnnouncedSoFar(run, log)
  {
    forall i | |run.w0.log| <= i < |log|
      ensures RemovalOfListed(run, log[i].event, j') && RemovalOfListed(run, log[i].event, |run.ms|) {
      assert RemovalOfListed(run, log[i].event, j);
    }
  }

  lemma NothingRequestedYet(run: Run)
    ensures GoodRequests(run, run.requests0)
  {
    hide Settled, GoodRequest;
  }

  lemma RunStarts(run: Run, a: World, b: World)
    requires ValidWorld(run.w0) && Rely(run.sc, run.w0, a) && Rely(run.sc, a, b) && b.log == run.w0.log
    requires Lists(run.gs, Store.GroupRows(a.groups)) && Lists(run.ms, b.members)
    ensures SnapshotOf(run)
    ensures GroupLoop(run, b, run.requests0, Report(|run.gs|, |run.ms|, 0, 0, 0), 0)
    ensures KeptAfter(run, set m | m in run.ms, 0) && AdminsFound(run, {}, 0)
    ensures UnlistedInScope(run) && Announced(run, b.log, 0, 0)
  {
    NothingRepairedYet(run, b);
    NothingRequestedYet(run);
    UnlistedGroupsTouched(run, a, b);
    NothingAnnouncedYet(run);
    hide *;
    SnapshotListed(run, a, b);
    RelyTransitive(run.sc, run.w0, a, b);
    StartsProgressed(run.sc, run.ids, run.w0);
    RelyKeepsProgress(run.sc, run.ids, run.w0, run.w0, b);
    if run.sc == ALONE {
      ScanCounted(run, a, b);
    } else {
      NothingToCount(run, b);
    }
    LoopStarts(run, b, Report(|run.gs|, |run.ms|, 0, 0, 0));
  }

  lemma LoopStarts(run: Run, b: World, r: Report)
    requires Progressed(run.sc, run.ids, run.w0, b) && GoodRequests(run, run.requests0)
    requires Counts(run, b, r) && Published(run, b) && GroupsRepaired(run, b, 0) && MembersRepaired(run, b, 0)
    ensures GroupLoop(run, b, run.requests0, r, 0)
  {
    hide Progressed, GoodRequests, Counts, Published, GroupsRepaired, MembersRepaired;
  }

  lemma NothingToCount(run: Run, w: World)
    requires run.sc != ALONE
    ensures Published(run, w) && forall r :: Counts(run, w, r)
  {
  }

  lemma OrgTupleGoal(run: Run, k: nat)
    requires SnapshotOf(run) && k < |run.gs|
    ensures Quiet(run.sc, OrgTupleOf(run.gs[k])) ==> InGoal(run.ids, run.w0, OrgTupleOf(run.gs[k]))
  {
    hide InGoal, Quiet;
    if Quiet(run.sc, OrgTupleOf(run.gs[k])) {
      ListedOrgTupleInGoal(run, k);
    }
  }

  lemma GroupLoopStopped(run: Run, w: World, requests: seq<WriteRequest>, r: Report, i: nat)
    requires SnapshotOf(run) && i <= |run.gs| && GroupLoop(run, w, requests, r, i)
    ensures Stopped(run, w, requests)
  {
    RelyReflexive(run.sc, w);
    hide Rely, Progressed, SnapshotOf, GroupsRepaired, MembersRepaired, CutOff;
    CutOffInGroups(run, w, w, requests, r, i, TupleKey("", "", ""));
  }

  lemma ConvergedIsUnderway(run: Run, w: World)
    requires Converged(run.sc, run.ids, run.w0, w)
    ensures Underway(run, w)
  {
  }

  ghost predicate ListsGroup(run: Run, g: Uuid) {
    exists k :: 0 <= k < |run.gs| && run.gs[k].id == g
  }

  /** What the second loop takes for granted of the two listings. */
  ghost predicate EveryGroupListed(run: Run) {
    forall j :: 0 <= j < |run.ms| ==> ListsGroup(run, run.ms[j].groupId)
  }

  /** Only a group that a running request touches can be missing from the first
      listing when the second one shows a membership of it. */
  ghost predicate UnlistedInScope(run: Run) {
    forall j :: 0 <= j < |run.ms| ==> ListsGroup(run, run.ms[j].groupId) || run.ms[j].groupId in run.sc.groups
  }

  lemma UnlistedGroupsTouched(run: Run, a: World, b: World)
    requires Rely(run.sc, run.w0, a) && Rely(run.sc, a, b)
    requires Lists(run.gs, Store.GroupRows(a.groups)) && Lists(run.ms, b.members)
    ensures UnlistedInScope(run)
  {
    hide Quiet, MembershipTuple;
    forall j | 0 <= j < |run.ms| && run.ms[j].groupId !in run.sc.groups ensures ListsGroup(run, run.ms[j].groupId) {
      var g := run.ms[j].groupId;
      assert run.ms[j] in run.ms && QuietGroup(run.sc, g);
      assert a.groups[g] in Store.GroupRows(a.groups);
      var k :| 0 <= k < |run.gs| && run.gs[k] == a.groups[g];
      assert a.groups[g].id == g;
    }
  }

  /** It does happen: a group and its membership created between the listings. */
  lemma GroupBetweenListings(g: Group, m: Membership)
    requires m.groupId == g.id
    ensures var b := World(map[g.id := g], {m}, {}, []);
            var run := Run(Scope({g.id}, {}), {}, EMPTY_WORLD, [], [], [m]);
            && ValidWorld(EMPTY_WORLD)
            && Rely(run.sc, EMPTY_WORLD, EMPTY_WORLD) && Rely(run.sc, EMPTY_WORLD, b)
            && Lists(run.gs, Store.GroupRows(EMPTY_WORLD.groups)) && Lists(run.ms, b.members)
            && !EveryGroupListed(run)
  {
    var run := Run(Scope({g.id}, {}), {}, EMPTY_WORLD, [], [], [m]);
    assert run.ms[0] == m && !ListsGroup(run, m.groupId);
  }

  lemma StoppedMeans(run: Run, w: World, requests: seq<WriteRequest>)
    requires Stopped(run, w, requests)
    ensures Underway(run, w) && GoodRequests(run, requests) && CutOff(run, w)
  {
  }

  lemma UnlistedMeansTouched(run: Run)
    ensures UnlistedInScope(run) && !EveryGroupListed(run) ==> run.sc.groups != {}
  {
  }

  lemma GroupsDone(run: Run, w: World, requests: seq<WriteRequest>, r: Report)
    requires GroupLoop(run, w, requests, r, |run.gs|)
    ensures MemberLoop(run, w, requests, r, 0)
  {
    hide Going, Published, GroupsRepaired, MembersRepaired;
  }

  lemma MembersDone(run: Run, w: World, requests: seq<WriteRequest>, r: Report, kept: Memberships, admins: TupleSet)
    requires ValidWorld(run.w0) && SnapshotOf(run) && MemberLoop(run, w, requests, r, |run.ms|)
    requires AdminsFound(run, admins, |run.gs|) && KeptAfter(run, kept, |run.ms|)
    ensures Repaired(run, w, kept, admins)
  {
    hide Progressed, Published, GroupsRepaired, MembersRepaired, SnapshotOf, AdminsFound, KeptAfter, ValidTables;
  }

  lemma NoSuchMember(members: Memberships, g: Uuid, u: Uuid)
    requires !HasPair(members, g, u)
    ensures WithoutMember(members, g, u) == members
  {
  }

  lemma StaleIsSwept(run: Run, before: World, w: World, kept: Memberships, admins: TupleSet, tuples: seq<TupleKey>,
                     deletes: seq<TupleKey>)
    requires Rely(run.sc, before, w)
    requires forall t :: Quiet(run.sc, t) ==> (t in tuples <==> t in before.tuples)
    requires forall t :: t in deletes <==> t in tuples && IsManagedGroupTuple(t) && !HeldBacked(run, kept, admins, t)
    ensures Swept(run, w, kept, admins, SetOf(deletes))
  {
  }

  /** Failing before anything was listed. */
  lemma NotStarted(run: Run, w: World)
    requires ValidWorld(run.w0) && Rely(run.sc, run.w0, w) && w.log == run.w0.log
    ensures Stopped(run, w, run.requests0)
  {
    StartsProgressed(run.sc, run.ids, run.w0);
    RelyKeepsProgress(run.sc, run.ids, run.w0, run.w0, w);
    if run.sc == ALONE {
      AloneMeansUnchanged(run.w0, w);
    }
    hide Rely, Progressed;
  }

  /** Three zeros in the report mean that nothing changed, and only then. */
  lemma CountsTell(run: Run, w: World, r: Report)
    requires run.sc == ALONE && Counts(run, w, r) && Published(run, w) && Underway(run, w)
    ensures r.tuplesWritten == 0 && r.tuplesDeleted == 0 && r.orphanedMembershipsRemoved == 0 <==>
            w.tuples == run.w0.tuples && w.members == run.w0.members
    ensures w.members == run.w0.members ==> w.log == run.w0.log
    ensures w.groups == run.w0.groups
  {
    AloneGroups(run.ids, run.w0, w);
    hide Progressed;
    EmptyDifference(w.tuples, run.w0.tuples);
    EmptyDifference(run.w0.tuples, w.tuples);
    EmptyDifference(run.w0.members, w.members);
    if w.members == run.w0.members {
      assert run.w0.members - w.members == {};
      assert w.log == run.w0.log + w.log[|run.w0.log|..];
    }
  }

  lemma EmptyDifference<T>(a: set<T>, b: set<T>)
    ensures |a - b| == 0 <==> a <= b
  {
    assert |a - b| == 0 <==> a - b == {};
    if a - b == {} {
      forall x | x in a ensures x in b {
        assert x !in a - b;
      }
    }
  }

  /** A run from a settled world reports its scan and nothing else. */
  lemma SecondRunReportsScanOnly(run: Run, w: World, r: Report)
    requires run.sc == ALONE && Settled(run.ids, run.w0)
    requires Converged(ALONE, run.ids, run.w0, w) && Counts(run, w, r)
    ensures w.tuples == run.w0.tuples && w.members == run.w0.members
    ensures r == Report(|run.w0.groups|, |run.w0.members|, 0, 0, 0)
  {
    SettledStaysPut(run, w);
    CompleteRunReachesGoal(run.ids, run.w0, w);
    assert Live(run.ids, run.w0.members) == run.w0.members;
    hide Converged, Settled, InGoal;
    assert w.tuples - run.w0.tuples == {} && run.w0.tuples - w.tuples == {} && run.w0.members - w.members == {};
  }

  // ----- what the accepted requests amount to ----------------------------------------------------------------

  function AfterRequest(q: WriteRequest): TupleSet {
    q.before - SetOf(q.deletes) + SetOf(q.writes)
  }

  /** Every write of an undisturbed run brings the tuples strictly closer to the
      goal: no difference appears and at least one goes. */
  lemma EveryWriteShrinksDifference(run: Run, requests: seq<WriteRequest>, k: nat)
    requires run.sc == ALONE && GoodRequests(run, requests) && |run.requests0| <= k < |requests|
    ensures Towards(GoalTuples(run.ids, run.w0), requests[k].before, AfterRequest(requests[k]))
    ensures exists t :: (t in requests[k].before) != (t in GoalTuples(run.ids, run.w0))
                        && (t in AfterRequest(requests[k]) <==> t in GoalTuples(run.ids, run.w0))
  {
    var q := requests[k];
    forall t ensures t in GoalTuples(run.ids, run.w0) <==> InGoal(run.ids, run.w0, t) {
      GoalMembership(run.ids, run.w0, t);
    }
    hide InGoal, GoalTuples, Settled;
    assert GoodRequest(run.ids, run.w0, q);
    var t := if q.writes != [] then q.writes[0] else q.deletes[0];
    assert t in q.writes || t in q.deletes;
    assert (t in q.before) != (t in GoalTuples(run.ids, run.w0));
    assert t in AfterRequest(q) <==> t in GoalTuples(run.ids, run.w0);
  }

  /** No tuple is both written and deleted in one undisturbed run. */
  lemma WrittenIsNeverDeleted(run: Run, requests: seq<WriteRequest>, i: nat, j: nat, t: TupleKey)
    requires run.sc == ALONE && GoodRequests(run, requests)
    requires |run.requests0| <= i < |requests| && |run.requests0| <= j < |requests|
    ensures !(t in requests[i].writes && t in requests[j].deletes)
  {
    hide InGoal, Settled;
    assert GoodRequest(run.ids, run.w0, requests[i]) && GoodRequest(run.ids, run.w0, requests[j]);
  }
}
