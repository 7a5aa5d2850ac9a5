/** How a reconciliation run, whole or cut off, alone or among running
    handlers, relates to the world it started from. */
module Progress {
  import opened Uuids
  import opened Schema
  import opened Tuples
  import opened Worlds
  import opened Goal

  /** The groups and (group, member) pairs that handlers running at the same
      time may touch; touching a group touches all its pairs. */
  datatype Scope = Scope(groups: set<Uuid>, pairs: set<(Uuid, Uuid)>)

  const ALONE := Scope({}, {})

  predicate QuietGroup(sc: Scope, g: Uuid) {
    g !in sc.groups
  }

  predicate QuietPair(sc: Scope, g: Uuid, u: Uuid) {
    g !in sc.groups && (g, u) !in sc.pairs
  }

  /** No handler writes the tuple, nor the row it depends on. */
  predicate Quiet(sc: Scope, t: TupleKey) {
    if t.relation == MEMBER_RELATION then
      match (ParseGroupObject(t.obj), ParseIdentityObject(t.user))
      case (Some(g), Some(u)) => QuietPair(sc, g, u)
      case _ => true
    else
      match ParseGroupObject(t.obj)
      case Some(g) => QuietGroup(sc, g)
      case None => true
  }

  /** What running handlers may change between two calls of a run. */
  ghost predicate Rely(sc: Scope, w: World, w': World) {
    && ValidWorld(w')
    && (forall g :: QuietGroup(sc, g) ==>
          (g in w.groups <==> g in w'.groups) && (g in w.groups ==> w.groups[g] == w'.groups[g]))
    && (forall m: Membership :: QuietPair(sc, m.groupId, m.memberId) ==> (m in w.members <==> m in w'.members))
    && (forall t: TupleKey :: Quiet(sc, t) ==> (t in w.tuples <==> t in w'.tuples))
  }

  /** No row that is still there lost its member tuple. */
  ghost predicate RowsKeepTuples(sc: Scope, w0: World, w: World) {
    forall m: Membership ::
      m in w.members && QuietPair(sc, m.groupId, m.memberId) && MembershipTuple(m) in w0.tuples ==>
        MembershipTuple(m) in w.tuples
  }

  /** Every difference from the starting world is a difference towards its goal,
      and rows go before their tuples do. */
  ghost predicate Progressed(sc: Scope, ids: set<Uuid>, w0: World, w: World) {
    && ValidWorld(w)
    && (forall g :: QuietGroup(sc, g) ==>
          (g in w0.groups <==> g in w.groups) && (g in w0.groups ==> w0.groups[g] == w.groups[g]))
    && (forall m: Membership :: QuietPair(sc, m.groupId, m.memberId) ==>
          && (m in w.members ==> m in w0.members)
          && (m in w0.members && m !in w.members ==> m.memberId !in ids))
    && (forall t: TupleKey :: Quiet(sc, t) && (t in w.tuples) != (t in w0.tuples) ==>
          (t in w.tuples <==> InGoal(ids, w0, t)))
    && RowsKeepTuples(sc, w0, w)
  }

  /** The outcome of a complete run on everything no handler touched. */
  ghost predicate Converged(sc: Scope, ids: set<Uuid>, w0: World, w: World) {
    && Progressed(sc, ids, w0, w)
    && (forall m: Membership :: QuietPair(sc, m.groupId, m.memberId) ==>
          (m in w.members <==> m in Live(ids, w0.members)))
    && (forall t: TupleKey :: Quiet(sc, t) ==> (t in w.tuples <==> InGoal(ids, w0, t)))
  }

  lemma MemberTupleQuiet(sc: Scope, g: Uuid, u: Uuid)
    ensures Quiet(sc, MemberTuple(g, u)) <==> QuietPair(sc, g, u)
  {
    GroupObjectReadBack(g);
    IdentityObjectReadBack(u);
  }

  lemma GroupTuplesQuiet(sc: Scope, g: Uuid, x: Uuid)
    ensures Quiet(sc, GroupOrgTuple(g, x)) <==> QuietGroup(sc, g)
    ensures Quiet(sc, GroupAdminTuple(g, x)) <==> QuietGroup(sc, g)
  {
    GroupObjectReadBack(g);
  }

  // ----- the steps of a run -----------------------------------------------------------

  lemma StartsProgressed(sc: Scope, ids: set<Uuid>, w: World)
    requires ValidWorld(w)
    ensures Progressed(sc, ids, w, w)
  {
  }

  lemma RelyKeepsProgress(sc: Scope, ids: set<Uuid>, w0: World, w: World, w': World)
    requires Progressed(sc, ids, w0, w) && Rely(sc, w, w')
    ensures Progressed(sc, ids, w0, w')
  {
    hide ToText, Parse;
    forall m: Membership | m in w'.members && QuietPair(sc, m.groupId, m.memberId) && MembershipTuple(m) in w0.tuples
      ensures MembershipTuple(m) in w'.tuples {
      MemberTupleQuiet(sc, m.groupId, m.memberId);
    }
    hide MembershipTuple, InGoal;
  }

  /** With no handler running, nothing changes between calls. */
  lemma AloneMeansUnchanged(w: World, w': World)
    requires Rely(ALONE, w, w')
    ensures w'.groups == w.groups && w'.members == w.members && w'.tuples == w.tuples
  {
    forall t ensures Quiet(ALONE, t) {
    }
  }

  lemma AloneUnchanged(sc: Scope, w: World, w': World, t: TupleKey)
    requires Rely(sc, w, w')
    ensures sc == ALONE ==> Quiet(sc, t) && w'.groups == w.groups && w'.members == w.members && w'.tuples == w.tuples
  {
  }

  lemma RelyReflexive(sc: Scope, w: World)
    requires ValidWorld(w)
    ensures Rely(sc, w, w)
  {
  }

  lemma RelyTransitive(sc: Scope, w: World, w': World, w'': World)
    requires Rely(sc, w, w') && Rely(sc, w', w'')
    ensures Rely(sc, w, w'')
  {
  }

  lemma AddingKeepsProgress(sc: Scope, ids: set<Uuid>, w0: World, w: World, t: TupleKey)
    requires Progressed(sc, ids, w0, w)
    requires Quiet(sc, t) ==> InGoal(ids, w0, t)
    ensures Progressed(sc, ids, w0, w.(tuples := w.tuples + {t}))
  {
  }

  lemma DeletingKeepsProgress(sc: Scope, ids: set<Uuid>, w0: World, w: World, deletes: TupleSet)
    requires Progressed(sc, ids, w0, w)
    requires forall t :: t in deletes && Quiet(sc, t) ==> !InGoal(ids, w0, t)
    requires forall m :: m in w.members && QuietPair(sc, m.groupId, m.memberId) ==> MembershipTuple(m) !in deletes
    ensures Progressed(sc, ids, w0, w.(tuples := w.tuples - deletes))
  {
    hide MembershipTuple, InGoal, Quiet;
  }

  // ----- runs without handlers in between -----------------------------------------------

  /** No difference to the goal appears that was not there before. */
  ghost predicate Towards(goal: TupleSet, before: TupleSet, after: TupleSet) {
    forall t :: (t in after) != (t in goal) ==> (t in before) != (t in goal)
  }

  lemma EverythingQuiet(t: TupleKey)
    ensures Quiet(ALONE, t)
  {
  }

  lemma AloneGroups(ids: set<Uuid>, w0: World, w: World)
    requires Progressed(ALONE, ids, w0, w)
    ensures w.groups == w0.groups && w.members <= w0.members && Live(ids, w.members) == Live(ids, w0.members)
  {
    assert forall g :: g in w0.groups <==> QuietGroup(ALONE, g) && g in w.groups;
    forall m | m in w.members ensures m in w0.members {
      assert QuietPair(ALONE, m.groupId, m.memberId);
    }
    forall m | m in w0.members && m.memberId in ids ensures m in w.members {
      assert QuietPair(ALONE, m.groupId, m.memberId);
    }
    hide Progressed;
  }

  /** Moving towards the goal does not move the goal. */
  lemma GoalIsStable(ids: set<Uuid>, w0: World, w: World, t: TupleKey)
    requires Progressed(ALONE, ids, w0, w)
    ensures InGoal(ids, w, t) <==> InGoal(ids, w0, t)
  {
    AloneGroups(ids, w0, w);
    EverythingQuiet(t);
  }

  lemma GoalSetIsStable(ids: set<Uuid>, w0: World, w: World)
    requires Progressed(ALONE, ids, w0, w)
    ensures GoalTuples(ids, w) == GoalTuples(ids, w0)
  {
    forall t ensures t in GoalTuples(ids, w) <==> t in GoalTuples(ids, w0) {
      GoalIsStable(ids, w0, w, t);
      GoalMembership(ids, w, t);
      GoalMembership(ids, w0, t);
    }
  }

  /** A completed run leaves exactly the goal, whatever it started from. */
  lemma CompleteRunReachesGoal(ids: set<Uuid>, w0: World, w: World)
    requires Converged(ALONE, ids, w0, w)
    ensures w.tuples == GoalTuples(ids, w0)
    ensures w.members == Live(ids, w0.members)
    ensures w.groups == w0.groups
  {
    AloneGroups(ids, w0, w);
    forall t ensures t in w.tuples <==> t in GoalTuples(ids, w0) {
      EverythingQuiet(t);
      GoalMembership(ids, w0, t);
    }
    forall m ensures m in w.members <==> m in Live(ids, w0.members) {
      assert QuietPair(ALONE, m.groupId, m.memberId);
    }
  }

  /** The symmetric difference to the goal never grows on the way. */
  lemma ProgressIsTowardsGoal(ids: set<Uuid>, w0: World, w: World)
    requires Progressed(ALONE, ids, w0, w)
    ensures Towards(GoalTuples(ids, w0), w0.tuples, w.tuples)
  {
    forall t | (t in w.tuples) != (t in GoalTuples(ids, w0)) ensures (t in w0.tuples) != (t in GoalTuples(ids, w0)) {
      EverythingQuiet(t);
      GoalMembership(ids, w0, t);
    }
  }

  lemma ProgressIsTransitive(ids: set<Uuid>, w0: World, w1: World, w2: World)
    requires Progressed(ALONE, ids, w0, w1) && Progressed(ALONE, ids, w1, w2)
    ensures Progressed(ALONE, ids, w0, w2)
  {
    forall t | (t in w2.tuples) != (t in w0.tuples) ensures t in w2.tuples <==> InGoal(ids, w0, t) {
      EverythingQuiet(t);
      GoalIsStable(ids, w0, w1, t);
    }
  }

  /** Worlds at the ends of runs that were each cut off at some call. */
  ghost predicate InterruptedRuns(ids: set<Uuid>, ws: seq<World>) {
    ws != [] && forall i :: 0 <= i < |ws| - 1 ==> Progressed(ALONE, ids, ws[i], ws[i + 1])
  }

  lemma {:induction false} InterruptedRunsProgress(ids: set<Uuid>, ws: seq<World>, n: nat)
    requires InterruptedRuns(ids, ws) && ValidWorld(ws[0]) && n < |ws|
    ensures Progressed(ALONE, ids, ws[0], ws[n])
  {
    if n > 0 {
      InterruptedRunsProgress(ids, ws, n - 1);
      assert Progressed(ALONE, ids, ws[n - 1], ws[n - 1 + 1]);
      ProgressIsTransitive(ids, ws[0], ws[n - 1], ws[n]);
    }
  }

  /** Recovery: however many runs were cut off, at whatever calls, the next
      complete run ends where one complete run from the start would have ended. */
  lemma Recovery(ids: set<Uuid>, ws: seq<World>, recovered: World, direct: World)
    requires InterruptedRuns(ids, ws) && ValidWorld(ws[0])
    requires Converged(ALONE, ids, ws[|ws| - 1], recovered)
    requires Converged(ALONE, ids, ws[0], direct)
    ensures recovered.tuples == direct.tuples
    ensures recovered.members == direct.members
    ensures recovered.groups == direct.groups
  {
    var last := ws[|ws| - 1];
    InterruptedRunsProgress(ids, ws, |ws| - 1);
    AloneGroups(ids, ws[0], last);
    GoalSetIsStable(ids, ws[0], last);
    CompleteRunReachesGoal(ids, last, recovered);
    CompleteRunReachesGoal(ids, ws[0], direct);
  }

  /** Nothing is left to repair. */
  ghost predicate Settled(ids: set<Uuid>, w: World) {
    && (forall t :: t in w.tuples <==> InGoal(ids, w, t))
    && (forall m :: m in w.members ==> m.memberId in ids)
  }

  lemma CompleteRunSettles(ids: set<Uuid>, w0: World, w: World)
    requires Converged(ALONE, ids, w0, w)
    ensures Settled(ids, w)
  {
    CompleteRunReachesGoal(ids, w0, w);
    forall t ensures t in w.tuples <==> InGoal(ids, w, t) {
      GoalIsStable(ids, w0, w, t);
      GoalMembership(ids, w0, t);
    }
  }
}
