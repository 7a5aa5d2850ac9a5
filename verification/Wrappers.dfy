/** Failure-carrying values shared by every module: optional values, the
    service's error codes and results. */
module Wrappers {

  datatype Option<+T> = None | Some(value: T)

  /** The error classes the service distinguishes (store errors and gRPC codes). */
  datatype Error = NotFound | AlreadyExists | InvalidArgument | InvalidPageToken | Internal

  datatype Result<+T> = Success(value: T) | Failure(error: Error)

  /** What became of a call that changes something elsewhere: applied and
      reported, refused without effect, or applied while the caller sees an error. */
  datatype Outcome = Done | Refused | ReplyLost

  /** What the authorization service says of a would-be member. */
  datatype MemberCheck = Allowed | Denied | Unanswered

  /** The outcome of a call that only reads. */
  function Answer(ok: bool): Outcome {
    if ok then Done else Refused
  }

  predicate AllDone(calls: seq<Outcome>) {
    forall i :: 0 <= i < |calls| ==> calls[i].Done?
  }

  /** How many calls of a history the caller saw fail. */
  function FaultsIn(calls: seq<Outcome>): nat {
    if calls == [] then 0
    else FaultsIn(calls[..|calls| - 1]) + if calls[|calls| - 1].Done? then 0 else 1
  }

  lemma OneMoreCall(calls: seq<Outcome>, o: Outcome)
    ensures FaultsIn(calls + [o]) == FaultsIn(calls) + if o.Done? then 0 else 1
    ensures AllDone(calls + [o]) <==> AllDone(calls) && o.Done?
  {
    var all := calls + [o];
    assert all[..|calls|] == calls && all[|calls|] == o;
    assert forall i :: 0 <= i < |calls| ==> all[i] == calls[i];
  }

  lemma EveryCallCounts()
    ensures forall calls, o :: FaultsIn(calls + [o]) == FaultsIn(calls) + if o.Done? then 0 else 1
  {
    forall calls, o ensures FaultsIn(calls + [o]) == FaultsIn(calls) + if o.Done? then 0 else 1 {
      OneMoreCall(calls, o);
    }
  }
}
