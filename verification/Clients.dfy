/** The services the groups server calls: authorization tuples, identities and
    the event publisher. Each call may fail. */
module Clients {
  import opened Wrappers
  import opened Uuids
  import opened Schema
  import opened Tuples
  import opened Worlds
  import Store

  /** An accepted or refused `Write`, with the tuples it found. */
  datatype WriteRequest = WriteRequest(before: TupleSet, writes: seq<TupleKey>, deletes: seq<TupleKey>)

  /** An empty field of a read filter matches everything. */
  predicate TupleMatches(filter: TupleKey, t: TupleKey) {
    && (filter.user == "" || filter.user == t.user)
    && (filter.relation == "" || filter.relation == t.relation)
    && (filter.obj == "" || filter.obj == t.obj)
  }

  function Matching(tuples: TupleSet, filter: TupleKey): TupleSet {
    set t | t in tuples && TupleMatches(filter, t)
  }

  function SetOf(ts: seq<TupleKey>): TupleSet {
    set t | t in ts
  }

  /** A page token stands for what is left of the snapshot the first page was
      cut from; None is the empty token. */
  type PageToken = Option<seq<TupleKey>>

  function Left(token: PageToken): seq<TupleKey> {
    if token.Some? then token.value else []
  }

  class AuthorizationClient {
    var tuples: TupleSet
    var requests: seq<WriteRequest>
    /** What became of every `Write` and `Read` so far, and of every check. */
    ghost var calls: seq<Outcome>
    ghost var checks: seq<MemberCheck>

    constructor ()
      ensures tuples == {} && requests == [] && calls == [] && checks == []
    {
      tuples, requests, calls, checks := {}, [], [], [];
    }

    /** All or nothing. */
    method Write(writes: seq<TupleKey>, deletes: seq<TupleKey>) returns (ok: bool, ghost o: Outcome)
      modifies this`tuples, this`requests, this`calls
      ensures (ok <==> o.Done?) && calls == old(calls) + [o]
      ensures tuples == if o.Refused? then old(tuples) else old(tuples) - SetOf(deletes) + SetOf(writes)
      ensures requests == old(requests) + [WriteRequest(old(tuples), writes, deletes)]
    {
      var outcome: Outcome := *;
      o := outcome;
      calls := calls + [o];
      requests := requests + [WriteRequest(tuples, writes, deletes)];
      if !outcome.Refused? {
        tuples := tuples - SetOf(deletes) + SetOf(writes);
      }
      ok := outcome.Done?;
    }

    /** One page of the tuples that match a filter. */
    method Read(filter: TupleKey, pageSize: nat, token: PageToken)
      returns (ok: bool, page: seq<TupleKey>, next: PageToken)
      requires pageSize > 0
      modifies this`calls
      ensures calls == old(calls) + [Answer(ok)]
      ensures ok ==> |page| <= pageSize
      ensures ok && token.None? ==> Lists(page + Left(next), Matching(tuples, filter))
      ensures ok && token.Some? ==> page + Left(next) == token.value
      ensures ok && token.Some? && next.Some? ==> |next.value| < |token.value|
    {
      ok := *;
      calls := calls + [Answer(ok)];
      var snapshot: seq<TupleKey>;
      if token.None? {
        snapshot := Store.Rows(Matching(tuples, filter));
      } else {
        snapshot := token.value;
      }
      if snapshot == [] {
        return ok, [], None;
      }
      var n: nat :| 1 <= n <= |snapshot| && n <= pageSize;
      page := snapshot[..n];
      next := if n == |snapshot| then None else Some(snapshot[n..]);
      assert page + Left(next) == snapshot;
    }

    /** Whether the identity counts among the organization's members. */
    method Check(identityId: Uuid, organizationId: Uuid) returns (check: MemberCheck)
      modifies this`checks
      ensures checks == old(checks) + [check]
    {
      check := *;
      checks := checks + [check];
    }
  }

  class IdentityClient {
    /** Identities and their types; no identity appears or disappears meanwhile. */
    const types: map<Uuid, IdentityType>
    ghost var calls: seq<Outcome>

    constructor (types: map<Uuid, IdentityType>)
      ensures this.types == types && calls == []
    {
      this.types := types;
      calls := [];
    }

    method GetIdentityType(id: Uuid) returns (r: Result<IdentityType>)
      modifies this`calls
      ensures calls == old(calls) + [Answer(r != Failure(Internal))]
      ensures r == Failure(Internal) || r == if id in types then Success(types[id]) else Failure(NotFound)
    {
      var ok := *;
      calls := calls + [Answer(ok)];
      if !ok {
        return Failure(Internal);
      }
      r := if id in types then Success(types[id]) else Failure(NotFound);
    }
  }

  class Publisher {
    var log: seq<Attempt>

    constructor ()
      ensures log == []
    {
      log := [];
    }

    /** Callers log a failed publish and go on. */
    method Publish(event: Event)
      modifies this
      ensures exists delivered :: log == old(log) + [Attempt(event, delivered)]
    {
      var delivered := *;
      log := log + [Attempt(event, delivered)];
    }
  }
}
