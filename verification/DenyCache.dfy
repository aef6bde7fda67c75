/**
 The cache that stops agents from retrying a denied intent (pkg/mcpserver/deny_cache.go:36-94) and how
 `ValidateService.Validate` gates evaluation with it (pkg/mcpserver/server.go:271-314).
 */
module DenyCache {
  import opened Wrappers

  datatype Entry = Entry(deniedAt: int, denyCount: nat, reason: string, ruleIDs: seq<string>, eventID: string)

  type Entries = map<string, Entry>

  /** One call on the cache, with the clock reading it takes. */
  datatype Op =
    | Check(key: string, at: int)
    | RecordDeny(key: string, reason: string, ruleIDs: seq<string>, eventID: string, at: int)
    | ClearIntent(key: string, at: int)
    | Cleanup(at: int)

  predicate Expired(e: Entry, ttl: int, now: int) {
    now - e.deniedAt > ttl
  }

  /** What `CheckDenyLoop` answers. */
  predicate Stops(entries: Entries, ttl: int, key: string, now: int) {
    key in entries && !Expired(entries[key], ttl, now)
  }

  function Apply(entries: Entries, ttl: int, op: Op): Entries {
    match op
    case Check(key, now) =>
      if key in entries && Expired(entries[key], ttl, now) then entries - {key} else entries
    case RecordDeny(key, reason, ruleIDs, eventID, now) =>
      if key in entries then entries[key := entries[key].(denyCount := entries[key].denyCount + 1, deniedAt := now)]
      else entries[key := Entry(now, 1, reason, ruleIDs, eventID)]
    case ClearIntent(key, _) => entries - {key}
    case Cleanup(now) => map k | k in entries && !Expired(entries[k], ttl, now) :: entries[k]
  }

  // ----- The cache as the code runs it

  class Cache {
    var entries: Entries
    const ttl: int

    constructor (timeToLive: int)
      ensures entries == map[] && ttl == timeToLive
    {
      entries, ttl := map[], timeToLive;
    }

    method CheckDenyLoop(key: string, now: int) returns (stopped: Option<Entry>)
      modifies this`entries
      ensures stopped.Some? <==> Stops(old(entries), ttl, key, now)
      ensures stopped.Some? ==> stopped.value == old(entries)[key]
      ensures entries == Apply(old(entries), ttl, Check(key, now))
    {
      if key !in entries { return None; }
      var entry := entries[key];
      if now - entry.deniedAt > ttl {
        entries := entries - {key};
        return None;
      }
      return Some(entry);
    }

    method RecordDenial(key: string, reason: string, ruleIDs: seq<string>, eventID: string, now: int)
      modifies this`entries
      ensures entries == Apply(old(entries), ttl, RecordDeny(key, reason, ruleIDs, eventID, now))
      ensures ttl >= 0 ==> Stops(entries, ttl, key, now) && !Stops(entries, ttl, key, now + ttl + 1)
      ensures entries - {key} == old(entries) - {key}
      ensures key in entries && entries[key] ==
        if key in old(entries) then
          var was := old(entries)[key];
          Entry(now, was.denyCount + 1, was.reason, was.ruleIDs, was.eventID)
        else Entry(now, 1, reason, ruleIDs, eventID)
    {
      if key in entries {
        var entry := entries[key];
        entries := entries[key := entry.(denyCount := entry.denyCount + 1, deniedAt := now)];
        return;
      }
      entries := entries[key := Entry(now, 1, reason, ruleIDs, eventID)];
    }

    method Clear(key: string, now: int)
      modifies this`entries
      ensures entries == Apply(old(entries), ttl, ClearIntent(key, now))
      ensures key !in entries && forall k :: k != key ==>
        (k in entries <==> k in old(entries)) && (k in entries ==> entries[k] == old(entries)[k])
    {
      entries := entries - {key};
    }

    /** Deletes expired entries while ranging over the keys in arbitrary order. */
    method Sweep(now: int)
      modifies this`entries
      ensures entries == Apply(old(entries), ttl, Cleanup(now))
    {
      var rest := entries.Keys;
      while rest != {}
        invariant rest <= old(entries).Keys
        invariant forall k :: k in entries <==>
          k in old(entries) && (k in rest || !Expired(old(entries)[k], ttl, now))
        invariant forall k :: k in entries ==> entries[k] == old(entries)[k]
        decreases |rest|
      {
        var k :| k in rest;
        rest := rest - {k};
        if now - entries[k].deniedAt > ttl {
          entries := entries - {k};
        }
      }
    }
  }

  // ----- Whole runs against the history of outcomes

  function Run(ttl: int, ops: seq<Op>): Entries {
    if ops == [] then map[] else Apply(Run(ttl, ops[..|ops| - 1]), ttl, ops[|ops| - 1])
  }

  ghost predicate Monotone(ops: seq<Op>) {
    forall i, j :: 0 <= i < j < |ops| ==> ops[i].at <= ops[j].at
  }

  /** The time of the latest denial of `key` that no later allow has cleared. */
  function Latest(ops: seq<Op>, key: string): Option<int> {
    if ops == [] then None
    else
      var op := ops[|ops| - 1];
      if op.RecordDeny? && op.key == key then Some(op.at)
      else if op.ClearIntent? && op.key == key then None
      else Latest(ops[..|ops| - 1], key)
  }

  /** The reference verdict: denied at most `ttl` ago and not cleared since. */
  predicate RecentlyDenied(ops: seq<Op>, ttl: int, key: string, now: int) {
    Latest(ops, key).Some? && now - Latest(ops, key).value <= ttl
  }

  /** An entry is present with the latest denial time, or absent because that denial had expired. */
  ghost predicate Tracks(entries: Entries, ttl: int, latest: Option<int>, key: string, now: int) {
    match latest
    case None => key !in entries
    case Some(t) => if key in entries then entries[key].deniedAt == t else now - t > ttl
  }

  lemma {:induction false} RunTracks(ttl: int, ops: seq<Op>, key: string, now: int)
    requires Monotone(ops) && (ops != [] ==> ops[|ops| - 1].at <= now)
    ensures Tracks(Run(ttl, ops), ttl, Latest(ops, key), key, now)
  {
    if ops != [] {
      var n := |ops| - 1;
      assert Monotone(ops[..n]);
      if n > 0 { assert ops[n - 1].at <= ops[n].at; }
      RunTracks(ttl, ops[..n], key, ops[n].at);
    }
  }

  /**
   Under any interleaving of cache operations and a monotone clock, a check stops the call if and only if
   the latest recorded outcome of its key was a denial at most `ttl` ago.
   */
  lemma {:induction false} CacheRefinesHistory(ttl: int, ops: seq<Op>, key: string, now: int)
    requires Monotone(ops) && (ops != [] ==> ops[|ops| - 1].at <= now)
    ensures Stops(Run(ttl, ops), ttl, key, now) <==> RecentlyDenied(ops, ttl, key, now)
  {
    RunTracks(ttl, ops, key, now);
  }

  /** Sweeping and checking change no verdict, now or later. */
  lemma {:induction false} ReadersChangeNoVerdict(ttl: int, ops: seq<Op>, op: Op, key: string, now: int)
    requires Monotone(ops + [op]) && op.at <= now && (op.Cleanup? || op.Check?)
    ensures Stops(Run(ttl, ops + [op]), ttl, key, now) <==> Stops(Run(ttl, ops), ttl, key, now)
  {
    hide Stops, Run;
    var all := ops + [op];
    assert all[..|ops|] == ops && all[|ops|] == op;
    assert Latest(all, key) == Latest(ops, key);
    hide Latest;
    assert Monotone(ops) by {
      forall i, j | 0 <= i < j < |ops| ensures ops[i].at <= ops[j].at { assert all[i].at <= all[j].at; }
    }
    if ops != [] { assert all[|ops| - 1].at <= all[|ops|].at; }
    CacheRefinesHistory(ttl, ops, key, now);
    CacheRefinesHistory(ttl, all, key, now);
  }

  lemma {:induction false} CountsArePositive(ttl: int, ops: seq<Op>, key: string)
    ensures key in Run(ttl, ops) ==> Run(ttl, ops)[key].denyCount >= 1
  {
    if ops != [] { CountsArePositive(ttl, ops[..|ops| - 1], key); }
  }

  /** The operation deletes the entry of `key`, because it looks at that entry and finds it expired. */
  predicate Removes(entries: Entries, ttl: int, op: Op, key: string) {
    && (op.Cleanup? || (op.Check? && op.key == key))
    && key in entries && Expired(entries[key], ttl, op.at)
  }

  /**
   What cleanups and checks do change is the reported count. After any history, a denial counts as it would have
   without the cleanup or check before it if and only if that did not delete an expired entry of its key; if it
   did, counting starts again at one.
   */
  lemma ReadersRestartCount(ttl: int, ops: seq<Op>, op: Op, deny: Op)
    requires (op.Cleanup? || op.Check?) && deny.RecordDeny?
    ensures var without, with := Run(ttl, ops + [deny]), Run(ttl, ops + [op, deny]);
            && deny.key in without && deny.key in with
            && (with[deny.key].denyCount == without[deny.key].denyCount <==> !Removes(Run(ttl, ops), ttl, op, deny.key))
            && (Removes(Run(ttl, ops), ttl, op, deny.key) ==> with[deny.key].denyCount == 1)
  {
    CountsArePositive(ttl, ops, deny.key);
    RunSnoc(ttl, ops, deny);
    RunSnoc(ttl, ops, op);
    RunSnoc(ttl, ops + [op], deny);
    assert ops + [op] + [deny] == ops + [op, deny];
  }

  /** The denial before is deleted exactly by a cleanup, or a check of its key, more than `ttl` later. */
  lemma DenialsExpire(ttl: int, ops: seq<Op>, deny: Op, op: Op)
    requires deny.RecordDeny? && (op.Cleanup? || (op.Check? && op.key == deny.key))
    ensures Removes(Run(ttl, ops + [deny]), ttl, op, deny.key) <==> op.at - deny.at > ttl
  {
    RunSnoc(ttl, ops, deny);
  }

  lemma RunSnoc(ttl: int, ops: seq<Op>, op: Op)
    ensures Run(ttl, ops + [op]) == Apply(Run(ttl, ops), ttl, op)
  {
    assert (ops + [op])[..|ops|] == ops;
  }

  // ----- The service

  /** A validation request: its actor, its intent key, and what evaluation will say about it. */
  datatype Request = Request(actorType: string, key: string, allow: bool, reason: string, ruleIDs: seq<string>,
    eventID: string)

  predicate Gated(r: Request) {
    r.actorType == "agent" || r.actorType == "ci"
  }

  /**
   Requests run concurrently and the cache is locked only inside each of its calls, so a request is two events:
   it arrives at the gate, and it finishes by recording its outcome. Anything can happen in between.
   */
  datatype Event =
    | Arrive(id: nat, request: Request, at: int)
    | Finish(id: nat, at: int)
    | Tidy(at: int)

  /** `pending` holds the requests that passed the gate and are being evaluated. */
  datatype Service = Service(entries: Entries, pending: map<nat, Request>)

  predicate StopsRequest(s: Service, ttl: int, r: Request, now: int) {
    Gated(r) && Stops(s.entries, ttl, r.key, now)
  }

  function OutcomeOp(r: Request, now: int): Op {
    if r.allow then ClearIntent(r.key, now) else RecordDeny(r.key, r.reason, r.ruleIDs, r.eventID, now)
  }

  function ServiceNext(s: Service, ttl: int, e: Event): Service {
    match e
    case Arrive(id, r, now) =>
      if id in s.pending then s
      else
        Service(if Gated(r) then Apply(s.entries, ttl, Check(r.key, now)) else s.entries,
          if StopsRequest(s, ttl, r, now) then s.pending else s.pending[id := r])
    case Finish(id, now) =>
      if id !in s.pending then s
      else Service(Apply(s.entries, ttl, OutcomeOp(s.pending[id], now)), s.pending - {id})
    case Tidy(now) => s.(entries := Apply(s.entries, ttl, Cleanup(now)))
  }

  function Serve(ttl: int, events: seq<Event>): Service {
    if events == [] then Service(map[], map[])
    else ServiceNext(Serve(ttl, events[..|events| - 1]), ttl, events[|events| - 1])
  }

  datatype Response = Stopped | Evaluated(allow: bool)

  /** `ValidateService.Validate` with the cache enabled, undisturbed: an arrival and a finish. */
  method Validate(cache: Cache, r: Request, checkAt: int, recordAt: int) returns (response: Response)
    modifies cache
    ensures var arriving := Service(old(cache.entries), map[]);
            var arrived := ServiceNext(arriving, cache.ttl, Arrive(0, r, checkAt));
            && cache.entries == ServiceNext(arrived, cache.ttl, Finish(0, recordAt)).entries
            && response == if StopsRequest(arriving, cache.ttl, r, checkAt) then Stopped else Evaluated(r.allow)
    ensures r.actorType != "agent" && r.actorType != "ci" ==> response == Evaluated(r.allow)
    ensures response.Stopped? <==>
      && (r.actorType == "agent" || r.actorType == "ci")
      && r.key in old(cache.entries) && checkAt - old(cache.entries)[r.key].deniedAt <= cache.ttl
    ensures response.Stopped? ==> cache.entries == old(cache.entries)
    ensures response.Evaluated? ==> response.allow == r.allow && (r.allow <==> r.key !in cache.entries)
    ensures response == Evaluated(false) && r.key !in old(cache.entries) ==>
      cache.entries == old(cache.entries)[r.key := Entry(recordAt, 1, r.reason, r.ruleIDs, r.eventID)]
    ensures response == Evaluated(false) && r.key in old(cache.entries) ==>
      var was := old(cache.entries)[r.key];
      cache.entries == old(cache.entries)[r.key :=
        if r.actorType == "agent" || r.actorType == "ci" then Entry(recordAt, 1, r.reason, r.ruleIDs, r.eventID)
        else Entry(recordAt, was.denyCount + 1, was.reason, was.ruleIDs, was.eventID)]
  {
    if Gated(r) {
      var gate := cache.CheckDenyLoop(r.key, checkAt);
      if gate.Some? { return Stopped; }
    }
    if !r.allow {
      cache.RecordDenial(r.key, r.reason, r.ruleIDs, r.eventID, recordAt);
    } else {
      cache.Clear(r.key, recordAt);
    }
    return Evaluated(r.allow);
  }

  // ----- The service against the ledger of outcomes

  /** The cache operations of an event. */
  function OpsOf(s: Service, e: Event): seq<Op> {
    match e
    case Arrive(id, r, now) => if id in s.pending || !Gated(r) then [] else [Check(r.key, now)]
    case Finish(id, now) => if id in s.pending then [OutcomeOp(s.pending[id], now)] else []
    case Tidy(now) => [Cleanup(now)]
  }

  function Trace(ttl: int, events: seq<Event>): seq<Op> {
    if events == [] then []
    else
      var n := |events| - 1;
      Trace(ttl, events[..n]) + OpsOf(Serve(ttl, events[..n]), events[n])
  }

  /** However requests overlap, the cache holds what its operations, one after another, leave. */
  lemma {:induction false} ServiceRunsTrace(ttl: int, events: seq<Event>)
    ensures Serve(ttl, events).entries == Run(ttl, Trace(ttl, events))
  {
    hide Apply;
    if events != [] {
      var n := |events| - 1;
      ServiceRunsTrace(ttl, events[..n]);
      var ops := OpsOf(Serve(ttl, events[..n]), events[n]);
      if ops != [] {
        assert ops == [ops[0]];
        RunSnoc(ttl, Trace(ttl, events[..n]), ops[0]);
      } else {
        assert Trace(ttl, events[..n]) + [] == Trace(ttl, events[..n]);
      }
    }
  }

  ghost predicate InOrder(events: seq<Event>) {
    forall i, j :: 0 <= i < j < |events| ==> events[i].at <= events[j].at
  }

  lemma {:induction false} TraceInOrder(ttl: int, events: seq<Event>, now: int)
    requires InOrder(events) && (events != [] ==> events[|events| - 1].at <= now)
    ensures Monotone(Trace(ttl, events))
    ensures forall i :: 0 <= i < |Trace(ttl, events)| ==> Trace(ttl, events)[i].at <= now
  {
    hide Serve, OpsOf;
    if events != [] {
      var n := |events| - 1;
      assert InOrder(events[..n]);
      if n > 0 { assert events[n - 1].at <= events[n].at; }
      TraceInOrder(ttl, events[..n], events[n].at);
      OpsAreTimed(Serve(ttl, events[..n]), events[n]);
    }
  }

  lemma OpsAreTimed(s: Service, e: Event)
    ensures |OpsOf(s, e)| <= 1 && forall i :: 0 <= i < |OpsOf(s, e)| ==> OpsOf(s, e)[i].at == e.at
  {
  }

  /** An evaluated request: what was said about its intent, and when. */
  datatype Outcome = Outcome(key: string, allow: bool, at: int)

  /** The reference service: no cache, every outcome kept. */
  datatype Ledger = Ledger(outcomes: seq<Outcome>, pending: map<nat, Request>)

  function LatestOutcome(outcomes: seq<Outcome>, key: string): Option<Outcome> {
    if outcomes == [] then None
    else if outcomes[|outcomes| - 1].key == key then Some(outcomes[|outcomes| - 1])
    else LatestOutcome(outcomes[..|outcomes| - 1], key)
  }

  /** An agent or ci request is blocked while the latest outcome of its intent is a denial at most `ttl` ago. */
  predicate Blocks(l: Ledger, ttl: int, r: Request, now: int) {
    Gated(r) &&
    match LatestOutcome(l.outcomes, r.key)
    case None => false
    case Some(o) => !o.allow && now - o.at <= ttl
  }

  function LedgerNext(l: Ledger, ttl: int, e: Event): Ledger {
    match e
    case Arrive(id, r, now) =>
      if id in l.pending || Blocks(l, ttl, r, now) then l else l.(pending := l.pending[id := r])
    case Finish(id, now) =>
      if id !in l.pending then l
      else Ledger(l.outcomes + [Outcome(l.pending[id].key, l.pending[id].allow, now)], l.pending - {id})
    case Tidy(_) => l
  }

  function Record(ttl: int, events: seq<Event>): Ledger {
    if events == [] then Ledger([], map[])
    else LedgerNext(Record(ttl, events[..|events| - 1]), ttl, events[|events| - 1])
  }

  /** The operations of the cache and the ledger agree on when a key was last denied. */
  ghost predicate SameDenials(ops: seq<Op>, outcomes: seq<Outcome>) {
    forall key :: Latest(ops, key) ==
      match LatestOutcome(outcomes, key)
      case None => None
      case Some(o) => if o.allow then None else Some(o.at)
  }

  lemma SameVerdict(ttl: int, events: seq<Event>, l: Ledger, r: Request, now: int)
    requires InOrder(events) && (events != [] ==> events[|events| - 1].at <= now)
    requires SameDenials(Trace(ttl, events), l.outcomes)
    ensures StopsRequest(Serve(ttl, events), ttl, r, now) <==> Blocks(l, ttl, r, now)
  {
    hide Serve, Trace, Run, Stops, Latest, LatestOutcome;
    ServiceRunsTrace(ttl, events);
    TraceInOrder(ttl, events, now);
    CacheRefinesHistory(ttl, Trace(ttl, events), r.key, now);
    assert Latest(Trace(ttl, events), r.key) == match LatestOutcome(l.outcomes, r.key)
      case None => None
      case Some(o) => if o.allow then None else Some(o.at);
  }

  lemma SameDenialsNext(s: Service, ttl: int, ops: seq<Op>, l: Ledger, e: Event)
    requires SameDenials(ops, l.outcomes) && s.pending == l.pending
    ensures SameDenials(ops + OpsOf(s, e), LedgerNext(l, ttl, e).outcomes)
  {
    hide Blocks, SameDenials;
    var more := OpsOf(s, e);
    if e.Finish? && e.id in s.pending {
      var r := s.pending[e.id];
      FinishAgrees(ops, l.outcomes, r, e.at);
    } else if more == [] {
      assert ops + more == ops;
    } else {
      ReadingAgrees(ops, l.outcomes, more[0]);
      assert more == [more[0]];
    }
  }

  lemma FinishAgrees(ops: seq<Op>, outcomes: seq<Outcome>, r: Request, now: int)
    requires SameDenials(ops, outcomes)
    ensures SameDenials(ops + [OutcomeOp(r, now)], outcomes + [Outcome(r.key, r.allow, now)])
  {
    var ops', outcomes' := ops + [OutcomeOp(r, now)], outcomes + [Outcome(r.key, r.allow, now)];
    assert ops'[..|ops|] == ops && outcomes'[..|outcomes|] == outcomes;
  }

  lemma ReadingAgrees(ops: seq<Op>, outcomes: seq<Outcome>, op: Op)
    requires SameDenials(ops, outcomes) && (op.Check? || op.Cleanup?)
    ensures SameDenials(ops + [op], outcomes)
  {
    assert (ops + [op])[..|ops|] == ops;
  }

  lemma {:induction false} ServiceFollowsLedger(ttl: int, events: seq<Event>)
    requires InOrder(events)
    ensures Serve(ttl, events).pending == Record(ttl, events).pending
    ensures SameDenials(Trace(ttl, events), Record(ttl, events).outcomes)
  {
    hide SameDenials, StopsRequest, Blocks, Apply;
    if events == [] {
      NothingDenied();
    } else {
      var n := |events| - 1;
      var before, e := events[..n], events[n];
      assert InOrder(before);
      if n > 0 { assert events[n - 1].at <= events[n].at; }
      ServiceFollowsLedger(ttl, before);
      SameDenialsNext(Serve(ttl, before), ttl, Trace(ttl, before), Record(ttl, before), e);
      if e.Arrive? { SameVerdict(ttl, before, Record(ttl, before), e.request, e.at); }
    }
  }

  lemma NothingDenied()
    ensures SameDenials([], [])
  {
  }

  /**
   However requests overlap, as long as the clock does not run backwards: the service lets through, stops and
   finishes exactly the requests that the ledger of outcomes would, so an agent or ci request is stopped if and
   only if the latest outcome of its intent is a denial at most `ttl` ago. A stopped request leaves the service as
   it found it, and so never extends the block.
   */
  lemma GateRefinesOutcomes(ttl: int, events: seq<Event>, id: nat, r: Request, now: int)
    requires InOrder(events + [Arrive(id, r, now)])
    ensures var s, l := Serve(ttl, events), Record(ttl, events);
            && s.pending == l.pending
            && (StopsRequest(s, ttl, r, now) <==> Blocks(l, ttl, r, now))
            && (Blocks(l, ttl, r, now) ==> ServiceNext(s, ttl, Arrive(id, r, now)) == s)
    ensures var outcome := LatestOutcome(Record(ttl, events).outcomes, r.key);
            StopsRequest(Serve(ttl, events), ttl, r, now) <==>
              && (r.actorType == "agent" || r.actorType == "ci")
              && outcome.Some? && !outcome.value.allow && now - outcome.value.at <= ttl
    ensures var s := Serve(ttl, events);
            id !in s.pending ==>
              ServiceNext(s, ttl, Arrive(id, r, now)).pending
                == if StopsRequest(s, ttl, r, now) then s.pending else s.pending[id := r]
  {
    hide Serve, Record, SameDenials, Trace, LatestOutcome;
    var all := events + [Arrive(id, r, now)];
    assert InOrder(events) by {
      forall i, j | 0 <= i < j < |events| ensures events[i].at <= events[j].at {
        assert all[i].at <= all[j].at;
      }
    }
    if events != [] { assert all[|events| - 1].at <= all[|events|].at; }
    ServiceFollowsLedger(ttl, events);
    SameVerdict(ttl, events, Record(ttl, events), r, now);
  }
}
