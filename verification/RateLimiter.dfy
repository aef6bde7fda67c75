/**
 The sliding-window limiter on key issuance (internal/api/keys_handler.go:13-49). Times are nanoseconds.
 */
module RateLimiter {

  const RATE_LIMIT := 3
  const RATE_WINDOW := 3600 * 1000000000

  /** The timestamps strictly younger than the window. */
  function Fresh(ts: seq<int>, now: int): (r: seq<int>)
    ensures |r| <= |ts|
  {
    if ts == [] then []
    else
      var n := |ts| - 1;
      Fresh(ts[..n], now) + if ts[n] > now - RATE_WINDOW then [ts[n]] else []
  }

  datatype Call = Call(ip: string, now: int)

  type Store = map<string, seq<int>>

  function Stored(store: Store, ip: string): seq<int> {
    if ip in store then store[ip] else []
  }

  /** The decision `allow` takes and the store it leaves. */
  function Decide(store: Store, call: Call): bool {
    |Fresh(Stored(store, call.ip), call.now)| < RATE_LIMIT
  }

  function Update(store: Store, call: Call): Store {
    var kept := Fresh(Stored(store, call.ip), call.now);
    store[call.ip := if Decide(store, call) then kept + [call.now] else kept]
  }

  // ----- The limiter as the code runs it

  /** `fresh := ts[:0]` with appends: the kept timestamps move to the front of the same array. */
  method Compact(ts: array<int>, now: int) returns (k: nat)
    modifies ts
    ensures k <= ts.Length && ts[..k] == Fresh(old(ts[..]), now)
  {
    ghost var was := ts[..];
    k := 0;
    for i := 0 to ts.Length
      invariant k <= i
      invariant forall j :: i <= j < ts.Length ==> ts[j] == was[j]
      invariant ts[..k] == Fresh(was[..i], now)
    {
      assert was[..i + 1][..i] == was[..i];
      if ts[i] > now - RATE_WINDOW {
        ts[k] := ts[i];
        k := k + 1;
      }
    }
    assert was[..ts.Length] == was;
  }

  lemma {:induction false} FreshIsYoung(ts: seq<int>, now: int)
    ensures forall i :: 0 <= i < |Fresh(ts, now)| ==> now - Fresh(ts, now)[i] < 3600000000000
  {
    if ts != [] { FreshIsYoung(ts[..|ts| - 1], now); }
  }

  class Limiter {
    var store: Store

    constructor ()
      ensures store == map[]
    {
      store := map[];
    }

    /** `allow`. */
    method Allow(ip: string, now: int) returns (ok: bool)
      modifies this
      ensures ok == Decide(old(store), Call(ip, now))
      ensures store == Update(old(store), Call(ip, now))
      ensures ip in store && forall i :: 0 <= i < |store[ip]| ==> now - store[ip][i] < 3600000000000
      ensures store - {ip} == old(store) - {ip}
    {
      FreshIsYoung(Stored(store, ip), now);
      var kept := Stored(store, ip);
      var ts := new int[|kept|](i requires 0 <= i < |kept| => kept[i]);
      assert ts[..] == kept;
      var k := Compact(ts, now);
      if k >= RATE_LIMIT {
        store := store[ip := ts[..k]];
        return false;
      }
      store := store[ip := ts[..k] + [now]];
      return true;
    }
  }

  // ----- Whole runs

  ghost predicate Monotone(calls: seq<Call>) {
    forall i, j :: 0 <= i < j < |calls| ==> calls[i].now <= calls[j].now
  }

  function Run(calls: seq<Call>): Store {
    if calls == [] then map[] else Update(Run(calls[..|calls| - 1]), calls[|calls| - 1])
  }

  /** The rule: a request is admitted unless the third-last admission is less than an hour ago. */
  predicate Admits(admitted: seq<int>, now: int) {
    |admitted| < 3 || now - admitted[|admitted| - 3] >= 3600000000000
  }

  /** The reference: every admission of an address by that rule, never pruned. */
  function Admitted(calls: seq<Call>, ip: string): seq<int> {
    if calls == [] then []
    else
      var n := |calls| - 1;
      var before := Admitted(calls[..n], ip);
      if calls[n].ip == ip && Admits(before, calls[n].now) then before + [calls[n].now] else before
  }

  lemma FreshSnoc(ts: seq<int>, t: int, now: int)
    ensures Fresh(ts + [t], now) == Fresh(ts, now) + if t > now - RATE_WINDOW then [t] else []
  {
    assert (ts + [t])[..|ts|] == ts;
  }

  /** Pruning earlier and again later is the same as pruning later. */
  lemma {:induction false} FreshTwice(ts: seq<int>, now: int, later: int)
    requires now <= later
    ensures Fresh(Fresh(ts, now), later) == Fresh(ts, later)
  {
    if ts != [] {
      var n := |ts| - 1;
      FreshTwice(ts[..n], now, later);
      if ts[n] > now - RATE_WINDOW {
        FreshSnoc(Fresh(ts[..n], now), ts[n], later);
      } else {
        assert Fresh(ts, now) == Fresh(ts[..n], now);
      }
    }
  }

  lemma MonotonePrefix(calls: seq<Call>)
    requires Monotone(calls) && calls != []
    ensures Monotone(calls[..|calls| - 1])
  {
  }

  ghost predicate Ordered(ts: seq<int>, now: int) {
    && (forall i, j :: 0 <= i < j < |ts| ==> ts[i] <= ts[j])
    && (forall i :: 0 <= i < |ts| ==> ts[i] <= now)
  }

  /** Admissions are in time order and no later than the last call. */
  lemma {:induction false} AdmittedOrdered(calls: seq<Call>, ip: string, now: int)
    requires Monotone(calls) && (calls != [] ==> calls[|calls| - 1].now <= now)
    ensures Ordered(Admitted(calls, ip), now)
  {
    hide Admits;
    if calls != [] {
      var n := |calls| - 1;
      MonotonePrefix(calls);
      if n > 0 { assert calls[n - 1].now <= calls[n].now; }
      AdmittedOrdered(calls[..n], ip, calls[n].now);
    }
  }

  lemma {:induction false} AllStale(ts: seq<int>, now: int)
    requires forall i :: 0 <= i < |ts| ==> ts[i] <= now - RATE_WINDOW
    ensures Fresh(ts, now) == []
  {
    if ts != [] { AllStale(ts[..|ts| - 1], now); }
  }

  /** In time order, the timestamps inside the window are the last ones, and only those. */
  ghost predicate SplitsAt(ts: seq<int>, now: int, f: nat) {
    && f <= |ts| && Fresh(ts, now) == ts[|ts| - f..]
    && (f > 0 ==> ts[|ts| - f] > now - RATE_WINDOW)
    && (f < |ts| ==> ts[|ts| - f - 1] <= now - RATE_WINDOW)
  }

  lemma {:induction false} FreshSuffix(ts: seq<int>, now: int)
    requires Ordered(ts, now)
    ensures SplitsAt(ts, now, |Fresh(ts, now)|)
  {
    hide SplitsAt;
    if ts == [] {
      NothingSplits(now);
    } else {
      var n := |ts| - 1;
      if ts[n] <= now - RATE_WINDOW {
        AllStale(ts, now);
        StaleSplits(ts, now);
      } else {
        FreshSuffix(ts[..n], now);
        SplitSnoc(ts[..n], ts[n], now);
        assert ts == ts[..n] + [ts[n]];
      }
    }
  }

  lemma NothingSplits(now: int)
    ensures SplitsAt([], now, 0) && Fresh([], now) == []
  {
  }

  lemma StaleSplits(ts: seq<int>, now: int)
    requires ts != [] && Fresh(ts, now) == [] && ts[|ts| - 1] <= now - RATE_WINDOW
    ensures SplitsAt(ts, now, 0)
  {
    hide Fresh;
  }

  lemma SplitSnoc(ts: seq<int>, t: int, now: int)
    requires SplitsAt(ts, now, |Fresh(ts, now)|) && t > now - RATE_WINDOW
    ensures SplitsAt(ts + [t], now, |Fresh(ts + [t], now)|)
  {
    FreshSnoc(ts, t, now);
    hide Fresh;
    var n, f := |ts|, |Fresh(ts, now)|;
    assert ts[n - f..] + [t] == (ts + [t])[n - f..];
  }

  /** Counting the window and looking at the third-last admission decide alike. */
  lemma CountDecides(ts: seq<int>, now: int)
    requires Ordered(ts, now)
    ensures |Fresh(ts, now)| < RATE_LIMIT <==> Admits(ts, now)
  {
    FreshSuffix(ts, now);
    var f := |Fresh(ts, now)|;
    assert SplitsAt(ts, now, f);
    hide Fresh;
    if f >= 3 { assert ts[|ts| - f] <= ts[|ts| - 3]; }
    if f < 3 <= |ts| { assert ts[|ts| - 3] <= ts[|ts| - f - 1]; }
  }

  /** The pruned slice and the full history have the same timestamps inside every later window. */
  lemma {:induction false} SlicesAgree(calls: seq<Call>, ip: string, now: int)
    requires Monotone(calls) && (calls != [] ==> calls[|calls| - 1].now <= now)
    ensures Fresh(Stored(Run(calls), ip), now) == Fresh(Admitted(calls, ip), now)
  {
    hide Admits;
    if calls != [] {
      var n := |calls| - 1;
      var call, before := calls[n], calls[..n];
      MonotonePrefix(calls);
      if n > 0 { assert calls[n - 1].now <= calls[n].now; }
      SlicesAgree(before, ip, now);
      if call.ip == ip {
        SlicesAgree(before, ip, call.now);
        AdmittedOrdered(before, ip, call.now);
        CountDecides(Admitted(before, ip), call.now);
        var kept := Fresh(Stored(Run(before), ip), call.now);
        FreshTwice(Stored(Run(before), ip), call.now, now);
        if |kept| < RATE_LIMIT {
          FreshSnoc(kept, call.now, now);
          FreshSnoc(Admitted(before, ip), call.now, now);
        }
      }
    }
  }

  /**
   In every run with a monotone clock the pruned slice decides as the full admission history does: a request is
   admitted if and only if fewer than three were, or the third-last one at least an hour ago.
   */
  lemma DecidesLikeFullHistory(calls: seq<Call>, call: Call)
    requires Monotone(calls + [call])
    ensures var admitted := Admitted(calls, call.ip);
            && (Decide(Run(calls), call)
                <==> |admitted| < 3 || call.now - admitted[|admitted| - 3] >= 3600000000000)
            && Admitted(calls + [call], call.ip)
                 == if Decide(Run(calls), call) then admitted + [call.now] else admitted
  {
    var all := calls + [call];
    assert all[..|calls|] == calls && all[|calls|] == call;
    MonotonePrefix(all);
    if calls != [] { assert all[|calls| - 1].now <= all[|calls|].now; }
    SlicesAgree(calls, call.ip, call.now);
    AdmittedOrdered(calls, call.ip, call.now);
    CountDecides(Admitted(calls, call.ip), call.now);
  }

  /** Any admitted request is at least one hour after the third-previous admitted one. */
  lemma {:induction false} AdmissionsAreSpaced(calls: seq<Call>, ip: string, k: nat)
    requires k + 3 < |Admitted(calls, ip)|
    ensures Admitted(calls, ip)[k + 3] - Admitted(calls, ip)[k] >= 3600000000000
  {
    var n := |calls| - 1;
    var before := Admitted(calls[..n], ip);
    if k + 3 < |before| {
      AdmissionsAreSpaced(calls[..n], ip, k);
    } else {
      assert Admitted(calls, ip)[k] == before[|before| - 3];
    }
  }

  /** A request is refused only when exactly three requests were admitted within the last hour. */
  lemma RefusalMeansThree(calls: seq<Call>, call: Call)
    requires Monotone(calls + [call]) && !Decide(Run(calls), call)
    ensures var admitted := Admitted(calls, call.ip);
            && |admitted| >= 3
            && call.now - admitted[|admitted| - 3] < 3600000000000
            && (|admitted| > 3 ==> call.now - admitted[|admitted| - 4] >= 3600000000000)
  {
    DecidesLikeFullHistory(calls, call);
    var all := calls + [call];
    assert all[..|calls|] == calls;
    MonotonePrefix(all);
    var admitted := Admitted(calls, call.ip);
    if calls != [] { assert all[|calls| - 1].now <= all[|calls|].now; }
    AdmittedOrdered(calls, call.ip, call.now);
    if |admitted| > 3 { AdmissionsAreSpaced(calls, call.ip, |admitted| - 4); }
  }

  /** The limiter never keeps more than three timestamps for an address. */
  lemma {:induction false} StoredIsBounded(calls: seq<Call>, ip: string)
    ensures |Stored(Run(calls), ip)| <= 3
  {
    if calls != [] { StoredIsBounded(calls[..|calls| - 1], ip); }
  }
}
