/**
 Flood control over whole runs: the pruned window decides as the complete history of
 accepted hits would, and bounds the rate of accepted hits in every interval.
 */
module FloodRate {
  import opened Flood

  predicate NonDecreasing(ts: seq<int>) {
    forall i, j :: 0 <= i < j < |ts| ==> ts[i] <= ts[j]
  }

  /** Non-decreasing times, none later than `now`. */
  predicate UpTo(ts: seq<int>, now: int) {
    NonDecreasing(ts) && (ts != [] ==> ts[|ts| - 1] <= now)
  }

  /** The hits stored after checks at the times `ts`. */
  function Stored(limit: Limit, ts: seq<int>): seq<int> {
    if ts == [] then [] else Checked(limit, Stored(limit, ts[..|ts| - 1]), ts[|ts| - 1])
  }

  /** The complete history: every time at which a check was passed. */
  function Accepted(limit: Limit, ts: seq<int>): seq<int> {
    if ts == [] then []
    else
      var before := Accepted(limit, ts[..|ts| - 1]);
      if Accepts(limit, Stored(limit, ts[..|ts| - 1]), ts[|ts| - 1]) then before + [ts[|ts| - 1]] else before
  }

  /** How many hits lie after `lo` and not after `hi`. */
  function Within(hits: seq<int>, lo: int, hi: int): nat {
    if hits == [] then 0
    else Within(hits[..|hits| - 1], lo, hi) + if lo < hits[|hits| - 1] <= hi then 1 else 0
  }

  // ------------------------------------------------------------------
  // Pruning and counting
  // ------------------------------------------------------------------

  lemma PruneSnoc(hits: seq<int>, x: int, cutoff: int)
    ensures Prune(hits + [x], cutoff) == if x > cutoff then Prune(hits, cutoff) + [x] else Prune(hits, cutoff)
  {
  }

  lemma WithinSnoc(hits: seq<int>, x: int, lo: int, hi: int)
    ensures Within(hits + [x], lo, hi) == Within(hits, lo, hi) + if lo < x <= hi then 1 else 0
  {
  }

  /** What an earlier cutoff removed, a later one removes too. */
  lemma {:induction false} PrunePrune(hits: seq<int>, early: int, late: int)
    requires early <= late
    ensures Prune(Prune(hits, early), late) == Prune(hits, late)
  {
    if hits != [] {
      var front, last := hits[..|hits| - 1], hits[|hits| - 1];
      PrunePrune(front, early, late);
      if last > early {
        PruneSnoc(Prune(front, early), last, late);
      }
    }
  }

  lemma {:induction false} PruneCounts(hits: seq<int>, lo: int, hi: int)
    requires forall i :: 0 <= i < |hits| ==> hits[i] <= hi
    ensures |Prune(hits, lo)| == Within(hits, lo, hi)
  {
    if hits != [] {
      PruneCounts(hits[..|hits| - 1], lo, hi);
    }
  }

  lemma {:induction false} WithinSplit(hits: seq<int>, lo: int, mid: int, hi: int)
    requires lo <= mid <= hi
    ensures Within(hits, lo, hi) == Within(hits, lo, mid) + Within(hits, mid, hi)
  {
    if hits != [] {
      WithinSplit(hits[..|hits| - 1], lo, mid, hi);
    }
  }

  /** A wider interval, as far as these hits can tell, holds at least as many. */
  lemma {:induction false} WithinMonotone(hits: seq<int>, lo: int, hi: int, lo': int, hi': int)
    requires forall i :: 0 <= i < |hits| && lo < hits[i] <= hi ==> lo' < hits[i] <= hi'
    ensures Within(hits, lo, hi) <= Within(hits, lo', hi')
  {
    if hits != [] {
      WithinMonotone(hits[..|hits| - 1], lo, hi, lo', hi');
    }
  }

  // ------------------------------------------------------------------
  // The pruned window refines the full history
  // ------------------------------------------------------------------

  lemma {:induction false} AcceptedInPast(limit: Limit, ts: seq<int>, now: int)
    requires UpTo(ts, now)
    ensures forall i :: 0 <= i < |Accepted(limit, ts)| ==> Accepted(limit, ts)[i] <= now
  {
    if ts != [] {
      AcceptedInPast(limit, ts[..|ts| - 1], ts[|ts| - 1]);
    }
  }

  /** One check on a window that agrees with the history agrees with it afterwards. */
  lemma CheckedIsRecent(limit: Limit, hits: seq<int>, history: seq<int>, now: int)
    requires Prune(hits, now - limit.window) == Prune(history, now - limit.window)
    ensures Checked(limit, hits, now) ==
      Prune(if Accepts(limit, hits, now) then history + [now] else history, now - limit.window)
  {
  }

  /** What is stored is what the full history leaves after the last cutoff. */
  lemma {:induction false} StoredIsRecent(limit: Limit, ts: seq<int>)
    requires NonDecreasing(ts) && ts != []
    ensures Stored(limit, ts) == Prune(Accepted(limit, ts), ts[|ts| - 1] - limit.window)
    decreases |ts|, 0
  {
    var front, now := ts[..|ts| - 1], ts[|ts| - 1];
    StoredAgrees(limit, front, now);
    CheckedIsRecent(limit, Stored(limit, front), Accepted(limit, front), now);
  }

  /** At any later cutoff the stored hits and the full history leave the same. */
  lemma {:induction false} StoredAgrees(limit: Limit, ts: seq<int>, now: int)
    requires UpTo(ts, now)
    ensures Prune(Stored(limit, ts), now - limit.window) == Prune(Accepted(limit, ts), now - limit.window)
    decreases |ts|, 1
  {
    if ts != [] {
      StoredIsRecent(limit, ts);
      PrunePrune(Accepted(limit, ts), ts[|ts| - 1] - limit.window, now - limit.window);
    }
  }

  /** A hit passes exactly when the complete history has room in the window that ends now. */
  lemma DecidesLikeFullHistory(limit: Limit, ts: seq<int>, now: int)
    requires UpTo(ts, now)
    ensures Accepts(limit, Stored(limit, ts), now) <==>
      Within(Accepted(limit, ts), now - limit.window, now) < limit.burst
  {
    StoredAgrees(limit, ts, now);
    RecentCount(limit, ts, now);
  }

  lemma RecentCount(limit: Limit, ts: seq<int>, now: int)
    requires UpTo(ts, now)
    ensures |Prune(Accepted(limit, ts), now - limit.window)| == Within(Accepted(limit, ts), now - limit.window, now)
  {
    AcceptedInPast(limit, ts, now);
    PruneCounts(Accepted(limit, ts), now - limit.window, now);
  }

  /** The stored slice never grows beyond the burst. */
  lemma {:induction false} StoredBounded(limit: Limit, ts: seq<int>)
    ensures |Stored(limit, ts)| <= limit.burst
  {
    if ts != [] {
      StoredBounded(limit, ts[..|ts| - 1]);
      CheckedBounded(limit, Stored(limit, ts[..|ts| - 1]), ts[|ts| - 1]);
    }
  }

  lemma CheckedBounded(limit: Limit, hits: seq<int>, now: int)
    requires |hits| <= limit.burst
    ensures |Checked(limit, hits, now)| <= limit.burst
  {
    PruneShorter(hits, now - limit.window);
  }

  lemma {:induction false} PruneShorter(hits: seq<int>, cutoff: int)
    ensures |Prune(hits, cutoff)| <= |hits|
  {
    if hits != [] {
      PruneShorter(hits[..|hits| - 1], cutoff);
    }
  }

  // ------------------------------------------------------------------
  // The rate bound
  // ------------------------------------------------------------------

  /** One more hit that found room in the window that ends with it. */
  lemma HitBound(hits: seq<int>, now: int, t: int, window: int, burst: int)
    requires forall i :: 0 <= i < |hits| ==> hits[i] <= now
    requires Within(hits, now - window, now) < burst && Within(hits, t, t + window) <= burst
    ensures Within(hits + [now], t, t + window) <= burst
  {
    WithinSnoc(hits, now, t, t + window);
    if t < now <= t + window {
      WithinMonotone(hits, t, t + window, now - window, now);
    }
  }

  /** At most `burst` accepted hits in any interval as long as the window. */
  lemma {:induction false} WindowBound(limit: Limit, ts: seq<int>, t: int)
    requires NonDecreasing(ts)
    ensures Within(Accepted(limit, ts), t, t + limit.window) <= limit.burst
  {
    if ts != [] {
      var front, now := ts[..|ts| - 1], ts[|ts| - 1];
      WindowBound(limit, front, t);
      DecidesLikeFullHistory(limit, front, now);
      AcceptedInPast(limit, front, now);
      if Accepts(limit, Stored(limit, front), now) {
        HitBound(Accepted(limit, front), now, t, limit.window, limit.burst);
      }
    }
  }

  /** At most `k * burst` accepted hits in any interval of `k` windows. */
  lemma {:induction false} RateBound(limit: Limit, ts: seq<int>, t: int, k: nat)
    requires NonDecreasing(ts)
    ensures Within(Accepted(limit, ts), t, t + k * limit.window) <= k * limit.burst
  {
    if k == 0 {
      EmptyInterval(Accepted(limit, ts), t);
    } else {
      var mid := t + (k - 1) * limit.window;
      assert k * limit.window == (k - 1) * limit.window + limit.window;
      assert k * limit.burst == (k - 1) * limit.burst + limit.burst;
      Multiple(k - 1, limit.window);
      RateBound(limit, ts, t, k - 1);
      WindowBound(limit, ts, mid);
      WithinSplit(Accepted(limit, ts), t, mid, mid + limit.window);
    }
  }

  lemma Multiple(k: nat, window: int)
    requires window > 0
    ensures k * window >= 0
  {
  }

  lemma {:induction false} EmptyInterval(hits: seq<int>, t: int)
    ensures Within(hits, t, t) == 0
  {
    if hits != [] {
      EmptyInterval(hits[..|hits| - 1], t);
    }
  }

  // ------------------------------------------------------------------
  // All addresses together
  // ------------------------------------------------------------------

  /** A check of an address at a time. */
  datatype Hit = Hit(ip: string, now: int)

  /** The map `ipHits` after a run of checks. */
  function AllStored(limit: Limit, es: seq<Hit>): map<string, seq<int>> {
    if es == [] then map[]
    else
      var m := AllStored(limit, es[..|es| - 1]);
      var e := es[|es| - 1];
      m[e.ip := Checked(limit, if e.ip in m then m[e.ip] else [], e.now)]
  }

  /** The checks that were passed, in order. */
  function AllAccepted(limit: Limit, es: seq<Hit>): seq<Hit> {
    if es == [] then []
    else
      var m := AllStored(limit, es[..|es| - 1]);
      var e := es[|es| - 1];
      if Accepts(limit, if e.ip in m then m[e.ip] else [], e.now) then AllAccepted(limit, es[..|es| - 1]) + [e]
      else AllAccepted(limit, es[..|es| - 1])
  }

  /** The times at which an address is checked. */
  function TimesOf(es: seq<Hit>, ip: string): seq<int> {
    if es == [] then []
    else
      var rest := TimesOf(es[..|es| - 1], ip);
      if es[|es| - 1].ip == ip then rest + [es[|es| - 1].now] else rest
  }

  /** Each address is served as if it were alone. */
  lemma {:induction false} AddressesIndependent(limit: Limit, es: seq<Hit>, ip: string)
    ensures var m := AllStored(limit, es);
      (if ip in m then m[ip] else []) == Stored(limit, TimesOf(es, ip))
    ensures TimesOf(AllAccepted(limit, es), ip) == Accepted(limit, TimesOf(es, ip))
  {
    if es != [] {
      var front, e := es[..|es| - 1], es[|es| - 1];
      AddressesIndependent(limit, front, ip);
      var before := AllAccepted(limit, front);
      assert (before + [e])[..|before|] == before;
      if e.ip == ip {
        var ts := TimesOf(front, ip);
        assert (ts + [e.now])[..|ts|] == ts;
      }
    }
  }

  lemma {:induction false} TimesNonDecreasing(es: seq<Hit>, ip: string)
    requires forall i, j :: 0 <= i < j < |es| ==> es[i].now <= es[j].now
    ensures NonDecreasing(TimesOf(es, ip))
    ensures es != [] ==> forall i :: 0 <= i < |TimesOf(es, ip)| ==> TimesOf(es, ip)[i] <= es[|es| - 1].now
  {
    if es != [] {
      var front, e := es[..|es| - 1], es[|es| - 1];
      TimesNonDecreasing(front, ip);
      if front != [] {
        assert front[|front| - 1].now <= e.now;
      }
    }
  }

  /**
   Over any run with a clock that does not go back, the accepted hits of an address, from
   all its connections, number at most `k * burst` in any interval of `k` windows.
   */
  lemma AddressRateBound(limit: Limit, es: seq<Hit>, ip: string, t: int, k: nat)
    requires forall i, j :: 0 <= i < j < |es| ==> es[i].now <= es[j].now
    ensures Within(TimesOf(AllAccepted(limit, es), ip), t, t + k * limit.window) <= k * limit.burst
  {
    AddressesIndependent(limit, es, ip);
    TimesNonDecreasing(es, ip);
    RateBound(limit, TimesOf(es, ip), t, k);
  }
}
