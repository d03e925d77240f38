/** Connection admission: the counters `activeTotal` and `activeByIP`, and what they count. */
module Admission {
  import opened Text

  datatype Limits = Limits(maxConn: int, maxPerIP: int, banned: set<string>)

  datatype Counters = Counters(total: int, byIP: map<string, int>)

  /** A missing key reads as zero, as in Go. */
  function Count(byIP: map<string, int>, ip: string): int {
    if ip in byIP then byIP[ip] else 0
  }

  predicate Admits(limits: Limits, n: Counters, ip: string) {
    && ToLower(ip) !in limits.banned
    && !(limits.maxConn > 0 && n.total >= limits.maxConn)
    && !(limits.maxPerIP > 0 && Count(n.byIP, ip) >= limits.maxPerIP)
  }

  function Admit(n: Counters, ip: string): Counters {
    Counters(n.total + 1, n.byIP[ip := Count(n.byIP, ip) + 1])
  }

  function Release(n: Counters, ip: string): Counters {
    Counters(
      if n.total > 0 then n.total - 1 else n.total,
      if Count(n.byIP, ip) > 1 then n.byIP[ip := n.byIP[ip] - 1] else n.byIP - {ip})
  }

  class ConnectionTable {
    const limits: Limits
    var activeTotal: int
    var activeByIP: map<string, int>

    constructor (limits: Limits)
      ensures this.limits == limits && View() == Counters(0, map[])
    {
      this.limits := limits;
      activeTotal, activeByIP := 0, map[];
    }

    function View(): Counters
      reads this
    {
      Counters(activeTotal, activeByIP)
    }

    /** `registerConnection` */
    method RegisterConnection(ip: string) returns (ok: bool)
      modifies this
      ensures ok == Admits(limits, old(View()), ip)
      ensures View() == if ok then Admit(old(View()), ip) else old(View())
    {
      if ToLower(ip) in limits.banned {
        return false;
      }
      if limits.maxConn > 0 && activeTotal >= limits.maxConn {
        return false;
      }
      if limits.maxPerIP > 0 && Count(activeByIP, ip) >= limits.maxPerIP {
        return false;
      }
      activeTotal := activeTotal + 1;
      activeByIP := activeByIP[ip := Count(activeByIP, ip) + 1];
      return true;
    }

    /** `releaseConnection` */
    method ReleaseConnection(ip: string)
      modifies this
      ensures View() == Release(old(View()), ip)
    {
      if activeTotal > 0 {
        activeTotal := activeTotal - 1;
      }
      if Count(activeByIP, ip) > 1 {
        activeByIP := activeByIP[ip := activeByIP[ip] - 1];
        return;
      }
      activeByIP := activeByIP - {ip};
    }
  }

  // ------------------------------------------------------------------
  // Runs
  // ------------------------------------------------------------------

  datatype Event = Arrive(conn: nat, ip: string) | Leave(conn: nat)

  /** The counters, and the connections whose handler is running, with their addresses. */
  datatype State = State(counters: Counters, live: map<nat, string>)

  /** A handler starts when its connection is admitted, and releases it once, when it ends. */
  function Step(limits: Limits, s: State, e: Event): State {
    match e
    case Arrive(conn, ip) =>
      if conn in s.live || !Admits(limits, s.counters, ip) then s
      else State(Admit(s.counters, ip), s.live[conn := ip])
    case Leave(conn) =>
      if conn !in s.live then s
      else State(Release(s.counters, s.live[conn]), s.live - {conn})
  }

  function Run(limits: Limits, es: seq<Event>): State {
    if es == [] then State(Counters(0, map[]), map[])
    else Step(limits, Run(limits, es[..|es| - 1]), es[|es| - 1])
  }

  /** The live connections from one address. */
  function From(live: map<nat, string>, ip: string): set<nat> {
    set conn | conn in live && live[conn] == ip
  }

  ghost function Sum(m: map<string, int>): int
    decreases |m|
  {
    if m == map[] then 0
    else
      var k :| k in m;
      m[k] + Sum(m - {k})
  }

  lemma {:induction false} SumPick(m: map<string, int>, k: string)
    requires k in m
    ensures Sum(m) == m[k] + Sum(m - {k})
    decreases |m|
  {
    var j :| j in m && Sum(m) == m[j] + Sum(m - {j});
    if j != k {
      SumPick(m - {j}, k);
      SumPick(m - {k}, j);
      assert m - {j} - {k} == m - {k} - {j};
    }
  }

  lemma SumSet(m: map<string, int>, k: string, v: int)
    ensures Sum(m[k := v]) == Sum(m) - Count(m, k) + v
  {
    SumPick(m[k := v], k);
    assert m[k := v] - {k} == m - {k};
    SumDrop(m, k);
  }

  lemma SumDrop(m: map<string, int>, k: string)
    ensures Sum(m - {k}) == Sum(m) - Count(m, k)
  {
    if k in m {
      SumPick(m, k);
    } else {
      assert m - {k} == m;
    }
  }

  ghost predicate Counted(s: State) {
    && (forall ip :: Count(s.counters.byIP, ip) == |From(s.live, ip)|)
    && (forall ip :: ip in s.counters.byIP ==> s.counters.byIP[ip] > 0)
    && s.counters.total == |s.live| == Sum(s.counters.byIP)
  }

  ghost predicate WithinLimits(limits: Limits, s: State) {
    && (limits.maxConn > 0 ==> |s.live| <= limits.maxConn)
    && (limits.maxPerIP > 0 ==> forall ip :: |From(s.live, ip)| <= limits.maxPerIP)
    && (forall conn :: conn in s.live ==> ToLower(s.live[conn]) !in limits.banned)
  }

  lemma FromArrive(live: map<nat, string>, conn: nat, ip: string, j: string)
    requires conn !in live
    ensures |From(live[conn := ip], j)| == |From(live, j)| + if j == ip then 1 else 0
  {
    if j == ip {
      assert From(live[conn := ip], j) == From(live, j) + {conn};
    } else {
      assert From(live[conn := ip], j) == From(live, j);
    }
  }

  lemma FromLeave(live: map<nat, string>, conn: nat, j: string)
    requires conn in live
    ensures |From(live - {conn}, j)| == |From(live, j)| - if j == live[conn] then 1 else 0
  {
    if j == live[conn] {
      assert From(live - {conn}, j) == From(live, j) - {conn};
    } else {
      assert From(live - {conn}, j) == From(live, j);
    }
  }

  lemma ArriveCounted(s: State, conn: nat, ip: string)
    requires Counted(s) && conn !in s.live
    ensures Counted(State(Admit(s.counters, ip), s.live[conn := ip]))
  {
    var s' := State(Admit(s.counters, ip), s.live[conn := ip]);
    forall j ensures Count(s'.counters.byIP, j) == |From(s'.live, j)| {
      FromArrive(s.live, conn, ip, j);
      assert Count(s.counters.byIP, j) == |From(s.live, j)|;
    }
    SumSet(s.counters.byIP, ip, Count(s.counters.byIP, ip) + 1);
  }

  lemma LeaveCounted(s: State, conn: nat)
    requires Counted(s) && conn in s.live
    ensures Counted(State(Release(s.counters, s.live[conn]), s.live - {conn}))
  {
    var ip := s.live[conn];
    var s' := State(Release(s.counters, ip), s.live - {conn});
    FromLeave(s.live, conn, ip);
    assert Count(s.counters.byIP, ip) == |From(s.live, ip)| > 0;
    forall j ensures Count(s'.counters.byIP, j) == |From(s'.live, j)| {
      FromLeave(s.live, conn, j);
      assert Count(s.counters.byIP, j) == |From(s.live, j)|;
    }
    SumSet(s.counters.byIP, ip, Count(s.counters.byIP, ip) - 1);
    SumDrop(s.counters.byIP, ip);
    assert s.live.Keys == s'.live.Keys + {conn};
  }

  /**
   On every run the total, the sum over the addresses and the number of live connections
   agree, each address counts its own live connections with no zero entries, and the
   limits and bans are respected.
   */
  lemma {:induction false} Conservation(limits: Limits, es: seq<Event>)
    ensures Counted(Run(limits, es)) && WithinLimits(limits, Run(limits, es))
  {
    if es == [] {
      assert forall ip :: From(map[], ip) == {};
    } else {
      var s := Run(limits, es[..|es| - 1]);
      Conservation(limits, es[..|es| - 1]);
      match es[|es| - 1]
      case Arrive(conn, ip) =>
        if conn !in s.live && Admits(limits, s.counters, ip) {
          ArriveCounted(s, conn, ip);
          ArriveWithin(limits, s, conn, ip);
        }
      case Leave(conn) =>
        if conn in s.live {
          LeaveCounted(s, conn);
          LeaveWithin(limits, s, conn);
        }
    }
  }

  lemma ArriveWithin(limits: Limits, s: State, conn: nat, ip: string)
    requires Counted(s) && WithinLimits(limits, s) && conn !in s.live && Admits(limits, s.counters, ip)
    ensures WithinLimits(limits, State(Admit(s.counters, ip), s.live[conn := ip]))
  {
    var live := s.live[conn := ip];
    assert live.Keys == s.live.Keys + {conn};
    forall j | limits.maxPerIP > 0 ensures |From(live, j)| <= limits.maxPerIP {
      FromArrive(s.live, conn, ip, j);
      assert Count(s.counters.byIP, j) == |From(s.live, j)|;
    }
  }

  lemma LeaveWithin(limits: Limits, s: State, conn: nat)
    requires WithinLimits(limits, s) && conn in s.live
    ensures WithinLimits(limits, State(Release(s.counters, s.live[conn]), s.live - {conn}))
  {
    var live := s.live - {conn};
    assert s.live.Keys == live.Keys + {conn};
    assert |s.live.Keys| == |live.Keys| + 1;
    forall j ensures |From(live, j)| <= |From(s.live, j)| {
      FromLeave(s.live, conn, j);
    }
  }

  /** An address that is under the limits and not banned is never turned away. */
  lemma AdmittedWhenFree(limits: Limits, es: seq<Event>, ip: string)
    requires ToLower(ip) !in limits.banned
    requires limits.maxConn > 0 ==> |Run(limits, es).live| < limits.maxConn
    requires limits.maxPerIP > 0 ==> |From(Run(limits, es).live, ip)| < limits.maxPerIP
    ensures Admits(limits, Run(limits, es).counters, ip)
  {
    Conservation(limits, es);
  }
}
