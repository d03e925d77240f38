/** Flood control: `checkFlood` for one client, `checkFloodIP` for all connections of an address. */
module Flood {

  // ------------------------------------------------------------------
  // One check
  // ------------------------------------------------------------------

  /** The hits after the cutoff. */
  function Prune(hits: seq<int>, cutoff: int): seq<int> {
    if hits == [] then []
    else
      var rest := Prune(hits[..|hits| - 1], cutoff);
      if hits[|hits| - 1] > cutoff then rest + [hits[|hits| - 1]] else rest
  }

  /** The limits after `loadIRCTuning`: both are positive. */
  datatype RawLimit = Limit(window: int, burst: int)
  type Limit = l: RawLimit | l.window > 0 && l.burst > 0 witness Limit(1500, 8)

  predicate Accepts(limit: Limit, hits: seq<int>, now: int) {
    |Prune(hits, now - limit.window)| < limit.burst
  }

  /** The stored hits after a check. */
  function Checked(limit: Limit, hits: seq<int>, now: int): seq<int> {
    var kept := Prune(hits, now - limit.window);
    if |kept| < limit.burst then kept + [now] else kept
  }

  /** A slice of hit times: a backing array of which the first `len` slots are in use. */
  class HitTimes {
    var times: array<int>
    var len: nat

    constructor ()
      ensures Valid() && Contents() == [] && fresh(times)
    {
      times := new int[0];
      len := 0;
    }

    predicate Valid()
      reads this
    {
      len <= times.Length
    }

    function Contents(): seq<int>
      reads this, times
      requires Valid()
    {
      times[..len]
    }

    /** Compacts the slice onto its own front: no slot is written before it is read. */
    method Compact(cutoff: int)
      requires Valid()
      modifies this`len, times
      ensures Valid() && Contents() == Prune(old(Contents()), cutoff)
    {
      ghost var hits := Contents();
      var kept := 0;
      for i := 0 to len
        invariant len == |hits| <= times.Length && kept <= i
        invariant times[..kept] == Prune(hits[..i], cutoff)
        invariant forall j :: i <= j < len ==> times[j] == hits[j]
      {
        assert hits[..i + 1][..i] == hits[..i];
        if times[i] > cutoff {
          times[kept] := times[i];
          kept := kept + 1;
        }
      }
      assert hits[..|hits|] == hits;
      len := kept;
    }

    /** append(hits, now): in place while there is room, else in a new array. */
    method Append(now: int)
      requires Valid()
      modifies this, times
      ensures Valid() && Contents() == old(Contents()) + [now]
      ensures times == old(times) || fresh(times)
    {
      ghost var hits := Contents();
      if len == times.Length {
        var bigger := new int[2 * len + 1];
        for i := 0 to len
          invariant len == |hits| <= times.Length && Contents() == hits
          invariant forall j :: 0 <= j < i ==> bigger[j] == hits[j]
        {
          bigger[i] := times[i];
        }
        times := bigger;
      }
      assert Contents() == hits;
      times[len] := now;
      len := len + 1;
    }

    /** `checkFlood` at time `now` */
    method Check(limit: Limit, now: int) returns (ok: bool)
      requires Valid()
      modifies this, times
      ensures Valid() && (times == old(times) || fresh(times))
      ensures ok == Accepts(limit, old(Contents()), now)
      ensures Contents() == Checked(limit, old(Contents()), now)
    {
      Compact(now - limit.window);
      if len >= limit.burst {
        return false;
      }
      Append(now);
      return true;
    }
  }

  /** The map `ipHits`: one slice for each address, none shared. */
  class IpHits {
    const limit: Limit
    var hits: map<string, HitTimes>

    constructor (limit: Limit)
      ensures this.limit == limit && hits == map[]
    {
      this.limit := limit;
      hits := map[];
    }

    ghost function Buffers(): set<array<int>>
      reads this, hits.Values
    {
      set ip | ip in hits :: hits[ip].times
    }

    ghost predicate Valid()
      reads this, hits.Values
    {
      && (forall ip :: ip in hits ==> hits[ip].Valid())
      && (forall ip, jp :: ip in hits && jp in hits && ip != jp ==>
            hits[ip] != hits[jp] && hits[ip].times != hits[jp].times)
    }

    /** The stored hits of an address; a missing key is an empty slice. */
    ghost function Hits(ip: string): seq<int>
      reads this, hits.Values, Buffers()
      requires Valid()
    {
      if ip in hits then hits[ip].Contents() else []
    }

    /** `checkFloodIP` at time `now`: decides by, and changes, the hits of this address only. */
    method Check(ip: string, now: int) returns (ok: bool)
      requires Valid()
      modifies this, hits.Values, Buffers()
      ensures Valid()
      ensures ok == Accepts(limit, old(Hits(ip)), now)
      ensures Hits(ip) == Checked(limit, old(Hits(ip)), now)
      ensures forall jp :: jp != ip ==> Hits(jp) == old(Hits(jp))
    {
      if ip !in hits {
        var empty := new HitTimes();
        hits := hits[ip := empty];
      }
      ok := hits[ip].Check(limit, now);
    }
  }
}
