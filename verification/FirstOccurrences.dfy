/** First occurrences in a list, and the loop that collects them with a seen-set and a limit. */
module FirstOccurrences {
  import opened Wrappers

  /** The elements of a list, each at its first occurrence. */
  function Distinct<T(==)>(xs: seq<T>): seq<T> {
    if xs == [] then []
    else
      var rest := Distinct(xs[..|xs| - 1]);
      if xs[|xs| - 1] in rest then rest else rest + [xs[|xs| - 1]]
  }

  /** The items that are there. */
  function Values<T>(items: seq<Option<T>>): seq<T> {
    if items == [] then []
    else
      var rest := Values(items[..|items| - 1]);
      match items[|items| - 1]
      case None => rest
      case Some(x) => rest + [x]
  }

  /** The first `limit` elements; a limit of zero or less means no limit. */
  function Cap<T>(s: seq<T>, limit: int): seq<T> {
    if limit > 0 && |s| > limit then s[..limit] else s
  }

  function Elements<T(==)>(s: seq<T>): set<T> {
    set x | x in s
  }

  /** The list after one more item. */
  function Grow<T(==)>(out: seq<T>, item: Option<T>): seq<T> {
    if item.Some? && item.value !in out then out + [item.value] else out
  }

  /** The list after the first `i` items. */
  function Scanned<T(==)>(items: seq<Option<T>>, i: nat): seq<T>
    requires i <= |items|
  {
    if i == 0 then [] else Grow(Scanned(items, i - 1), items[i - 1])
  }

  /** Later items only extend the list. */
  lemma {:induction false} ScanExtends<T>(items: seq<Option<T>>, i: nat)
    requires i <= |items|
    ensures Scanned(items, i) <= Scanned(items, |items|)
    decreases |items| - i
  {
    if i < |items| {
      ScanExtends(items, i + 1);
    }
  }

  /** What one round of the loop does, in terms of its seen-set. */
  lemma ScanRound<T>(items: seq<Option<T>>, i: nat, out: seq<T>, seen: set<T>, item: Option<T>)
    requires i < |items| && items[i] == item && out == Scanned(items, i) && seen == Elements(out)
    ensures item.None? || item.value in seen ==> Scanned(items, i + 1) == out
    ensures item.Some? && item.value !in seen ==>
      Scanned(items, i + 1) == out + [item.value] && Elements(out + [item.value]) == seen + {item.value}
  {
  }

  /** Stopping at the limit or at the end gives the capped list. */
  lemma ScanStops<T>(items: seq<Option<T>>, i: nat, limit: int)
    requires i <= |items|
    requires i == |items| || (limit > 0 && |Scanned(items, i)| == limit)
    requires limit > 0 ==> |Scanned(items, i)| <= limit
    ensures Scanned(items, i) == Cap(Scanned(items, |items|), limit)
  {
    ScanExtends(items, i);
  }

  lemma DistinctSnoc<T>(xs: seq<T>, x: T)
    ensures Distinct(xs + [x]) == Grow(Distinct(xs), Some(x))
  {
  }

  lemma ValuesSnoc<T>(items: seq<Option<T>>, item: Option<T>)
    ensures Values(items + [item]) == if item.Some? then Values(items) + [item.value] else Values(items)
  {
  }

  /** The scan collects the first occurrences. */
  lemma {:induction false} ScannedIsDistinct<T>(items: seq<Option<T>>, i: nat)
    requires i <= |items|
    ensures Scanned(items, i) == Distinct(Values(items[..i]))
  {
    if i > 0 {
      ScannedIsDistinct(items, i - 1);
      assert items[..i] == items[..i - 1] + [items[i - 1]];
      ValuesSnoc(items[..i - 1], items[i - 1]);
      if items[i - 1].Some? {
        DistinctSnoc(Values(items[..i - 1]), items[i - 1].value);
      }
    }
  }

  lemma ScanIsDistinct<T>(items: seq<Option<T>>)
    ensures Scanned(items, |items|) == Distinct(Values(items))
  {
    ScannedIsDistinct(items, |items|);
    assert items[..|items|] == items;
  }

  predicate NoDuplicates<T(==)>(xs: seq<T>) {
    forall i, j :: 0 <= i < j < |xs| ==> xs[i] != xs[j]
  }

  /** It holds exactly the elements, each once. */
  lemma {:induction false} DistinctMeans<T(!new)>(xs: seq<T>)
    ensures forall x :: x in Distinct(xs) <==> x in xs
    ensures NoDuplicates(Distinct(xs))
  {
    if xs != [] {
      DistinctMeans(xs[..|xs| - 1]);
      assert xs == xs[..|xs| - 1] + [xs[|xs| - 1]];
    }
  }

  /** One more element is only taken if it is new, and then at the end. */
  lemma DistinctGrows<T(!new)>(xs: seq<T>, x: T)
    ensures Distinct(xs + [x]) == if x in xs then Distinct(xs) else Distinct(xs) + [x]
  {
    DistinctSnoc(xs, x);
    DistinctMeans(xs);
  }

  /** A cut list is the front of the whole, at most `limit` long; a limit of zero or less cuts nothing. */
  lemma CapMeans<T>(s: seq<T>, limit: int)
    ensures Cap(s, limit) <= s
    ensures |Cap(s, limit)| == if limit <= 0 || |s| <= limit then |s| else limit
  {
  }

  /** A list without duplicates is left alone. */
  lemma {:induction false} DistinctFixed<T>(xs: seq<T>)
    requires NoDuplicates(xs)
    ensures Distinct(xs) == xs
  {
    if xs != [] {
      DistinctFixed(xs[..|xs| - 1]);
      assert xs == xs[..|xs| - 1] + [xs[|xs| - 1]];
    }
  }

  lemma {:induction false} ValuesOfSomes<T>(items: seq<Option<T>>, xs: seq<T>)
    requires |items| == |xs| && forall i :: 0 <= i < |xs| ==> items[i] == Some(xs[i])
    ensures Values(items) == xs
  {
    if xs != [] {
      ValuesOfSomes(items[..|items| - 1], xs[..|xs| - 1]);
      assert xs == xs[..|xs| - 1] + [xs[|xs| - 1]];
    }
  }

  /** Every value is one of the items. */
  lemma {:induction false} ValueItem<T>(items: seq<Option<T>>, x: T)
    requires x in Values(items)
    ensures Some(x) in items
  {
    var last := items[|items| - 1];
    if last != Some(x) {
      ValueItem(items[..|items| - 1], x);
    }
  }

  /** A permutation of a list without duplicates has none. */
  lemma PermutationNoDuplicates<T>(xs: seq<T>, ys: seq<T>)
    requires multiset(xs) == multiset(ys) && NoDuplicates(xs)
    ensures NoDuplicates(ys)
  {
    forall i, j | 0 <= i < j < |ys| ensures ys[i] != ys[j] {
      if ys[i] == ys[j] {
        TwiceCounts(ys, i, j);
        OnceCounts(xs, ys[i]);
      }
    }
  }

  lemma {:induction false} OnceCounts<T>(xs: seq<T>, x: T)
    requires NoDuplicates(xs)
    ensures multiset(xs)[x] <= 1
    ensures x in xs <==> multiset(xs)[x] == 1
  {
    if xs != [] {
      var front, last := xs[..|xs| - 1], xs[|xs| - 1];
      OnceCounts(front, x);
      assert xs == front + [last];
      assert last !in front by {
        assert forall i :: 0 <= i < |front| ==> front[i] == xs[i];
      }
    }
  }

  lemma TwiceCounts<T>(ys: seq<T>, i: nat, j: nat)
    requires i < j < |ys| && ys[i] == ys[j]
    ensures multiset(ys)[ys[i]] >= 2
  {
    assert ys == ys[..j] + [ys[j]] + ys[j + 1..];
    assert ys[..j][i] == ys[i];
    assert ys[i] in multiset(ys[..j]);
  }

  lemma SubsetSize<T>(a: set<T>, b: set<T>)
    requires a <= b
    ensures |a| <= |b|
  {
    assert b == a + (b - a);
  }
}
