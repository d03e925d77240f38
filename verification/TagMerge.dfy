/** `mergeFileTags`: the ten smallest tags of two sources, and why merging again changes nothing. */
module TagMerge {
  import opened Wrappers
  import opened Text
  import opened Sorting
  import opened FirstOccurrences
  import opened TagList

  const MAX_TAGS: nat := 10

  /** An existing tag is only folded and trimmed. */
  function KeptTag(tag: string): Option<string> {
    var t := ToLower(TrimSpace(tag));
    if t == "" then None else Some(t)
  }

  function Kept(existing: seq<string>): seq<Option<string>> {
    seq(|existing|, i requires 0 <= i < |existing| => KeptTag(existing[i]))
  }

  /** The members that the items stand for. */
  function SomeSet(items: seq<Option<string>>): set<string> {
    set i | 0 <= i < |items| && items[i].Some? :: items[i].value
  }

  /** All tags that take part in a merge. */
  function MergeSet(existing: seq<string>, raw: string): set<string> {
    SomeSet(Kept(existing)) + SomeSet(Tags(Split(raw, ',')))
  }

  /** An existing tag takes part folded and trimmed, and only a blank one does not. */
  lemma KeptTagMeans(v: string, m: string, w: string)
    requires AllCut(v, IsSpace) && AllCut(w, IsSpace) && (m != "" ==> !IsSpace(m[0]) && !IsSpace(m[|m| - 1]))
    ensures KeptTag(v + m + w) == if m == "" then None else Some(ToLower(m))
  {
    TrimUnwraps(v, m, w, IsSpace);
    assert |ToLower(m)| == |m|;
  }

  /** A tag takes part exactly if an existing one or a comma-separated piece of the text stands for it. */
  lemma MergeSetMeans(existing: seq<string>, raw: string, tag: string)
    ensures tag in MergeSet(existing, raw) <==>
      || (exists e :: e in existing && KeptTag(e) == Some(tag))
      || (exists part :: part in Split(raw, ',') && CleanTag(part) == Some(tag))
  {
    if tag in SomeSet(Kept(existing)) {
      var i :| 0 <= i < |existing| && Kept(existing)[i] == Some(tag);
      assert existing[i] in existing;
    }
    if tag in SomeSet(Tags(Split(raw, ','))) {
      var i :| 0 <= i < |Split(raw, ',')| && Tags(Split(raw, ','))[i] == Some(tag);
      assert Split(raw, ',')[i] in Split(raw, ',');
    }
    if e :| e in existing && KeptTag(e) == Some(tag) {
      var i :| 0 <= i < |existing| && existing[i] == e;
      assert Kept(existing)[i] == Some(tag);
    }
    if part :| part in Split(raw, ',') && CleanTag(part) == Some(tag) {
      var i :| 0 <= i < |Split(raw, ',')| && Split(raw, ',')[i] == part;
      assert Tags(Split(raw, ','))[i] == Some(tag);
    }
  }

  /** `tags` lists the `n` smallest members of `s` in order, or all when there are fewer. */
  ghost predicate Smallest(tags: seq<string>, s: set<string>, n: nat) {
    && SortedBy(tags, StrLe) && NoDuplicates(tags)
    && (forall t :: t in tags ==> t in s)
    && |tags| == (if |s| < n then |s| else n)
    && (forall t, u :: t in tags && u in s && u !in tags ==> StrLe(t, u))
  }

  /** `mergeFileTags` */
  method MergeFileTags(existing: seq<string>, raw: string) returns (tags: seq<string>)
    ensures Smallest(tags, MergeSet(existing, raw), 10)
  {
    var kept := KeepTags(existing);
    var added := AddTags(Split(raw, ','));
    tags := ListSorted(kept + added);
    ghost var all := tags;
    if |tags| > MAX_TAGS {
      tags := tags[..MAX_TAGS];
    }
    FirstAreSmallest(all, kept + added);
  }

  method KeepTags(existing: seq<string>) returns (out: set<string>)
    ensures out == SomeSet(Kept(existing))
  {
    out := {};
    for i := 0 to |existing|
      invariant out == SomeSet(Kept(existing)[..i])
    {
      SomeSetNext(Kept(existing), i);
      var tag := ToLower(TrimSpace(existing[i]));
      if tag != "" {
        out := out + {tag};
      }
    }
    assert Kept(existing)[..|existing|] == Kept(existing);
  }

  method AddTags(parts: seq<string>) returns (out: set<string>)
    ensures out == SomeSet(Tags(parts))
  {
    out := {};
    for i := 0 to |parts|
      invariant out == SomeSet(Tags(parts)[..i])
    {
      SomeSetNext(Tags(parts), i);
      var tag := CleanTag(parts[i]);
      if tag.Some? {
        out := out + {tag.value};
      }
    }
    assert Tags(parts)[..|parts|] == Tags(parts);
  }

  lemma SomeSetNext(items: seq<Option<string>>, i: nat)
    requires i < |items|
    ensures SomeSet(items[..i + 1]) == SomeSet(items[..i]) + if items[i].Some? then {items[i].value} else {}
  {
  }

  /** The members of a set, visited in no particular order and then sorted. */
  method ListSorted(s: set<string>) returns (out: seq<string>)
    ensures SortedBy(out, StrLe) && NoDuplicates(out) && Elements(out) == s && |out| == |s|
  {
    var todo := s;
    var list: seq<string> := [];
    while todo != {}
      invariant todo <= s && Elements(list) == s - todo && NoDuplicates(list) && |list| + |todo| == |s|
      decreases todo
    {
      var t :| t in todo;
      ghost var before := list;
      assert t !in Elements(list);
      list := list + [t];
      assert Elements(list) == Elements(before) + {t};
      todo := todo - {t};
    }
    out := SortStrings(list);
    PermutationNoDuplicates(list, out);
    SameElements(list, out);
  }

  lemma SameElements(xs: seq<string>, ys: seq<string>)
    requires multiset(xs) == multiset(ys)
    ensures Elements(xs) == Elements(ys) && |xs| == |ys|
  {
    assert |multiset(xs)| == |multiset(ys)|;
    forall x ensures x in xs <==> x in ys {
      assert x in multiset(xs) <==> x in multiset(ys);
    }
  }

  lemma FirstAreSmallest(all: seq<string>, s: set<string>)
    requires SortedBy(all, StrLe) && NoDuplicates(all) && Elements(all) == s && |all| == |s|
    ensures Smallest(if |all| > MAX_TAGS then all[..MAX_TAGS] else all, s, MAX_TAGS)
  {
  }

  // ------------------------------------------------------------------
  // Absorption
  // ------------------------------------------------------------------

  lemma ElementsCount(tags: seq<string>)
    requires NoDuplicates(tags)
    ensures |Elements(tags)| == |tags|
  {
    if tags != [] {
      var front, last := tags[..|tags| - 1], tags[|tags| - 1];
      ElementsCount(front);
      assert tags == front + [last];
      assert Elements(tags) == Elements(front) + {last};
      assert last !in front;
    }
  }

  /** The smallest members are determined by the set. */
  lemma SmallestUnique(a: seq<string>, b: seq<string>, s: set<string>, n: nat)
    requires Smallest(a, s, n) && Smallest(b, s, n)
    ensures a == b
  {
    ElementsCount(a);
    ElementsCount(b);
    if Elements(a) != Elements(b) {
      var x, y := Differ(Elements(a), Elements(b));
      StrLeTotal(x, y);
    } else {
      SameMultiset(a, b);
      StrLeOrdering();
      SortedUnique(a, b, StrLe);
    }
  }

  lemma Differ(a: set<string>, b: set<string>) returns (x: string, y: string)
    requires |a| == |b| && a != b
    ensures x in a && x !in b && y in b && y !in a
  {
    assert a <= b ==> b == a + (b - a);
    assert b <= a ==> a == b + (a - b);
    x :| x in a && x !in b;
    y :| y in b && y !in a;
  }

  lemma SameMultiset(a: seq<string>, b: seq<string>)
    requires NoDuplicates(a) && NoDuplicates(b) && Elements(a) == Elements(b)
    ensures multiset(a) == multiset(b)
  {
    forall x ensures multiset(a)[x] == multiset(b)[x] {
      OnceCounts(a, x);
      OnceCounts(b, x);
      assert x in a <==> x in Elements(a);
      assert x in b <==> x in Elements(b);
    }
  }

  /** A member of a merge is its own folded and trimmed form. */
  lemma MergedTagKept(existing: seq<string>, raw: string, tag: string)
    requires tag in MergeSet(existing, raw)
    ensures KeptTag(tag) == Some(tag)
  {
    if tag in SomeSet(Kept(existing)) {
      var i :| 0 <= i < |existing| && Kept(existing)[i] == Some(tag);
      var t := TrimSpace(existing[i]);
      TrimLowerCommute(t);
      TrimIdempotent(existing[i], IsSpace);
      ToLowerIdempotent(t);
    } else {
      var parts := Split(raw, ',');
      var i :| 0 <= i < |parts| && Tags(parts)[i] == Some(tag);
      CleanTagFixed(parts[i]);
    }
  }

  lemma KeptFixed(tags: seq<string>)
    requires forall i :: 0 <= i < |tags| ==> KeptTag(tags[i]) == Some(tags[i])
    ensures SomeSet(Kept(tags)) == Elements(tags)
  {
    forall t | t in tags ensures t in SomeSet(Kept(tags)) {
      var i :| 0 <= i < |tags| && tags[i] == t;
      assert Kept(tags)[i] == Some(t);
    }
  }

  /** Merging the same text again changes nothing, whatever the truncation cut off. */
  lemma MergeAbsorbs(existing: seq<string>, raw: string, once: seq<string>, twice: seq<string>)
    requires Smallest(once, MergeSet(existing, raw), 10)
    requires Smallest(twice, MergeSet(once, raw), 10)
    ensures twice == once
  {
    var s, s' := MergeSet(existing, raw), MergeSet(once, raw);
    forall i | 0 <= i < |once| ensures KeptTag(once[i]) == Some(once[i]) {
      assert once[i] in s;
      MergedTagKept(existing, raw, once[i]);
    }
    KeptFixed(once);
    ElementsCount(once);
    assert Elements(once) <= s' <= s;
    Cardinalities(Elements(once), s', s);
    SmallestUnique(once, twice, s', 10);
  }

  lemma Cardinalities(a: set<string>, b: set<string>, c: set<string>)
    requires a <= b <= c
    ensures |a| <= |b| <= |c|
  {
    assert b == a + (b - a);
    assert c == b + (c - b);
  }
}
