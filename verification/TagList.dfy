/** Tag lists: `normalizeTagList`, `mergeFileTags`, and what a second pass changes: nothing. */
module TagList {
  import opened Wrappers
  import opened Text
  import opened Decimal
  import opened Sorting
  import opened FirstOccurrences

  predicate IsTagSep(c: char) {
    c == ',' || c == '\n' || c == '\r' || c == '\t'
  }

  /** Characters that a tag may not begin or end with. */
  predicate IsTagEdge(c: char) {
    !('a' <= c <= 'z') && !('0' <= c <= '9') && c != '-' && c != '_'
  }

  /** The tag a piece of text stands for; None when less than two characters are left of it. */
  function CleanTag(part: string): Option<string> {
    var clean := Trim(ToLower(TrimSpace(part)), IsTagEdge);
    if |clean| < 2 then None else Some(clean)
  }

  /** Tags end at commas, tabs and line ends, but not at blanks. */
  lemma TagSepMeans(c: char)
    ensures IsTagSep(c) <==> c in ",\t\r\n"
  {
    var seps := ",\t\r\n";
    assert seps[0] == ',' && seps[1] == '\t' && seps[2] == '\r' && seps[3] == '\n';
  }

  const TAG_CHARS := UPPER + LOWER + "0123456789" + "-_"

  lemma TagCharMeans(c: char)
    ensures IsTagEdge(LowerChar(c)) <==> c !in TAG_CHARS
    ensures IsSpace(c) ==> c !in TAG_CHARS
  {
    DigitChars(c);
    LetterChars(c);
    assert "-_"[0] == '-' && "-_"[1] == '_';
  }

  /** `t` is `s` without some characters at either end, all of which are no tag characters. */
  lemma {:induction false} TrimLeftPart(p: string, m: string) returns (k: nat)
    requires m != "" && !IsSpace(m[0])
    ensures k <= |p| && TrimLeft(p + m, IsSpace) == p[k..] + m
  {
    if p == "" || !IsSpace(p[0]) {
      k := 0;
    } else {
      k := TrimLeftPart(p[1..], m);
      k := k + 1;
      assert (p + m)[1..] == p[1..] + m && p[1..][k - 1..] == p[k..];
    }
  }

  lemma {:induction false} TrimRightPart(m: string, q: string) returns (k: nat)
    requires m != "" && !IsSpace(m[|m| - 1])
    ensures k <= |q| && TrimRight(m + q, IsSpace) == m + q[..k]
  {
    if q == "" || !IsSpace(q[|q| - 1]) {
      k := |q|;
      assert q[..k] == q;
    } else {
      var n := |q| - 1;
      k := TrimRightPart(m, q[..n]);
      assert (m + q)[..|m + q| - 1] == m + q[..n] && q[..n][..k] == q[..k];
    }
  }

  /** No character of it can be at the end of a tag. */
  predicate NoTagChar(p: string) {
    forall i :: 0 <= i < |p| ==> p[i] !in TAG_CHARS
  }

  /**
   A piece of text stands for what is left, in lower case, when all but letters, digits, '-'
   and '_' have been cut at both ends, if that has two characters or more.
   */
  lemma CleanTagMeans(p: string, m: string, q: string, part: string)
    requires part == p + (m + q) && NoTagChar(p) && NoTagChar(q)
    requires m != "" ==> m[0] in TAG_CHARS && m[|m| - 1] in TAG_CHARS
    ensures CleanTag(part) == if |m| < 2 then None else Some(ToLower(m))
  {
    if m == "" {
      NothingTrimmed(part);
      NothingLeft(TrimSpace(part));
    } else {
      TagCharMeans(m[0]);
      TagCharMeans(m[|m| - 1]);
      var v, w := TrimSpaceParts(p, m, q, m + q, part);
      FoldedTrim(v, m, w, TrimSpace(part));
      assert |ToLower(m)| == |m|;
    }
  }

  /** Trimming white space leaves the middle, and no more tag characters around it than there were. */
  lemma TrimSpaceParts(p: string, m: string, q: string, rest: string, part: string) returns (v: string, w: string)
    requires part == p + rest && rest == m + q && NoTagChar(p) && NoTagChar(q)
    requires m != "" && !IsSpace(m[0]) && !IsSpace(m[|m| - 1])
    ensures TrimSpace(part) == v + m + w && NoTagChar(v) && NoTagChar(w)
  {
    var i := TrimLeftPart(p, rest);
    v := p[i..];
    var j := TrimRightPart(v + m, q);
    w := q[..j];
    ConcatAssoc(v, m, q, rest);
  }

  lemma ConcatAssoc(v: string, m: string, q: string, rest: string)
    requires rest == m + q
    ensures v + rest == v + m + q
  {
  }

  lemma FoldedCut(p: string)
    requires NoTagChar(p)
    ensures AllCut(ToLower(p), IsTagEdge)
  {
    forall i | 0 <= i < |p| ensures IsTagEdge(ToLower(p)[i]) {
      TagCharMeans(p[i]);
    }
  }

  lemma NothingTrimmed(part: string)
    requires NoTagChar(part)
    ensures NoTagChar(TrimSpace(part))
  {
    var t := TrimSpace(part);
    TrimMeans(part, IsSpace);
    forall i | 0 <= i < |t| ensures t[i] !in TAG_CHARS {
      assert t[i] in part;
    }
  }

  lemma NothingLeft(t: string)
    requires NoTagChar(t)
    ensures Trim(ToLower(t), IsTagEdge) == ""
  {
    FoldedCut(t);
    TrimLeftUnwraps(ToLower(t), "", IsTagEdge);
    assert ToLower(t) + "" == ToLower(t);
  }

  lemma FoldedTrim(p: string, m: string, q: string, t: string)
    requires t == p + m + q && NoTagChar(p) && NoTagChar(q)
    requires m != "" && !IsTagEdge(LowerChar(m[0])) && !IsTagEdge(LowerChar(m[|m| - 1]))
    ensures Trim(ToLower(t), IsTagEdge) == ToLower(m)
  {
    FoldedCut(p);
    FoldedCut(q);
    assert ToLower(t) == ToLower(p) + ToLower(m) + ToLower(q);
    TrimUnwraps(ToLower(p), ToLower(m), ToLower(q), IsTagEdge);
  }

  /** A tag that `CleanTag` leaves as it is. */
  predicate IsClean(tag: string) {
    CleanTag(tag) == Some(tag)
  }

  /** No part of the cleaning changes a cleaned tag. */
  lemma CleanTagFixed(part: string)
    requires CleanTag(part).Some?
    ensures var tag := CleanTag(part).value;
      TrimSpace(tag) == tag && ToLower(tag) == tag && Trim(tag, IsTagEdge) == tag && |tag| >= 2
  {
    var lower := ToLower(TrimSpace(part));
    var tag := Trim(lower, IsTagEdge);
    TrimMeans(lower, IsTagEdge);
    assert !IsSpace(tag[0]) && !IsSpace(tag[|tag| - 1]);
    TrimFixed(tag, IsSpace);
    forall i | 0 <= i < |tag| ensures ToLower(tag)[i] == tag[i] {
      assert tag[i] in lower;
      var j :| 0 <= j < |lower| && lower[j] == tag[i];
    }
    assert ToLower(tag) == tag;
    TrimFixed(tag, IsTagEdge);
  }

  lemma CleanTagStable(part: string)
    requires CleanTag(part).Some?
    ensures IsClean(CleanTag(part).value)
  {
    CleanTagFixed(part);
  }

  /** Cleaning adds no separators. */
  lemma CleanTagField(part: string)
    requires CleanTag(part).Some? && forall j :: 0 <= j < |part| ==> !IsTagSep(part[j])
    ensures var tag := CleanTag(part).value; tag != "" && forall j :: 0 <= j < |tag| ==> !IsTagSep(tag[j])
  {
    var trimmed := TrimSpace(part);
    var lower := ToLower(trimmed);
    var tag := Trim(lower, IsTagEdge);
    TrimMeans(part, IsSpace);
    TrimMeans(lower, IsTagEdge);
    forall j | 0 <= j < |tag| ensures !IsTagSep(tag[j]) {
      assert tag[j] in lower;
      var k :| 0 <= k < |lower| && lower[k] == tag[j];
      assert trimmed[k] in part;
    }
  }

  // ------------------------------------------------------------------
  // normalizeTagList
  // ------------------------------------------------------------------

  function Tags(parts: seq<string>): (items: seq<Option<string>>)
    ensures |items| == |parts|
  {
    seq(|parts|, i requires 0 <= i < |parts| => CleanTag(parts[i]))
  }

  /** The tags that the scan of `normalizeTagList` collects, before they are sorted. */
  function Collected(parts: seq<string>, limit: int): seq<string> {
    var items := Tags(parts);
    Cap(Scanned(items, |items|), limit)
  }

  function TagsOf(raw: string, limit: int): seq<string> {
    SortStrings(Collected(FieldsFunc(raw, IsTagSep), limit))
  }

  /** `normalizeTagList` */
  method NormalizeTagList(raw: string, limit: int) returns (out: seq<string>)
    ensures out == TagsOf(raw, limit)
  {
    var parts := FieldsFunc(raw, IsTagSep);
    out := CollectTags(parts, limit);
    out := SortStrings(out);
  }

  /** The loop of `normalizeTagList` */
  method CollectTags(parts: seq<string>, limit: int) returns (out: seq<string>)
    ensures out == Collected(parts, limit)
  {
    ghost var items := Tags(parts);
    var seen: set<string> := {};
    out := [];
    var i := 0;
    while i < |parts|
      invariant 0 <= i <= |parts|
      invariant out == Scanned(items, i)
      invariant seen == Elements(out)
      invariant limit > 0 ==> |out| < limit
    {
      var clean := CleanTag(parts[i]);
      ScanRound(items, i, out, seen, clean);
      i := i + 1;
      if clean.None? || clean.value in seen {
        continue;
      }
      seen := seen + {clean.value};
      out := out + [clean.value];
      if limit > 0 && |out| >= limit {
        break;
      }
    }
    ScanStops(items, i, limit);
  }

  lemma CollectedMeans(parts: seq<string>, limit: int)
    ensures Collected(parts, limit) == Cap(Distinct(Values(Tags(parts))), limit)
    ensures NoDuplicates(Collected(parts, limit))
    ensures forall tag :: tag in Collected(parts, limit) ==> Some(tag) in Tags(parts)
  {
    var items := Tags(parts);
    ScanIsDistinct(items);
    DistinctMeans(Values(items));
    forall tag | tag in Collected(parts, limit) ensures Some(tag) in items {
      ValueItem(items, tag);
    }
  }

  /** Every tag is clean and without separators. */
  lemma CollectedTag(raw: string, limit: int, tag: string)
    requires tag in Collected(FieldsFunc(raw, IsTagSep), limit)
    ensures IsClean(tag) && tag != "" && forall j :: 0 <= j < |tag| ==> !IsTagSep(tag[j])
  {
    var parts := FieldsFunc(raw, IsTagSep);
    CollectedMeans(parts, limit);
    FieldsAreFields(raw, IsTagSep);
    var i :| 0 <= i < |parts| && Tags(parts)[i] == Some(tag);
    CleanTagStable(parts[i]);
    CleanTagField(parts[i]);
  }

  /** The result is sorted, distinct, clean and bounded. */
  lemma TagsOfMeans(raw: string, limit: int)
    ensures var tags := TagsOf(raw, limit);
      && SortedBy(tags, StrLe) && NoDuplicates(tags)
      && (limit > 0 ==> |tags| <= limit)
      && multiset(tags) == multiset(Cap(Distinct(Values(Tags(FieldsFunc(raw, IsTagSep)))), limit))
      && Fields(tags, IsTagSep)
      && forall i :: 0 <= i < |tags| ==> IsClean(tags[i])
  {
    var found := Collected(FieldsFunc(raw, IsTagSep), limit);
    var tags := TagsOf(raw, limit);
    CollectedMeans(FieldsFunc(raw, IsTagSep), limit);
    PermutationNoDuplicates(found, tags);
    assert |multiset(tags)| == |multiset(found)|;
    forall i | 0 <= i < |tags|
      ensures IsClean(tags[i]) && tags[i] != "" && forall j :: 0 <= j < |tags[i]| ==> !IsTagSep(tags[i][j])
    {
      assert tags[i] in multiset(tags);
      CollectedTag(raw, limit, tags[i]);
    }
  }

  /** Parsing the comma-joined result again, with the same limit, gives the same list. */
  lemma ReparseTags(raw: string, limit: int)
    ensures TagsOf(Join(TagsOf(raw, limit), ','), limit) == TagsOf(raw, limit)
  {
    var tags := TagsOf(raw, limit);
    TagsOfMeans(raw, limit);
    FieldsJoin(tags, ',', IsTagSep);
    forall i | 0 <= i < |tags| ensures Tags(tags)[i] == Some(tags[i]) {
      assert IsClean(tags[i]);
    }
    ValuesOfSomes(Tags(tags), tags);
    DistinctFixed(tags);
    CollectedMeans(tags, limit);
    SortStringsUnique(tags, tags);
  }
}
