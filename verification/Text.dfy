/** Strings as the Go sources use them (package `strings`), restricted to ASCII text. */
module Text {

  // ------------------------------------------------------------------
  // Case folding
  // ------------------------------------------------------------------

  function LowerChar(c: char): char {
    if 'A' <= c <= 'Z' then (c as int + 32) as char else c
  }

  /** strings.ToLower */
  function ToLower(s: string): (r: string)
    ensures |r| == |s|
    ensures forall i :: 0 <= i < |s| ==> r[i] == LowerChar(s[i])
  {
    seq(|s|, i requires 0 <= i < |s| => LowerChar(s[i]))
  }

  lemma ToLowerIdempotent(s: string)
    ensures ToLower(ToLower(s)) == ToLower(s)
  {
  }

  const UPPER := "ABCDEFGHIJKLMNOPQRSTUVWXYZ"
  const LOWER := "abcdefghijklmnopqrstuvwxyz"

  /** Folding takes each upper-case letter to its lower-case one, and leaves all other characters alone. */
  lemma FoldMeans(i: nat, c: char)
    ensures i < 26 ==> LowerChar(UPPER[i]) == LOWER[i]
    ensures (forall j :: 0 <= j < 26 ==> c != UPPER[j]) ==> LowerChar(c) == c
  {
    if i < 26 {
      Alphabets(i);
    }
    if 'A' <= c <= 'Z' {
      Alphabets(c as int - 'A' as int);
    }
  }

  lemma Alphabets(i: nat)
    requires i < 26
    ensures UPPER[i] as int == 'A' as int + i && LOWER[i] as int == 'a' as int + i
  {
  }

  lemma LetterChars(c: char)
    ensures c in UPPER <==> 'A' <= c <= 'Z'
    ensures c in LOWER <==> 'a' <= c <= 'z'
  {
    if 'A' <= c <= 'Z' { Alphabets(c as int - 'A' as int); }
    if 'a' <= c <= 'z' { Alphabets(c as int - 'a' as int); }
    if i :| 0 <= i < 26 && UPPER[i] == c { Alphabets(i); }
    if i :| 0 <= i < 26 && LOWER[i] == c { Alphabets(i); }
  }

  // ------------------------------------------------------------------
  // Trimming
  // ------------------------------------------------------------------

  predicate IsSpace(c: char) {
    c == ' ' || '\t' <= c <= '\r'
  }

  /** strings.TrimLeftFunc */
  function TrimLeft(s: string, cut: char -> bool): string {
    if s != "" && cut(s[0]) then TrimLeft(s[1..], cut) else s
  }

  /** strings.TrimRightFunc */
  function TrimRight(s: string, cut: char -> bool): string {
    if s != "" && cut(s[|s| - 1]) then TrimRight(s[..|s| - 1], cut) else s
  }

  /** strings.TrimFunc */
  function Trim(s: string, cut: char -> bool): string {
    TrimRight(TrimLeft(s, cut), cut)
  }

  /** strings.TrimSpace */
  function TrimSpace(s: string): string {
    Trim(s, IsSpace)
  }

  predicate Blank(s: string) {
    TrimSpace(s) == ""
  }

  lemma {:induction false} TrimLeftMeans(s: string, cut: char -> bool)
    ensures var r := TrimLeft(s, cut);
      && (r != "" ==> !cut(r[0]))
      && forall c :: c in r ==> c in s
  {
    if s != "" && cut(s[0]) {
      TrimLeftMeans(s[1..], cut);
    }
  }

  lemma {:induction false} TrimRightMeans(s: string, cut: char -> bool)
    ensures var r := TrimRight(s, cut);
      && r <= s
      && (r != "" ==> !cut(r[|r| - 1]))
      && forall c :: c in r ==> c in s
  {
    if s != "" && cut(s[|s| - 1]) {
      TrimRightMeans(s[..|s| - 1], cut);
    }
  }

  /** Nothing is left to cut at either end, and nothing is added. */
  lemma TrimMeans(s: string, cut: char -> bool)
    ensures var r := Trim(s, cut);
      && (r != "" ==> !cut(r[0]) && !cut(r[|r| - 1]))
      && forall c :: c in r ==> c in s
  {
    TrimLeftMeans(s, cut);
    TrimRightMeans(TrimLeft(s, cut), cut);
  }

  predicate AllCut(w: string, cut: char -> bool) {
    forall i :: 0 <= i < |w| ==> cut(w[i])
  }

  lemma {:induction false} TrimLeftUnwraps(w: string, m: string, cut: char -> bool)
    requires AllCut(w, cut) && (m != "" ==> !cut(m[0]))
    ensures TrimLeft(w + m, cut) == m
  {
    if w == "" {
      assert w + m == m;
    } else {
      assert (w + m)[1..] == w[1..] + m;
      TrimLeftUnwraps(w[1..], m, cut);
    }
  }

  lemma {:induction false} TrimRightUnwraps(m: string, w: string, cut: char -> bool)
    requires AllCut(w, cut) && (m != "" ==> !cut(m[|m| - 1]))
    ensures TrimRight(m + w, cut) == m
  {
    if w == "" {
      assert m + w == m;
    } else {
      var n := |w| - 1;
      assert (m + w)[..|m + w| - 1] == m + w[..n];
      TrimRightUnwraps(m, w[..n], cut);
    }
  }

  /** Trimming takes off whatever is to be cut at both ends, and no more. */
  lemma TrimUnwraps(v: string, m: string, w: string, cut: char -> bool)
    requires AllCut(v, cut) && AllCut(w, cut)
    requires m != "" ==> !cut(m[0]) && !cut(m[|m| - 1])
    ensures Trim(v + m + w, cut) == m
  {
    if m == "" {
      assert v + m + w == (v + w) + "";
      TrimLeftUnwraps(v + w, "", cut);
    } else {
      assert v + m + w == v + (m + w);
      TrimLeftUnwraps(v, m + w, cut);
      TrimRightUnwraps(m, w, cut);
    }
  }

  /** White space is a blank, a tab, a line feed, a vertical tab, a form feed or a carriage return. */
  lemma SpaceMeans(c: char)
    ensures IsSpace(c) <==> c == ' ' || c == '\t' || c == '\n' || c == '\U{0B}' || c == '\U{0C}' || c == '\r'
  {
  }

  /** A string with nothing to cut at either end is left alone. */
  lemma TrimFixed(s: string, cut: char -> bool)
    requires s != "" ==> !cut(s[0]) && !cut(s[|s| - 1])
    ensures Trim(s, cut) == s
  {
  }

  lemma TrimIdempotent(s: string, cut: char -> bool)
    ensures Trim(Trim(s, cut), cut) == Trim(s, cut)
  {
    TrimMeans(s, cut);
    TrimFixed(Trim(s, cut), cut);
  }

  lemma {:induction false} TrimLeftLower(s: string)
    ensures TrimLeft(ToLower(s), IsSpace) == ToLower(TrimLeft(s, IsSpace))
  {
    if s != "" {
      assert ToLower(s)[1..] == ToLower(s[1..]);
      assert ToLower(s)[0] == LowerChar(s[0]);
      TrimLeftLower(s[1..]);
    }
  }

  lemma {:induction false} TrimRightLower(s: string)
    ensures TrimRight(ToLower(s), IsSpace) == ToLower(TrimRight(s, IsSpace))
  {
    if s != "" {
      var n := |s| - 1;
      assert ToLower(s)[..n] == ToLower(s[..n]);
      assert ToLower(s)[n] == LowerChar(s[n]);
      TrimRightLower(s[..n]);
    }
  }

  /** Folding and trimming commute. */
  lemma TrimLowerCommute(s: string)
    ensures TrimSpace(ToLower(s)) == ToLower(TrimSpace(s))
  {
    TrimLeftLower(s);
    TrimRightLower(TrimLeft(s, IsSpace));
  }

  /** strings.TrimPrefix for a one-character prefix. */
  function TrimPrefix(s: string, c: char): string {
    if s != "" && s[0] == c then s[1..] else s
  }

  // ------------------------------------------------------------------
  // Splitting and joining
  // ------------------------------------------------------------------

  /** strings.Join with a one-character separator. */
  function Join(parts: seq<string>, sep: char): string {
    if |parts| == 0 then ""
    else if |parts| == 1 then parts[0]
    else parts[0] + [sep] + Join(parts[1..], sep)
  }

  /** strings.Split with a one-character separator: never empty. */
  function Split(s: string, sep: char): (parts: seq<string>)
    ensures |parts| > 0
    ensures forall i :: 0 <= i < |parts| ==> sep !in parts[i]
    ensures Join(parts, sep) == s
  {
    if s == "" then [""]
    else
      var rest := Split(s[1..], sep);
      if s[0] == sep then
        assert ([""] + rest)[1..] == rest;
        assert [sep] + s[1..] == s;
        [""] + rest
      else
        var parts := [[s[0]] + rest[0]] + rest[1..];
        assert parts[1..] == rest[1..];
        assert [s[0]] + s[1..] == s;
        assert |rest| > 1 ==>
          parts[0] + [sep] + Join(rest[1..], sep) == [s[0]] + (rest[0] + [sep] + Join(rest[1..], sep));
        parts
  }

  lemma {:induction false} SplitNoSep(s: string, sep: char)
    requires sep !in s
    ensures Split(s, sep) == [s]
  {
  }

  lemma {:induction false} SplitConcat(a: string, b: string, sep: char)
    ensures Split(a + [sep] + b, sep) == Split(a, sep) + Split(b, sep)
  {
    var s := a + [sep] + b;
    if a == "" {
      assert s[1..] == b;
    } else {
      assert s[0] == a[0] && s[1..] == a[1..] + [sep] + b;
      SplitConcat(a[1..], b, sep);
    }
  }

  lemma {:induction false} JoinSnoc(parts: seq<string>, part: string, sep: char)
    ensures Join(parts + [part], sep) == if parts == [] then part else Join(parts, sep) + [sep] + part
  {
    if |parts| > 1 {
      assert (parts + [part])[1..] == parts[1..] + [part];
      JoinSnoc(parts[1..], part, sep);
      assert parts[0] + [sep] + (Join(parts[1..], sep) + [sep] + part)
          == parts[0] + [sep] + Join(parts[1..], sep) + [sep] + part;
    } else if |parts| == 1 {
      assert (parts + [part])[1..] == [part];
    }
  }

  /** Splitting undoes joining for parts without the separator. */
  lemma {:induction false} SplitJoin(parts: seq<string>, sep: char)
    requires |parts| > 0
    requires forall i :: 0 <= i < |parts| ==> sep !in parts[i]
    ensures Split(Join(parts, sep), sep) == parts
  {
    if |parts| == 1 {
      SplitNoSep(parts[0], sep);
    } else {
      SplitJoin(parts[1..], sep);
      SplitNoSep(parts[0], sep);
      SplitConcat(parts[0], Join(parts[1..], sep), sep);
    }
  }

  /** Length of the longest prefix without separators. */
  function RunLength(s: string, isSep: char -> bool): (n: nat)
    ensures n <= |s|
    ensures forall i :: 0 <= i < n ==> !isSep(s[i])
    ensures n < |s| ==> isSep(s[n])
  {
    if s == "" || isSep(s[0]) then 0 else 1 + RunLength(s[1..], isSep)
  }

  /** strings.FieldsFunc: the maximal runs of non-separators, in order. */
  function FieldsFunc(s: string, isSep: char -> bool): seq<string>
    decreases |s|
  {
    if s == "" then []
    else if isSep(s[0]) then FieldsFunc(s[1..], isSep)
    else
      var n := RunLength(s, isSep);
      [s[..n]] + FieldsFunc(s[n..], isSep)
  }

  ghost predicate Fields(parts: seq<string>, isSep: char -> bool) {
    forall i :: 0 <= i < |parts| ==>
      parts[i] != "" && forall j :: 0 <= j < |parts[i]| ==> !isSep(parts[i][j])
  }

  lemma {:induction false} FieldsAreFields(s: string, isSep: char -> bool)
    ensures Fields(FieldsFunc(s, isSep), isSep)
    decreases |s|
  {
    if s == "" {
    } else if isSep(s[0]) {
      FieldsAreFields(s[1..], isSep);
    } else {
      FieldsAreFields(s[RunLength(s, isSep)..], isSep);
    }
  }

  /** Cutting at separators undoes joining with one of them. */
  lemma {:induction false} FieldsJoin(parts: seq<string>, sep: char, isSep: char -> bool)
    requires isSep(sep)
    requires Fields(parts, isSep)
    ensures FieldsFunc(Join(parts, sep), isSep) == parts
  {
    if |parts| == 0 {
    } else {
      var s := Join(parts, sep);
      var n := |parts[0]|;
      assert s[..n] == parts[0];
      assert forall i :: 0 <= i < n ==> s[i] == parts[0][i];
      assert n < |s| ==> s[n] == sep;
      assert RunLength(s, isSep) == n;
      if |parts| == 1 {
        assert s[n..] == "";
      } else {
        assert s[n..] == [sep] + Join(parts[1..], sep);
        assert s[n..][1..] == Join(parts[1..], sep);
        assert Fields(parts[1..], isSep);
        FieldsJoin(parts[1..], sep, isSep);
        assert parts == [parts[0]] + parts[1..];
      }
    }
  }

  lemma {:induction false} RunLengthConcat(a: string, b: string, isSep: char -> bool)
    requires forall i :: 0 <= i < |a| ==> !isSep(a[i])
    requires b != "" ==> isSep(b[0])
    ensures RunLength(a + b, isSep) == |a|
  {
    if a == "" {
      assert a + b == b;
    } else {
      assert (a + b)[1..] == a[1..] + b;
      RunLengthConcat(a[1..], b, isSep);
    }
  }

  /** A separator cuts the text in two. */
  lemma {:induction false} FieldsConcat(a: string, sep: char, b: string, isSep: char -> bool)
    requires isSep(sep)
    ensures FieldsFunc(a + [sep] + b, isSep) == FieldsFunc(a, isSep) + FieldsFunc(b, isSep)
    decreases |a|
  {
    var s := a + [sep] + b;
    if a == "" {
      assert s[1..] == b;
    } else if isSep(a[0]) {
      assert s[1..] == a[1..] + [sep] + b;
      FieldsConcat(a[1..], sep, b, isSep);
    } else {
      var n := RunLength(a, isSep);
      RunSplits(a, sep, b, isSep);
      assert s[..n] == a[..n] && s[n..] == a[n..] + [sep] + b;
      FieldsConcat(a[n..], sep, b, isSep);
    }
  }

  lemma RunSplits(a: string, sep: char, b: string, isSep: char -> bool)
    requires isSep(sep)
    ensures RunLength(a + [sep] + b, isSep) == RunLength(a, isSep)
  {
    var n := RunLength(a, isSep);
    assert a + [sep] + b == a[..n] + (a[n..] + [sep] + b);
    RunLengthConcat(a[..n], a[n..] + [sep] + b, isSep);
  }

  /** A non-empty text without separators is one field. */
  lemma FieldAlone(s: string, isSep: char -> bool)
    requires s != "" && forall i :: 0 <= i < |s| ==> !isSep(s[i])
    ensures FieldsFunc(s, isSep) == [s]
  {
    RunLengthConcat(s, "", isSep);
    assert s + "" == s && s[..|s|] == s;
  }

  lemma {:induction false} FieldsTrimLeft(s: string, isSep: char -> bool)
    ensures FieldsFunc(TrimLeft(s, isSep), isSep) == FieldsFunc(s, isSep)
  {
    if s != "" && isSep(s[0]) {
      FieldsTrimLeft(s[1..], isSep);
    }
  }

  lemma {:induction false} FieldsTrimRight(s: string, isSep: char -> bool)
    ensures FieldsFunc(TrimRight(s, isSep), isSep) == FieldsFunc(s, isSep)
  {
    if s != "" && isSep(s[|s| - 1]) {
      var front := s[..|s| - 1];
      FieldsTrimRight(front, isSep);
      FieldsConcat(front, s[|s| - 1], "", isSep);
      assert front + [s[|s| - 1]] + "" == s;
    }
  }

  /** Separators at the ends do not matter. */
  lemma FieldsTrim(s: string, isSep: char -> bool)
    ensures FieldsFunc(Trim(s, isSep), isSep) == FieldsFunc(s, isSep)
  {
    FieldsTrimLeft(s, isSep);
    FieldsTrimRight(TrimLeft(s, isSep), isSep);
  }

  lemma {:induction false} RunLengthSame(s: string, t: string, isSep: char -> bool)
    requires |s| == |t| && forall i :: 0 <= i < |s| ==> s[i] == t[i] || (isSep(s[i]) && isSep(t[i]))
    ensures RunLength(s, isSep) == RunLength(t, isSep)
  {
    if s != "" && !isSep(s[0]) {
      RunLengthSame(s[1..], t[1..], isSep);
    }
  }

  /** It does not matter which separators they are. */
  lemma {:induction false} FieldsSame(s: string, t: string, isSep: char -> bool)
    requires |s| == |t| && forall i :: 0 <= i < |s| ==> s[i] == t[i] || (isSep(s[i]) && isSep(t[i]))
    ensures FieldsFunc(s, isSep) == FieldsFunc(t, isSep)
    decreases |s|
  {
    if s == "" {
    } else if isSep(s[0]) {
      FieldsSame(s[1..], t[1..], isSep);
    } else {
      var n := RunLength(s, isSep);
      RunLengthSame(s, t, isSep);
      assert s[..n] == t[..n];
      FieldsSame(s[n..], t[n..], isSep);
    }
  }
}
