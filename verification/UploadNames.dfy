/** Upload names: `sanitizeUploadFilename` and `nextAvailableUploadPath`. */
module UploadNames {
  import opened Wrappers
  import opened Text
  import opened Decimal
  import opened FileNames
  import opened FirstOccurrences

  const LAST_SUFFIX: nat := 200

  predicate IsNameChar(c: char) {
    'a' <= c <= 'z' || 'A' <= c <= 'Z' || '0' <= c <= '9' || c == '.' || c == '-' || c == '_'
  }

  predicate IsDotOrUnderscore(c: char) {
    c == '.' || c == '_'
  }

  /** strings.ReplaceAll(s, "\\", "/") */
  function ForwardSlashes(s: string): string {
    seq(|s|, i requires 0 <= i < |s| => if s[i] == '\\' then '/' else s[i])
  }

  /** The strings.Map of `sanitizeUploadFilename` */
  function Underscored(s: string): string {
    seq(|s|, i requires 0 <= i < |s| => if IsNameChar(s[i]) then s[i] else '_')
  }

  /** `sanitizeUploadFilename` */
  function Sanitize(name: string): string {
    Trim(Underscored(TrimSpace(Base(ForwardSlashes(TrimSpace(name))))), IsDotOrUnderscore)
  }

  /** A non-empty name of allowed characters that neither begins nor ends with '.' or '_'. */
  predicate SafeName(s: string) {
    && s != ""
    && !IsDotOrUnderscore(s[0]) && !IsDotOrUnderscore(s[|s| - 1])
    && forall i :: 0 <= i < |s| ==> IsNameChar(s[i])
  }

  const NAME_CHARS := UPPER + LOWER + "0123456789" + ".-_"

  lemma NameCharMeans(c: char)
    ensures IsNameChar(c) <==> c in NAME_CHARS
  {
    DigitChars(c);
    LetterChars(c);
    assert c in ".-_" <==> c == '.' || c == '-' || c == '_' by {
      assert ".-_"[0] == '.' && ".-_"[1] == '-' && ".-_"[2] == '_';
    }
  }

  predicate IsAnySlash(c: char) { c == '/' || c == '\\' }

  lemma SlashedBase(dir: string, slash: char, name: string, tail: string)
    requires IsAnySlash(slash) && AllCut(tail, IsAnySlash) && name != "" && '/' !in name && '\\' !in name
    ensures Base(ForwardSlashes(dir + [slash] + name + tail)) == name && Base(ForwardSlashes(name + tail)) == name
  {
    var path := dir + [slash] + name + tail;
    assert ForwardSlashes(path) == ForwardSlashes(dir) + "/" + name + ForwardSlashes(tail);
    assert ForwardSlashes(name + tail) == name + ForwardSlashes(tail);
    BaseMeans(ForwardSlashes(dir), name, ForwardSlashes(tail));
  }

  /** White space around a name, a directory in front and slashes at the end do not matter; slashes are of either kind. */
  lemma SanitizeTakesBase(v: string, dir: string, slash: char, name: string, tail: string, w: string)
    requires AllCut(v, IsSpace) && AllCut(w, IsSpace) && IsAnySlash(slash) && AllCut(tail, IsAnySlash)
    requires name != "" && '/' !in name && '\\' !in name && !IsSpace(name[|name| - 1])
    requires dir != "" ==> !IsSpace(dir[0])
    ensures Sanitize(v + (dir + [slash] + name + tail) + w) == Sanitize(TrimSpace(name))
    ensures !IsSpace(name[0]) ==> Sanitize(v + (name + tail) + w) == Sanitize(name)
  {
    SlashedBase(dir, slash, name, tail);
    PlainSanitize(TrimSpace(name), name);
    SlashedTrim(v, dir + [slash] + name, tail, w);
    if !IsSpace(name[0]) {
      SlashedTrim(v, name, tail, w);
      TrimFixed(name, IsSpace);
    }
  }

  lemma SlashedTrim(v: string, path: string, tail: string, w: string)
    requires AllCut(v, IsSpace) && AllCut(w, IsSpace) && AllCut(tail, IsAnySlash)
    requires path != "" && !IsSpace(path[0]) && !IsSpace(path[|path| - 1])
    ensures TrimSpace(v + (path + tail) + w) == path + tail
  {
    TrimUnwraps(v, path + tail, w, IsSpace);
  }

  lemma PlainSanitize(t: string, name: string)
    requires t == TrimSpace(name) && name != "" && !IsSpace(name[|name| - 1]) && '/' !in name && '\\' !in name
    ensures Sanitize(t) == Trim(Underscored(t), IsDotOrUnderscore)
  {
    TrimMeans(name, IsSpace);
    TrimFixed(t, IsSpace);
    assert ForwardSlashes(t) == t;
    NotBlank(name);
    BasePlain(t);
  }

  lemma NotBlank(name: string)
    requires name != "" && !IsSpace(name[|name| - 1])
    ensures TrimSpace(name) != ""
  {
    TrimLeftKeepsEnd(name);
  }

  lemma {:induction false} TrimLeftKeepsEnd(s: string)
    requires s != "" && !IsSpace(s[|s| - 1])
    ensures TrimLeft(s, IsSpace) != "" && !IsSpace(TrimLeft(s, IsSpace)[|TrimLeft(s, IsSpace)| - 1])
  {
    if IsSpace(s[0]) {
      TrimLeftKeepsEnd(s[1..]);
    }
  }

  /**
   Of a name without slashes the allowed characters stay and each other one becomes '_',
   and then what is '.' or '_' is cut at both ends.
   */
  lemma SanitizeMeans(p: string, m: string, q: string, name: string)
    requires name == p + m + q != "" && TrimSpace(name) == name && '/' !in name && '\\' !in name
    requires forall c :: c in p + q ==> c !in NAME_CHARS || c == '.' || c == '_'
    requires m != "" ==> IsNameEnd(m[0]) && IsNameEnd(m[|m| - 1])
    ensures var r := Sanitize(name);
      |r| == |m| && forall i :: 0 <= i < |m| ==> r[i] == if m[i] in NAME_CHARS then m[i] else '_'
  {
    TrimMeans(name, IsSpace);
    PlainSanitize(name, name);
    UnderscoredCut(p, p + q);
    UnderscoredCut(q, p + q);
    UnderscoredMeans(m);
    UnderscoredParts(p, m, q, name);
    TrimUnwraps(Underscored(p), Underscored(m), Underscored(q), IsDotOrUnderscore);
  }

  predicate IsNameEnd(c: char) {
    c in NAME_CHARS && c != '.' && c != '_'
  }

  lemma UnderscoredParts(p: string, m: string, q: string, name: string)
    requires name == p + m + q
    ensures Underscored(name) == Underscored(p) + Underscored(m) + Underscored(q)
  {
  }

  lemma UnderscoredMeans(m: string)
    requires m != "" ==> IsNameEnd(m[0]) && IsNameEnd(m[|m| - 1])
    ensures var u := Underscored(m);
      && |u| == |m| && (forall i :: 0 <= i < |m| ==> u[i] == if m[i] in NAME_CHARS then m[i] else '_')
      && (u != "" ==> !IsDotOrUnderscore(u[0]) && !IsDotOrUnderscore(u[|u| - 1]))
  {
    forall c ensures IsNameChar(c) <==> c in NAME_CHARS {
      NameCharMeans(c);
    }
  }

  lemma UnderscoredCut(p: string, all: string)
    requires forall c :: c in p ==> c in all
    requires forall c :: c in all ==> c !in NAME_CHARS || c == '.' || c == '_'
    ensures AllCut(Underscored(p), IsDotOrUnderscore)
  {
    forall i | 0 <= i < |p| ensures IsDotOrUnderscore(Underscored(p)[i]) {
      assert p[i] in p;
      NameCharMeans(p[i]);
    }
  }

  /** Every non-empty result is a safe name. */
  lemma SanitizeIsSafe(name: string)
    ensures Sanitize(name) == "" || SafeName(Sanitize(name))
  {
    var mapped := Underscored(TrimSpace(Base(ForwardSlashes(TrimSpace(name)))));
    var r := Sanitize(name);
    TrimMeans(mapped, IsDotOrUnderscore);
    forall i | 0 <= i < |r| ensures IsNameChar(r[i]) {
      assert r[i] in mapped;
    }
  }

  /** Safe names are the fixed points. */
  lemma SafeIsFixed(s: string)
    requires SafeName(s)
    ensures Sanitize(s) == s
  {
    assert !IsSpace(s[0]) && !IsSpace(s[|s| - 1]) by {
      assert IsNameChar(s[0]) && IsNameChar(s[|s| - 1]);
    }
    TrimFixed(s, IsSpace);
    assert ForwardSlashes(s) == s by {
      forall i | 0 <= i < |s| ensures s[i] != '\\' { assert IsNameChar(s[i]); }
    }
    assert '/' !in s by {
      forall i | 0 <= i < |s| ensures s[i] != '/' { assert IsNameChar(s[i]); }
    }
    BasePlain(s);
    assert Underscored(s) == s;
    TrimFixed(s, IsDotOrUnderscore);
  }

  /** The names that are tried: the name itself, then its variants 2 to 200. */
  function Candidate(name: string, i: nat): string {
    if i <= 1 then name else Numbered(name, i)
  }

  /** The first candidate is the name; the others carry their number in front of the extension. */
  lemma CandidateText(a: string, t: string, i: nat)
    requires Plain(t)
    ensures Candidate(a + "." + t, 1) == a + "." + t && Candidate(t, 1) == t
    ensures i >= 2 ==> Candidate(a + "." + t, i) == a + "-" + FormatNat(i) + "." + t
    ensures i >= 2 ==> Candidate(t, i) == t + "-" + FormatNat(i)
  {
    NumberedText(a, t, i);
  }

  lemma CandidatesDiffer(name: string, i: nat, j: nat)
    requires 1 <= i < j
    ensures Candidate(name, i) != Candidate(name, j)
  {
    if i == 1 {
      NumberedLonger(name, j);
    } else if Numbered(name, i) == Numbered(name, j) {
      NumberedInjective(name, i, name, j);
    }
  }

  /** Variants of a safe name are safe. */
  lemma CandidateIsSafe(name: string, i: nat)
    requires SafeName(name)
    ensures SafeName(Candidate(name, i))
  {
  }

  /** Two hundred different names cannot all be among fewer than two hundred. */
  lemma SomeCandidateFree(name: string, taken: set<string>)
    requires |taken| < 200
    ensures exists i :: 1 <= i <= 200 && Candidate(name, i) !in taken
  {
    var tried := FirstCandidates(name, LAST_SUFFIX);
    CandidateCount(name, LAST_SUFFIX);
    if tried <= taken {
      SubsetSize(tried, taken);
    }
    var c :| c in tried && c !in taken;
  }

  function FirstCandidates(name: string, n: nat): set<string> {
    set i | 1 <= i <= n :: Candidate(name, i)
  }

  lemma {:induction false} CandidateCount(name: string, n: nat)
    ensures |FirstCandidates(name, n)| == n
  {
    if n == 0 {
      assert FirstCandidates(name, 0) == {};
    } else {
      CandidateCount(name, n - 1);
      forall i | 1 <= i <= n - 1 ensures Candidate(name, i) != Candidate(name, n) {
        CandidatesDiffer(name, i, n);
      }
      assert FirstCandidates(name, n) == FirstCandidates(name, n - 1) + {Candidate(name, n)};
    }
  }

  /** The candidate chosen is the first free one. */
  ghost predicate FirstFree(name: string, taken: set<string>, chosen: string) {
    exists i :: 1 <= i <= 200 && chosen == Candidate(name, i) && chosen !in taken
      && forall j :: 1 <= j < i ==> Candidate(name, j) in taken
  }

  /** `nextAvailableUploadPath`; `taken` holds the names for which os.Stat does not report absence. */
  method NextAvailable(raw: string, taken: set<string>) returns (chosen: Option<string>)
    ensures chosen.Some? ==> FirstFree(Sanitize(raw), taken, chosen.value)
    ensures chosen.Some? ==> chosen.value !in taken && Sanitize(chosen.value) == chosen.value
    ensures chosen.None? ==>
      Sanitize(raw) == "" || forall i :: 1 <= i <= 200 ==> Candidate(Sanitize(raw), i) in taken
    ensures Sanitize(raw) != "" && |taken| < 200 ==> chosen.Some?
  {
    var name := Sanitize(raw);
    if name == "" {
      return None;
    }
    SanitizeIsSafe(raw);
    SafeIsFixed(name);
    if name !in taken {
      assert Candidate(name, 1) == name;
      return Some(name);
    }
    var stem, ext := Stem(name), Ext(name);
    for i := 2 to LAST_SUFFIX + 1
      invariant forall j :: 1 <= j < i ==> Candidate(name, j) in taken
    {
      var candidate := stem + "-" + FormatNat(i) + ext;
      assert candidate == Candidate(name, i);
      if candidate !in taken {
        CandidateIsSafe(name, i);
        SafeIsFixed(candidate);
        return Some(candidate);
      }
    }
    if |taken| < LAST_SUFFIX {
      SomeCandidateFree(name, taken);
    }
    return None;
  }
}
