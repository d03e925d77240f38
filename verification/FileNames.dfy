/** File names: extension, stem, numbered variants, and the last element of a path. */
module FileNames {
  import opened Wrappers
  import opened Text
  import opened Decimal

  /** The position of the last '.' after the last '/'. */
  function LastDot(s: string): Option<nat> {
    if s == "" || s[|s| - 1] == '/' then None
    else if s[|s| - 1] == '.' then Some(|s| - 1)
    else LastDot(s[..|s| - 1])
  }

  lemma {:induction false} LastDotRange(s: string)
    ensures LastDot(s).Some? ==> LastDot(s).value < |s| && s[LastDot(s).value] == '.'
  {
    if s != "" && s[|s| - 1] != '/' && s[|s| - 1] != '.' {
      LastDotRange(s[..|s| - 1]);
    }
  }

  /** Where the extension starts; the whole length when there is none. */
  function StemLength(s: string): (n: nat)
    ensures n <= |s|
    ensures LastDot(s).Some? ==> n == LastDot(s).value
  {
    LastDotRange(s);
    if LastDot(s).Some? then LastDot(s).value else |s|
  }

  /** filepath.Ext */
  function Ext(s: string): string {
    s[StemLength(s)..]
  }

  /** strings.TrimSuffix(s, filepath.Ext(s)) */
  function Stem(s: string): string {
    s[..StemLength(s)]
  }

  /** The variant `stem-k.ext` of a name. */
  function Numbered(name: string, k: nat): string {
    Stem(name) + "-" + FormatNat(k) + Ext(name)
  }

  predicate Plain(t: string) {
    '.' !in t && '/' !in t
  }

  lemma {:induction false} LastDotPlain(a: string, t: string)
    requires Plain(t)
    ensures LastDot(a + t) == LastDot(a)
  {
    if t != "" {
      var s := a + t;
      assert s[|s| - 1] == t[|t| - 1];
      assert s[..|s| - 1] == a + t[..|t| - 1];
      LastDotPlain(a, t[..|t| - 1]);
    } else {
      assert a + t == a;
    }
  }

  lemma LastDotAt(a: string, t: string)
    requires Plain(t)
    ensures LastDot(a + "." + t) == Some(|a|)
  {
    LastDotPlain(a + ".", t);
    assert (a + ".")[|a|] == '.';
  }

  /** An extension is empty, or one '.' followed by plain characters. */
  lemma {:induction false} ExtShape(s: string)
    ensures Ext(s) == "" || (Ext(s)[0] == '.' && Plain(Ext(s)[1..]))
    ensures Ext(s) == "" ==> LastDot(s) == None
  {
    LastDotRange(s);
    if s != "" && s[|s| - 1] != '/' && s[|s| - 1] != '.' {
      var front := s[..|s| - 1];
      ExtShape(front);
      LastDotRange(front);
      if LastDot(s).Some? {
        assert Ext(s) == Ext(front) + [s[|s| - 1]];
        assert Ext(s)[1..] == Ext(front)[1..] + [s[|s| - 1]];
      }
    }
  }

  lemma DigitsArePlain(k: nat)
    ensures Plain("-" + FormatNat(k))
  {
  }

  /** Numbering keeps the extension. */
  lemma NumberedExt(name: string, k: nat)
    ensures StemLength(Numbered(name, k)) == |Stem(name)| + 1 + |FormatNat(k)|
    ensures Ext(Numbered(name, k)) == Ext(name)
    ensures Stem(Numbered(name, k)) == Stem(name) + "-" + FormatNat(k)
  {
    ExtShape(name);
    DigitsArePlain(k);
    var s := Stem(name) + "-" + FormatNat(k);
    var ext := Ext(name);
    if ext == "" {
      LastDotPlain(Stem(name), "-" + FormatNat(k));
      assert Numbered(name, k) == Stem(name) + ("-" + FormatNat(k));
      assert Stem(name) == name;
    } else {
      assert Numbered(name, k) == s + "." + ext[1..];
      LastDotAt(s, ext[1..]);
    }
  }

  /** A number after the last '-' is read in only one way. */
  lemma DashSplit(a: string, m: string, b: string, n: string)
    requires AllDigits(m) && AllDigits(n) && a + "-" + m == b + "-" + n
    ensures a == b && m == n
  {
    var s := a + "-" + m;
    assert s[|a|] == '-' && s[|b|] == '-';
    assert s[..|a|] == a && s[..|b|] == b;
    assert s[|a| + 1..] == m && s[|b| + 1..] == n;
  }

  /** Stem, number and extension can be read off a numbered name. */
  lemma NumberedInjective(a: string, j: nat, b: string, k: nat)
    requires Numbered(a, j) == Numbered(b, k)
    ensures a == b && j == k
  {
    NumberedExt(a, j);
    NumberedExt(b, k);
    DashSplit(Stem(a), FormatNat(j), Stem(b), FormatNat(k));
    FormatNatInjective(j, k);
    assert a == Stem(a) + Ext(a) && b == Stem(b) + Ext(b);
  }

  lemma NumberedLonger(name: string, k: nat)
    ensures |Numbered(name, k)| > |name|
  {
  }

  predicate IsSlash(c: char) { c == '/' }

  function AfterLastSlash(s: string): string {
    if s == "" || s[|s| - 1] == '/' then "" else AfterLastSlash(s[..|s| - 1]) + [s[|s| - 1]]
  }

  /** filepath.Base */
  function Base(path: string): string {
    if path == "" then "."
    else
      var t := TrimRight(path, IsSlash);
      if t == "" then "/" else AfterLastSlash(t)
  }

  lemma {:induction false} AfterLastSlashPlain(s: string)
    requires '/' !in s
    ensures AfterLastSlash(s) == s
  {
    if s != "" {
      AfterLastSlashPlain(s[..|s| - 1]);
    }
  }

  lemma BasePlain(s: string)
    requires s != "" && '/' !in s
    ensures Base(s) == s
  {
    AfterLastSlashPlain(s);
  }

  // ------------------------------------------------------------------
  // What the parts are
  // ------------------------------------------------------------------

  /** The extension starts at the last '.' of the last element; without one it is empty. */
  lemma ExtMeans(a: string, t: string)
    requires Plain(t)
    ensures Ext(a + "." + t) == "." + t && Stem(a + "." + t) == a
    ensures Ext(a + "/" + t) == "" && Stem(a + "/" + t) == a + "/" + t
    ensures Ext(t) == "" && Stem(t) == t
  {
    LastDotAt(a, t);
    var s := a + "." + t;
    assert s[|a|..] == "." + t && s[..|a|] == a;
    LastDotPlain(a + "/", t);
    LastDotPlain("", t);
    assert "" + t == t;
  }

  /** The number goes between the stem and the extension, after a '-'. */
  lemma NumberedText(a: string, t: string, k: nat)
    requires Plain(t)
    ensures Numbered(a + "." + t, k) == a + "-" + FormatNat(k) + "." + t
    ensures Numbered(t, k) == t + "-" + FormatNat(k)
  {
    ExtMeans(a, t);
    assert a + "-" + FormatNat(k) + ("." + t) == a + "-" + FormatNat(k) + "." + t;
  }

  lemma {:induction false} AfterLastSlashMeans(dir: string, name: string)
    requires '/' !in name
    ensures AfterLastSlash(dir + "/" + name) == name
  {
    var s := dir + "/" + name;
    if name != "" {
      assert s[..|s| - 1] == dir + "/" + name[..|name| - 1];
      AfterLastSlashMeans(dir, name[..|name| - 1]);
    }
  }

  /** The base is the last element, whatever slashes follow it. */
  lemma BaseMeans(dir: string, name: string, slashes: string)
    requires name != "" && '/' !in name && AllCut(slashes, IsSlash)
    ensures Base(dir + "/" + name + slashes) == name && Base(name + slashes) == name
    ensures Base("") == "." && (slashes != "" ==> Base(slashes) == "/")
  {
    TrimRightUnwraps(dir + "/" + name, slashes, IsSlash);
    AfterLastSlashMeans(dir, name);
    TrimRightUnwraps(name, slashes, IsSlash);
    AfterLastSlashPlain(name);
    TrimRightUnwraps("", slashes, IsSlash);
    assert "" + slashes == slashes;
  }
}
