/** Menu file paths (`menuRootPath`, `defaultMenuFile`, `normalizeMenuFilePath`). */
module MenuPaths {
  import opened Wrappers
  import opened Text
  import opened FileNames
  import opened Paths

  /** `menuRootPath` */
  function MenuRoot(configured: string): string {
    var root := Clean(TrimSpace(configured));
    if root == "" || root == DOT then "menus" else root
  }

  const MAIN := "main.hjson"

  /** `defaultMenuFile` */
  function DefaultMenuFile(root: string): string {
    JoinPath(root, MAIN)
  }

  /** The path that `normalizeMenuFilePath` settles on before it checks it. */
  function Chosen(root: string, raw: string): string {
    var cleaned := Clean(TrimSpace(raw));
    var clean := if cleaned == "" || cleaned == DOT then DefaultMenuFile(root) else cleaned;
    if IsAbs(clean) then clean
    else if IsAbs(root) then JoinPath(root, clean)
    else if !(root + "/" <= clean) then JoinPath(root, clean)
    else clean
  }

  predicate HasMenuExt(path: string) {
    ToLower(Ext(path)) == ".hjson"
  }

  /** `normalizeMenuFilePath`; `None` for its errors. */
  function Normalize(root: string, cwd: string, raw: string): Option<string> {
    var clean := Chosen(root, raw);
    if !HasMenuExt(clean) then None
    else if UP <= Rel(Abs(cwd, root), Abs(cwd, clean)) then None
    else Some(clean)
  }

  // ------------------------------------------------------------------
  // Roots and chosen paths are clean
  // ------------------------------------------------------------------

  ghost predicate IsRoot(root: string) {
    Clean(root) == root && root != DOT
  }

  lemma MenuRootIsRoot(configured: string)
    ensures IsRoot(MenuRoot(configured))
  {
    CleanOnce(TrimSpace(configured));
    if MenuRoot(configured) == "menus" {
      assert Reduced(false, ["menus"]);
      ParseRender(Path(false, ["menus"]));
      assert Render(Path(false, ["menus"])) == "menus";
    }
  }

  /** A clean path is the text of its reduced segments. */
  lemma CleanParts(s: string)
    requires Clean(s) == s
    ensures Render(Parse(s)) == s && Reduced(IsAbs(s), Parse(s).segs)
    ensures s != ""
    ensures s != DOT && !IsAbs(s) ==> Parse(s).segs != []
  {
    ParseReduces(s);
  }

  lemma ChosenIsClean(root: string, raw: string)
    ensures Clean(Chosen(root, raw)) == Chosen(root, raw)
  {
    var cleaned := Clean(TrimSpace(raw));
    var clean := if cleaned == "" || cleaned == DOT then DefaultMenuFile(root) else cleaned;
    CleanOnce(TrimSpace(raw));
    CleanOnce(root + "/" + MAIN);
    CleanOnce(root + "/" + clean);
  }

  /** Without a configured root, or with the current directory, the root is "menus"; a clean root is itself. */
  lemma MenuRootMeans(configured: string)
    ensures TrimSpace(configured) in ["", "."] ==> MenuRoot(configured) == "menus"
    ensures TrimSpace(configured) == configured == Clean(configured) && configured != "." ==>
      MenuRoot(configured) == configured
  {
    CleanFixed(Path(false, []));
    assert Render(Path(false, [])) == ".";
    if Clean(configured) == configured {
      CleanParts(configured);
    }
  }

  /** A clean request is taken as it is if it is absolute, or below a relative root by its text, else under the root. */
  lemma ChosenMeans(root: string, raw: string)
    requires TrimSpace(raw) == raw == Clean(raw) && raw != "."
    ensures Chosen(root, raw) ==
      if "/" <= raw || (!("/" <= root) && root + "/" <= raw) then raw else Clean(root + "/" + raw)
  {
    CleanParts(raw);
  }

  // ------------------------------------------------------------------
  // What is accepted
  // ------------------------------------------------------------------

  /** The segments of a path, made absolute. */
  function AbsSegs(cwd: string, s: string): seq<string> {
    Parse(Abs(cwd, s)).segs
  }

  /** At or below a directory, not first stepping into a name that begins with "..". */
  predicate Inside(base: seq<string>, target: seq<string>) {
    base <= target && (|base| < |target| ==> !(UP <= target[|base|]))
  }

  lemma AbsIsAbs(cwd: string, s: string)
    requires IsAbs(cwd)
    ensures IsAbs(Abs(cwd, s)) && Reduced(true, AbsSegs(cwd, s))
  {
    if IsAbs(s) {
      CleanOnce(s);
    } else {
      CleanOnce(cwd + "/" + s);
    }
    ParseReduces(Abs(cwd, s));
  }

  /** An absolute path is its own, a relative one starts from the working directory. */
  lemma AbsMeans(cwd: string, s: string)
    requires IsAbs(cwd)
    ensures AbsSegs(cwd, s) == if IsAbs(s) then Parse(s).segs else PushAll(true, Parse(cwd).segs, Split(s, '/'))
  {
    CleanOnce(s);
    CleanOnce(cwd + "/" + s);
    SplitConcat(cwd, s, '/');
    assert cwd + ['/'] + s == cwd + "/" + s;
    PushAllAppend(true, [], Split(cwd, '/'), Split(s, '/'), Split(cwd + "/" + s, '/'));
  }

  lemma FirstDots(segs: seq<string>)
    requires Reduced(false, segs)
    ensures UP <= Render(Path(false, segs)) <==> segs != [] && UP <= segs[0]
  {
  }

  lemma WayInside(base: seq<string>, target: seq<string>)
    ensures var way := Way(base, target); way != [] && UP <= way[0] <==> !Inside(base, target)
  {
  }

  lemma WayReduced(base: seq<string>, target: seq<string>)
    requires Reduced(true, target)
    ensures Reduced(false, Way(base, target))
  {
  }

  /** The textual test on the relative path is the segment test. */
  lemma RelInside(base: string, target: string)
    requires Reduced(true, Parse(target).segs)
    ensures UP <= Rel(base, target) <==> !Inside(Parse(base).segs, Parse(target).segs)
  {
    var b, t := Parse(base).segs, Parse(target).segs;
    WayReduced(b, t);
    FirstDots(Way(b, t));
    WayInside(b, t);
  }

  /** Exactly the chosen paths with the extension that lie inside the root are accepted. */
  lemma AcceptedIff(root: string, cwd: string, raw: string, p: string)
    requires IsAbs(cwd)
    ensures Normalize(root, cwd, raw) == Some(p) <==>
      && p == Chosen(root, raw)
      && HasMenuExt(p)
      && Inside(AbsSegs(cwd, root), AbsSegs(cwd, p))
  {
    var clean := Chosen(root, raw);
    AbsIsAbs(cwd, root);
    AbsIsAbs(cwd, clean);
    RelInside(Abs(cwd, root), Abs(cwd, clean));
  }

  // ------------------------------------------------------------------
  // Normalising an accepted path again
  // ------------------------------------------------------------------

  lemma ExtEnd(p: string)
    requires HasMenuExt(p)
    ensures p != "" && !IsSpace(p[|p| - 1])
  {
  }

  lemma CleanKeepsRoot(s: string)
    ensures IsAbs(Clean(s)) == IsAbs(s)
  {
    CleanOnce(s);
    assert Parse(Clean(s)).rooted == Parse(s).rooted;
  }

  /** A clean path that is not absolute comes from a relative root, by staying below it or by following it. */
  lemma ChosenRelative(root: string, raw: string) returns (q: seq<string>)
    requires IsRoot(root) && !IsAbs(Chosen(root, raw))
    ensures !IsAbs(root) && Reduced(false, q)
    ensures var r, p := Parse(root).segs, Parse(Chosen(root, raw)).segs;
      r < p || p == PushAll(false, r, q)
  {
    var cleaned := Clean(TrimSpace(raw));
    var clean := if cleaned == "" || cleaned == DOT then DefaultMenuFile(root) else cleaned;
    CleanOnce(TrimSpace(raw));
    CleanOnce(root + "/" + MAIN);
    CleanParts(root);
    CleanKeepsRoot(root + "/" + MAIN);
    CleanKeepsRoot(root + "/" + clean);
    CleanParts(clean);
    q := Parse(clean).segs;
    BelowOrFollows(root, clean, q);
  }

  lemma BelowOrFollows(root: string, clean: string, q: seq<string>)
    requires IsRoot(root) && !IsAbs(root) && Clean(clean) == clean && !IsAbs(clean) && q == Parse(clean).segs
    ensures Reduced(false, q)
    ensures root + "/" <= clean <==> Parse(root).segs < q
    ensures Parse(JoinPath(root, clean)).segs == PushAll(false, Parse(root).segs, q)
  {
    CleanParts(root);
    CleanParts(clean);
    PrefixIsBelow(Parse(root).segs, q);
    JoinFollows(root, q);
    CleanOnce(root + "/" + clean);
  }

  /** An accepted relative path starts by climbing, or with the root's own first segment. */
  lemma FirstSegment(root: string, cwd: string, raw: string, p: string)
    requires IsRoot(root) && IsAbs(cwd) && Normalize(root, cwd, raw) == Some(p) && !IsAbs(p)
    ensures !IsAbs(root) && Parse(p).segs != [] && Parse(root).segs != []
    ensures Parse(p).segs[0] == UP || Parse(p).segs[0] == Parse(root).segs[0]
  {
    AcceptedIff(root, cwd, raw, p);
    ChosenIsClean(root, raw);
    var q := ChosenRelative(root, raw);
    NotDot(p);
    CleanParts(p);
    CleanParts(root);
    var r, segs := Parse(root).segs, Parse(p).segs;
    if !(r < segs) && segs[0] != UP && segs[0] != r[0] {
      FollowedFirst(r, q, segs);
      UnclimbedIsBelow(root, cwd, p);
    }
  }

  /** A followed path that neither climbs nor begins like the root has left a root that does not climb. */
  lemma FollowedFirst(r: seq<string>, q: seq<string>, segs: seq<string>)
    requires Reduced(false, r) && Reduced(false, q) && r != [] && segs == PushAll(false, r, q)
    requires segs != [] && segs[0] != UP && segs[0] != r[0]
    ensures Climb(r) == 0 && Climb(segs) == 0
  {
    FollowForm(r, q);
    NamesAfterClimb(q);
  }

  lemma NotDot(p: string)
    requires HasMenuExt(p)
    ensures p != DOT
  {
  }

  lemma UnclimbedIsBelow(root: string, cwd: string, p: string)
    requires IsAbs(cwd) && IsRoot(root) && !IsAbs(root) && Clean(p) == p && !IsAbs(p)
    requires Inside(AbsSegs(cwd, root), AbsSegs(cwd, p))
    requires Climb(Parse(root).segs) == 0 && Climb(Parse(p).segs) == 0
    ensures Parse(root).segs <= Parse(p).segs
  {
    UnclimbedSegs(cwd, root);
    UnclimbedSegs(cwd, p);
    PrefixAfter(Parse(cwd).segs, Parse(root).segs, Parse(p).segs);
  }

  lemma PrefixAfter(c: seq<string>, r: seq<string>, segs: seq<string>)
    requires c + r <= c + segs
    ensures r <= segs
  {
    assert r == (c + r)[|c|..] && segs == (c + segs)[|c|..];
  }

  lemma UnclimbedSegs(cwd: string, p: string)
    requires IsAbs(cwd) && Clean(p) == p && !IsAbs(p) && Climb(Parse(p).segs) == 0
    ensures AbsSegs(cwd, p) == Parse(cwd).segs + Parse(p).segs
  {
    CleanParts(p);
    JoinFollows(cwd, Parse(p).segs);
    CleanOnce(cwd + "/" + p);
    NamesAfterClimb(Parse(p).segs);
    PushNames(true, Parse(cwd).segs, Parse(p).segs);
  }

  /** Nothing is trimmed from an accepted path, unless the root itself starts with white space. */
  lemma AcceptedIsTrimmed(root: string, cwd: string, raw: string, p: string)
    requires IsRoot(root) && IsAbs(cwd) && Normalize(root, cwd, raw) == Some(p)
    requires IsAbs(p) || !IsSpace(root[0])
    ensures TrimSpace(p) == p
  {
    ExtEnd(p);
    if !IsAbs(p) {
      FirstSegment(root, cwd, raw, p);
      ChosenIsClean(root, raw);
      FirstChar(p);
      FirstChar(root);
    }
    TrimFixed(p, IsSpace);
  }

  lemma FirstChar(p: string)
    requires Clean(p) == p && !IsAbs(p) && Parse(p).segs != []
    ensures p != "" && Parse(p).segs[0] != "" && p[0] == Parse(p).segs[0][0]
  {
  }

  /** What the second call settles on, for a relative path. */
  lemma SecondChoice(root: string, p: string)
    requires IsRoot(root) && !IsAbs(root)
    requires Clean(p) == p && p != DOT && !IsAbs(p) && TrimSpace(p) == p
    ensures Chosen(root, p) == p <==> root + "/" <= p || Absorbs(Parse(root).segs, Parse(p).segs)
  {
    CleanParts(root);
    CleanParts(p);
    var r, q := Parse(root).segs, Parse(p).segs;
    BelowOrFollows(root, p, q);
    FollowStays(r, q);
    CleanKeepsRoot(root + "/" + p);
    if PushAll(false, r, q) == q {
      assert Parse(root + "/" + p) == Parse(p) by {
        CleanOnce(root + "/" + p);
      }
    }
  }

  // White space that cleaning has moved to the front is trimmed by the second call.

  lemma {:induction false} TrimLeftSplit(s: string) returns (w: string)
    ensures s == w + TrimLeft(s, IsSpace)
    ensures forall i :: 0 <= i < |w| ==> IsSpace(w[i])
    ensures s != "" && IsSpace(s[0]) ==> w != ""
  {
    w := "";
    if s != "" && IsSpace(s[0]) {
      var rest := TrimLeftSplit(s[1..]);
      w := [s[0]] + rest;
    }
  }

  lemma SplitChar(c: char, s: string, sep: char)
    requires c != sep
    ensures Split([c] + s, sep) == [[c] + Split(s, sep)[0]] + Split(s, sep)[1..]
  {
  }

  lemma {:induction false} SplitLead(w: string, s: string, sep: char)
    requires sep !in w
    ensures Split(w + s, sep) == [w + Split(s, sep)[0]] + Split(s, sep)[1..]
  {
    if w == "" {
      assert w + s == s && w + Split(s, sep)[0] == Split(s, sep)[0];
    } else {
      var rest := w[1..];
      SplitLead(rest, s, sep);
      SplitChar(w[0], rest + s, sep);
      assert w + s == [w[0]] + (rest + s);
      assert [w[0]] + (rest + Split(s, sep)[0]) == w + Split(s, sep)[0];
    }
  }

  /** The first segment that is left after trimming. */
  function TrimmedHead(p: string): string {
    Split(TrimSpace(p), '/')[0]
  }

  lemma TrimLeftOnly(p: string)
    requires p != "" && !IsSpace(p[|p| - 1])
    ensures TrimSpace(p) == TrimLeft(p, IsSpace) != ""
  {
  }

  lemma CleanEqual(a: string, b: string)
    requires Clean(a) == a && Clean(b) == b
    ensures a == b <==> Parse(a) == Parse(b)
  {
  }

  /** What the second call settles on, for a relative path that it has to trim. */
  lemma SecondSpaced(root: string, p: string, segs: seq<string>)
    requires IsRoot(root) && !IsAbs(root) && Clean(p) == p && !IsAbs(p)
    requires Parse(TrimSpace(p)) == Path(false, segs) && segs != []
    ensures var r := Parse(root).segs;
      Chosen(root, p) == p <==> (if r < segs then segs else PushAll(false, r, segs)) == Parse(p).segs
  {
    var clean := Clean(TrimSpace(p));
    CleanOnce(TrimSpace(p));
    CleanParts(clean);
    CleanKeepsRoot(TrimSpace(p));
    BelowOrFollows(root, clean, segs);
    CleanKeepsRoot(root + "/" + clean);
    CleanOnce(root + "/" + clean);
    CleanEqual(Chosen(root, p), p);
  }

  lemma LeadSegments(p: string, w: string, q: string, segs: seq<string>)
    requires p == w + q && '/' !in w && w != "" && Split(p, '/') == segs
    ensures segs != [] && Split(q, '/')[1..] == segs[1..] && segs[0] == w + Split(q, '/')[0]
  {
    SplitLead(w, q, '/');
  }

  /** Trimming changes the first segment, and leaves the others alone. */
  lemma TrimmedTail(p: string)
    requires Clean(p) == p && !IsAbs(p) && HasMenuExt(p) && IsSpace(p[0])
    ensures var parts := Split(TrimSpace(p), '/');
      Parse(p).segs != [] && parts[1..] == Parse(p).segs[1..] && parts[0] != Parse(p).segs[0]
    ensures TrimSpace(p) != "" && (TrimmedHead(p) == DOT ==> |Parse(p).segs| > 1)
  {
    var w := TrimLeftSplit(p);
    var q := TrimLeft(p, IsSpace);
    ExtEnd(p);
    NotDot(p);
    TrimLeftOnly(p);
    CleanParts(p);
    SplitRelative(Parse(p).segs);
    LeadSegments(p, w, q, Parse(p).segs);
    LongerThan(w, Split(q, '/')[0]);
    assert p == w + q && q[|q| - 1] == p[|p| - 1];
    DotHead(p, q);
  }

  lemma LongerThan(w: string, t: string)
    requires w != ""
    ensures w + t != t
  {
    assert |w + t| > |t|;
  }

  lemma DotHead(p: string, q: string)
    requires HasMenuExt(p) && q != "" && q[|q| - 1] == p[|p| - 1]
    ensures Split(q, '/')[0] == DOT ==> |Split(q, '/')| > 1
  {
    var ext := Ext(p);
    assert ToLower(ext)[5] == LowerChar(ext[5]) == 'n';
    assert Join(Split(q, '/'), '/') == q;
  }

  /** The accepted paths that trimming cuts and following the root restores. */
  predicate Restored(r: seq<string>, segs: seq<string>, head: string) {
    || (head == DOT && |r| == 1 && segs != [] && !(r < segs[1..]))
    || (head == UP && |r| == 2)
  }

  lemma TrimmedIs(head: string, names: seq<string>)
    requires AllNames(names) && head != ""
    ensures PushAll(false, [], [head] + names) == if head == DOT then names else [head] + names
  {
    PushAllAppend(false, [], [head], names, [head] + names);
    HeadPushed(head);
    PushNames(false, PushAll(false, [], [head]), names);
    assert [] + names == names;
  }

  /** The same on segments: `head` is what trimming leaves of the first one. */
  lemma RestoredIff(r: seq<string>, segs: seq<string>, head: string, names: seq<string>, trimmed: seq<string>)
    requires r != [] && r <= segs && AllNames(segs) && head != segs[0] && head != ""
    requires names == segs[1..] && trimmed == PushAll(false, [], [head] + names)
    ensures (if r < trimmed then trimmed else PushAll(false, r, trimmed)) == segs <==> Restored(r, segs, head)
  {
    assert AllNames(names) by {
      assert forall i :: 0 <= i < |names| ==> names[i] == segs[i + 1];
    }
    assert segs == [segs[0]] + names;
    TrimmedIs(head, names);
    if head == DOT {
      DotRestored(r, segs, names);
    } else {
      HeadRestored(r, segs, head, names);
    }
  }

  lemma DotRestored(r: seq<string>, segs: seq<string>, names: seq<string>)
    requires r != [] && r <= segs && AllNames(names) && segs == [segs[0]] + names
    ensures (if r < names then names else PushAll(false, r, names)) == segs <==> |r| == 1 && !(r < names)
  {
    PushNames(false, r, names);
    SameTail(r, [segs[0]], names);
  }

  lemma HeadRestored(r: seq<string>, segs: seq<string>, head: string, names: seq<string>)
    requires r != [] && r <= segs && AllNames(segs) && segs == [segs[0]] + names
    requires head != segs[0] && head != "" && head != DOT
    ensures (if r < [head] + names then [head] + names else PushAll(false, r, [head] + names)) == segs <==>
      head == UP && |r| == 2
  {
    assert r[0] == segs[0] && ([head] + names)[0] == head;
    assert AllNames(names) by {
      assert forall i :: 0 <= i < |names| ==> names[i] == segs[i + 1];
    }
    PushAllAppend(false, r, [head], names, [head] + names);
    HeadFollowed(r, head);
    PushNames(false, PushAll(false, r, [head]), names);
    SameTail(PushAll(false, r, [head]), [segs[0]], names);
  }

  lemma HeadPushed(head: string)
    requires head != ""
    ensures PushAll(false, [], [head]) == if head == DOT then [] else [head]
  {
    assert [head][..0] == [];
  }

  lemma HeadFollowed(r: seq<string>, head: string)
    requires r != [] && r[|r| - 1] != UP && head != "" && head != DOT
    ensures PushAll(false, r, [head]) == if head == UP then r[..|r| - 1] else r + [head]
  {
    assert [head][..0] == [];
  }

  lemma SameTail(a: seq<string>, b: seq<string>, tail: seq<string>)
    ensures a + tail == b + tail <==> a == b
  {
    if a + tail == b + tail {
      assert |a| == |b|;
      assert a == (a + tail)[..|a|];
    }
  }

  /** An accepted path that starts with white space is below its root, which does not climb. */
  lemma SpacedBelow(root: string, cwd: string, raw: string, p: string)
    requires IsRoot(root) && IsAbs(cwd) && Normalize(root, cwd, raw) == Some(p) && !IsAbs(p) && p != "" && IsSpace(p[0])
    ensures !IsAbs(root) && Parse(root).segs != [] && Parse(root).segs <= Parse(p).segs && AllNames(Parse(p).segs)
  {
    AcceptedIff(root, cwd, raw, p);
    ChosenIsClean(root, raw);
    FirstSegment(root, cwd, raw, p);
    FirstChar(p);
    CleanParts(p);
    UnclimbedIsBelow(root, cwd, p);
    NamesAfterClimb(Parse(p).segs);
  }

  lemma SpacedIff(root: string, cwd: string, raw: string, p: string)
    requires IsRoot(root) && IsAbs(cwd) && Normalize(root, cwd, raw) == Some(p) && !IsAbs(p) && p != "" && IsSpace(p[0])
    ensures Chosen(root, p) == p <==> Restored(Parse(root).segs, Parse(p).segs, TrimmedHead(p))
  {
    AcceptedIff(root, cwd, raw, p);
    ChosenIsClean(root, raw);
    SpacedBelow(root, cwd, raw, p);
    TrimmedTail(p);
    SpacedChoice(root, p);
  }

  lemma SpacedChoice(root: string, p: string)
    requires IsRoot(root) && !IsAbs(root) && Clean(p) == p && !IsAbs(p)
    requires var r, segs := Parse(root).segs, Parse(p).segs;
      r != [] && r <= segs && AllNames(segs) && TrimmedHead(p) != segs[0]
      && Split(TrimSpace(p), '/') == [TrimmedHead(p)] + segs[1..]
      && (TrimmedHead(p) == DOT ==> |segs| > 1) && TrimSpace(p) != ""
    ensures Chosen(root, p) == p <==> Restored(Parse(root).segs, Parse(p).segs, TrimmedHead(p))
  {
    var q, segs := TrimSpace(p), Parse(p).segs;
    CleanKeepsRoot(q);
    HeadOfText(q);
    if TrimmedHead(p) != "" {
      var trimmed := PushAll(false, [], [TrimmedHead(p)] + segs[1..]);
      RestoredIff(Parse(root).segs, segs, TrimmedHead(p), segs[1..], trimmed);
      TrimmedSome(TrimmedHead(p), segs);
      SecondSpaced(root, p, trimmed);
    }
  }

  lemma TrimmedSome(head: string, segs: seq<string>)
    requires AllNames(segs) && segs != [] && head != "" && (head == DOT ==> |segs| > 1)
    ensures PushAll(false, [], [head] + segs[1..]) != []
  {
    TrimmedIs(head, segs[1..]);
  }

  /** The first part of a text is empty exactly when the text is empty or absolute. */
  lemma HeadOfText(q: string)
    ensures Split(q, '/')[0] == "" <==> q == "" || IsAbs(q)
  {
  }

  /**
   An absolute path; a path that needs no trimming and is below the root as text, or that
   following the root leads back to; or a path that trimming cuts and following restores.
   */
  predicate Settled(root: string, p: string) {
    || IsAbs(p)
    || var r, segs := Parse(root).segs, Parse(p).segs;
       if p != "" && IsSpace(p[0]) then Restored(r, segs, TrimmedHead(p)) else root + "/" <= p || Absorbs(r, segs)
  }

  /** Normalising an accepted path again returns it unchanged exactly when it is settled. */
  lemma SettlesIff(root: string, cwd: string, raw: string, p: string)
    requires IsRoot(root) && IsAbs(cwd) && Normalize(root, cwd, raw) == Some(p)
    ensures Normalize(root, cwd, p) == Some(p) <==> Settled(root, p)
  {
    AcceptedIff(root, cwd, raw, p);
    AcceptedIff(root, cwd, p, p);
    ChosenIsClean(root, raw);
    NotDot(p);
    ExtEnd(p);
    if IsSpace(p[0]) {
      SpacedIff(root, cwd, raw, p);
    } else {
      TrimFixed(p, IsSpace);
      if !IsAbs(p) {
        var q := ChosenRelative(root, raw);
        SecondChoice(root, p);
      }
    }
  }

  // ------------------------------------------------------------------
  // Files directly under the root
  // ------------------------------------------------------------------

  lemma ChildParts(root: string, name: string)
    requires IsRoot(root) && IsSegment(name) && name != UP
    ensures Parse(JoinPath(root, name)) == Path(IsAbs(root), Parse(root).segs + [name])
    ensures Render(Parse(JoinPath(root, name))) == JoinPath(root, name)
  {
    CleanParts(root);
    assert Render(Path(false, [name])) == name;
    JoinFollows(root, [name]);
    PushNames(IsAbs(root), Parse(root).segs, [name]);
    CleanOnce(root + "/" + name);
  }

  lemma Child(root: string, cwd: string, name: string)
    requires IsRoot(root) && IsAbs(cwd) && IsSegment(name) && name != UP
    ensures var d := JoinPath(root, name);
      && Clean(d) == d && IsAbs(d) == IsAbs(root)
      && (!IsAbs(root) ==> root + "/" <= d)
      && AbsSegs(cwd, d) == AbsSegs(cwd, root) + [name]
  {
    var d := JoinPath(root, name);
    ChildParts(root, name);
    CleanOnce(root + "/" + name);
    CleanKeepsRoot(root + "/" + name);
    CleanParts(root);
    if !IsAbs(root) {
      BelowOrFollows(root, d, Parse(d).segs);
      ChildAbs(root, cwd, name, d);
    }
  }

  lemma ChildAbs(root: string, cwd: string, name: string, d: string)
    requires IsRoot(root) && IsAbs(cwd) && !IsAbs(root) && IsSegment(name) && name != UP
    requires Clean(d) == d && !IsAbs(d) && Parse(d).segs == Parse(root).segs + [name]
    ensures AbsSegs(cwd, d) == AbsSegs(cwd, root) + [name]
  {
    var c, r := Parse(cwd).segs, Parse(root).segs;
    CleanParts(d);
    CleanParts(root);
    JoinFollows(cwd, r + [name]);
    JoinFollows(cwd, r);
    CleanOnce(cwd + "/" + d);
    CleanOnce(cwd + "/" + root);
    PushAllAppend(true, c, r, [name], r + [name]);
    PushNames(true, PushAll(true, c, r), [name]);
  }

  lemma ChildText(root: string, name: string) returns (x: string)
    requires IsRoot(root) && IsSegment(name) && name != UP
    ensures JoinPath(root, name) == x + name
  {
    var r := Parse(root).segs;
    ChildParts(root, name);
    if r == [] {
      x := if IsAbs(root) then "/" else "";
      assert [] + [name] == [name];
    } else {
      JoinConcat(r, [name], '/');
      x := (if IsAbs(root) then "/" else "") + (Join(r, '/') + "/");
    }
  }

  /** An extension that folds to ".hjson" is a dot and five letters. */
  lemma MenuExtPlain(ext: string)
    requires ToLower(ext) == ".hjson"
    ensures |ext| == 6 && ext[0] == '.' && Plain(ext[1..]) && !IsSpace(ext[5])
  {
    var low := ".hjson";
    assert forall i :: 0 <= i < 6 ==> low[i] == LowerChar(ext[i]);
    assert low[0] == '.' && low[1] == 'h' && low[2] == 'j' && low[3] == 's' && low[4] == 'o' && low[5] == 'n';
  }

  lemma RenderChild(p: Path, name: string)
    requires p.rooted || p.segs != []
    ensures Render(Path(p.rooted, p.segs + [name])) == if p.segs == [] then "/" + name else Render(p) + "/" + name
  {
    if p.segs == [] {
      assert [] + [name] == [name];
    } else {
      JoinConcat(p.segs, [name], '/');
    }
  }

  lemma SlashAlone(p: Path)
    requires Reduced(p.rooted, p.segs)
    ensures Render(p) == "/" <==> p.rooted && p.segs == []
  {
    if p.segs != [] {
      assert IsSegment(p.segs[0]);
      assert Join(p.segs, '/') != "" && Join(p.segs, '/')[0] == p.segs[0][0];
    }
  }

  /** A file directly under the root is the root, a slash and the name. */
  lemma ChildIs(root: string, name: string)
    requires IsRoot(root) && IsSegment(name) && name != UP
    ensures JoinPath(root, name) == if root == "/" then "/" + name else root + "/" + name
  {
    ChildParts(root, name);
    CleanParts(root);
    SlashAlone(Parse(root));
    RenderChild(Parse(root), name);
  }

  lemma DefaultIs(root: string)
    requires IsRoot(root)
    ensures DefaultMenuFile(root) == if root == "/" then "/" + "main.hjson" else root + "/" + "main.hjson"
  {
    MainIsSegment();
    ChildIs(root, MAIN);
  }

  lemma MainIsSegment()
    ensures IsSegment(MAIN) && MAIN != UP
  {
    assert MAIN[0] == 'm';
  }

  lemma MenuExt(x: string, ext: string)
    requires ToLower(ext) == ".hjson"
    ensures HasMenuExt(x + ext)
  {
    MenuExtPlain(ext);
    LastDotAt(x, ext[1..]);
    assert x + "." + ext[1..] == x + ext;
    assert Ext(x + ext) == ext;
  }

  /** The extension of a menu file, in any mixture of capitals. */
  predicate SpellsExt(ext: string) {
    |ext| == 6 && ext[0] == '.' && ext[1] in "hH" && ext[2] in "jJ" && ext[3] in "sS" && ext[4] in "oO" && ext[5] in "nN"
  }

  lemma SpelledExt(ext: string)
    ensures ToLower(ext) == ".hjson" <==> SpellsExt(ext)
  {
    var low := ".hjson";
    assert low[0] == '.' && low[1] == 'h' && low[2] == 'j' && low[3] == 's' && low[4] == 'o' && low[5] == 'n';
    if ToLower(ext) == low {
      assert forall i :: 0 <= i < 6 ==> low[i] == LowerChar(ext[i]);
    }
  }

  /** A path has the extension exactly when it ends in it, whatever the case. */
  lemma AnyCaseExt(path: string)
    ensures HasMenuExt(path) <==> |path| >= 6 && SpellsExt(path[|path| - 6..])
  {
    if HasMenuExt(path) {
      SpelledExt(Ext(path));
      assert Ext(path) == path[|path| - 6..];
    }
    if |path| >= 6 && SpellsExt(path[|path| - 6..]) {
      var n := |path| - 6;
      SpelledExt(path[n..]);
      MenuExt(path[..n], path[n..]);
      assert path[..n] + path[n..] == path;
    }
  }

  lemma ChildInside(base: seq<string>, name: string)
    ensures Inside(base, base + [name]) <==> !(UP <= name)
  {
  }

  lemma ChildMenuExt(root: string, stem: string, ext: string)
    requires IsRoot(root) && IsSegment(stem + ext) && ToLower(ext) == ".hjson"
    ensures HasMenuExt(JoinPath(root, stem + ext))
  {
    var name := stem + ext;
    assert |name| != |UP|;
    var x := ChildText(root, name);
    MenuExt(x + stem, ext);
    assert x + stem + ext == x + name;
  }

  /** The verdict on a file directly under the root turns on its name alone. */
  lemma ChildVerdict(root: string, cwd: string, raw: string, stem: string, ext: string)
    requires IsRoot(root) && IsAbs(cwd) && IsSegment(stem + ext) && ToLower(ext) == ".hjson"
    requires Chosen(root, raw) == JoinPath(root, stem + ext)
    ensures Normalize(root, cwd, raw) == if UP <= stem + ext then None else Some(JoinPath(root, stem + ext))
  {
    var name := stem + ext;
    assert |name| != |UP|;
    Child(root, cwd, name);
    ChildMenuExt(root, stem, ext);
    ChildInside(AbsSegs(cwd, root), name);
    AcceptedIff(root, cwd, raw, JoinPath(root, name));
  }

  lemma PlainChosen(root: string, name: string)
    requires IsRoot(root) && IsSegment(name) && name != UP && TrimSpace(name) == name
    ensures Chosen(root, name) == JoinPath(root, name)
  {
    assert Render(Path(false, [name])) == name;
    ParseRelative([name]);
    assert (root + "/")[|root|] == '/';
  }

  /**
   A bare file name with the extension, in capitals or not, is looked up directly under the
   root, except that one beginning with ".." is refused.
   */
  lemma BareName(root: string, cwd: string, stem: string, ext: string)
    requires IsRoot(root) && IsAbs(cwd) && '/' !in stem && (stem != "" ==> !IsSpace(stem[0]))
    requires ToLower(ext) == ".hjson"
    ensures Normalize(root, cwd, stem + ext) == if UP <= stem + ext then None else Some(JoinPath(root, stem + ext))
    ensures AbsSegs(cwd, JoinPath(root, stem + ext)) == AbsSegs(cwd, root) + [stem + ext]
  {
    var name := stem + ext;
    MenuExtPlain(ext);
    BareSegment(stem, ext);
    PlainChosen(root, name);
    ChildVerdict(root, cwd, name, stem, ext);
    Child(root, cwd, name);
  }

  lemma BareSegment(stem: string, ext: string)
    requires '/' !in stem && (stem != "" ==> !IsSpace(stem[0]))
    requires |ext| == 6 && ext[0] == '.' && Plain(ext[1..]) && !IsSpace(ext[5])
    ensures var name := stem + ext;
      IsSegment(name) && name != UP && TrimSpace(name) == name && !IsSpace(name[|name| - 1])
  {
    var name := stem + ext;
    assert ext == ['.'] + ext[1..] && |name| > 2;
    assert name[|name| - 1] == ext[5];
    TrimFixed(name, IsSpace);
  }

  /** A blank request is answered with the default menu file, whatever the root and the working directory. */
  lemma BlankIsDefault(root: string, cwd: string, raw: string)
    requires IsRoot(root) && IsAbs(cwd) && TrimSpace(raw) == ""
    ensures Normalize(root, cwd, raw) == Some(DefaultMenuFile(root))
  {
    assert MAIN == "main" + ".hjson" && MAIN[0] != UP[0];
    DefaultChosen(root, cwd, raw);
    assert ToLower(".hjson") == ".hjson";
    ChildVerdict(root, cwd, raw, "main", ".hjson");
  }

  lemma DefaultChosen(root: string, cwd: string, raw: string)
    requires IsRoot(root) && IsAbs(cwd) && TrimSpace(raw) == ""
    ensures Chosen(root, raw) == JoinPath(root, MAIN)
  {
    Child(root, cwd, MAIN);
    assert [""][..0] == [];
  }

  // ------------------------------------------------------------------
  // Accepted paths that move
  // ------------------------------------------------------------------

  /** Under a relative root that starts with a space, whatever its name: the second call trims the space away. */
  lemma SpacedRootMoves(n: string, stem: string, cwd: string)
    requires IsAbs(cwd) && IsSegment(n) && n != UP && !IsSpace(n[0])
    requires '/' !in stem && (stem != "" ==> !IsSpace(stem[0])) && !(UP <= stem + ".hjson")
    ensures var root, name := " " + n, stem + ".hjson";
      var p := root + "/" + name;
      IsRoot(root) && Normalize(root, cwd, name) == Some(p) && Normalize(root, cwd, p) != Some(p)
  {
    var root, name, ext := " " + n, stem + ".hjson", ".hjson";
    assert ToLower(ext) == ext;
    MenuExtPlain(ext);
    BareSegment(stem, ext);
    SpacedJoin(n, name);
    BareName(root, cwd, stem, ext);
    SpacedUnsettled(root, n, name, root + "/" + name, cwd);
  }

  lemma SpacedUnsettled(root: string, n: string, name: string, p: string, cwd: string)
    requires IsRoot(root) && IsAbs(cwd) && Normalize(root, cwd, name) == Some(p)
    requires root == " " + n && p == root + "/" + name
    requires IsSegment(n) && n != UP && !IsSpace(n[0]) && name != "" && !IsSpace(name[|name| - 1])
    ensures Normalize(root, cwd, p) != Some(p)
  {
    SpacedHead(n, name, p);
    assert p[0] == ' ';
    SettlesIff(root, cwd, name, p);
  }

  lemma SpacedJoin(n: string, name: string)
    requires IsSegment(n) && IsSegment(name) && name != UP
    ensures IsRoot(" " + n) && JoinPath(" " + n, name) == " " + n + "/" + name
  {
    var root := " " + n;
    assert root[0] == ' ' && |root| > 1;
    assert Render(Path(false, [root])) == root;
    ParseRelative([root]);
    ChildParts(root, name);
    JoinConcat([root], [name], '/');
  }

  lemma SpacedHead(n: string, name: string, p: string)
    requires p == " " + n + "/" + name && n != "" && !IsSpace(n[0]) && '/' !in n
    requires name != "" && !IsSpace(name[|name| - 1])
    ensures TrimmedHead(p) == n
  {
    var q := n + ['/'] + name;
    assert p[1..] == q;
    assert TrimLeft(p, IsSpace) == TrimLeft(q, IsSpace) == q;
    SplitConcat(n, name, '/');
    SplitNoSep(n, '/');
  }

  /** A path that leaves a root `m` twice over and comes back to it by name from the working directory's parent. */
  function Reentry(ups: nat, w: string, m: string, f: string): string {
    Render(Path(false, Ups(ups) + [w, m, f]))
  }

  lemma ReentryParts(ups: nat, w: string, m: string, f: string, stem: string)
    requires AllNames([w, m, f]) && f == stem + ".hjson" && ups > 0
    ensures var p, s := Reentry(ups, w, m, f), Ups(ups) + [w, m, f];
      && Reduced(false, s) && Parse(p) == Path(false, s) && Clean(p) == p && TrimSpace(p) == p
      && HasMenuExt(p) && !IsAbs(p) && p[0] == '.'
  {
    var names := [w, m, f];
    var s := Ups(ups) + names;
    var p := Reentry(ups, w, m, f);
    forall i | 0 <= i < |s| ensures IsSegment(s[i]) && (s[i] == UP <==> i < ups) {
      if i >= ups {
        assert s[i] == names[i - ups];
      }
    }
    ParseRelative(s);
    assert s[0] == UP;
    FirstChar(p);
    var front := s[..|s| - 1];
    assert s == front + [f];
    JoinConcat(front, [f], '/');
    var x := Join(front, '/') + "/";
    assert p == x + stem + ".hjson";
    assert ToLower(".hjson") == ".hjson";
    MenuExt(x + stem, ".hjson");
    ExtEnd(p);
    TrimFixed(p, IsSpace);
  }

  lemma ReentryRoot(w: string, m: string)
    requires AllNames([w]) && AllNames([m])
    ensures IsRoot(m) && !IsAbs(m) && Parse(m).segs == [m]
    ensures IsAbs("/" + w) && Parse("/" + w).segs == [w]
    ensures AbsSegs("/" + w, m) == [w, m]
  {
    assert IsSegment([w][0]) && IsSegment([m][0]);
    assert Render(Path(true, [w])) == "/" + w && Render(Path(false, [m])) == m;
    ParseRooted([w]);
    ParseRelative([m]);
    UnclimbedSegs("/" + w, m);
    assert [w] + [m] == [w, m];
  }

  lemma ReentryAbs(w: string, m: string, f: string, stem: string)
    requires AllNames([w, m, f]) && f == stem + ".hjson" && Parse("/" + w).segs == [w]
    ensures AbsSegs("/" + w, Reentry(1, w, m, f)) == [w, m, f]
  {
    var cwd, s := "/" + w, Ups(1) + [w, m, f];
    ReentryParts(1, w, m, f, stem);
    JoinFollows(cwd, s);
    CleanOnce(cwd + "/" + Reentry(1, w, m, f));
    PushAllAppend(true, [w], Ups(1), [w, m, f], s);
    assert [w, m, f][0] == w;
    DownAgain(w);
    PushNames(true, [], [w, m, f]);
    assert [] + [w, m, f] == [w, m, f];
  }

  lemma DownAgain(w: string)
    requires w != UP
    ensures PushAll(true, [w], Ups(1)) == []
  {
  }

  lemma ReentryChosen(w: string, m: string, f: string, stem: string)
    requires AllNames([w, m, f]) && f == stem + ".hjson" && IsRoot(m) && !IsAbs(m) && Parse(m).segs == [m]
    ensures Chosen(m, Reentry(2, w, m, f)) == Reentry(1, w, m, f)
  {
    var raw, q, s := Reentry(2, w, m, f), Ups(2) + [w, m, f], Ups(1) + [w, m, f];
    assert [w, m, f][1] == m;
    ReentryParts(2, w, m, f, stem);
    NotDot(raw);
    BelowOrFollows(m, raw, q);
    assert q[0] == UP;
    PushAllAppend(false, [m], Ups(2), [w, m, f], q);
    PushUps([m], 2);
    assert AfterUps([m], 2) == Ups(1);
    PushNames(false, Ups(1), [w, m, f]);
    CleanKeepsRoot(m + "/" + raw);
    CleanOnce(m + "/" + raw);
  }

  /** Under a relative root, a path that climbs out and re-enters by name is accepted and then does not stay. */
  lemma ReentryMoves(w: string, m: string, f: string, stem: string)
    requires AllNames([w, m, f]) && f == stem + ".hjson" && !(UP <= f)
    ensures var raw, p, cwd := Reentry(2, w, m, f), Reentry(1, w, m, f), "/" + w;
      IsRoot(m) && Normalize(m, cwd, raw) == Some(p) && Normalize(m, cwd, p) != Some(p)
  {
    assert AllNames([w]) && AllNames([m]) by {
      assert [w, m, f][0] == w && [w, m, f][1] == m;
    }
    ReentryRoot(w, m);
    ReentryAccepted(w, m, f, stem);
    ReentryUnsettled(w, m, f, stem);
    ReentryParts(1, w, m, f, stem);
    SettlesIff(m, "/" + w, Reentry(2, w, m, f), Reentry(1, w, m, f));
  }

  lemma ReentryAccepted(w: string, m: string, f: string, stem: string)
    requires AllNames([w, m, f]) && f == stem + ".hjson" && !(UP <= f)
    requires IsRoot(m) && !IsAbs(m) && Parse(m).segs == [m]
    requires IsAbs("/" + w) && Parse("/" + w).segs == [w] && AbsSegs("/" + w, m) == [w, m]
    ensures Normalize(m, "/" + w, Reentry(2, w, m, f)) == Some(Reentry(1, w, m, f))
  {
    ReentryParts(1, w, m, f, stem);
    ReentryAbs(w, m, f, stem);
    ReentryChosen(w, m, f, stem);
    ChildInside([w, m], f);
    assert [w, m] + [f] == [w, m, f];
    AcceptedIff(m, "/" + w, Reentry(2, w, m, f), Reentry(1, w, m, f));
  }

  lemma ReentryUnsettled(w: string, m: string, f: string, stem: string)
    requires AllNames([w, m, f]) && f == stem + ".hjson" && IsRoot(m) && !IsAbs(m) && Parse(m).segs == [m] && m != UP
    ensures !Settled(m, Reentry(1, w, m, f))
  {
    var p, s := Reentry(1, w, m, f), Ups(1) + [w, m, f];
    ReentryParts(1, w, m, f, stem);
    BelowOrFollows(m, p, s);
    assert s[0] == UP;
  }
}
