/** Lexical slash-separated paths (package `path/filepath`), as strings and as their reduced segments. */
module Paths {
  import opened Text

  const DOT := "."
  const UP := ".."

  datatype Path = Path(rooted: bool, segs: seq<string>)

  predicate IsAbs(s: string) {
    s != "" && s[0] == '/'
  }

  /** Taking one more segment; going up pops a name, or is kept where there is none to pop. */
  function Push(rooted: bool, acc: seq<string>, seg: string): seq<string> {
    if seg == "" || seg == DOT then acc
    else if seg != UP then acc + [seg]
    else if acc != [] && acc[|acc| - 1] != UP then acc[..|acc| - 1]
    else if rooted then acc
    else acc + [UP]
  }

  function PushAll(rooted: bool, acc: seq<string>, segs: seq<string>): seq<string> {
    if segs == [] then acc else Push(rooted, PushAll(rooted, acc, segs[..|segs| - 1]), segs[|segs| - 1])
  }

  function Parse(s: string): Path {
    Path(IsAbs(s), PushAll(IsAbs(s), [], Split(s, '/')))
  }

  function Render(p: Path): string {
    if p.rooted then "/" + Join(p.segs, '/') else if p.segs == [] then DOT else Join(p.segs, '/')
  }

  /** filepath.Clean */
  function Clean(s: string): string {
    Render(Parse(s))
  }

  /** filepath.Join of two non-empty elements */
  function JoinPath(a: string, b: string): string {
    Clean(a + "/" + b)
  }

  /** filepath.Abs in the working directory `cwd` */
  function Abs(cwd: string, s: string): string {
    if IsAbs(s) then Clean(s) else JoinPath(cwd, s)
  }

  function Common(a: seq<string>, b: seq<string>): (n: nat)
    ensures n <= |a| && n <= |b| && a[..n] == b[..n]
    ensures n < |a| && n < |b| ==> a[n] != b[n]
  {
    if a != [] && b != [] && a[0] == b[0] then
      assert a == [a[0]] + a[1..] && b == [b[0]] + b[1..];
      1 + Common(a[1..], b[1..])
    else 0
  }

  function Ups(n: nat): (segs: seq<string>)
    ensures |segs| == n
    ensures forall i :: 0 <= i < n ==> segs[i] == UP
  {
    seq(n, i => UP)
  }

  /** The way from one absolute directory to another: up to what they share, then down. */
  function Way(base: seq<string>, target: seq<string>): seq<string> {
    var n := Common(base, target);
    Ups(|base| - n) + target[n..]
  }

  /** filepath.Rel on absolute paths */
  function Rel(base: string, target: string): string {
    Render(Path(false, Way(Parse(base).segs, Parse(target).segs)))
  }

  // ------------------------------------------------------------------
  // Reduced paths
  // ------------------------------------------------------------------

  predicate IsSegment(seg: string) {
    seg != "" && seg != DOT && '/' !in seg
  }

  /** Proper segments, and ".." only in front, and only in a relative path. */
  ghost predicate Reduced(rooted: bool, segs: seq<string>) {
    && (forall i :: 0 <= i < |segs| ==> IsSegment(segs[i]))
    && (forall i, j :: 0 <= i < j < |segs| && segs[j] == UP ==> segs[i] == UP)
    && (forall i :: 0 <= i < |segs| && segs[i] == UP ==> !rooted)
  }

  lemma PushReduces(rooted: bool, acc: seq<string>, seg: string)
    requires Reduced(rooted, acc) && '/' !in seg
    ensures Reduced(rooted, Push(rooted, acc, seg))
  {
  }

  lemma {:induction false} PushAllReduces(rooted: bool, acc: seq<string>, segs: seq<string>)
    requires Reduced(rooted, acc) && forall i :: 0 <= i < |segs| ==> '/' !in segs[i]
    ensures Reduced(rooted, PushAll(rooted, acc, segs))
  {
    if segs != [] {
      PushAllReduces(rooted, acc, segs[..|segs| - 1]);
      PushReduces(rooted, PushAll(rooted, acc, segs[..|segs| - 1]), segs[|segs| - 1]);
    }
  }

  lemma ParseReduces(s: string)
    ensures Reduced(IsAbs(s), Parse(s).segs)
  {
    PushAllReduces(IsAbs(s), [], Split(s, '/'));
  }

  /** Reducing reduced segments changes nothing. */
  lemma {:induction false} PushReduced(rooted: bool, segs: seq<string>)
    requires Reduced(rooted, segs)
    ensures PushAll(rooted, [], segs) == segs
  {
    if segs != [] {
      var front := segs[..|segs| - 1];
      assert Reduced(rooted, front);
      PushReduced(rooted, front);
      assert segs == front + [segs[|segs| - 1]];
      if segs[|segs| - 1] == UP && front != [] {
        assert front[|front| - 1] == segs[|front| - 1];
      }
    }
  }

  lemma {:induction false} PushAllAppend(rooted: bool, acc: seq<string>, a: seq<string>, b: seq<string>, all: seq<string>)
    requires all == a + b
    ensures PushAll(rooted, acc, all) == PushAll(rooted, PushAll(rooted, acc, a), b)
  {
    if b == [] {
      assert all == a;
    } else {
      assert all[..|all| - 1] == a + b[..|b| - 1];
      PushAllAppend(rooted, acc, a, b[..|b| - 1], all[..|all| - 1]);
    }
  }

  // ------------------------------------------------------------------
  // Splitting and joining at slashes
  // ------------------------------------------------------------------

  lemma {:induction false} JoinConcat(a: seq<string>, b: seq<string>, sep: char)
    requires a != [] && b != []
    ensures Join(a + b, sep) == Join(a, sep) + [sep] + Join(b, sep)
  {
    assert (a + b)[1..] == a[1..] + b;
    if |a| > 1 {
      JoinConcat(a[1..], b, sep);
      assert a[0] + [sep] + (Join(a[1..], sep) + [sep] + Join(b, sep))
          == a[0] + [sep] + Join(a[1..], sep) + [sep] + Join(b, sep);
    } else {
      assert a[1..] + b == b;
    }
  }

  /** The segments that a rendered relative path splits into, up to empty and "." ones. */
  lemma SplitRelative(segs: seq<string>)
    requires Reduced(false, segs)
    ensures Split(Render(Path(false, segs)), '/') == if segs == [] then [DOT] else segs
    ensures !IsAbs(Render(Path(false, segs)))
  {
    if segs == [] {
      SplitNoSep(DOT, '/');
    } else {
      SplitJoin(segs, '/');
      assert IsSegment(segs[0]);
      var rest := Join(segs, '/');
      assert rest[0] == segs[0][0];
    }
  }

  lemma SplitRooted(segs: seq<string>)
    requires Reduced(true, segs)
    ensures Split(Render(Path(true, segs)), '/') == [""] + if segs == [] then [""] else segs
  {
    var s := Join(segs, '/');
    SplitConcat("", s, '/');
    assert "" + ['/'] + s == Render(Path(true, segs));
    if segs != [] {
      SplitJoin(segs, '/');
    }
  }

  lemma ParseRooted(segs: seq<string>)
    requires Reduced(true, segs)
    ensures Parse(Render(Path(true, segs))) == Path(true, segs)
  {
    SplitRooted(segs);
    PushReduced(true, segs);
    assert PushAll(true, [], [""]) == [] by {
      assert [""][..0] == [];
    }
    PushAllAppend(true, [], [""], if segs == [] then [""] else segs, Split(Render(Path(true, segs)), '/'));
  }

  lemma ParseRelative(segs: seq<string>)
    requires Reduced(false, segs)
    ensures Parse(Render(Path(false, segs))) == Path(false, segs)
  {
    SplitRelative(segs);
    PushReduced(false, segs);
    assert [DOT][..0] == [];
  }

  /** A reduced path is read back from its text. */
  lemma ParseRender(p: Path)
    requires Reduced(p.rooted, p.segs)
    ensures Parse(Render(p)) == p
  {
    if p.rooted {
      ParseRooted(p.segs);
    } else {
      ParseRelative(p.segs);
    }
  }

  lemma CleanOnce(s: string)
    ensures Clean(Clean(s)) == Clean(s)
    ensures Parse(Clean(s)) == Parse(s)
  {
    ParseReduces(s);
    ParseRender(Parse(s));
  }

  // ------------------------------------------------------------------
  // The rules of cleaning
  // ------------------------------------------------------------------

  lemma SplitSlash(a: string, b: string, s: string)
    requires s == a + "/" + b
    ensures Split(s, '/') == Split(a, '/') + Split(b, '/')
  {
    SplitConcat(a, b, '/');
  }

  lemma SplitMiddle(a: string, mid: string, b: string, rest: string, s: string)
    requires '/' !in mid && rest == mid + "/" + b && s == a + "/" + rest
    ensures Split(s, '/') == Split(a, '/') + ([mid] + Split(b, '/'))
  {
    SplitSlash(mid, b, rest);
    SplitNoSep(mid, '/');
    SplitSlash(a, rest, s);
  }

  /** Paths with the same segments in front and behind are the same when those between do not matter. */
  lemma CleanSkips(a: string, mid: seq<string>, b: string, s: string, t: string)
    requires Split(s, '/') == Split(a, '/') + (mid + Split(b, '/')) && t == a + "/" + b && IsAbs(s) == IsAbs(t)
    requires var acc := PushAll(IsAbs(t), [], Split(a, '/')); PushAll(IsAbs(t), acc, mid) == acc
    ensures Clean(s) == Clean(t)
  {
    var rooted, acc := IsAbs(t), PushAll(IsAbs(t), [], Split(a, '/'));
    SplitSlash(a, b, t);
    PushAllAppend(rooted, acc, mid, Split(b, '/'), mid + Split(b, '/'));
    PushAllAppend(rooted, [], Split(a, '/'), mid + Split(b, '/'), Split(s, '/'));
    PushAllAppend(rooted, [], Split(a, '/'), Split(b, '/'), Split(t, '/'));
  }

  /** Empty and "." segments do not matter. */
  lemma CleanDropsDot(a: string, mid: string, b: string)
    requires mid == "" || mid == "."
    ensures Clean(a + "/" + mid + "/" + b) == Clean(a + "/" + b)
  {
    var s, t, rest := a + "/" + mid + "/" + b, a + "/" + b, mid + "/" + b;
    assert s == a + "/" + rest;
    SplitMiddle(a, mid, b, rest, s);
    PushOne(IsAbs(t), PushAll(IsAbs(t), [], Split(a, '/')), mid);
    CleanSkips(a, [mid], b, s, t);
  }

  /** A name followed by ".." does not matter. */
  lemma CleanGoesUp(a: string, name: string, b: string)
    requires name != "" && name != "." && name != ".." && '/' !in name
    ensures Clean(a + "/" + name + "/../" + b) == Clean(a + "/" + b)
  {
    var s, t, rest := a + "/" + name + "/../" + b, a + "/" + b, "../" + b;
    assert s == a + "/" + (name + "/" + rest) && rest == ".." + "/" + b;
    SplitMiddle(a, name, rest, name + "/" + rest, s);
    SplitSlash("..", b, rest);
    SplitNoSep("..", '/');
    assert [name] + ([UP] + Split(b, '/')) == [name, UP] + Split(b, '/');
    DownAndUp(IsAbs(t), PushAll(IsAbs(t), [], Split(a, '/')), name);
    CleanSkips(a, [name, UP], b, s, t);
  }

  lemma DownAndUp(rooted: bool, acc: seq<string>, name: string)
    requires name != "" && name != DOT && name != UP
    ensures PushAll(rooted, acc, [name, UP]) == acc
  {
    PushAllAppend(rooted, acc, [name], [UP], [name, UP]);
    PushOne(rooted, acc, name);
    PushOne(rooted, acc + [name], UP);
  }

  /** Above the root there is only the root. */
  lemma CleanStaysRooted(b: string)
    ensures Clean("/../" + b) == Clean("/" + b)
  {
    var s, t := "/../" + b, "/" + b;
    assert s == "" + "/" + ("../" + b) && "../" + b == ".." + "/" + b && t == "" + "/" + b;
    SplitMiddle("", "..", b, "../" + b, s);
    SplitNoSep("", '/');
    PushOne(true, [], "");
    PushOne(true, [], UP);
    CleanSkips("", [UP], b, s, t);
  }

  /** A path with nothing of that in it stays, and the empty path is the current directory. */
  lemma CleanFixed(p: Path)
    requires Reduced(p.rooted, p.segs)
    ensures Clean(Render(p)) == Render(p) && Clean("") == "."
  {
    ParseRender(p);
    SplitNoSep("", '/');
    PushOne(false, [], "");
  }

  lemma PushOne(rooted: bool, acc: seq<string>, seg: string)
    ensures PushAll(rooted, acc, [seg]) == Push(rooted, acc, seg)
  {
    assert [seg][..0] == [];
  }

  /** Following the relative path from a directory to another one leads there. */
  lemma WayLeads(base: seq<string>, target: seq<string>)
    requires Reduced(true, base) && Reduced(true, target)
    ensures PushAll(true, base, Way(base, target)) == target
  {
    var n := Common(base, target);
    PushAllAppend(true, base, Ups(|base| - n), target[n..], Way(base, target));
    PopAll(base, |base| - n);
    PushNames(true, base[..n], target[n..]);
    assert target[..n] + target[n..] == target;
  }

  lemma {:induction false} PopAll(base: seq<string>, k: nat)
    requires Reduced(true, base) && k <= |base|
    ensures PushAll(true, base, Ups(k)) == base[..|base| - k]
  {
    if k == 0 {
      assert base[..|base|] == base;
    } else {
      assert Ups(k)[..k - 1] == Ups(k - 1);
      PopAll(base, k - 1);
      var acc := base[..|base| - k + 1];
      assert acc[|acc| - 1] == base[|base| - k] != UP;
      assert acc[..|acc| - 1] == base[..|base| - k];
    }
  }

  /** Following a relative path from another one. */
  function Follow(p: Path, segs: seq<string>): Path {
    Path(p.rooted, PushAll(p.rooted, p.segs, segs))
  }

  /** Joining with a clean relative path follows it. */
  lemma JoinFollows(a: string, segs: seq<string>)
    requires a != "" && Reduced(false, segs)
    ensures Parse(a + "/" + Render(Path(false, segs))) == Follow(Parse(a), segs)
  {
    var b := Render(Path(false, segs));
    SplitConcat(a, b, '/');
    SplitRelative(segs);
    assert a + ['/'] + b == a + "/" + b;
    var all := Split(a + "/" + b, '/');
    PushAllAppend(IsAbs(a), [], Split(a, '/'), Split(b, '/'), all);
    assert [DOT][..0] == [];
  }

  /** Being below a relative directory, as a text prefix and as a segment prefix. */
  lemma PrefixIsBelow(root: seq<string>, segs: seq<string>)
    requires Reduced(false, root) && Reduced(false, segs) && root != []
    ensures Join(root, '/') + "/" <= Render(Path(false, segs)) <==> root < segs
  {
    var a, s := Join(root, '/') + "/", Render(Path(false, segs));
    if a <= s {
      var tail := s[|a|..];
      assert s == Join(root, '/') + ['/'] + tail;
      SplitConcat(Join(root, '/'), tail, '/');
      SplitRelative(segs);
      SplitRelative(root);
      assert |Split(s, '/')| > 1;
    }
    if root < segs {
      var rest := segs[|root|..];
      assert segs == root + rest;
      JoinConcat(root, rest, '/');
    }
  }

  // ------------------------------------------------------------------
  // What following a path comes to
  // ------------------------------------------------------------------

  /** How many ".." a path starts with. */
  function Climb(segs: seq<string>): (n: nat)
    ensures n <= |segs|
  {
    if segs != [] && segs[0] == UP then 1 + Climb(segs[1..]) else 0
  }

  lemma {:induction false} ClimbMeans(segs: seq<string>)
    requires Reduced(false, segs)
    ensures segs[..Climb(segs)] == Ups(Climb(segs))
    ensures forall i :: Climb(segs) <= i < |segs| ==> segs[i] != UP
  {
    if segs != [] && segs[0] == UP {
      assert Reduced(false, segs[1..]) by {
        assert forall i :: 0 <= i < |segs| - 1 ==> segs[1..][i] == segs[i + 1];
      }
      ClimbMeans(segs[1..]);
      var n := Climb(segs[1..]);
      assert segs[..n + 1] == [UP] + segs[1..][..n];
      assert Ups(n + 1) == [UP] + Ups(n);
      forall i | n + 1 <= i < |segs| ensures segs[i] != UP {
        assert segs[i] == segs[1..][i - 1];
      }
    }
  }

  /** Going up `k` times: names are dropped from the end, then ".." is added. */
  function AfterUps(segs: seq<string>, k: nat): seq<string> {
    var names := |segs| - Climb(segs);
    if k <= names then segs[..|segs| - k] else Ups(Climb(segs) + k - names)
  }

  lemma AfterUpsNext(segs: seq<string>, k: nat)
    requires Reduced(false, segs)
    ensures Push(false, AfterUps(segs, k), UP) == AfterUps(segs, k + 1)
  {
    ClimbMeans(segs);
    var acc, names := AfterUps(segs, k), |segs| - Climb(segs);
    if k < names {
      assert acc[|acc| - 1] == segs[|segs| - k - 1];
      assert acc[..|acc| - 1] == segs[..|segs| - k - 1];
    } else {
      assert acc == Ups(Climb(segs) + k - names);
      assert acc + [UP] == Ups(Climb(segs) + k + 1 - names);
    }
  }

  lemma {:induction false} PushUps(segs: seq<string>, k: nat)
    requires Reduced(false, segs)
    ensures PushAll(false, segs, Ups(k)) == AfterUps(segs, k)
  {
    if k > 0 {
      assert Ups(k)[..k - 1] == Ups(k - 1);
      PushUps(segs, k - 1);
      AfterUpsNext(segs, k - 1);
    } else {
      assert segs[..|segs|] == segs;
    }
  }

  ghost predicate AllNames(segs: seq<string>) {
    forall i :: 0 <= i < |segs| ==> IsSegment(segs[i]) && segs[i] != UP
  }

  lemma {:induction false} PushNames(rooted: bool, acc: seq<string>, names: seq<string>)
    requires AllNames(names)
    ensures PushAll(rooted, acc, names) == acc + names
  {
    if names != [] {
      PushNames(rooted, acc, names[..|names| - 1]);
      assert names == names[..|names| - 1] + [names[|names| - 1]];
    }
  }

  lemma NamesAfterClimb(segs: seq<string>)
    requires Reduced(false, segs)
    ensures segs == Ups(Climb(segs)) + segs[Climb(segs)..] && AllNames(segs[Climb(segs)..])
  {
  }

  lemma FollowForm(root: seq<string>, segs: seq<string>)
    requires Reduced(false, root) && Reduced(false, segs)
    ensures PushAll(false, root, segs) == AfterUps(root, Climb(segs)) + segs[Climb(segs)..]
  {
    NamesAfterClimb(segs);
    PushAllAppend(false, root, Ups(Climb(segs)), segs[Climb(segs)..], segs);
    PushUps(root, Climb(segs));
    PushNames(false, AfterUps(root, Climb(segs)), segs[Climb(segs)..]);
  }

  /** Following a path from a directory gives that same path back. */
  predicate Absorbs(root: seq<string>, segs: seq<string>) {
    Climb(root) == |root| - Climb(root) && Climb(segs) >= Climb(root)
  }

  lemma FollowStays(root: seq<string>, segs: seq<string>)
    requires Reduced(false, root) && Reduced(false, segs) && root != []
    ensures PushAll(false, root, segs) == segs <==> Absorbs(root, segs)
  {
    FollowForm(root, segs);
    NamesAfterClimb(segs);
    var v := Climb(segs);
    SameHead(AfterUps(root, v), Ups(v), segs[v..], segs);
    AfterUpsStays(root, v);
  }

  lemma SameHead(head: seq<string>, ups: seq<string>, tail: seq<string>, segs: seq<string>)
    requires segs == ups + tail
    ensures head + tail == segs <==> head == ups
  {
    if head + tail == segs {
      assert |head| == |ups|;
      assert head == segs[..|head|];
    }
  }

  lemma AfterUpsStays(root: seq<string>, v: nat)
    requires Reduced(false, root)
    ensures AfterUps(root, v) == Ups(v) <==> Climb(root) == |root| - Climb(root) && v >= Climb(root)
  {
    var names := |root| - Climb(root);
    if v > names {
      assert |AfterUps(root, v)| == Climb(root) + v - names;
    } else {
      TakenUps(root, v);
    }
  }

  lemma TakenUps(root: seq<string>, v: nat)
    requires Reduced(false, root) && v <= |root| - Climb(root)
    ensures root[..|root| - v] == Ups(v) <==> v == Climb(root) == |root| - Climb(root)
  {
    ClimbMeans(root);
    var c := Climb(root);
    if |root| - v == v && v > c {
      assert root[..v][c] != UP && Ups(v)[c] == UP;
    }
  }
}
