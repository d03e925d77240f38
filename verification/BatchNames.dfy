/** Member names of the batch ZIP: the naming loop of `serveGatewayBatchZip`. */
module BatchNames {
  import opened Counting
  import opened Decimal
  import opened FileNames
  import opened FirstOccurrences

  /** A queued entry that can be served. */
  datatype Row = Row(id: int, name: string)

  /** The name an entry starts from. */
  function BaseName(row: Row): string {
    var name := Base(row.name);
    if name == "" || name == "." then "file-" + FormatInt(row.id) + ".bin" else name
  }

  /** The last element of the entry's name; "file-<id>.bin" where there is none. */
  lemma BaseNameMeans(id: int, dir: string, name: string)
    requires '/' !in name && name != "" && name != "."
    ensures BaseName(Row(id, name)) == BaseName(Row(id, dir + "/" + name)) == name
    ensures BaseName(Row(id, "")) == BaseName(Row(id, ".")) == "file-" + FormatInt(id) + ".bin"
  {
    BaseMeans(dir, name, "");
    BaseMeans(dir, ".", "");
    assert dir + "/" + name + "" == dir + "/" + name && name + "" == name && "." + "" == ".";
  }

  function BaseNames(rows: seq<Row>): (bases: seq<string>)
    ensures |bases| == |rows|
    ensures forall i :: 0 <= i < |rows| ==> bases[i] == BaseName(rows[i])
  {
    seq(|rows|, i requires 0 <= i < |rows| => BaseName(rows[i]))
  }

  /** How often a name occurs. */
  function Occurrences(bases: seq<string>, b: string): nat {
    if bases == [] then 0
    else Occurrences(bases[..|bases| - 1], b) + if bases[|bases| - 1] == b then 1 else 0
  }

  /** The first occurrence of a base name keeps it, the k-th gets number k. */
  function MemberName(bases: seq<string>, i: nat): string
    requires i < |bases|
  {
    var before := Occurrences(bases[..i], bases[i]);
    if before == 0 then bases[i] else Numbered(bases[i], before + 1)
  }

  /** Reading a missing key gives zero. */
  function CountOf(nameCount: map<string, int>, name: string): int {
    if name in nameCount then nameCount[name] else 0
  }

  ghost predicate Tallies(nameCount: map<string, int>, bases: seq<string>) {
    forall b :: CountOf(nameCount, b) == Occurrences(bases, b)
  }

  lemma TallyNext(nameCount: map<string, int>, bases: seq<string>, i: nat)
    requires i < |bases| && Tallies(nameCount, bases[..i])
    ensures Tallies(nameCount[bases[i] := CountOf(nameCount, bases[i]) + 1], bases[..i + 1])
  {
    OccurrencesNext(bases, i);
    var next := nameCount[bases[i] := CountOf(nameCount, bases[i]) + 1];
    forall b ensures CountOf(next, b) == Occurrences(bases[..i + 1], b) {
      assert CountOf(nameCount, b) == Occurrences(bases[..i], b);
    }
  }

  function MemberNames(bases: seq<string>, n: nat): (names: seq<string>)
    requires n <= |bases|
    ensures |names| == n
  {
    if n == 0 then [] else MemberNames(bases, n - 1) + [MemberName(bases, n - 1)]
  }

  /** The naming loop of `serveGatewayBatchZip` */
  method NameMembers(rows: seq<Row>) returns (names: seq<string>)
    ensures |names| == |rows|
    ensures forall i :: 0 <= i < |rows| ==> names[i] == MemberName(BaseNames(rows), i)
  {
    ghost var bases := BaseNames(rows);
    var nameCount: map<string, int> := map[];
    names := [];
    for i := 0 to |rows|
      invariant Tallies(nameCount, bases[..i])
      invariant names == MemberNames(bases, i)
    {
      var name := BaseName(rows[i]);
      var count := CountOf(nameCount, name);
      assert count == Occurrences(bases[..i], name);
      TallyNext(nameCount, bases, i);
      nameCount := nameCount[name := count + 1];
      if count > 0 {
        name := Numbered(name, count + 1);
      }
      names := names + [name];
    }
    forall i | 0 <= i < |rows| ensures names[i] == MemberName(bases, i) {
      MemberNameAt(bases, |rows|, i);
    }
  }

  lemma {:induction false} MemberNameAt(bases: seq<string>, n: nat, i: nat)
    requires i < n <= |bases|
    ensures MemberNames(bases, n)[i] == MemberName(bases, i)
  {
    if i < n - 1 {
      MemberNameAt(bases, n - 1, i);
    }
  }

  lemma OccurrencesNext(bases: seq<string>, i: nat)
    requires i < |bases|
    ensures forall b :: Occurrences(bases[..i + 1], b) == Occurrences(bases[..i], b) + if bases[i] == b then 1 else 0
  {
    assert bases[..i + 1][..i] == bases[..i];
  }

  /** It is the number of the places where the name occurs. */
  lemma OccurrencesCount(bases: seq<string>, b: string)
    ensures Occurrences(bases, b) == |set i: nat | i < |bases| && bases[i] == b|
  {
    var p := (i: nat) => i < |bases| && bases[i] == b;
    OccurrencesPlaces(bases, b, p, |bases|);
    assert bases[..|bases|] == bases;
    assert Places(p, |bases|) == set i: nat | i < |bases| && bases[i] == b;
  }

  lemma {:induction false} OccurrencesPlaces(bases: seq<string>, b: string, p: nat -> bool, n: nat)
    requires n <= |bases| && forall i: nat :: i < |bases| ==> p(i) == (bases[i] == b)
    ensures Occurrences(bases[..n], b) == |Places(p, n)|
  {
    if n > 0 {
      OccurrencesPlaces(bases, b, p, n - 1);
      OccurrencesNext(bases, n - 1);
      PlacesNext(p, n - 1);
    }
  }

  lemma {:induction false} OccurrencesGrow(bases: seq<string>, i: nat, j: nat, b: string)
    requires i <= j <= |bases|
    ensures Occurrences(bases[..i], b) <= Occurrences(bases[..j], b)
    decreases j - i
  {
    if i < j {
      OccurrencesNext(bases, i);
      OccurrencesGrow(bases, i + 1, j, b);
    }
  }

  lemma OccurrencesInOrder(bases: seq<string>, i: nat, j: nat)
    requires i < j <= |bases|
    ensures Occurrences(bases[..i], bases[i]) < Occurrences(bases[..j], bases[i])
  {
    OccurrencesNext(bases, i);
    OccurrencesGrow(bases, i + 1, j, bases[i]);
  }

  lemma {:induction false} KthOccurrence(bases: seq<string>, n: nat, b: string, k: nat) returns (p: nat)
    requires n <= |bases| && k < Occurrences(bases[..n], b)
    ensures p < n && bases[p] == b && Occurrences(bases[..p], b) == k
  {
    OccurrencesNext(bases, n - 1);
    if k < Occurrences(bases[..n - 1], b) {
      p := KthOccurrence(bases, n - 1, b, k);
    } else {
      p := n - 1;
    }
  }

  lemma {:induction false} OccursIn(bases: seq<string>, b: string)
    ensures Occurrences(bases, b) > 0 <==> b in bases
  {
    if bases != [] {
      OccursIn(bases[..|bases| - 1], b);
      assert bases == bases[..|bases| - 1] + [bases[|bases| - 1]];
    }
  }

  /** Some queued name is the number that a repeated name will get. */
  ghost predicate Clash(bases: seq<string>) {
    exists b, k :: 2 <= k <= Occurrences(bases, b) && Numbered(b, k) in bases
  }

  /** Member names are pairwise different exactly when no queued name clashes with a number to come. */
  lemma MembersDistinct(bases: seq<string>, names: seq<string>)
    requires |names| == |bases| && forall i :: 0 <= i < |bases| ==> names[i] == MemberName(bases, i)
    ensures NoDuplicates(names) <==> !Clash(bases)
  {
    assert bases[..|bases|] == bases;
    if Clash(bases) {
      var b, k :| 2 <= k <= Occurrences(bases, b) && Numbered(b, k) in bases;
      var p, q := ClashingRows(bases, b, k);
      assert names[p] == names[q];
    } else {
      forall i, j | 0 <= i < j < |names| ensures names[i] != names[j] {
        SameNameClashes(bases, i, j);
      }
    }
  }

  lemma ClashingRows(bases: seq<string>, b: string, k: nat) returns (p: nat, q: nat)
    requires 2 <= k <= Occurrences(bases, b) && Numbered(b, k) in bases
    ensures p < |bases| && q < |bases| && p != q
    ensures MemberName(bases, p) == MemberName(bases, q)
  {
    assert bases[..|bases|] == bases;
    p := KthOccurrence(bases, |bases|, b, k - 1);
    OccursIn(bases, Numbered(b, k));
    q := KthOccurrence(bases, |bases|, Numbered(b, k), 0);
    NumberedLonger(b, k);
  }

  lemma SameNameClashes(bases: seq<string>, i: nat, j: nat)
    requires i < j < |bases| && !Clash(bases)
    ensures MemberName(bases, i) != MemberName(bases, j)
  {
    assert bases[..|bases|] == bases;
    var ci, cj := Occurrences(bases[..i], bases[i]), Occurrences(bases[..j], bases[j]);
    OccurrencesInOrder(bases, i, j);
    OccurrencesInOrder(bases, i, |bases|);
    OccurrencesInOrder(bases, j, |bases|);
    assert bases[i] in bases && bases[j] in bases;
    if ci > 0 && cj > 0 && Numbered(bases[i], ci + 1) == Numbered(bases[j], cj + 1) {
      NumberedInjective(bases[i], ci + 1, bases[j], cj + 1);
    }
  }

  lemma OccurrencesSnoc(front: seq<string>, x: string, b: string)
    ensures Occurrences(front + [x], b) == Occurrences(front, b) + if x == b then 1 else 0
  {
    assert (front + [x])[..|front|] == front;
  }

  /** A name queued twice, and its own second variant: two members of the archive have the same name. */
  lemma NumberedNameTwice(b: string)
    ensures var bases := [b] + [b] + [Numbered(b, 2)];
      Clash(bases) && MemberName(bases, 1) == MemberName(bases, 2)
  {
    var bases := [b] + [b] + [Numbered(b, 2)];
    NumberedLonger(b, 2);
    assert bases[..1] == [] + [b] && bases[..2] == [b] + [b] && bases[2] in bases;
    forall x ensures Occurrences([b], x) == (if b == x then 1 else 0)
      && Occurrences([b] + [b], x) == if b == x then 2 else 0
    {
      OccurrencesSnoc([], b, x);
      OccurrencesSnoc([b], b, x);
      assert [] + [b] == [b];
    }
    OccurrencesSnoc([b] + [b], Numbered(b, 2), b);
    assert 2 <= 2 <= Occurrences(bases, b) && Numbered(b, 2) in bases;
  }
}
