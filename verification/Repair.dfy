/** The file recovery assistant: `fileRepairIssues` and the three repair actions. */
module Repair {
  import opened Wrappers
  import opened Text
  import opened Sorting
  import opened FirstOccurrences

  datatype Entry = Entry(areaId: int, name: string, path: string, sha: string)

  /** The repository, the review queue and the disk, as far as the assistant sees them. */
  datatype Store = Store(areas: set<int>, entries: map<int, Entry>, disk: set<string>, reviews: set<int>)

  datatype Kind = MissingArea | MissingFile | MissingPath | MissingSha | OrphanReview

  datatype Issue = Issue(kind: Kind, fileId: int)

  predicate AreaOk(st: Store, e: Entry) {
    e.areaId <= 0 || e.areaId in st.areas
  }

  /** What the assistant reports about an entry: the first failing test. */
  function EntryIssue(st: Store, e: Entry): Option<Kind> {
    if !AreaOk(st, e) then Some(MissingArea)
    else if Blank(e.path) then Some(MissingPath)
    else if e.path !in st.disk then Some(MissingFile)
    else if Blank(e.sha) then Some(MissingSha)
    else None
  }

  /** What the assistant reports about an id; at most one issue. */
  function IssueOf(st: Store, id: int): Option<Kind> {
    if id in st.entries then EntryIssue(st, st.entries[id])
    else if id in st.reviews then Some(OrphanReview)
    else None
  }

  // ------------------------------------------------------------------
  // The repairs
  // ------------------------------------------------------------------

  /** What every repository asks of an entry before it stores it, apart from its path and its digest. */
  predicate Storable(e: Entry) {
    e.areaId > 0 && !Blank(e.name)
  }

  /** A digest as it is stored. */
  function Digest(sum: string): string {
    ToLower(TrimSpace(sum))
  }

  /** The unique index on digests: another entry has this one. */
  predicate Taken(st: Store, id: int, sha: string) {
    sha != "" && exists j :: j in st.entries && j != id && st.entries[j].sha == sha
  }

  function Normal(e: Entry): Entry {
    e.(name := TrimSpace(e.name), path := TrimSpace(e.path), sha := Digest(e.sha))
  }

  /** UpsertFileEntry for an existing id: fields are trimmed; an incomplete entry or a second digest is refused. */
  function Upsert(st: Store, id: int, e: Entry): Store {
    if !Storable(e) || Blank(e.path) || Taken(st, id, Digest(e.sha)) then st
    else st.(entries := st.entries[id := Normal(e)])
  }

  /** Reading a file and printing its SHA-256 gives some text. */
  ghost predicate Digests(digest: string -> string) {
    forall path :: !Blank(digest(path))
  }

  /** The entry with the digest of its file; `digest` gives the digest of the file at a path. */
  function Summed(e: Entry, digest: string -> string): Entry {
    e.(sha := digest(e.path))
  }

  /** repair_hash */
  function HashFile(st: Store, id: int, digest: string -> string): Store {
    if id in st.entries && st.entries[id].path in st.disk then Upsert(st, id, Summed(st.entries[id], digest)) else st
  }

  /** `deleteIndexedFile` */
  function DeleteIndexed(st: Store, id: int): Store
    requires id in st.entries
  {
    var path := TrimSpace(st.entries[id].path);
    st.(entries := st.entries - {id}, disk := if path != "" then st.disk - {path} else st.disk)
  }

  /** repair_clear_review */
  function ClearReview(st: Store, id: int): Store {
    st.(reviews := st.reviews - {id})
  }

  /** repair_remove_file */
  function RemoveFile(st: Store, id: int): Store {
    ClearReview(if id in st.entries then DeleteIndexed(st, id) else st, id)
  }

  /** Running the action that goes with the reported issue. */
  function Repaired(st: Store, id: int, digest: string -> string): Store {
    match IssueOf(st, id)
    case None => st
    case Some(MissingSha) => HashFile(st, id, digest)
    case Some(OrphanReview) => ClearReview(st, id)
    case Some(_) => RemoveFile(st, id)
  }

  class RecoveryDesk {
    var areas: set<int>
    var entries: map<int, Entry>
    var disk: set<string>
    var reviews: set<int>

    function View(): Store
      reads this
    {
      Store(areas, entries, disk, reviews)
    }

    /** `fileRepairIssues`; `rows` is the repository's listing, complete up to 500 entries. */
    method FileRepairIssues(rows: seq<int>) returns (issues: seq<Issue>)
      requires forall id :: id in rows <==> id in entries
      requires forall i, j :: 0 <= i < j < |rows| ==> rows[i] != rows[j]
      ensures SortedBy(issues, IssueLe)
      ensures forall id, kind :: Issue(kind, id) in issues <==> IssueOf(View(), id) == Some(kind)
      ensures forall i, j :: 0 <= i < j < |issues| ==> issues[i].fileId != issues[j].fileId
    {
      var found: seq<Issue> := EntryIssues(rows);
      var orphans := OrphanIssues();
      found := found + orphans;
      IssueLeOrdering();
      SortSorts(found, IssueLe);
      issues := Sort(found, IssueLe);
      SortedIds(found, issues);
    }

    method EntryIssues(rows: seq<int>) returns (found: seq<Issue>)
      requires forall id :: id in rows ==> id in entries
      requires forall i, j :: 0 <= i < j < |rows| ==> rows[i] != rows[j]
      ensures forall issue :: issue in found <==>
        issue.fileId in rows && IssueOf(View(), issue.fileId) == Some(issue.kind)
      ensures DifferentIds(found)
    {
      found := [];
      for i := 0 to |rows|
        invariant forall issue :: issue in found <==>
          issue.fileId in rows[..i] && IssueOf(View(), issue.fileId) == Some(issue.kind)
        invariant DifferentIds(found)
      {
        var id := rows[i];
        assert id !in rows[..i];
        assert forall issue :: issue in found ==> issue.fileId != id;
        var kind := EntryIssue(View(), entries[id]);
        if kind.Some? {
          found := found + [Issue(kind.value, id)];
        }
      }
      assert rows[..|rows|] == rows;
    }

    method OrphanIssues() returns (found: seq<Issue>)
      ensures forall issue :: issue in found <==>
        issue.fileId in reviews && issue.fileId !in entries && issue.kind == OrphanReview
      ensures DifferentIds(found)
    {
      found := [];
      var todo := reviews;
      while todo != {}
        invariant todo <= reviews
        invariant forall issue :: issue in found <==>
          issue.fileId in reviews - todo && issue.fileId !in entries && issue.kind == OrphanReview
        invariant DifferentIds(found)
        decreases todo
      {
        HasMember(todo);
        var id :| id in todo;
        assert forall issue :: issue in found ==> issue.fileId != id;
        if id !in entries {
          found := found + [Issue(OrphanReview, id)];
        }
        todo := todo - {id};
      }
    }

    method RepairHash(id: int, digest: string -> string)
      modifies this
      ensures View() == if id > 0 then HashFile(old(View()), id, digest) else old(View())
    {
      if id > 0 && id in entries && entries[id].path in disk {
        var e := Summed(entries[id], digest);
        if Storable(e) && !Blank(e.path) && !Taken(View(), id, Digest(e.sha)) {
          entries := entries[id := Normal(e)];
        }
      }
    }

    method RepairRemoveFile(id: int)
      modifies this
      ensures View() == if id > 0 then RemoveFile(old(View()), id) else old(View())
    {
      if id > 0 {
        if id in entries {
          var path := TrimSpace(entries[id].path);
          if path != "" {
            disk := disk - {path};
          }
          entries := entries - {id};
        }
        reviews := reviews - {id};
      }
    }

    method RepairClearReview(id: int)
      modifies this
      ensures View() == if id > 0 then ClearReview(old(View()), id) else old(View())
    {
      if id > 0 {
        reviews := reviews - {id};
      }
    }

    /** The arm that a reported issue names as its action. */
    method RunAction(issue: Issue, digest: string -> string)
      requires issue.fileId > 0 && IssueOf(View(), issue.fileId) == Some(issue.kind)
      modifies this
      ensures View() == Repaired(old(View()), issue.fileId, digest)
    {
      match issue.kind {
        case MissingSha => RepairHash(issue.fileId, digest);
        case OrphanReview => RepairClearReview(issue.fileId);
        case _ => RepairRemoveFile(issue.fileId);
      }
    }
  }

  lemma HasMember(s: set<int>)
    ensures s == {} || exists id :: id in s
  {
    if forall id :: id !in s {
      assert s == {};
    }
  }

  predicate DifferentIds(issues: seq<Issue>) {
    forall i, j :: 0 <= i < j < |issues| ==> issues[i].fileId != issues[j].fileId
  }

  /** The order of the kinds' names: area, file, path, sha, orphan. */
  function Rank(kind: Kind): int {
    match kind
    case MissingArea => 0
    case MissingFile => 1
    case MissingPath => 2
    case MissingSha => 3
    case OrphanReview => 4
  }

  predicate IssueLe(a: Issue, b: Issue) {
    Rank(a.kind) < Rank(b.kind) || (Rank(a.kind) == Rank(b.kind) && a.fileId <= b.fileId)
  }

  lemma IssueLeOrdering()
    ensures Ordering(IssueLe)
  {
  }

  lemma SortedIds(found: seq<Issue>, issues: seq<Issue>)
    requires multiset(found) == multiset(issues) && DifferentIds(found)
    ensures DifferentIds(issues) && forall issue :: issue in issues <==> issue in found
  {
    forall issue ensures issue in issues <==> issue in found {
      assert issue in multiset(issues) <==> issue in multiset(found);
    }
    PermutationNoDuplicates(found, issues);
    forall i, j | 0 <= i < j < |issues| ensures issues[i].fileId != issues[j].fileId {
      if issues[i].fileId == issues[j].fileId {
        SameIdSameIssue(found, issues[i], issues[j]);
      }
    }
  }

  lemma SameIdSameIssue(found: seq<Issue>, a: Issue, b: Issue)
    requires DifferentIds(found) && a in found && b in found && a.fileId == b.fileId
    ensures a == b
  {
  }

  /** The kinds as they are written in the report. */
  function KindName(kind: Kind): string {
    match kind
    case MissingArea => "missing_area"
    case MissingFile => "missing_file"
    case MissingPath => "missing_path"
    case MissingSha => "missing_sha"
    case OrphanReview => "orphan_review"
  }

  lemma NamesInOrder(k: Kind, l: Kind)
    requires Rank(k) < Rank(l)
    ensures StrLe(KindName(k), KindName(l)) && !StrLe(KindName(l), KindName(k))
  {
    var a, b := KindName(k), KindName(l);
    var i := if l.OrphanReview? then 0 else 8;
    assert a[..i] == b[..i] == "missing_"[..i];
    FirstDifference(a, b, i);
  }

  /** The report is in the order of the names of the kinds, and for one kind of the ids. */
  lemma IssueLeMeans(a: Issue, b: Issue)
    ensures IssueLe(a, b) <==>
      if a.kind == b.kind then a.fileId <= b.fileId else StrLe(KindName(a.kind), KindName(b.kind))
  {
    if Rank(a.kind) < Rank(b.kind) { NamesInOrder(a.kind, b.kind); }
    if Rank(b.kind) < Rank(a.kind) { NamesInOrder(b.kind, a.kind); }
  }

  // ------------------------------------------------------------------
  // What is reported, and what the repairs do
  // ------------------------------------------------------------------

  /** When each kind of issue is reported; otherwise none is. */
  lemma IssueMeans(st: Store, id: int)
    ensures id !in st.entries ==> IssueOf(st, id) == if id in st.reviews then Some(OrphanReview) else None
    ensures id in st.entries ==>
      var e, issue := st.entries[id], IssueOf(st, id);
      var lost := e.areaId > 0 && e.areaId !in st.areas;
      && (issue == Some(MissingArea) <==> lost)
      && (issue == Some(MissingPath) <==> !lost && TrimSpace(e.path) == "")
      && (issue == Some(MissingFile) <==> !lost && TrimSpace(e.path) != "" && e.path !in st.disk)
      && (issue == Some(MissingSha) <==>
           !lost && TrimSpace(e.path) != "" && e.path in st.disk && TrimSpace(e.sha) == "")
      && issue != Some(OrphanReview)
  {
  }

  /** Hashing stores the digest of the file in lower case, trims name and path, and leaves everything else alone. */
  lemma HashFileEffect(st: Store, id: int, digest: string -> string)
    requires id in st.entries && st.entries[id].path in st.disk
    requires st.entries[id].areaId > 0 && TrimSpace(st.entries[id].name) != "" && TrimSpace(st.entries[id].path) != ""
    requires var sum := ToLower(TrimSpace(digest(st.entries[id].path)));
      sum == "" || forall j :: j in st.entries && j != id ==> st.entries[j].sha != sum
    ensures var e, st' := st.entries[id], HashFile(st, id, digest);
      && st'.areas == st.areas && st'.disk == st.disk && st'.reviews == st.reviews
      && st'.entries.Keys == st.entries.Keys
      && (forall j :: j in st.entries && j != id ==> st'.entries[j] == st.entries[j])
      && var e' := st'.entries[id];
         && e'.areaId == e.areaId && e'.name == TrimSpace(e.name) && e'.path == TrimSpace(e.path)
         && e'.sha == ToLower(TrimSpace(digest(e.path)))
         && (TrimSpace(e.name) == e.name && TrimSpace(e.path) == e.path ==> e' == e.(sha := e'.sha))
  {
  }

  /** Without a file, with an entry that is not complete, or with a digest that another entry has, nothing changes. */
  lemma HashFileRefused(st: Store, id: int, digest: string -> string)
    requires id in st.entries ==>
      var e := st.entries[id]; var sum := ToLower(TrimSpace(digest(e.path)));
      || e.path !in st.disk || e.areaId <= 0 || TrimSpace(e.name) == "" || TrimSpace(e.path) == ""
      || (sum != "" && exists j :: j in st.entries && j != id && st.entries[j].sha == sum)
    ensures HashFile(st, id, digest) == st
  {
  }

  /** Removing takes the entry, the file at its trimmed path and the review row, and nothing else. */
  lemma RemoveFileEffect(st: Store, id: int)
    ensures var st' := RemoveFile(st, id);
      && st'.areas == st.areas
      && (forall j :: j in st'.entries <==> j in st.entries && j != id)
      && (forall j :: j in st'.entries ==> st'.entries[j] == st.entries[j])
      && (forall j :: j in st'.reviews <==> j in st.reviews && j != id)
      && forall path :: path in st'.disk <==>
           path in st.disk && !(id in st.entries && path == TrimSpace(st.entries[id].path) != "")
  {
  }

  lemma ClearReviewEffect(st: Store, id: int)
    ensures var st' := ClearReview(st, id);
      && st'.areas == st.areas && st'.entries == st.entries && st'.disk == st.disk
      && forall j :: j in st'.reviews <==> j in st.reviews && j != id
  {
  }

  // ------------------------------------------------------------------
  // Every repair makes progress
  // ------------------------------------------------------------------

  function Unhashed(st: Store): set<int> {
    set id | id in st.entries && Blank(st.entries[id].sha)
  }

  /** File entries, plus entries with a blank SHA, plus review rows. */
  function Measure(st: Store): nat {
    |st.entries| + |Unhashed(st)| + |st.reviews|
  }

  lemma RemoveFileDecreases(st: Store, id: int)
    requires id in st.entries
    ensures Measure(RemoveFile(st, id)) < Measure(st)
  {
    var st' := RemoveFile(st, id);
    assert st.entries.Keys == st'.entries.Keys + {id};
    assert |st.entries.Keys| == |st'.entries.Keys| + 1;
    SubsetSize(Unhashed(st'), Unhashed(st));
    SubsetSize(st'.reviews, st.reviews);
  }

  /** The repository will store the digest: the entry is complete, and no other one has the digest. */
  predicate Hashable(st: Store, id: int, digest: string -> string)
    requires id in st.entries
  {
    var e := st.entries[id];
    Storable(e) && !Taken(st, id, Digest(digest(e.path)))
  }

  /** A missing digest that repair_hash reports as done and does not store. */
  predicate Stuck(st: Store, id: int, digest: string -> string) {
    IssueOf(st, id) == Some(MissingSha) && !Hashable(st, id, digest)
  }

  lemma DigestStays(sum: string)
    requires !Blank(sum)
    ensures !Blank(Digest(sum)) && Digest(sum) != ""
  {
    TrimLowerCommute(TrimSpace(sum));
    TrimIdempotent(sum, IsSpace);
  }

  lemma HashFileDecreases(st: Store, id: int, digest: string -> string)
    requires id in st.entries && IssueOf(st, id) == Some(MissingSha) && Hashable(st, id, digest) && Digests(digest)
    ensures Measure(HashFile(st, id, digest)) < Measure(st)
  {
    var st' := HashFile(st, id, digest);
    DigestStays(digest(st.entries[id].path));
    assert st'.entries.Keys == st.entries.Keys;
    assert |st'.entries| == |st.entries|;
    assert Unhashed(st) == Unhashed(st') + {id};
  }

  lemma ClearReviewDecreases(st: Store, id: int)
    requires id in st.reviews
    ensures Measure(ClearReview(st, id)) < Measure(st)
  {
  }

  /** Running the action of a reported issue strictly decreases the measure, except that a stuck one changes nothing. */
  lemma RepairDecreases(st: Store, id: int, digest: string -> string)
    requires IssueOf(st, id).Some? && Digests(digest)
    ensures Measure(Repaired(st, id, digest)) < Measure(st) <==> !Stuck(st, id, digest)
    ensures Stuck(st, id, digest) ==> Repaired(st, id, digest) == st
  {
    match IssueOf(st, id).value
    case MissingSha =>
      if Hashable(st, id, digest) {
        HashFileDecreases(st, id, digest);
      }
    case OrphanReview => ClearReviewDecreases(st, id);
    case _ => RemoveFileDecreases(st, id);
  }

  // ------------------------------------------------------------------
  // What a repair does to the report
  // ------------------------------------------------------------------

  /** Another entry that is in order so far and lives in the file that removing `id` deletes. */
  ghost predicate SharesFile(st: Store, id: int)
    requires id in st.entries
  {
    exists j :: j in st.entries && j != id && AreaOk(st, st.entries[j]) && !Blank(st.entries[j].path)
      && st.entries[j].path in st.disk && st.entries[j].path == TrimSpace(st.entries[id].path)
  }

  /** The repair of `id` will only concern `id`. */
  ghost predicate Contained(st: Store, id: int, digest: string -> string)
    requires IssueOf(st, id).Some?
  {
    match IssueOf(st, id).value
    case MissingSha => Hashable(st, id, digest) && TrimSpace(st.entries[id].path) in st.disk
    case OrphanReview => true
    case _ => !SharesFile(st, id)
  }

  /** The report of `st'` is the report of `st` without the issue of `id`. */
  ghost predicate OnlyResolved(st: Store, st': Store, id: int) {
    IssueOf(st', id) == None && forall j :: j != id ==> IssueOf(st', j) == IssueOf(st, j)
  }

  lemma RemoveFileReport(st: Store, id: int)
    requires id in st.entries
    ensures OnlyResolved(st, RemoveFile(st, id), id) <==> !SharesFile(st, id)
  {
    var st' := RemoveFile(st, id);
    var path := TrimSpace(st.entries[id].path);
    if SharesFile(st, id) {
      var j :| j in st.entries && j != id && AreaOk(st, st.entries[j]) && !Blank(st.entries[j].path)
        && st.entries[j].path in st.disk && st.entries[j].path == path;
      TrimIdempotent(st.entries[id].path, IsSpace);
      assert path != "";
      assert IssueOf(st', j) == Some(MissingFile) != IssueOf(st, j);
    } else {
      forall j | j != id ensures IssueOf(st', j) == IssueOf(st, j) {
        if j in st.entries && AreaOk(st, st.entries[j]) && !Blank(st.entries[j].path) && st.entries[j].path in st.disk {
          assert st.entries[j].path != path;
        }
      }
    }
  }

  lemma HashFileReport(st: Store, id: int, digest: string -> string)
    requires id in st.entries && IssueOf(st, id) == Some(MissingSha) && Digests(digest)
    ensures OnlyResolved(st, HashFile(st, id, digest), id) <==>
      Hashable(st, id, digest) && TrimSpace(st.entries[id].path) in st.disk
  {
    DigestStays(digest(st.entries[id].path));
    TrimIdempotent(st.entries[id].path, IsSpace);
    var st' := HashFile(st, id, digest);
    forall j | j != id ensures IssueOf(st', j) == IssueOf(st, j) {
    }
  }

  /** A repair removes exactly its own issue and creates none, if and only if it is contained. */
  lemma RepairResolvesOnlyItsOwn(st: Store, id: int, digest: string -> string)
    requires IssueOf(st, id).Some? && Digests(digest)
    ensures OnlyResolved(st, Repaired(st, id, digest), id) <==> Contained(st, id, digest)
  {
    match IssueOf(st, id).value
    case MissingSha => HashFileReport(st, id, digest);
    case OrphanReview =>
      forall j | j != id ensures IssueOf(Repaired(st, id, digest), j) == IssueOf(st, j) {
      }
    case _ => RemoveFileReport(st, id);
  }

  // ------------------------------------------------------------------
  // Repairing to the end
  // ------------------------------------------------------------------

  /** The index on digests, as a property of the store. */
  ghost predicate UniqueDigests(st: Store) {
    forall i, j :: i in st.entries && j in st.entries && i != j && st.entries[i].sha == st.entries[j].sha ==>
      st.entries[i].sha == ""
  }

  ghost predicate TidyEntries(st: Store) {
    forall id :: id in st.entries ==>
      Storable(st.entries[id]) && TrimSpace(st.entries[id].path) == st.entries[id].path
  }

  ghost predicate DistinctPaths(st: Store) {
    forall i, j :: i in st.entries && j in st.entries && i != j && st.entries[i].path == st.entries[j].path ==>
      st.entries[i].path == ""
  }

  /** The stores that the repositories keep, with distinct paths. */
  ghost predicate WellKept(st: Store) {
    TidyEntries(st) && DistinctPaths(st) && UniqueDigests(st)
  }

  /** The state after repairing the ids in order. */
  function AfterRepairs(st: Store, ids: seq<int>, digest: string -> string): Store {
    if ids == [] then st
    else Repaired(AfterRepairs(st, ids[..|ids| - 1], digest), ids[|ids| - 1], digest)
  }

  /** An issue is reported and can be repaired. */
  predicate Repairable(st: Store, id: int, digest: string -> string) {
    IssueOf(st, id).Some? && !Stuck(st, id, digest)
  }

  /** Every id was repairable when its turn came. */
  ghost predicate Productive(st: Store, ids: seq<int>, digest: string -> string) {
    forall i :: 0 <= i < |ids| ==> Repairable(AfterRepairs(st, ids[..i], digest), ids[i], digest)
  }

  lemma ProductiveFront(st: Store, ids: seq<int>, digest: string -> string)
    requires Productive(st, ids, digest) && ids != []
    ensures Productive(st, ids[..|ids| - 1], digest)
    ensures Repairable(AfterRepairs(st, ids[..|ids| - 1], digest), ids[|ids| - 1], digest)
  {
    var front := ids[..|ids| - 1];
    forall i | 0 <= i < |front| ensures Repairable(AfterRepairs(st, front[..i], digest), front[i], digest) {
      assert ids[..i] == front[..i] && ids[i] == front[i];
    }
  }

  /** On any store and in any order, no more repairs than the measure says have an effect. */
  lemma {:induction false} RepairsTerminate(st: Store, ids: seq<int>, digest: string -> string)
    requires Productive(st, ids, digest) && Digests(digest)
    ensures |ids| + Measure(AfterRepairs(st, ids, digest)) <= Measure(st)
  {
    if ids != [] {
      var front, last := ids[..|ids| - 1], ids[|ids| - 1];
      ProductiveFront(st, ids, digest);
      RepairsTerminate(st, front, digest);
      RepairDecreases(AfterRepairs(st, front, digest), last, digest);
    }
  }

  /** Only stuck issues are left. */
  ghost predicate Exhausted(st: Store, digest: string -> string) {
    forall id :: IssueOf(st, id).Some? ==> Stuck(st, id, digest)
  }

  lemma ProductiveSnoc(st: Store, ids: seq<int>, id: int, digest: string -> string)
    requires Productive(st, ids, digest) && Repairable(AfterRepairs(st, ids, digest), id, digest)
    ensures Productive(st, ids + [id], digest)
  {
    var next := ids + [id];
    forall i | 0 <= i < |next| ensures Repairable(AfterRepairs(st, next[..i], digest), next[i], digest) {
      if i < |ids| {
        assert next[..i] == ids[..i] && next[i] == ids[i];
      } else {
        assert next[..i] == ids;
      }
    }
  }

  lemma OneMoreRepair(st: Store, ids: seq<int>, id: int, digest: string -> string)
    requires Repairable(AfterRepairs(st, ids, digest), id, digest) && Digests(digest)
    ensures Measure(AfterRepairs(st, ids + [id], digest)) < Measure(AfterRepairs(st, ids, digest))
  {
    assert (ids + [id])[..|ids|] == ids;
    RepairDecreases(AfterRepairs(st, ids, digest), id, digest);
  }

  /** On any store, any sequence of repairs can be carried on until only stuck issues are left. */
  lemma {:induction false} RepairsFinish(st: Store, ids: seq<int>, digest: string -> string) returns (all: seq<int>)
    requires Productive(st, ids, digest) && Digests(digest)
    ensures ids <= all && Productive(st, all, digest)
    ensures Exhausted(AfterRepairs(st, all, digest), digest)
    decreases Measure(AfterRepairs(st, ids, digest))
  {
    if id :| Repairable(AfterRepairs(st, ids, digest), id, digest) {
      ProductiveSnoc(st, ids, id, digest);
      OneMoreRepair(st, ids, id, digest);
      all := RepairsFinish(st, ids + [id], digest);
    } else {
      all := ids;
      forall id | IssueOf(AfterRepairs(st, ids, digest), id).Some?
        ensures Stuck(AfterRepairs(st, ids, digest), id, digest)
      {
        assert !Repairable(AfterRepairs(st, ids, digest), id, digest);
      }
    }
  }

  // ------------------------------------------------------------------
  // Well-kept stores
  // ------------------------------------------------------------------

  lemma WellKeptContained(st: Store, id: int, digest: string -> string)
    requires WellKept(st) && Repairable(st, id, digest)
    ensures Contained(st, id, digest)
  {
    TrimFixed("", IsSpace);
  }

  lemma NormalTidy(e: Entry)
    requires Storable(e)
    ensures Storable(Normal(e)) && TrimSpace(Normal(e).path) == Normal(e).path
  {
    TrimIdempotent(e.name, IsSpace);
    TrimIdempotent(e.path, IsSpace);
  }

  /** A stored digest of an existing file is a new one, and the rest of a tidy entry's repair is trimming. */
  lemma HashFileKeeps(st: Store, id: int, digest: string -> string)
    requires WellKept(st)
    ensures WellKept(HashFile(st, id, digest))
  {
    if HashFile(st, id, digest) != st {
      NormalTidy(Summed(st.entries[id], digest));
    }
  }

  lemma RepairedWellKept(st: Store, id: int, digest: string -> string)
    requires WellKept(st)
    ensures WellKept(Repaired(st, id, digest))
  {
    if IssueOf(st, id) == Some(MissingSha) {
      HashFileKeeps(st, id, digest);
    }
  }

  /** The ids with a reported issue. */
  function Open(st: Store): set<int> {
    set id | id in st.entries.Keys + st.reviews && IssueOf(st, id).Some?
  }

  /**
   On a well-kept store repairs in any order resolve exactly the issues of the ids they
   visit, one repair for each.
   */
  lemma {:induction false} RepairsSettle(st: Store, ids: seq<int>, digest: string -> string)
    requires WellKept(st) && Productive(st, ids, digest) && Digests(digest)
    ensures WellKept(AfterRepairs(st, ids, digest))
    ensures |ids| + |Open(AfterRepairs(st, ids, digest))| == |Open(st)|
    ensures forall id :: IssueOf(AfterRepairs(st, ids, digest), id) == if id in ids then None else IssueOf(st, id)
  {
    if ids != [] {
      var front, last := ids[..|ids| - 1], ids[|ids| - 1];
      ProductiveFront(st, ids, digest);
      RepairsSettle(st, front, digest);
      var mid := AfterRepairs(st, front, digest);
      var end := Repaired(mid, last, digest);
      WellKeptContained(mid, last, digest);
      RepairResolvesOnlyItsOwn(mid, last, digest);
      RepairedWellKept(mid, last, digest);
      OpenShrinks(mid, end, last);
      assert ids == front + [last];
    }
  }

  lemma OpenShrinks(st: Store, st': Store, id: int)
    requires IssueOf(st, id).Some? && OnlyResolved(st, st', id)
    ensures |Open(st)| == |Open(st')| + 1
  {
    assert Open(st) == Open(st') + {id};
    assert id !in Open(st');
  }

  // ------------------------------------------------------------------
  // When nothing is left
  // ------------------------------------------------------------------

  /** Entries that no repair removes. */
  predicate Stays(st: Store, id: int) {
    id in st.entries && (IssueOf(st, id) == None || IssueOf(st, id) == Some(MissingSha))
  }

  /** The digest that an entry has, or is to get. */
  function Content(e: Entry, digest: string -> string): string {
    if Blank(e.sha) then Digest(digest(e.path)) else e.sha
  }

  ghost predicate DistinctContents(st: Store, digest: string -> string) {
    forall i, j :: Stays(st, i) && Stays(st, j) && i != j ==>
      Content(st.entries[i], digest) != Content(st.entries[j], digest)
  }

  /** `e'` is `e`, or `e` with its name trimmed and with its digest. */
  predicate SameFile(e: Entry, e': Entry, digest: string -> string) {
    || e' == e
    || (Blank(e.sha) && e' == e.(name := TrimSpace(e.name), sha := ToLower(TrimSpace(digest(e.path)))))
  }

  ghost predicate Evolved(st: Store, st': Store, digest: string -> string) {
    && (forall j :: j in st'.entries ==> j in st.entries && SameFile(st.entries[j], st'.entries[j], digest))
    && (forall j :: Stays(st, j) ==> j in st'.entries)
    && (forall j :: j in st'.entries && IssueOf(st', j) == None ==> Stays(st, j))
  }

  lemma EvolvedStep(st: Store, mid: Store, id: int, digest: string -> string)
    requires WellKept(mid) && Evolved(st, mid, digest) && Repairable(mid, id, digest) && Digests(digest)
    requires IssueOf(mid, id) == IssueOf(st, id)
    ensures Evolved(st, Repaired(mid, id, digest), digest)
  {
    WellKeptContained(mid, id, digest);
    RepairResolvesOnlyItsOwn(mid, id, digest);
    var end := Repaired(mid, id, digest);
    if IssueOf(mid, id) == Some(MissingSha) {
      assert end.entries == mid.entries[id := Normal(Summed(mid.entries[id], digest))];
    }
  }

  lemma {:induction false} RepairsEvolve(st: Store, ids: seq<int>, digest: string -> string)
    requires WellKept(st) && Productive(st, ids, digest) && Digests(digest)
    ensures Evolved(st, AfterRepairs(st, ids, digest), digest)
  {
    if ids != [] {
      var front, last := ids[..|ids| - 1], ids[|ids| - 1];
      ProductiveFront(st, ids, digest);
      RepairsEvolve(st, front, digest);
      RepairsSettle(st, front, digest);
      EvolvedStep(st, AfterRepairs(st, front, digest), last, digest);
    }
  }

  /** Repairs carried out as far as they go leave no issue exactly when the entries that stay differ in content. */
  lemma NothingLeftIff(st: Store, ids: seq<int>, digest: string -> string)
    requires WellKept(st) && Productive(st, ids, digest) && Digests(digest)
    requires Exhausted(AfterRepairs(st, ids, digest), digest)
    ensures (forall id :: IssueOf(AfterRepairs(st, ids, digest), id) == None) <==> DistinctContents(st, digest)
  {
    var end := AfterRepairs(st, ids, digest);
    RepairsEvolve(st, ids, digest);
    RepairsSettle(st, ids, digest);
    if id :| IssueOf(end, id).Some? {
      assert Stuck(end, id, digest);
      StuckHasTwin(st, end, id, digest);
    } else {
      forall i, j | Stays(st, i) && Stays(st, j) && i != j
        ensures Content(st.entries[i], digest) != Content(st.entries[j], digest)
      {
        HashedContent(st, end, i, digest);
        HashedContent(st, end, j, digest);
      }
    }
  }

  lemma HashedContent(st: Store, end: Store, i: int, digest: string -> string)
    requires Evolved(st, end, digest) && Stays(st, i) && IssueOf(end, i) == None && Digests(digest)
    ensures i in end.entries && end.entries[i].sha == Content(st.entries[i], digest) != ""
  {
    TrimFixed("", IsSpace);
  }

  lemma StuckHasTwin(st: Store, end: Store, id: int, digest: string -> string)
    requires Evolved(st, end, digest) && TidyEntries(end) && Stuck(end, id, digest) && Exhausted(end, digest)
    requires Digests(digest) && IssueOf(st, id) == IssueOf(end, id)
    ensures !DistinctContents(st, digest)
  {
    var sum := Digest(digest(end.entries[id].path));
    DigestStays(digest(end.entries[id].path));
    assert Storable(end.entries[id]);
    var j :| j in end.entries && j != id && end.entries[j].sha == sum;
    assert !Stuck(end, j, digest);
    assert IssueOf(end, j) == None;
    HashedContent(st, end, j, digest);
    assert Stays(st, id) && Stays(st, j);
  }

  // ------------------------------------------------------------------
  // Inputs on which a repair fails
  // ------------------------------------------------------------------

  /** Two files of the same content, one hashed: the other's issue is reported for ever. */
  lemma TwinStaysUnhashed(sum: string)
    requires !Blank(sum)
    ensures var st := Store({1}, map[1 := Entry(1, "a", "/a", Digest(sum)), 2 := Entry(1, "b", "/b", "")],
                            {"/a", "/b"}, {});
      var digest := (path: string) => sum;
      WellKept(st) && IssueOf(st, 2) == Some(MissingSha) && Repaired(st, 2, digest) == st
  {
    var st := Store({1}, map[1 := Entry(1, "a", "/a", Digest(sum)), 2 := Entry(1, "b", "/b", "")], {"/a", "/b"}, {});
    DigestStays(sum);
    TrimFixed("", IsSpace);
    TrimFixed("a", IsSpace);
    TrimFixed("b", IsSpace);
    TrimFixed("/a", IsSpace);
    TrimFixed("/b", IsSpace);
    assert st.entries[1].sha == Digest(sum);
  }

  /** An entry of a deleted area that shares its path with a sound one: removing it makes the other's file missing. */
  lemma RemovalBreaksSharer(name: string, path: string, sha: string)
    requires !Blank(name) && !Blank(path) && !Blank(sha) && TrimSpace(path) == path
    ensures var st := Store({1}, map[1 := Entry(2, name, path, ""), 2 := Entry(1, name, path, sha)], {path}, {});
      var digest := (p: string) => sha;
      && IssueOf(st, 1) == Some(MissingArea) && IssueOf(st, 2) == None
      && IssueOf(Repaired(st, 1, digest), 2) == Some(MissingFile)
  {
    var st := Store({1}, map[1 := Entry(2, name, path, ""), 2 := Entry(1, name, path, sha)], {path}, {});
    assert RemoveFile(st, 1).disk == {};
  }

  // ------------------------------------------------------------------
  // The in-memory repository
  // ------------------------------------------------------------------

  /**
   repair_hash on the in-memory repository, which has no index on digests: it visits its
   rows in no particular order and overwrites the first one with the entry's id or with
   its digest.
   */
  ghost predicate InMemoryHash(st: Store, id: int, digest: string -> string, st': Store)
    requires IssueOf(st, id) == Some(MissingSha)
  {
    var e := Normal(Summed(st.entries[id], digest));
    if !Storable(st.entries[id]) then st' == st
    else
      || st' == st.(entries := st.entries[id := e])
      || exists j :: j in st.entries && j != id && st.entries[j].sha == e.sha && st' == st.(entries := st.entries[j := e])
  }

  /** Where the index would accept the digest, both kinds of repository do the same. */
  lemma InMemoryAgrees(st: Store, id: int, digest: string -> string, st': Store)
    requires IssueOf(st, id) == Some(MissingSha) && Hashable(st, id, digest) && Digests(digest)
    ensures InMemoryHash(st, id, digest, st') <==> st' == HashFile(st, id, digest)
  {
    DigestStays(digest(st.entries[id].path));
  }

  /**
   Otherwise it may be the other entry that is overwritten: it loses its file, the issue and
   the measure stay, and the same may happen again.
   */
  lemma InMemoryOverwrites(st: Store, id: int, j: int, digest: string -> string)
    requires IssueOf(st, id) == Some(MissingSha) && Storable(st.entries[id]) && Digests(digest)
    requires j in st.entries && j != id && st.entries[j].sha == Digest(digest(st.entries[id].path))
    ensures var e := Normal(Summed(st.entries[id], digest));
      var st' := st.(entries := st.entries[j := e]);
      && InMemoryHash(st, id, digest, st')
      && IssueOf(st', id) == Some(MissingSha) && Measure(st') == Measure(st)
      && st'.entries[j].path == TrimSpace(st.entries[id].path)
      && InMemoryHash(st', id, digest, st')
  {
    var e := Normal(Summed(st.entries[id], digest));
    var st' := st.(entries := st.entries[j := e]);
    DigestStays(digest(st.entries[id].path));
    assert st'.entries.Keys == st.entries.Keys;
    assert |st'.entries| == |st.entries|;
    assert Unhashed(st') == Unhashed(st);
  }

  /** Every outcome makes progress exactly where the index would accept the digest. */
  lemma InMemoryDecreasesIff(st: Store, id: int, digest: string -> string)
    requires IssueOf(st, id) == Some(MissingSha) && Digests(digest)
    ensures (forall st' :: InMemoryHash(st, id, digest, st') ==> Measure(st') < Measure(st)) <==>
      Hashable(st, id, digest)
  {
    if Hashable(st, id, digest) {
      forall st' | InMemoryHash(st, id, digest, st') ensures Measure(st') < Measure(st) {
        InMemoryAgrees(st, id, digest, st');
        HashFileDecreases(st, id, digest);
      }
    } else if Storable(st.entries[id]) {
      var j :| j in st.entries && j != id && st.entries[j].sha == Digest(digest(st.entries[id].path));
      InMemoryOverwrites(st, id, j, digest);
    } else {
      assert InMemoryHash(st, id, digest, st);
    }
  }

  // ------------------------------------------------------------------
  // Runs on the in-memory repository
  // ------------------------------------------------------------------

  /** The action of a reported issue; only hashing has more than one outcome. */
  ghost predicate InMemoryStep(st: Store, id: int, digest: string -> string, st': Store) {
    if IssueOf(st, id) == Some(MissingSha) then InMemoryHash(st, id, digest, st') else st' == Repaired(st, id, digest)
  }

  /** The ids were repaired in order, each when it had a reported issue; `states` is what the store went through. */
  ghost predicate InMemoryRun(states: seq<Store>, ids: seq<int>, digest: string -> string) {
    && |states| == |ids| + 1
    && forall i :: 0 <= i < |ids| ==>
      IssueOf(states[i], ids[i]).Some? && InMemoryStep(states[i], ids[i], digest, states[i + 1])
  }

  /** The digest of an entry's file, as it would be stored. */
  function FileDigest(st: Store, id: int, digest: string -> string): string
    requires id in st.entries
  {
    Digest(digest(st.entries[id].path))
  }

  predicate MissesSha(st: Store, id: int) {
    IssueOf(st, id) == Some(MissingSha)
  }

  /** What a repair is to store is in no other entry, and is to be stored in no other one. */
  ghost predicate DistinctClaims(st: Store, digest: string -> string) {
    forall i, j :: MissesSha(st, i) && j in st.entries && j != i ==>
      && st.entries[j].sha != FileDigest(st, i, digest)
      && (MissesSha(st, j) ==> FileDigest(st, j, digest) != FileDigest(st, i, digest))
  }

  lemma ClaimsAreHashable(st: Store, id: int, digest: string -> string)
    requires TidyEntries(st) && DistinctClaims(st, digest) && MissesSha(st, id)
    ensures Hashable(st, id, digest)
  {
  }

  /** A repair leaves another entry alone, and gives its own the digest of its file. */
  predicate KeptOrHashed(st: Store, st': Store, id: int, j: int, digest: string -> string)
  {
    j in st'.entries ==>
      && j in st.entries
      && var e, e' := st.entries[j], st'.entries[j];
         || e' == e
         || (j == id && MissesSha(st, id) && e' == e.(name := TrimSpace(e.name), sha := FileDigest(st, id, digest)))
  }

  lemma EntryKept(st: Store, id: int, j: int, digest: string -> string)
    requires WellKept(st) && Repairable(st, id, digest) && Digests(digest)
    ensures var st' := Repaired(st, id, digest);
      && (j in st'.entries ==> j in st.entries) && KeptOrHashed(st, st', id, j, digest)
      && (MissesSha(st', j) ==> MissesSha(st, j) && j != id)
  {
    WellKeptContained(st, id, digest);
    RepairResolvesOnlyItsOwn(st, id, digest);
  }

  lemma ClaimKept(st: Store, id: int, i: int, j: int, digest: string -> string)
    requires WellKept(st) && DistinctClaims(st, digest) && Repairable(st, id, digest) && Digests(digest)
    ensures var st' := Repaired(st, id, digest);
      MissesSha(st', i) && j in st'.entries && j != i ==>
        && st'.entries[j].sha != FileDigest(st', i, digest)
        && (MissesSha(st', j) ==> FileDigest(st', j, digest) != FileDigest(st', i, digest))
  {
    EntryKept(st, id, i, digest);
    EntryKept(st, id, j, digest);
  }

  lemma ClaimsKept(st: Store, id: int, digest: string -> string)
    requires WellKept(st) && DistinctClaims(st, digest) && IssueOf(st, id).Some? && Digests(digest)
    ensures DistinctClaims(Repaired(st, id, digest), digest) && WellKept(Repaired(st, id, digest))
  {
    if MissesSha(st, id) {
      ClaimsAreHashable(st, id, digest);
    }
    RepairedWellKept(st, id, digest);
    var st' := Repaired(st, id, digest);
    forall i, j | MissesSha(st', i) && j in st'.entries && j != i
      ensures st'.entries[j].sha != FileDigest(st', i, digest)
      ensures MissesSha(st', j) ==> FileDigest(st', j, digest) != FileDigest(st', i, digest)
    {
      ClaimKept(st, id, i, j, digest);
    }
  }

  lemma StepAgreesInMemory(st: Store, id: int, digest: string -> string, st': Store)
    requires WellKept(st) && DistinctClaims(st, digest) && IssueOf(st, id).Some? && Digests(digest)
    ensures InMemoryStep(st, id, digest, st') <==> st' == Repaired(st, id, digest)
  {
    if MissesSha(st, id) {
      ClaimsAreHashable(st, id, digest);
      InMemoryAgrees(st, id, digest, st');
    }
  }

  lemma {:induction false} RunFollows(states: seq<Store>, ids: seq<int>, digest: string -> string)
    requires InMemoryRun(states, ids, digest) && Digests(digest)
    requires WellKept(states[0]) && DistinctClaims(states[0], digest)
    ensures states[|ids|] == AfterRepairs(states[0], ids, digest)
    ensures WellKept(states[|ids|]) && DistinctClaims(states[|ids|], digest)
  {
    if ids != [] {
      var n := |ids| - 1;
      RunFollows(states[..n + 1], ids[..n], digest);
      StepAgreesInMemory(states[n], ids[n], digest, states[n + 1]);
      ClaimsKept(states[n], ids[n], digest);
    }
  }

  /**
   On a well-kept store all runs on the in-memory repository are those of the others, and so
   have what is proved of them, if and only if no two entries claim one digest.
   */
  lemma InMemoryRunsAgreeIff(st: Store, digest: string -> string)
    requires WellKept(st) && Digests(digest)
    ensures DistinctClaims(st, digest) <==>
      forall states, ids :: InMemoryRun(states, ids, digest) && states[0] == st ==>
        states[|ids|] == AfterRepairs(st, ids, digest)
  {
    if DistinctClaims(st, digest) {
      forall states, ids | InMemoryRun(states, ids, digest) && states[0] == st
        ensures states[|ids|] == AfterRepairs(st, ids, digest)
      {
        RunFollows(states, ids, digest);
      }
    } else {
      var states, ids := DisagreeingRun(st, digest);
    }
  }

  /** One repair of an entry whose digest another one has, or two of entries that are to have the same. */
  lemma DisagreeingRun(st: Store, digest: string -> string) returns (states: seq<Store>, ids: seq<int>)
    requires WellKept(st) && Digests(digest) && !DistinctClaims(st, digest)
    ensures InMemoryRun(states, ids, digest) && states[0] == st
    ensures states[|ids|] != AfterRepairs(st, ids, digest)
  {
    var i, j :| MissesSha(st, i) && j in st.entries && j != i &&
      (st.entries[j].sha == FileDigest(st, i, digest)
       || (MissesSha(st, j) && FileDigest(st, j, digest) == FileDigest(st, i, digest)));
    if Taken(st, i, FileDigest(st, i, digest)) {
      states, ids := TakenRun(st, i, digest);
    } else {
      states, ids := TwinRun(st, i, j, digest);
    }
  }

  lemma TakenRun(st: Store, i: int, digest: string -> string) returns (states: seq<Store>, ids: seq<int>)
    requires WellKept(st) && Digests(digest) && MissesSha(st, i) && Taken(st, i, FileDigest(st, i, digest))
    ensures InMemoryRun(states, ids, digest) && states[0] == st
    ensures states[|ids|] != AfterRepairs(st, ids, digest)
  {
    var st' := OwnUpdate(st, i, digest);
    states, ids := [st, st'], [i];
    OneRepair(st, i, digest);
  }

  lemma TwinRun(st: Store, i: int, j: int, digest: string -> string) returns (states: seq<Store>, ids: seq<int>)
    requires WellKept(st) && Digests(digest) && MissesSha(st, i) && MissesSha(st, j) && i != j
    requires FileDigest(st, j, digest) == FileDigest(st, i, digest) && Hashable(st, i, digest)
    ensures InMemoryRun(states, ids, digest) && states[0] == st
    ensures states[|ids|] != AfterRepairs(st, ids, digest)
  {
    var mid := HashFile(st, i, digest);
    InMemoryAgrees(st, i, digest, mid);
    TwinClaims(st, i, j, digest);
    var st' := OwnUpdate(mid, j, digest);
    states, ids := [st, mid, st'], [i, j];
    OneRepair(st, i, digest);
    assert ids[..1] == [i];
  }

  lemma OneRepair(st: Store, id: int, digest: string -> string)
    ensures AfterRepairs(st, [id], digest) == Repaired(st, id, digest)
  {
    assert [id][..0] == [];
  }

  /** Where the digest is taken, the in-memory repository may store it all the same. */
  lemma OwnUpdate(st: Store, id: int, digest: string -> string) returns (st': Store)
    requires MissesSha(st, id) && TidyEntries(st) && Digests(digest)
    requires Taken(st, id, FileDigest(st, id, digest))
    ensures InMemoryStep(st, id, digest, st') && st' != Repaired(st, id, digest)
  {
    DigestStays(digest(st.entries[id].path));
    TrimFixed("", IsSpace);
    st' := st.(entries := st.entries[id := Normal(Summed(st.entries[id], digest))]);
  }

  /** Hashing one of two entries that claim a digest takes it from the other. */
  lemma TwinClaims(st: Store, i: int, j: int, digest: string -> string)
    requires WellKept(st) && Digests(digest) && MissesSha(st, i) && MissesSha(st, j) && i != j
    requires FileDigest(st, j, digest) == FileDigest(st, i, digest) && Hashable(st, i, digest)
    ensures var mid := HashFile(st, i, digest);
      mid == Repaired(st, i, digest) && TidyEntries(mid) && MissesSha(mid, j) && Taken(mid, j, FileDigest(mid, j, digest))
  {
    var mid := HashFile(st, i, digest);
    HashFileKeeps(st, i, digest);
    DigestStays(digest(st.entries[i].path));
    assert mid.entries[i].sha == FileDigest(st, i, digest);
  }
}
