/** `buildSeasonChallengeScores`: rows held by pointer and incremented in place, proved against the plain count. */
module SeasonScores {
  import opened Wrappers
  import opened Text
  import opened Sorting
  import opened FirstOccurrences
  import opened SeasonTally
  import opened SeasonRanking

  /** What the services list; a failed listing is `None`, an absent service lists nothing. */
  datatype Site = Site(users: seq<User>, boards: seq<Option<seq<Post>>>, channels: seq<seq<Line>>,
                       doors: seq<Option<seq<DoorEvent>>>)

  // ------------------------------------------------------------------
  // Users
  // ------------------------------------------------------------------

  function UserKeys(users: seq<User>, n: nat): map<string, string>
    requires n <= |users|
  {
    if n == 0 then map[]
    else
      var before, handle := UserKeys(users, n - 1), TrimSpace(users[n - 1].handle);
      if handle == "" then before else before[Key(handle) := handle]
  }

  function UserHandles(users: seq<User>, n: nat): map<int, string>
    requires n <= |users|
  {
    if n == 0 then map[]
    else
      var before, handle := UserHandles(users, n - 1), TrimSpace(users[n - 1].handle);
      if handle == "" then before else before[users[n - 1].id := handle]
  }

  /** User `i` has the key, and no later user before `n` has. */
  predicate LastWithKey(users: seq<User>, n: nat, key: string, i: nat)
    requires n <= |users|
  {
    && i < n && TrimSpace(users[i].handle) != "" && Key(TrimSpace(users[i].handle)) == key
    && forall j :: i < j < n && TrimSpace(users[j].handle) != "" ==> Key(TrimSpace(users[j].handle)) != key
  }

  predicate LastWithId(users: seq<User>, n: nat, id: int, i: nat)
    requires n <= |users|
  {
    && i < n && TrimSpace(users[i].handle) != "" && users[i].id == id
    && forall j :: i < j < n && TrimSpace(users[j].handle) != "" ==> users[j].id != id
  }

  /** The last user with a key is the one it is shown as. */
  lemma {:induction false} LastUserNamed(users: seq<User>, n: nat, key: string, i: nat)
    requires n <= |users| && LastWithKey(users, n, key, i)
    ensures key in UserKeys(users, n) && UserKeys(users, n)[key] == TrimSpace(users[i].handle)
  {
    if i < n - 1 {
      LastUserNamed(users, n - 1, key, i);
    }
  }

  lemma {:induction false} LastUserKnown(users: seq<User>, n: nat, id: int, i: nat)
    requires n <= |users| && LastWithId(users, n, id, i)
    ensures id in UserHandles(users, n) && UserHandles(users, n)[id] == TrimSpace(users[i].handle)
  {
    if i < n - 1 {
      LastUserKnown(users, n - 1, id, i);
    }
  }

  /** Keys and ids that no user with a handle has are in neither index. */
  lemma {:induction false} OnlyUsersIndexed(users: seq<User>, n: nat)
    requires n <= |users|
    ensures forall key :: key in UserKeys(users, n) ==>
      exists i :: 0 <= i < n && TrimSpace(users[i].handle) != "" && Key(TrimSpace(users[i].handle)) == key
    ensures forall id :: id in UserHandles(users, n) ==>
      exists i :: 0 <= i < n && TrimSpace(users[i].handle) != "" && users[i].id == id
  {
    if n > 0 {
      OnlyUsersIndexed(users, n - 1);
    }
  }

  method IndexUsers(users: seq<User>) returns (handleOrder: map<string, string>, idToHandle: map<int, string>)
    ensures handleOrder == UserKeys(users, |users|) && idToHandle == UserHandles(users, |users|)
    ensures forall key: string, i: nat :: LastWithKey(users, |users|, key, i) ==>
      key in handleOrder && handleOrder[key] == TrimSpace(users[i].handle)
    ensures forall id: int, i: nat :: LastWithId(users, |users|, id, i) ==>
      id in idToHandle && idToHandle[id] == TrimSpace(users[i].handle)
  {
    handleOrder, idToHandle := map[], map[];
    for i := 0 to |users|
      invariant handleOrder == UserKeys(users, i) && idToHandle == UserHandles(users, i)
    {
      var handle := TrimSpace(users[i].handle);
      if handle == "" {
        continue;
      }
      handleOrder := handleOrder[Key(handle) := handle];
      idToHandle := idToHandle[users[i].id := handle];
    }
    forall key: string, i: nat | LastWithKey(users, |users|, key, i)
      ensures key in handleOrder && handleOrder[key] == TrimSpace(users[i].handle)
    {
      LastUserNamed(users, |users|, key, i);
    }
    forall id: int, i: nat | LastWithId(users, |users|, id, i)
      ensures id in idToHandle && idToHandle[id] == TrimSpace(users[i].handle)
    {
      LastUserKnown(users, |users|, id, i);
    }
  }

  lemma {:induction false} UserKeysMatch(users: seq<User>, n: nat)
    requires n <= |users|
    ensures HandlesMatch(UserKeys(users, n)) && "" !in UserKeys(users, n)
  {
    if n > 0 {
      UserKeysMatch(users, n - 1);
      var handle := TrimSpace(users[n - 1].handle);
      TrimIdempotent(users[n - 1].handle, IsSpace);
      assert TrimSpace(handle) == handle;
    }
  }

  // ------------------------------------------------------------------
  // Rows
  // ------------------------------------------------------------------

  class ScoreRow {
    const handle: string
    var boardPosts: int
    var chatPosts: int
    var doorRuns: int
    var points: int

    constructor (handle: string)
      ensures View() == Tally(handle, 0, 0, 0)
    {
      this.handle, boardPosts, chatPosts, doorRuns, points := handle, 0, 0, 0, 0;
    }

    function View(): Tally
      reads this
    {
      Tally(handle, boardPosts, chatPosts, doorRuns)
    }

    method Count(activity: Activity)
      modifies this
      ensures View() == Bump(old(View()), activity)
    {
      match activity {
        case Board => boardPosts := boardPosts + 1;
        case Chat => chatPosts := chatPosts + 1;
        case Door => doorRuns := doorRuns + 1;
      }
    }
  }

  class SeasonScorer {
    const ch: Challenge
    const idToHandle: map<int, string>
    var byHandle: map<string, ScoreRow>
    var handleOrder: map<string, string>
    ghost const listed: map<string, string>
    ghost var log: seq<Credit>

    ghost function Rows(): set<ScoreRow>
      reads `byHandle
    {
      set key | key in byHandle :: byHandle[key]
    }

    ghost function View(): map<string, Tally>
      reads `byHandle, Rows()
    {
      map key | key in byHandle :: byHandle[key].View()
    }

    ghost predicate Separate()
      reads `byHandle
    {
      forall a, b :: a in byHandle && b in byHandle && a != b ==> byHandle[a] != byHandle[b]
    }

    ghost predicate Named()
      reads `handleOrder
    {
      forall key :: key in handleOrder ==> handleOrder[key] != ""
    }

    /** Distinct rows, which are the tally of everything credited so far. */
    ghost predicate Valid()
      reads this, Rows()
    {
      Separate() && Named() && View() == Tallied(listed, log) && handleOrder == Order(listed, log)
    }

    constructor (ch: Challenge, handleOrder: map<string, string>, idToHandle: map<int, string>)
      requires forall key :: key in handleOrder ==> handleOrder[key] != ""
      ensures Valid() && fresh(Rows()) && log == []
      ensures this.ch == ch && this.idToHandle == idToHandle && listed == handleOrder
    {
      this.ch, this.handleOrder, this.idToHandle, byHandle := ch, handleOrder, idToHandle, map[];
      listed, log := handleOrder, [];
    }

    /** The source's `ensureRow`: none for a blank handle, otherwise the row of its key, created if missing. */
    method EnsureRow(handle: string) returns (row: ScoreRow?)
      requires Separate() && Named()
      modifies `byHandle, `handleOrder
      ensures Separate() && Named() && fresh(Rows() - old(Rows()))
      ensures row == null <==> Key(handle) == ""
      ensures row == null ==> byHandle == old(byHandle) && handleOrder == old(handleOrder)
      ensures row != null ==> var key := Key(handle);
        && handleOrder == (if key in old(handleOrder) then old(handleOrder) else old(handleOrder)[key := handle])
        && key in byHandle && row == byHandle[key]
        && View() == old(View())[key := RowFor(old(View()), handleOrder, key)]
    {
      var key := Key(handle);
      if key == "" {
        return null;
      }
      var canonical := if key in handleOrder then handleOrder[key] else "";
      if canonical == "" {
        canonical := handle;
        handleOrder := handleOrder[key := canonical];
      }
      if key !in byHandle {
        var created := new ScoreRow(canonical);
        byHandle := byHandle[key := created];
      }
      row := byHandle[key];
    }

    /** One more event in the row of a key, and in no other. */
    method Increment(ghost key: string, row: ScoreRow, activity: Activity)
      requires Separate() && key in byHandle && row == byHandle[key]
      modifies row
      ensures View() == old(View())[key := Bump(old(View())[key], activity)]
    {
      row.Count(activity);
    }

    /** Counting a credit in the row just found or created for it. */
    method CountIn(row: ScoreRow, activity: Activity, ghost c: Credit)
      requires Separate() && Named() && c.key in byHandle && row == byHandle[c.key] && activity == c.activity
      requires handleOrder == Order(listed, log + [c])
      requires Tallied(listed, log + [c]) == View()[c.key := Bump(View()[c.key], c.activity)]
      modifies row, `log
      ensures Valid() && log == old(log) + [c] && Rows() == old(Rows())
    {
      Increment(c.key, row, activity);
      log := log + [c];
    }

    /** Finding the row of a handle and counting one event there. */
    method Record(activity: Activity, handle: string)
      requires Valid()
      modifies this, Rows()
      ensures Valid() && fresh(Rows() - old(Rows()))
      ensures log == Append(old(log), CreditFor(activity, handle))
    {
      var row := EnsureRow(handle);
      if row != null {
        ghost var c := SeasonTally.Credit(activity, Key(handle), handle);
        assert (log + [c])[..|log|] == log;
        TalliedNext(listed, log, c, View(), handleOrder);
        CountIn(row, activity, c);
      }
    }

    method CountPosts(events: seq<Post>)
      requires Valid()
      modifies this, Rows()
      ensures Valid() && fresh(Rows() - old(Rows()))
      ensures log == Credits(old(log), events, PostCredit(ch, idToHandle), |events|)
    {
      for i := 0 to |events|
        invariant Valid() && fresh(Rows() - old(Rows()))
        invariant log == Credits(old(log), events, PostCredit(ch, idToHandle), i)
      {
        if !InWindow(ch, events[i].at) {
          continue;
        }
        var handle := HandleOf(idToHandle, events[i].authorId);
        if handle == "" {
          continue;
        }
        Record(Board, handle);
      }
    }

    method CountLines(events: seq<Line>)
      requires Valid()
      modifies this, Rows()
      ensures Valid() && fresh(Rows() - old(Rows()))
      ensures log == Credits(old(log), events, LineCredit(ch), |events|)
    {
      for i := 0 to |events|
        invariant Valid() && fresh(Rows() - old(Rows()))
        invariant log == Credits(old(log), events, LineCredit(ch), i)
      {
        if !InWindow(ch, events[i].at) {
          continue;
        }
        Record(Chat, events[i].from);
      }
    }

    method CountDoorEvents(events: seq<DoorEvent>)
      requires Valid()
      modifies this, Rows()
      ensures Valid() && fresh(Rows() - old(Rows()))
      ensures log == Credits(old(log), events, DoorCredit(ch, idToHandle), |events|)
    {
      for i := 0 to |events|
        invariant Valid() && fresh(Rows() - old(Rows()))
        invariant log == Credits(old(log), events, DoorCredit(ch, idToHandle), i)
      {
        if !InWindow(ch, events[i].at) {
          continue;
        }
        if !IsRun(events[i].kind) {
          continue;
        }
        var handle := HandleOf(idToHandle, events[i].userId);
        if handle == "" {
          continue;
        }
        Record(Door, handle);
      }
    }

    method CountBoards(boards: seq<Option<seq<Post>>>)
      requires Valid()
      modifies this, Rows()
      ensures Valid() && fresh(Rows() - old(Rows()))
      ensures log == Listed(old(log), boards, PostCredit(ch, idToHandle), |boards|)
    {
      for i := 0 to |boards|
        invariant Valid() && fresh(Rows() - old(Rows()))
        invariant log == Listed(old(log), boards, PostCredit(ch, idToHandle), i)
      {
        if boards[i].None? {
          continue;
        }
        CountPosts(boards[i].value);
      }
    }

    method CountChannels(channels: seq<seq<Line>>)
      requires Valid()
      modifies this, Rows()
      ensures Valid() && fresh(Rows() - old(Rows()))
      ensures log == Listed(old(log), Heard(channels), LineCredit(ch), |channels|)
    {
      for i := 0 to |channels|
        invariant Valid() && fresh(Rows() - old(Rows()))
        invariant log == Listed(old(log), Heard(channels), LineCredit(ch), i)
      {
        CountLines(channels[i]);
      }
    }

    method CountDoors(doors: seq<Option<seq<DoorEvent>>>)
      requires Valid()
      modifies this, Rows()
      ensures Valid() && fresh(Rows() - old(Rows()))
      ensures log == Listed(old(log), doors, DoorCredit(ch, idToHandle), |doors|)
    {
      for i := 0 to |doors|
        invariant Valid() && fresh(Rows() - old(Rows()))
        invariant log == Listed(old(log), doors, DoorCredit(ch, idToHandle), i)
      {
        if doors[i].None? {
          continue;
        }
        CountDoorEvents(doors[i].value);
      }
    }

    /** Writing the points into a row, and its copy for the table. */
    method PointRow(ghost key: string, row: ScoreRow) returns (score: Score)
      requires key in byHandle && row == byHandle[key] && View() == Tallied(listed, log)
      modifies row`points
      ensures View() == old(View()) && score == Scored(ch, TallyOf(listed, log, key))
    {
      row.points := Points(ch, row.View());
      score := Score(row.View(), row.points);
      TalliedKeys(listed, log);
      assert key in View();
      TalliedAt(listed, log, key);
    }

    /** Pointing and collecting the rows, in whatever order the map yields them. */
    method Table() returns (out: seq<Score>)
      requires View() == Tallied(listed, log) && HandlesMatch(listed) && CreditsMatch(log)
      modifies Rows()
      ensures multiset(out) == multiset(RowSet(ch, listed, log))
    {
      ghost var view := View();
      var keys := byHandle.Keys;
      assert keys == Keys(log) by {
        TalliedKeys(listed, log);
        assert keys == view.Keys;
      }
      out := [];
      while keys != {}
        invariant keys <= Keys(log) && byHandle.Keys == Keys(log) && View() == view
        invariant LacksRows(out, ch, listed, log, keys)
        decreases |keys|
      {
        var key :| key in keys;
        var score := PointRow(key, byHandle[key]);
        NextRow(out, ch, listed, log, keys, key);
        out := out + [score];
        keys := keys - {key};
      }
      NoRowLacking(out, ch, listed, log);
    }
  }

  function Heard(channels: seq<seq<Line>>): (lists: seq<Option<seq<Line>>>)
    ensures |lists| == |channels| && forall i :: 0 <= i < |lists| ==> lists[i] == Some(channels[i])
  {
    seq(|channels|, i requires 0 <= i < |channels| => Some(channels[i]))
  }

  // ------------------------------------------------------------------
  // The whole table
  // ------------------------------------------------------------------

  function Keyed(site: Site): map<string, string> {
    UserKeys(site.users, |site.users|)
  }

  function Handles(site: Site): map<int, string> {
    UserHandles(site.users, |site.users|)
  }

  function BoardLog(ch: Challenge, site: Site): seq<Credit> {
    Listed([], site.boards, PostCredit(ch, Handles(site)), |site.boards|)
  }

  function ChatLog(ch: Challenge, site: Site): seq<Credit> {
    Listed(BoardLog(ch, site), Heard(site.channels), LineCredit(ch), |site.channels|)
  }

  /** Everything credited in a season, in the order in which it is read. */
  function SeasonLog(ch: Challenge, site: Site): seq<Credit> {
    Listed(ChatLog(ch, site), site.doors, DoorCredit(ch, Handles(site)), |site.doors|)
  }

  /** The ranking of a season, cut to a limit. */
  ghost predicate IsTable(out: seq<Score>, ch: Challenge, site: Site, limit: int) {
    exists full: seq<Score> :: IsRanking(full, ch, Keyed(site), SeasonLog(ch, site)) && out == Cap(full, limit)
  }

  /** `buildSeasonChallengeScores` */
  method BuildScores(ch: Challenge, site: Site, limit: int) returns (out: seq<Score>)
    ensures IsTable(out, ch, site, limit)
  {
    var handleOrder, idToHandle := IndexUsers(site.users);
    SiteMatches(ch, site);
    var scorer := new SeasonScorer(ch, handleOrder, idToHandle);
    scorer.CountBoards(site.boards);
    scorer.CountChannels(site.channels);
    scorer.CountDoors(site.doors);
    var rows := scorer.Table();
    NotAfterOrdering();
    SortSorts(rows, NotAfter);
    rows := Sort(rows, NotAfter);
    assert IsRanking(rows, ch, Keyed(site), SeasonLog(ch, site));
    out := if limit > 0 && |rows| > limit then rows[..limit] else rows;
  }

  /** There is only one table for a season and a limit. */
  lemma TableUnique(a: seq<Score>, b: seq<Score>, ch: Challenge, site: Site, limit: int)
    requires IsTable(a, ch, site, limit) && IsTable(b, ch, site, limit)
    ensures a == b
  {
    SiteMatches(ch, site);
    var x :| IsRanking(x, ch, Keyed(site), SeasonLog(ch, site)) && a == Cap(x, limit);
    var y :| IsRanking(y, ch, Keyed(site), SeasonLog(ch, site)) && b == Cap(y, limit);
    RankingUnique(x, y, ch, Keyed(site), SeasonLog(ch, site));
  }

  // ------------------------------------------------------------------
  // Every credit is a credit of the right kind, under the key of its handle
  // ------------------------------------------------------------------

  /** A loop body that credits only one kind of activity, under the key of the handle. */
  ghost predicate CreditsOnly<E(!new)>(credit: E -> Option<Credit>, activity: Activity) {
    forall e :: credit(e).Some? ==> credit(e) == CreditFor(activity, credit(e).value.handle)
  }

  function AttributedIn<E>(events: seq<E>, credit: E -> Option<Credit>, n: nat): nat
    requires n <= |events|
  {
    if n == 0 then 0 else AttributedIn(events, credit, n - 1) + if credit(events[n - 1]).Some? then 1 else 0
  }

  /** How many of the listed events are attributed to somebody. */
  function Attributed<E>(lists: seq<Option<seq<E>>>, credit: E -> Option<Credit>, n: nat): nat
    requires n <= |lists|
  {
    if n == 0 then 0
    else
      var before := Attributed(lists, credit, n - 1);
      match lists[n - 1]
      case None => before
      case Some(events) => before + AttributedIn(events, credit, |events|)
  }

  ghost predicate Adds(before: seq<Credit>, log: seq<Credit>, activity: Activity, n: nat) {
    && (CreditsMatch(before) ==> CreditsMatch(log))
    && Total(log, activity) == Total(before, activity) + n
    && forall other :: other != activity ==> Total(log, other) == Total(before, other)
  }

  lemma AddsOne(before: seq<Credit>, log: seq<Credit>, credit: Option<Credit>, activity: Activity, n: nat)
    requires Adds(before, log, activity, n)
    requires credit.Some? ==> credit == CreditFor(activity, credit.value.handle)
    ensures Adds(before, Append(log, credit), activity, n + if credit.Some? then 1 else 0)
  {
  }

  lemma {:induction false} CreditsAdd<E(!new)>(before: seq<Credit>, log: seq<Credit>, m: nat, events: seq<E>,
      credit: E -> Option<Credit>, activity: Activity, n: nat)
    requires CreditsOnly(credit, activity) && n <= |events| && Adds(before, log, activity, m)
    ensures Adds(before, Credits(log, events, credit, n), activity, m + AttributedIn(events, credit, n))
  {
    if n > 0 {
      CreditsAdd(before, log, m, events, credit, activity, n - 1);
      AddsOne(before, Credits(log, events, credit, n - 1), credit(events[n - 1]), activity,
              m + AttributedIn(events, credit, n - 1));
    }
  }

  lemma {:induction false} ListedAdds<E(!new)>(before: seq<Credit>, lists: seq<Option<seq<E>>>,
      credit: E -> Option<Credit>, activity: Activity, n: nat)
    requires CreditsOnly(credit, activity) && n <= |lists|
    ensures Adds(before, Listed(before, lists, credit, n), activity, Attributed(lists, credit, n))
  {
    if n > 0 {
      ListedAdds(before, lists, credit, activity, n - 1);
      if lists[n - 1].Some? {
        var events := lists[n - 1].value;
        CreditsAdd(before, Listed(before, lists, credit, n - 1), Attributed(lists, credit, n - 1), events, credit,
                   activity, |events|);
      }
    }
  }

  /** The three loops add to the three totals, and to nothing else. */
  lemma SeasonTotals(ch: Challenge, site: Site)
    ensures CreditsMatch(SeasonLog(ch, site))
    ensures Total(SeasonLog(ch, site), Board) == Attributed(site.boards, PostCredit(ch, Handles(site)), |site.boards|)
    ensures Total(SeasonLog(ch, site), Chat) == Attributed(Heard(site.channels), LineCredit(ch), |site.channels|)
    ensures Total(SeasonLog(ch, site), Door) == Attributed(site.doors, DoorCredit(ch, Handles(site)), |site.doors|)
  {
    ListedAdds([], site.boards, PostCredit(ch, Handles(site)), Board, |site.boards|);
    ListedAdds(BoardLog(ch, site), Heard(site.channels), LineCredit(ch), Chat, |site.channels|);
    ListedAdds(ChatLog(ch, site), site.doors, DoorCredit(ch, Handles(site)), Door, |site.doors|);
  }

  lemma SiteMatches(ch: Challenge, site: Site)
    ensures HandlesMatch(Keyed(site)) && CreditsMatch(SeasonLog(ch, site))
    ensures forall key :: key in Keyed(site) ==> Keyed(site)[key] != ""
  {
    UserKeysMatch(site.users, |site.users|);
    SeasonTotals(ch, site);
  }

  /** Before the limit, the columns sum to the attributable events and the points to their weighted sum. */
  lemma SeasonConserves(ch: Challenge, site: Site, rows: seq<Score>)
    requires IsRanking(rows, ch, Keyed(site), SeasonLog(ch, site))
    ensures var posts, lines, runs :=
        Attributed(site.boards, PostCredit(ch, Handles(site)), |site.boards|),
        Attributed(Heard(site.channels), LineCredit(ch), |site.channels|),
        Attributed(site.doors, DoorCredit(ch, Handles(site)), |site.doors|);
      && Sum(rows, Board) == posts && Sum(rows, Chat) == lines && Sum(rows, Door) == runs
      && SumPoints(rows) == posts * ch.boardWeight + lines * ch.chatWeight + runs * ch.doorWeight
  {
    SiteMatches(ch, site);
    SeasonTotals(ch, site);
    RankingConserves(rows, ch, Keyed(site), SeasonLog(ch, site), Board);
    RankingConserves(rows, ch, Keyed(site), SeasonLog(ch, site), Chat);
    RankingConserves(rows, ch, Keyed(site), SeasonLog(ch, site), Door);
    PointsConserved(rows, ch, Keyed(site), SeasonLog(ch, site));
  }
}
