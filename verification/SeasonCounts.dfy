/** The season table in plain terms: which events count for whom, and that a row counts exactly those. */
module SeasonCounts {
  import opened Wrappers
  import opened Text
  import opened FirstOccurrences
  import opened SeasonTally
  import opened SeasonRanking
  import opened SeasonScores

  // ------------------------------------------------------------------
  // Which events count, and for whom
  // ------------------------------------------------------------------

  /** From the start to the end of the season, both included; the zero time is in no season. */
  predicate InSeason(ch: Challenge, at: int) {
    at != 0 && ch.startsAt <= at && at <= ch.endsAt
  }

  /** The last user with this id and a handle has a handle with this key. */
  ghost predicate KnownAs(users: seq<User>, id: int, key: string) {
    exists i: nat :: i < |users| && LastWithId(users, |users|, id, i) && ToLower(TrimSpace(users[i].handle)) == key
  }

  ghost predicate PostFor(ch: Challenge, users: seq<User>, key: string, p: Post) {
    InSeason(ch, p.at) && KnownAs(users, p.authorId, key)
  }

  predicate LineFor(ch: Challenge, key: string, l: Line) {
    InSeason(ch, l.at) && key != "" && ToLower(TrimSpace(l.from)) == key
  }

  ghost predicate RunFor(ch: Challenge, users: seq<User>, key: string, e: DoorEvent) {
    && InSeason(ch, e.at) && KnownAs(users, e.userId, key)
    && ToLower(TrimSpace(e.kind)) in ["start", "connector_launch", "poll_vote", "poll_create"]
  }

  lemma {:induction false} HasLast(users: seq<User>, n: nat, id: int, i: nat) returns (last: nat)
    requires i < n <= |users| && TrimSpace(users[i].handle) != "" && users[i].id == id
    ensures LastWithId(users, n, id, last)
  {
    var handle := TrimSpace(users[n - 1].handle);
    if handle != "" && users[n - 1].id == id {
      last := n - 1;
    } else {
      last := HasLast(users, n - 1, id, i);
    }
  }

  /** The key of a handle that has been trimmed is the key of the handle. */
  lemma TrimmedKey(handle: string)
    ensures Key(TrimSpace(handle)) == ToLower(TrimSpace(handle))
    ensures ToLower(TrimSpace(handle)) == "" <==> TrimSpace(handle) == ""
  {
    TrimIdempotent(handle, IsSpace);
    assert |ToLower(TrimSpace(handle))| == |TrimSpace(handle)|;
  }

  /** An id leads to a handle with a key exactly when the users say so. */
  lemma KnownHandle(users: seq<User>, id: int, key: string)
    ensures KnownAs(users, id, key) <==> key != "" && Key(HandleOf(UserHandles(users, |users|), id)) == key
  {
    if i: nat :| i < |users| && LastWithId(users, |users|, id, i) && ToLower(TrimSpace(users[i].handle)) == key {
      LastUserKnown(users, |users|, id, i);
      TrimmedKey(users[i].handle);
    }
    if id in UserHandles(users, |users|) {
      OnlyUsersIndexed(users, |users|);
      var i :| 0 <= i < |users| && TrimSpace(users[i].handle) != "" && users[i].id == id;
      var last := HasLast(users, |users|, id, i);
      LastUserKnown(users, |users|, id, last);
      TrimmedKey(users[last].handle);
    } else {
      TrimFixed("", IsSpace);
      assert ToLower("") == "";
    }
  }

  /** Nothing outside of the season is credited, whoever it is by. */
  lemma OutOfSeason(ch: Challenge, ids: map<int, string>, p: Post, l: Line, e: DoorEvent, at: int)
    requires p.at == l.at == e.at == at && (at == 0 || at < ch.startsAt || at > ch.endsAt)
    ensures PostCredit(ch, ids)(p) == None && LineCredit(ch)(l) == None && DoorCredit(ch, ids)(e) == None
  {
  }

  /** In the season, what a handle did is credited to its key, once; of the door events, four kinds. */
  lemma InSeasonCredited(ch: Challenge, ids: map<int, string>, id: int, handle: string, kind: string, at: int)
    requires at != 0 && ch.startsAt <= at <= ch.endsAt && id in ids && ids[id] == handle && TrimSpace(handle) != ""
    ensures var key := ToLower(TrimSpace(handle));
      && PostCredit(ch, ids)(Post(id, at)) == Some(SeasonTally.Credit(Board, key, handle))
      && LineCredit(ch)(Line(handle, at)) == Some(SeasonTally.Credit(Chat, key, handle))
      && DoorCredit(ch, ids)(DoorEvent(id, kind, at)) ==
           if ToLower(TrimSpace(kind)) in ["start", "connector_launch", "poll_vote", "poll_create"]
           then Some(SeasonTally.Credit(Door, key, handle)) else None
  {
    assert |ToLower(TrimSpace(handle))| == |TrimSpace(handle)|;
  }

  /** A credit of this kind under this key. */
  predicate CreditedTo(credit: Option<Credit>, activity: Activity, key: string) {
    credit.Some? && credit.value.activity == activity && credit.value.key == key
  }

  /** A post is credited to a key exactly when it counts for it, and to nothing else. */
  lemma PostCounts(ch: Challenge, site: Site, activity: Activity, key: string, p: Post)
    ensures CreditedTo(PostCredit(ch, Handles(site))(p), activity, key) <==>
      activity == Board && PostFor(ch, site.users, key, p)
  {
    KnownHandle(site.users, p.authorId, key);
  }

  lemma LineCounts(ch: Challenge, activity: Activity, key: string, l: Line)
    ensures CreditedTo(LineCredit(ch)(l), activity, key) <==> activity == Chat && LineFor(ch, key, l)
  {
  }

  lemma RunCounts(ch: Challenge, site: Site, activity: Activity, key: string, e: DoorEvent)
    ensures CreditedTo(DoorCredit(ch, Handles(site))(e), activity, key) <==>
      activity == Door && RunFor(ch, site.users, key, e)
  {
    KnownHandle(site.users, e.userId, key);
  }

  // ------------------------------------------------------------------
  // Counting events by where they are listed
  // ------------------------------------------------------------------

  /** The places of the events with a property, in the listings before `n` and the first `m` places of that one. */
  ghost function Found<E(!new)>(lists: seq<Option<seq<E>>>, p: E -> bool, n: nat, m: nat): set<(nat, nat)> {
    set b: nat, i: nat |
      b < |lists| && lists[b].Some? && i < |lists[b].value| && (b < n || (b == n && i < m)) && p(lists[b].value[i]) ::
      (b, i)
  }

  lemma FoundNext<E(!new)>(lists: seq<Option<seq<E>>>, p: E -> bool, n: nat, m: nat)
    requires n < |lists| && lists[n].Some? && m < |lists[n].value|
    ensures |Found(lists, p, n, m + 1)| == |Found(lists, p, n, m)| + if p(lists[n].value[m]) then 1 else 0
  {
    FoundGrows(lists, p, n, m);
    assert (n, m) !in Found(lists, p, n, m);
  }

  lemma FoundGrows<E(!new)>(lists: seq<Option<seq<E>>>, p: E -> bool, n: nat, m: nat)
    requires n < |lists| && lists[n].Some? && m < |lists[n].value|
    ensures Found(lists, p, n, m + 1) == Found(lists, p, n, m) + if p(lists[n].value[m]) then {(n, m)} else {}
  {
    var more, less := Found(lists, p, n, m + 1), Found(lists, p, n, m);
    forall at ensures at in more <==> at in less || (p(lists[n].value[m]) && at == (n, m)) {
    }
  }

  lemma FoundList<E(!new)>(lists: seq<Option<seq<E>>>, p: E -> bool, n: nat)
    requires n < |lists|
    ensures Found(lists, p, n + 1, 0) == Found(lists, p, n, if lists[n].Some? then |lists[n].value| else 0)
    ensures Found(lists, p, 0, 0) == {}
  {
  }

  lemma FoundNone<E(!new)>(lists: seq<Option<seq<E>>>, p: E -> bool, n: nat)
    requires forall e :: !p(e)
    ensures Found(lists, p, n, 0) == {}
  {
  }

  lemma CountAppend(log: seq<Credit>, credit: Option<Credit>, activity: Activity, key: string)
    ensures Count(Append(log, credit), activity, key) ==
      Count(log, activity, key) + if CreditedTo(credit, activity, key) then 1 else 0
  {
  }

  lemma {:induction false} CountCredits<E(!new)>(log: seq<Credit>, lists: seq<Option<seq<E>>>,
      credit: E -> Option<Credit>, activity: Activity, key: string, p: E -> bool, n: nat, m: nat)
    requires n < |lists| && lists[n].Some? && m <= |lists[n].value|
    requires forall e :: CreditedTo(credit(e), activity, key) <==> p(e)
    ensures Count(Credits(log, lists[n].value, credit, m), activity, key) + |Found(lists, p, n, 0)| ==
      Count(log, activity, key) + |Found(lists, p, n, m)|
  {
    if m > 0 {
      var events := lists[n].value;
      CountCredits(log, lists, credit, activity, key, p, n, m - 1);
      CountAppend(Credits(log, events, credit, m - 1), credit(events[m - 1]), activity, key);
      FoundNext(lists, p, n, m - 1);
    }
  }

  /** What the listings add to a count is the number of their events with the property. */
  lemma {:induction false} CountListed<E(!new)>(log: seq<Credit>, lists: seq<Option<seq<E>>>,
      credit: E -> Option<Credit>, activity: Activity, key: string, p: E -> bool, n: nat)
    requires n <= |lists| && forall e :: CreditedTo(credit(e), activity, key) <==> p(e)
    ensures Count(Listed(log, lists, credit, n), activity, key) == Count(log, activity, key) + |Found(lists, p, n, 0)|
  {
    if n > 0 {
      CountListed(log, lists, credit, activity, key, p, n - 1);
      FoundList(lists, p, n - 1);
      if lists[n - 1].Some? {
        var before, events := Listed(log, lists, credit, n - 1), lists[n - 1].value;
        CountCredits(before, lists, credit, activity, key, p, n - 1, |events|);
      }
    } else {
      assert Found(lists, p, 0, 0) == {};
    }
  }

  // ------------------------------------------------------------------
  // The counts of a season
  // ------------------------------------------------------------------

  /** The posts that count for a key, by board and place. */
  ghost function PostsFor(ch: Challenge, site: Site, key: string): set<(nat, nat)> {
    set b: nat, i: nat |
      && b < |site.boards| && site.boards[b].Some? && i < |site.boards[b].value|
      && PostFor(ch, site.users, key, site.boards[b].value[i]) ::
      (b, i)
  }

  ghost function LinesFor(ch: Challenge, site: Site, key: string): set<(nat, nat)> {
    set c: nat, i: nat |
      c < |site.channels| && i < |site.channels[c]| && LineFor(ch, key, site.channels[c][i]) ::
      (c, i)
  }

  ghost function RunsFor(ch: Challenge, site: Site, key: string): set<(nat, nat)> {
    set d: nat, i: nat |
      && d < |site.doors| && site.doors[d].Some? && i < |site.doors[d].value|
      && RunFor(ch, site.users, key, site.doors[d].value[i]) ::
      (d, i)
  }

  lemma BoardCount(ch: Challenge, site: Site, activity: Activity, key: string)
    ensures Count(BoardLog(ch, site), activity, key) == if activity == Board then |PostsFor(ch, site, key)| else 0
  {
    var p := (e: Post) => activity == Board && PostFor(ch, site.users, key, e);
    forall e ensures CreditedTo(PostCredit(ch, Handles(site))(e), activity, key) <==> p(e) {
      PostCounts(ch, site, activity, key, e);
    }
    CountListed([], site.boards, PostCredit(ch, Handles(site)), activity, key, p, |site.boards|);
    if activity == Board {
      assert Found(site.boards, p, |site.boards|, 0) == PostsFor(ch, site, key);
    } else {
      FoundNone(site.boards, p, |site.boards|);
    }
  }

  lemma ChatCount(ch: Challenge, site: Site, activity: Activity, key: string)
    ensures Count(ChatLog(ch, site), activity, key) ==
      Count(BoardLog(ch, site), activity, key) + if activity == Chat then |LinesFor(ch, site, key)| else 0
  {
    var p := (e: Line) => activity == Chat && LineFor(ch, key, e);
    var lists := Heard(site.channels);
    forall e ensures CreditedTo(LineCredit(ch)(e), activity, key) <==> p(e) {
      LineCounts(ch, activity, key, e);
    }
    CountListed(BoardLog(ch, site), lists, LineCredit(ch), activity, key, p, |lists|);
    if activity == Chat {
      assert Found(lists, p, |lists|, 0) == LinesFor(ch, site, key);
    } else {
      FoundNone(lists, p, |lists|);
    }
  }

  lemma DoorCount(ch: Challenge, site: Site, activity: Activity, key: string)
    ensures Count(SeasonLog(ch, site), activity, key) ==
      Count(ChatLog(ch, site), activity, key) + if activity == Door then |RunsFor(ch, site, key)| else 0
  {
    var p := (e: DoorEvent) => activity == Door && RunFor(ch, site.users, key, e);
    forall e ensures CreditedTo(DoorCredit(ch, Handles(site))(e), activity, key) <==> p(e) {
      RunCounts(ch, site, activity, key, e);
    }
    CountListed(ChatLog(ch, site), site.doors, DoorCredit(ch, Handles(site)), activity, key, p, |site.doors|);
    if activity == Door {
      assert Found(site.doors, p, |site.doors|, 0) == RunsFor(ch, site, key);
    } else {
      FoundNone(site.doors, p, |site.doors|);
    }
  }

  /** What is credited to a key is what counts for it, each event once. */
  lemma SeasonCount(ch: Challenge, site: Site, activity: Activity, key: string)
    ensures Count(SeasonLog(ch, site), activity, key) ==
      match activity
      case Board => |PostsFor(ch, site, key)|
      case Chat => |LinesFor(ch, site, key)|
      case Door => |RunsFor(ch, site, key)|
  {
    BoardCount(ch, site, activity, key);
    ChatCount(ch, site, activity, key);
    DoorCount(ch, site, activity, key);
  }

  /**
   A row counts the posts, lines and runs of the season that count for the key of its handle,
   each once, and has their weighted sum as points.
   */
  lemma RowCounts(ch: Challenge, site: Site, rows: seq<Score>, i: nat)
    requires IsRanking(rows, ch, Keyed(site), SeasonLog(ch, site)) && i < |rows|
    ensures var t := rows[i].tally; var key := ToLower(TrimSpace(t.handle));
      && t.boardPosts == |PostsFor(ch, site, key)|
      && t.chatPosts == |LinesFor(ch, site, key)|
      && t.doorRuns == |RunsFor(ch, site, key)|
      && rows[i].points == t.boardPosts * ch.boardWeight + t.chatPosts * ch.chatWeight + t.doorRuns * ch.doorWeight
  {
    SiteMatches(ch, site);
    RowIsOwn(rows, ch, Keyed(site), SeasonLog(ch, site), i);
    var key := RowKeys(rows)[i];
    SeasonCount(ch, site, Board, key);
    SeasonCount(ch, site, Chat, key);
    SeasonCount(ch, site, Door, key);
  }

  /** The row is that of a key. */
  predicate IsRowFor(rows: seq<Score>, i: nat, key: string)
    requires i < |rows|
  {
    ToLower(TrimSpace(rows[i].tally.handle)) == key
  }

  /** There is a row for a key exactly when some event counts for it, and then only one. */
  lemma RowExistsIff(ch: Challenge, site: Site, rows: seq<Score>, key: string)
    requires IsRanking(rows, ch, Keyed(site), SeasonLog(ch, site))
    ensures (exists i: nat :: i < |rows| && IsRowFor(rows, i, key)) <==>
      PostsFor(ch, site, key) != {} || LinesFor(ch, site, key) != {} || RunsFor(ch, site, key) != {}
    ensures forall i: nat, j: nat ::
      i < |rows| && j < |rows| && IsRowFor(rows, i, key) && IsRowFor(rows, j, key) ==> i == j
  {
    var log := SeasonLog(ch, site);
    SiteMatches(ch, site);
    RowKeysOnce(rows, ch, Keyed(site), log);
    SeasonCount(ch, site, Board, key);
    SeasonCount(ch, site, Chat, key);
    SeasonCount(ch, site, Door, key);
    KeyCounts(log, key);
    assert key in Keys(log) <==> key in Elements(RowKeys(rows));
    forall i: nat | i < |rows| ensures RowKeys(rows)[i] == key <==> IsRowFor(rows, i, key) {
    }
  }

  lemma KeyCounts(log: seq<Credit>, key: string)
    ensures key in Keys(log) <==> Count(log, Board, key) > 0 || Count(log, Chat, key) > 0 || Count(log, Door, key) > 0
  {
    if key in Keys(log) {
      var c :| c in log && c.key == key;
      CountPresent(log, c);
    } else {
      CountAbsent(log, Board, key);
      CountAbsent(log, Chat, key);
      CountAbsent(log, Door, key);
    }
  }

  /** A row shows the trimmed handle of the last user that has its key. */
  lemma RowHandle(ch: Challenge, site: Site, rows: seq<Score>, i: nat, u: nat)
    requires IsRanking(rows, ch, Keyed(site), SeasonLog(ch, site)) && i < |rows|
    requires LastWithKey(site.users, |site.users|, ToLower(TrimSpace(rows[i].tally.handle)), u)
    ensures rows[i].tally.handle == TrimSpace(site.users[u].handle)
  {
    var key := RowKeys(rows)[i];
    SiteMatches(ch, site);
    RowIsOwn(rows, ch, Keyed(site), SeasonLog(ch, site), i);
    LastUserNamed(site.users, |site.users|, key, u);
    ListedShown(Keyed(site), SeasonLog(ch, site), key);
  }

  // ------------------------------------------------------------------
  // The totals of a season
  // ------------------------------------------------------------------

  /** Some user with this id has a handle. */
  predicate Known(users: seq<User>, id: int) {
    exists i :: 0 <= i < |users| && users[i].id == id && TrimSpace(users[i].handle) != ""
  }

  ghost function SeasonPosts(ch: Challenge, site: Site): set<(nat, nat)> {
    set b: nat, i: nat |
      && b < |site.boards| && site.boards[b].Some? && i < |site.boards[b].value|
      && InSeason(ch, site.boards[b].value[i].at) && Known(site.users, site.boards[b].value[i].authorId) ::
      (b, i)
  }

  ghost function SeasonLines(ch: Challenge, site: Site): set<(nat, nat)> {
    set c: nat, i: nat |
      && c < |site.channels| && i < |site.channels[c]|
      && InSeason(ch, site.channels[c][i].at) && TrimSpace(site.channels[c][i].from) != "" ::
      (c, i)
  }

  predicate IsSeasonRun(ch: Challenge, users: seq<User>, e: DoorEvent) {
    && InSeason(ch, e.at) && Known(users, e.userId)
    && ToLower(TrimSpace(e.kind)) in ["start", "connector_launch", "poll_vote", "poll_create"]
  }

  ghost function SeasonRuns(ch: Challenge, site: Site): set<(nat, nat)> {
    set d: nat, i: nat |
      && d < |site.doors| && site.doors[d].Some? && i < |site.doors[d].value|
      && IsSeasonRun(ch, site.users, site.doors[d].value[i]) ::
      (d, i)
  }

  /** The handle that an id leads to is not blank exactly for the known ids. */
  lemma KnownHasKey(users: seq<User>, id: int)
    ensures Known(users, id) <==> Key(HandleOf(UserHandles(users, |users|), id)) != ""
  {
    var key := Key(HandleOf(UserHandles(users, |users|), id));
    if i :| 0 <= i < |users| && users[i].id == id && TrimSpace(users[i].handle) != "" {
      var last := HasLast(users, |users|, id, i);
      TrimmedKey(users[last].handle);
      KnownHandle(users, id, ToLower(TrimSpace(users[last].handle)));
    }
    if key != "" {
      KnownHandle(users, id, key);
      var i: nat :| i < |users| && LastWithId(users, |users|, id, i);
    }
  }

  lemma {:induction false} InFound<E(!new)>(lists: seq<Option<seq<E>>>, credit: E -> Option<Credit>, p: E -> bool,
                                            n: nat, m: nat)
    requires n < |lists| && lists[n].Some? && m <= |lists[n].value| && forall e :: credit(e).Some? <==> p(e)
    ensures |Found(lists, p, n, m)| == |Found(lists, p, n, 0)| + AttributedIn(lists[n].value, credit, m)
  {
    if m > 0 {
      InFound(lists, credit, p, n, m - 1);
      FoundNext(lists, p, n, m - 1);
    }
  }

  lemma {:induction false} AttributedFound<E(!new)>(lists: seq<Option<seq<E>>>, credit: E -> Option<Credit>,
                                                    p: E -> bool, n: nat)
    requires n <= |lists| && forall e :: credit(e).Some? <==> p(e)
    ensures Attributed(lists, credit, n) == |Found(lists, p, n, 0)|
  {
    if n > 0 {
      AttributedFound(lists, credit, p, n - 1);
      FoundList(lists, p, n - 1);
      if lists[n - 1].Some? {
        InFound(lists, credit, p, n - 1, |lists[n - 1].value|);
      }
    } else {
      assert Found(lists, p, 0, 0) == {};
    }
  }

  lemma PostsAttributed(ch: Challenge, site: Site)
    ensures Attributed(site.boards, PostCredit(ch, Handles(site)), |site.boards|) == |SeasonPosts(ch, site)|
  {
    var p := (e: Post) => InSeason(ch, e.at) && Known(site.users, e.authorId);
    forall e: Post ensures PostCredit(ch, Handles(site))(e).Some? <==> p(e) {
      KnownHasKey(site.users, e.authorId);
    }
    AttributedFound(site.boards, PostCredit(ch, Handles(site)), p, |site.boards|);
    assert Found(site.boards, p, |site.boards|, 0) == SeasonPosts(ch, site);
  }

  lemma LinesAttributed(ch: Challenge, site: Site)
    ensures Attributed(Heard(site.channels), LineCredit(ch), |site.channels|) == |SeasonLines(ch, site)|
  {
    var p := (e: Line) => InSeason(ch, e.at) && TrimSpace(e.from) != "";
    var lists := Heard(site.channels);
    forall e: Line ensures LineCredit(ch)(e).Some? <==> p(e) {
      TrimmedKey(e.from);
    }
    AttributedFound(lists, LineCredit(ch), p, |lists|);
    assert Found(lists, p, |lists|, 0) == SeasonLines(ch, site);
  }

  lemma RunsAttributed(ch: Challenge, site: Site)
    ensures Attributed(site.doors, DoorCredit(ch, Handles(site)), |site.doors|) == |SeasonRuns(ch, site)|
  {
    var p := (e: DoorEvent) => IsSeasonRun(ch, site.users, e);
    forall e: DoorEvent ensures DoorCredit(ch, Handles(site))(e).Some? <==> p(e) {
      KnownHasKey(site.users, e.userId);
    }
    AttributedFound(site.doors, DoorCredit(ch, Handles(site)), p, |site.doors|);
    assert Found(site.doors, p, |site.doors|, 0) == SeasonRuns(ch, site);
  }

  /**
   Before the limit, the columns sum to the posts and runs of the season by users with a handle
   and to its lines with a sender, and the points to their weighted sum.
   */
  lemma SeasonSums(ch: Challenge, site: Site, rows: seq<Score>)
    requires IsRanking(rows, ch, Keyed(site), SeasonLog(ch, site))
    ensures var posts, lines, runs := |SeasonPosts(ch, site)|, |SeasonLines(ch, site)|, |SeasonRuns(ch, site)|;
      && Sum(rows, Board) == posts && Sum(rows, Chat) == lines && Sum(rows, Door) == runs
      && SumPoints(rows) == posts * ch.boardWeight + lines * ch.chatWeight + runs * ch.doorWeight
  {
    SeasonConserves(ch, site, rows);
    PostsAttributed(ch, site);
    LinesAttributed(ch, site);
    RunsAttributed(ch, site);
  }

  /** The result of `buildSeasonChallengeScores`: rows in order, at most `limit`, each with its counts and its points. */
  lemma TableCounts(ch: Challenge, site: Site, out: seq<Score>, limit: int, i: nat, j: nat)
    requires IsTable(out, ch, site, limit) && i < |out|
    ensures limit > 0 ==> |out| <= limit
    ensures i < j < |out| ==> NotAfter(out[i], out[j])
    ensures var t := out[i].tally; var key := ToLower(TrimSpace(t.handle));
      && t.boardPosts == |PostsFor(ch, site, key)|
      && t.chatPosts == |LinesFor(ch, site, key)|
      && t.doorRuns == |RunsFor(ch, site, key)|
      && out[i].points == t.boardPosts * ch.boardWeight + t.chatPosts * ch.chatWeight + t.doorRuns * ch.doorWeight
  {
    var full :| IsRanking(full, ch, Keyed(site), SeasonLog(ch, site)) && out == Cap(full, limit);
    CapMeans(full, limit);
    RowCounts(ch, site, full, i);
  }
}
