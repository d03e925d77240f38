/** The season challenge table: one row for each handle that scored, in the order of the comparator. */
module SeasonRanking {
  import opened Text
  import opened Sorting
  import opened FirstOccurrences
  import opened SeasonTally

  function Points(ch: Challenge, t: Tally): int {
    t.boardPosts * ch.boardWeight + t.chatPosts * ch.chatWeight + t.doorRuns * ch.doorWeight
  }

  function Scored(ch: Challenge, t: Tally): Score {
    Score(t, Points(ch, t))
  }

  /** The comparator: points, door runs and board posts descending, then the folded handle ascending. */
  predicate Before(a: Score, b: Score) {
    if a.points != b.points then a.points > b.points
    else if a.tally.doorRuns != b.tally.doorRuns then a.tally.doorRuns > b.tally.doorRuns
    else if a.tally.boardPosts != b.tally.boardPosts then a.tally.boardPosts > b.tally.boardPosts
    else StrLess(ToLower(a.tally.handle), ToLower(b.tally.handle))
  }

  predicate NotAfter(a: Score, b: Score) {
    !Before(b, a)
  }

  lemma NotAfterMeans(a: Score, b: Score)
    ensures NotAfter(a, b) <==>
      if a.points != b.points then a.points > b.points
      else if a.tally.doorRuns != b.tally.doorRuns then a.tally.doorRuns > b.tally.doorRuns
      else if a.tally.boardPosts != b.tally.boardPosts then a.tally.boardPosts > b.tally.boardPosts
      else StrLe(ToLower(a.tally.handle), ToLower(b.tally.handle))
  {
    StrLeTotal(ToLower(a.tally.handle), ToLower(b.tally.handle));
  }

  lemma NotAfterTransitive(a: Score, b: Score, c: Score)
    requires NotAfter(a, b) && NotAfter(b, c)
    ensures NotAfter(a, c)
  {
    NotAfterMeans(a, b);
    NotAfterMeans(b, c);
    NotAfterMeans(a, c);
    var x, y, z := ToLower(a.tally.handle), ToLower(b.tally.handle), ToLower(c.tally.handle);
    if StrLe(x, y) && StrLe(y, z) {
      StrLeTransitive(x, y, z);
    }
  }

  /** The comparator is a strict weak ordering, as `sort.Slice` asks of it. */
  lemma NotAfterOrdering()
    ensures Ordering(NotAfter)
  {
    forall a, b ensures NotAfter(a, b) || NotAfter(b, a) {
      NotAfterMeans(a, b);
      NotAfterMeans(b, a);
      StrLeTotal(ToLower(a.tally.handle), ToLower(b.tally.handle));
    }
    forall a, b, c | NotAfter(a, b) && NotAfter(b, c) ensures NotAfter(a, c) {
      NotAfterTransitive(a, b, c);
    }
  }

  // ------------------------------------------------------------------
  // Rows and their keys
  // ------------------------------------------------------------------

  function RowsOf(ch: Challenge, listed: map<string, string>, log: seq<Credit>, keys: set<string>): set<Score> {
    set key | key in keys :: Scored(ch, TallyOf(listed, log, key))
  }

  function RowSet(ch: Challenge, listed: map<string, string>, log: seq<Credit>): set<Score> {
    RowsOf(ch, listed, log, Keys(log))
  }

  /** The table before it is cut to its limit: every scoring handle's row once, in order. */
  ghost predicate IsRanking(rows: seq<Score>, ch: Challenge, listed: map<string, string>, log: seq<Credit>) {
    SortedBy(rows, NotAfter) && multiset(rows) == multiset(RowSet(ch, listed, log))
  }

  ghost predicate HandlesMatch(order: map<string, string>) {
    forall key :: key in order ==> Key(order[key]) == key
  }

  ghost predicate CreditsMatch(log: seq<Credit>) {
    forall c :: c in log ==> c.key == Key(c.handle) && c.key != ""
  }

  lemma {:induction false} OrderMatches(listed: map<string, string>, log: seq<Credit>)
    requires HandlesMatch(listed) && CreditsMatch(log)
    ensures HandlesMatch(Order(listed, log))
  {
    if log != [] {
      assert forall c :: c in log[..|log| - 1] ==> c in log;
      OrderMatches(listed, log[..|log| - 1]);
    }
  }

  /** A row's handle folds to the key it was counted under. */
  lemma RowKey(listed: map<string, string>, log: seq<Credit>, key: string)
    requires HandlesMatch(listed) && CreditsMatch(log) && key in Keys(log)
    ensures Key(TallyOf(listed, log, key).handle) == key
  {
    OrderMatches(listed, log);
    OrderKeys(listed, log);
  }

  /** A further key brings a further row. */
  lemma RowsOfAdd(ch: Challenge, listed: map<string, string>, log: seq<Credit>, keys: set<string>, key: string)
    requires HandlesMatch(listed) && CreditsMatch(log) && keys + {key} <= Keys(log) && key !in keys
    ensures var row := Scored(ch, TallyOf(listed, log, key));
      multiset(RowsOf(ch, listed, log, keys + {key})) == multiset(RowsOf(ch, listed, log, keys)) + multiset{row}
  {
    var row := Scored(ch, TallyOf(listed, log, key));
    forall k | k in keys ensures Scored(ch, TallyOf(listed, log, k)) != row {
      RowKey(listed, log, k);
      RowKey(listed, log, key);
    }
    assert RowsOf(ch, listed, log, keys + {key}) == RowsOf(ch, listed, log, keys) + {row};
  }

  /** All rows but those of `keys`. */
  ghost predicate LacksRows(rows: seq<Score>, ch: Challenge, listed: map<string, string>, log: seq<Credit>,
                            keys: set<string>)
  {
    multiset(rows) == multiset(RowsOf(ch, listed, log, Keys(log) - keys))
  }

  lemma NextRow(rows: seq<Score>, ch: Challenge, listed: map<string, string>, log: seq<Credit>, keys: set<string>,
                key: string)
    requires HandlesMatch(listed) && CreditsMatch(log) && key in keys && keys <= Keys(log)
    requires LacksRows(rows, ch, listed, log, keys)
    ensures LacksRows(rows + [Scored(ch, TallyOf(listed, log, key))], ch, listed, log, keys - {key})
  {
    RowsOfAdd(ch, listed, log, Keys(log) - keys, key);
    assert Keys(log) - keys + {key} == Keys(log) - (keys - {key});
  }

  lemma NoRowLacking(rows: seq<Score>, ch: Challenge, listed: map<string, string>, log: seq<Credit>)
    requires LacksRows(rows, ch, listed, log, {})
    ensures multiset(rows) == multiset(RowSet(ch, listed, log))
  {
  }

  function RowKeys(rows: seq<Score>): (keys: seq<string>)
    ensures |keys| == |rows|
  {
    seq(|rows|, i requires 0 <= i < |rows| => Key(rows[i].tally.handle))
  }

  /** Each row is the row of its own key. */
  lemma RowIsOwn(rows: seq<Score>, ch: Challenge, listed: map<string, string>, log: seq<Credit>, i: nat)
    requires HandlesMatch(listed) && CreditsMatch(log) && i < |rows|
    requires multiset(rows) == multiset(RowSet(ch, listed, log))
    ensures RowKeys(rows)[i] in Keys(log)
    ensures rows[i] == Scored(ch, TallyOf(listed, log, RowKeys(rows)[i]))
  {
    assert rows[i] in multiset(rows);
    var key :| key in Keys(log) && rows[i] == Scored(ch, TallyOf(listed, log, key));
    RowKey(listed, log, key);
  }

  /** Each scoring key has exactly one row. */
  lemma RowKeysOnce(rows: seq<Score>, ch: Challenge, listed: map<string, string>, log: seq<Credit>)
    requires HandlesMatch(listed) && CreditsMatch(log)
    requires multiset(rows) == multiset(RowSet(ch, listed, log))
    ensures NoDuplicates(RowKeys(rows))
    ensures Elements(RowKeys(rows)) == Keys(log)
  {
    var keys := RowKeys(rows);
    forall i, j | 0 <= i < j < |rows| ensures keys[i] != keys[j] {
      RowIsOwn(rows, ch, listed, log, i);
      RowIsOwn(rows, ch, listed, log, j);
      if keys[i] == keys[j] {
        TwiceCounts(rows, i, j);
      }
    }
    forall i | 0 <= i < |rows| ensures keys[i] in Keys(log) {
      RowIsOwn(rows, ch, listed, log, i);
    }
    forall key | key in Keys(log) ensures key in keys {
      KeyHasRow(rows, ch, listed, log, key);
    }
  }

  lemma KeyHasRow(rows: seq<Score>, ch: Challenge, listed: map<string, string>, log: seq<Credit>, key: string)
    requires HandlesMatch(listed) && CreditsMatch(log) && key in Keys(log)
    requires multiset(rows) == multiset(RowSet(ch, listed, log))
    ensures key in RowKeys(rows)
  {
    var row := Scored(ch, TallyOf(listed, log, key));
    assert row in multiset(rows);
    var i :| 0 <= i < |rows| && rows[i] == row;
    RowKey(listed, log, key);
    assert RowKeys(rows)[i] == key;
  }

  /** Ties in the comparator are the same row, so the arbitrary map order does not show in the table. */
  lemma RankingUnique(a: seq<Score>, b: seq<Score>, ch: Challenge, listed: map<string, string>, log: seq<Credit>)
    requires HandlesMatch(listed) && CreditsMatch(log)
    requires IsRanking(a, ch, listed, log) && IsRanking(b, ch, listed, log)
    ensures a == b
  {
    forall x, y | x in a && y in a && NotAfter(x, y) && NotAfter(y, x) ensures x == y {
      var i :| 0 <= i < |a| && a[i] == x;
      var j :| 0 <= j < |a| && a[j] == y;
      TieSameKey(x, y);
      RowIsOwn(a, ch, listed, log, i);
      RowIsOwn(a, ch, listed, log, j);
    }
    SortedUnique(a, b, NotAfter);
  }

  lemma TieSameKey(a: Score, b: Score)
    requires NotAfter(a, b) && NotAfter(b, a)
    ensures Key(a.tally.handle) == Key(b.tally.handle)
  {
    NotAfterMeans(a, b);
    NotAfterMeans(b, a);
    StrLeTotal(ToLower(a.tally.handle), ToLower(b.tally.handle));
    TrimLowerCommute(a.tally.handle);
    TrimLowerCommute(b.tally.handle);
  }

  // ------------------------------------------------------------------
  // Conservation
  // ------------------------------------------------------------------

  function Part(t: Tally, activity: Activity): int {
    match activity
    case Board => t.boardPosts
    case Chat => t.chatPosts
    case Door => t.doorRuns
  }

  function Sum(rows: seq<Score>, activity: Activity): int {
    if rows == [] then 0
    else Sum(rows[..|rows| - 1], activity) + Part(rows[|rows| - 1].tally, activity)
  }

  function SumPoints(rows: seq<Score>): int {
    if rows == [] then 0 else SumPoints(rows[..|rows| - 1]) + rows[|rows| - 1].points
  }

  function SumCount(keys: seq<string>, log: seq<Credit>, activity: Activity): int {
    if keys == [] then 0
    else SumCount(keys[..|keys| - 1], log, activity) + Count(log, activity, keys[|keys| - 1])
  }

  lemma {:induction false} SumIsSumCount(rows: seq<Score>, keys: seq<string>, listed: map<string, string>,
                                         log: seq<Credit>, activity: Activity)
    requires |rows| == |keys|
    requires forall i :: 0 <= i < |rows| ==> rows[i].tally == TallyOf(listed, log, keys[i])
    ensures Sum(rows, activity) == SumCount(keys, log, activity)
  {
    if rows != [] {
      SumIsSumCount(rows[..|rows| - 1], keys[..|keys| - 1], listed, log, activity);
    }
  }

  /** One more credit adds one for each time its key is among the keys. */
  lemma {:induction false} SumCountSnoc(keys: seq<string>, front: seq<Credit>, c: Credit, log: seq<Credit>,
                                        activity: Activity)
    requires log == front + [c]
    ensures SumCount(keys, log, activity) ==
      SumCount(keys, front, activity) + if c.activity == activity then multiset(keys)[c.key] else 0
  {
    assert log[..|log| - 1] == front;
    if keys != [] {
      var some, last := keys[..|keys| - 1], keys[|keys| - 1];
      SumCountSnoc(some, front, c, log, activity);
      assert keys == some + [last];
    }
  }

  lemma {:induction false} SumCountNothing(keys: seq<string>, activity: Activity)
    ensures SumCount(keys, [], activity) == 0
  {
    if keys != [] {
      SumCountNothing(keys[..|keys| - 1], activity);
    }
  }

  /** Over keys without repetition that cover the log, the counts add up to the log. */
  lemma {:induction false} CountsAddUp(keys: seq<string>, log: seq<Credit>, activity: Activity)
    requires NoDuplicates(keys) && Keys(log) <= Elements(keys)
    ensures SumCount(keys, log, activity) == Total(log, activity)
  {
    if log == [] {
      SumCountNothing(keys, activity);
    } else {
      var front, c := log[..|log| - 1], log[|log| - 1];
      KeysSnoc(front, c, log);
      CountsAddUp(keys, front, activity);
      SumCountSnoc(keys, front, c, log, activity);
      assert c.key in Elements(keys);
      OnceCounts(keys, c.key);
    }
  }

  /** The rows' columns sum to the credited activity: nothing is lost, nothing is counted twice. */
  lemma RankingConserves(rows: seq<Score>, ch: Challenge, listed: map<string, string>, log: seq<Credit>,
                         activity: Activity)
    requires HandlesMatch(listed) && CreditsMatch(log) && IsRanking(rows, ch, listed, log)
    ensures Sum(rows, activity) == Total(log, activity)
  {
    RowKeysOnce(rows, ch, listed, log);
    forall i | 0 <= i < |rows| ensures rows[i].tally == TallyOf(listed, log, RowKeys(rows)[i]) {
      RowIsOwn(rows, ch, listed, log, i);
    }
    SumIsSumCount(rows, RowKeys(rows), listed, log, activity);
    CountsAddUp(RowKeys(rows), log, activity);
  }

  /** Each credited event has exactly one row, that of its own key, which counts all events with that key. */
  lemma CountedInOneRow(rows: seq<Score>, ch: Challenge, listed: map<string, string>, log: seq<Credit>, c: Credit)
    returns (i: nat)
    requires HandlesMatch(listed) && CreditsMatch(log) && IsRanking(rows, ch, listed, log) && c in log
    ensures i < |rows| && Part(rows[i].tally, c.activity) == Count(log, c.activity, c.key) > 0
    ensures forall j :: 0 <= j < |rows| ==> (Key(rows[j].tally.handle) == c.key <==> j == i)
  {
    RowKeysOnce(rows, ch, listed, log);
    assert c.key in Elements(RowKeys(rows));
    i :| 0 <= i < |rows| && RowKeys(rows)[i] == c.key;
    RowIsOwn(rows, ch, listed, log, i);
    CountPresent(log, c);
    forall j | 0 <= j < |rows| ensures Key(rows[j].tally.handle) == c.key <==> j == i {
      assert RowKeys(rows)[j] == Key(rows[j].tally.handle);
    }
  }

  lemma {:induction false} CountPresent(log: seq<Credit>, c: Credit)
    requires c in log
    ensures Count(log, c.activity, c.key) > 0
  {
    var front := log[..|log| - 1];
    assert log == front + [log[|log| - 1]];
    if c != log[|log| - 1] {
      CountPresent(front, c);
    }
  }

  lemma {:induction false} PointsAddUp(rows: seq<Score>, ch: Challenge)
    requires forall i :: 0 <= i < |rows| ==> rows[i] == Scored(ch, rows[i].tally)
    ensures SumPoints(rows) ==
      Sum(rows, Board) * ch.boardWeight + Sum(rows, Chat) * ch.chatWeight + Sum(rows, Door) * ch.doorWeight
  {
    if rows != [] {
      var front, t := rows[..|rows| - 1], rows[|rows| - 1].tally;
      PointsAddUp(front, ch);
      Distribute(Sum(front, Board), t.boardPosts, ch.boardWeight);
      Distribute(Sum(front, Chat), t.chatPosts, ch.chatWeight);
      Distribute(Sum(front, Door), t.doorRuns, ch.doorWeight);
    }
  }

  lemma Distribute(a: int, b: int, w: int)
    ensures (a + b) * w == a * w + b * w
  {
  }

  /** All points are the weighted sum of the three totals. */
  lemma PointsConserved(rows: seq<Score>, ch: Challenge, listed: map<string, string>, log: seq<Credit>)
    requires HandlesMatch(listed) && CreditsMatch(log) && IsRanking(rows, ch, listed, log)
    ensures SumPoints(rows) ==
      Total(log, Board) * ch.boardWeight + Total(log, Chat) * ch.chatWeight + Total(log, Door) * ch.doorWeight
  {
    forall i | 0 <= i < |rows| ensures rows[i] == Scored(ch, rows[i].tally) {
      RowIsOwn(rows, ch, listed, log, i);
    }
    PointsAddUp(rows, ch);
    RankingConserves(rows, ch, listed, log, Board);
    RankingConserves(rows, ch, listed, log, Chat);
    RankingConserves(rows, ch, listed, log, Door);
  }

  // ------------------------------------------------------------------
  // Normalised challenges
  // ------------------------------------------------------------------

  const DAY: int := 24 * 60 * 60 * 1000000000

  function ClampInt(value: int, minValue: int, maxValue: int): int {
    if value < minValue then minValue else if value > maxValue then maxValue else value
  }

  /** The window and the weights of `normalizeSeasonChallenge`. */
  function Normalize(ch: Challenge, now: int): Challenge {
    var start := if ch.startsAt == ZERO_TIME then now - DAY else ch.startsAt;
    var end := if ch.endsAt == ZERO_TIME || ch.endsAt <= start then start + 30 * DAY else ch.endsAt;
    Challenge(start, end,
              ClampInt(ch.boardWeight, 1, 20), ClampInt(ch.chatWeight, 1, 20), ClampInt(ch.doorWeight, 1, 20))
  }

  ghost predicate IsNormal(ch: Challenge) {
    && ch.startsAt < ch.endsAt
    && 1 <= ch.boardWeight <= 20 && 1 <= ch.chatWeight <= 20 && 1 <= ch.doorWeight <= 20
  }

  /** The nearest weight from 1 to 20. */
  predicate IsClamped(w: int, given: int) {
    (given < 1 ==> w == 1) && (1 <= given <= 20 ==> w == given) && (given > 20 ==> w == 20)
  }

  /** A missing start is a day ago, a missing end, or one not after the start, is thirty days later; the rest stays. */
  lemma NormalizeMeans(ch: Challenge, now: int)
    ensures var n := Normalize(ch, now);
      && n.startsAt == (if ch.startsAt == 0 then now - 86_400_000_000_000 else ch.startsAt)
      && n.endsAt == (if ch.endsAt != 0 && ch.endsAt > n.startsAt then ch.endsAt else n.startsAt + 2_592_000_000_000_000)
      && IsClamped(n.boardWeight, ch.boardWeight) && IsClamped(n.chatWeight, ch.chatWeight)
      && IsClamped(n.doorWeight, ch.doorWeight)
  {
  }

  /** Normalising once is enough, at whatever later time it is repeated. */
  lemma NormalizeOnce(ch: Challenge, now: int, later: int)
    requires ch.startsAt != ZERO_TIME || now - DAY != ZERO_TIME
    ensures IsNormal(Normalize(ch, now))
    ensures Normalize(Normalize(ch, now), later) == Normalize(ch, now)
  {
  }

  /** In a normalised challenge a row is worth from one to twenty points for each of its events, and has one. */
  lemma EveryRowScores(rows: seq<Score>, ch: Challenge, listed: map<string, string>, log: seq<Credit>, i: nat)
    requires HandlesMatch(listed) && CreditsMatch(log) && IsRanking(rows, ch, listed, log) && IsNormal(ch)
    requires i < |rows|
    ensures var t := rows[i].tally;
      1 <= t.boardPosts + t.chatPosts + t.doorRuns <= rows[i].points <= 20 * (t.boardPosts + t.chatPosts + t.doorRuns)
  {
    RowIsOwn(rows, ch, listed, log, i);
    var c :| c in log && c.key == RowKeys(rows)[i];
    CountPresent(log, c);
    var t := rows[i].tally;
    Weighed(t.boardPosts, ch.boardWeight);
    Weighed(t.chatPosts, ch.chatWeight);
    Weighed(t.doorRuns, ch.doorWeight);
  }

  lemma Weighed(n: int, w: int)
    requires n >= 0 && 1 <= w <= 20
    ensures n <= n * w <= 20 * n
  {
  }
}
