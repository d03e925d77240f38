/** Season challenge scores (`buildSeasonChallengeScores`) as a plain count over the credited activity. */
module SeasonTally {
  import opened Wrappers
  import opened Text

  /** Instants count from Go's zero time. */
  const ZERO_TIME: int := 0

  datatype Challenge = Challenge(startsAt: int, endsAt: int, boardWeight: int, chatWeight: int, doorWeight: int)
  datatype User = User(id: int, handle: string)
  datatype Post = Post(authorId: int, at: int)
  datatype Line = Line(from: string, at: int)
  datatype DoorEvent = DoorEvent(userId: int, kind: string, at: int)

  datatype Activity = Board | Chat | Door

  /** One point-scoring event: what it is, whose it is, and the handle it came with. */
  datatype Credit = Credit(activity: Activity, key: string, handle: string)

  datatype Tally = Tally(handle: string, boardPosts: int, chatPosts: int, doorRuns: int)
  datatype Score = Score(tally: Tally, points: int)

  // ------------------------------------------------------------------
  // Which events count
  // ------------------------------------------------------------------

  /** `normalizeHandleKey` */
  function Key(handle: string): string {
    ToLower(TrimSpace(handle))
  }

  predicate InWindow(ch: Challenge, at: int) {
    at != ZERO_TIME && ch.startsAt <= at <= ch.endsAt
  }

  predicate IsRun(kind: string) {
    var k := ToLower(TrimSpace(kind));
    k == "start" || k == "connector_launch" || k == "poll_vote" || k == "poll_create"
  }

  function HandleOf(ids: map<int, string>, id: int): string {
    if id in ids then ids[id] else ""
  }

  function CreditFor(activity: Activity, handle: string): Option<Credit> {
    if Key(handle) == "" then None else Some(Credit(activity, Key(handle), handle))
  }

  function PostCredit(ch: Challenge, ids: map<int, string>): Post -> Option<Credit> {
    (p: Post) => if InWindow(ch, p.at) then CreditFor(Board, HandleOf(ids, p.authorId)) else None
  }

  function LineCredit(ch: Challenge): Line -> Option<Credit> {
    (l: Line) => if InWindow(ch, l.at) then CreditFor(Chat, l.from) else None
  }

  function DoorCredit(ch: Challenge, ids: map<int, string>): DoorEvent -> Option<Credit> {
    (e: DoorEvent) =>
      if InWindow(ch, e.at) && IsRun(e.kind) then CreditFor(Door, HandleOf(ids, e.userId)) else None
  }

  function Append(log: seq<Credit>, credit: Option<Credit>): seq<Credit> {
    if credit.Some? then log + [credit.value] else log
  }

  /** The credits of the first `n` events, after those in `log`. */
  function Credits<E>(log: seq<Credit>, events: seq<E>, credit: E -> Option<Credit>, n: nat): seq<Credit>
    requires n <= |events|
  {
    if n == 0 then log else Append(Credits(log, events, credit, n - 1), credit(events[n - 1]))
  }

  /** The same over the first `n` listings; a listing that failed is skipped. */
  function Listed<E>(log: seq<Credit>, lists: seq<Option<seq<E>>>, credit: E -> Option<Credit>, n: nat): seq<Credit>
    requires n <= |lists|
  {
    if n == 0 then log
    else
      var before := Listed(log, lists, credit, n - 1);
      match lists[n - 1]
      case None => before
      case Some(events) => Credits(before, events, credit, |events|)
  }

  // ------------------------------------------------------------------
  // Counting
  // ------------------------------------------------------------------

  function Count(log: seq<Credit>, activity: Activity, key: string): nat {
    if log == [] then 0
    else
      var c := log[|log| - 1];
      Count(log[..|log| - 1], activity, key) + if c.activity == activity && c.key == key then 1 else 0
  }

  function Total(log: seq<Credit>, activity: Activity): nat {
    if log == [] then 0
    else Total(log[..|log| - 1], activity) + if log[|log| - 1].activity == activity then 1 else 0
  }

  function Keys(log: seq<Credit>): set<string> {
    set c | c in log :: c.key
  }

  /** The handle shown for each key: the listed user's, otherwise the first one that scored. */
  function Order(listed: map<string, string>, log: seq<Credit>): map<string, string> {
    if log == [] then listed
    else
      var before, c := Order(listed, log[..|log| - 1]), log[|log| - 1];
      if c.key in before then before else before[c.key := c.handle]
  }

  /** A listed user's key shows that user's handle, whatever is credited. */
  lemma {:induction false} ListedShown(listed: map<string, string>, log: seq<Credit>, key: string)
    requires key in listed
    ensures key in Order(listed, log) && Order(listed, log)[key] == listed[key]
  {
    if log != [] {
      ListedShown(listed, log[..|log| - 1], key);
    }
  }

  /** Another key shows the handle of its first credit. */
  lemma {:induction false} FirstShown(listed: map<string, string>, front: seq<Credit>, c: Credit, log: seq<Credit>)
    requires c.key !in listed && c.key !in Keys(front) && front + [c] <= log
    ensures c.key in Order(listed, log) && Order(listed, log)[c.key] == c.handle
    decreases |log|
  {
    var before := log[..|log| - 1];
    if log == front + [c] {
      assert before == front;
      OrderKeys(listed, front);
    } else {
      FirstShown(listed, front, c, before);
    }
  }

  lemma {:induction false} OrderKeys(listed: map<string, string>, log: seq<Credit>)
    ensures Order(listed, log).Keys == listed.Keys + Keys(log)
  {
    if log != [] {
      OrderKeys(listed, log[..|log| - 1]);
      KeysSnoc(log[..|log| - 1], log[|log| - 1], log);
    }
  }

  lemma KeysSnoc(front: seq<Credit>, c: Credit, log: seq<Credit>)
    requires log == front + [c]
    ensures Keys(log) == Keys(front) + {c.key}
  {
  }

  function TallyOf(listed: map<string, string>, log: seq<Credit>, key: string): Tally {
    var order := Order(listed, log);
    Tally(if key in order then order[key] else "", Count(log, Board, key), Count(log, Chat, key), Count(log, Door, key))
  }

  function Tallies(listed: map<string, string>, log: seq<Credit>): map<string, Tally> {
    map key | key in Keys(log) :: TallyOf(listed, log, key)
  }

  function Bump(t: Tally, activity: Activity): Tally {
    match activity
    case Board => t.(boardPosts := t.boardPosts + 1)
    case Chat => t.(chatPosts := t.chatPosts + 1)
    case Door => t.(doorRuns := t.doorRuns + 1)
  }

  /** A key that has not scored counts nothing. */
  lemma {:induction false} CountAbsent(log: seq<Credit>, activity: Activity, key: string)
    requires key !in Keys(log)
    ensures Count(log, activity, key) == 0
  {
    if log != [] {
      var front, c := log[..|log| - 1], log[|log| - 1];
      KeysSnoc(front, c, log);
      CountAbsent(front, activity, key);
    }
  }

  /** One more credit changes the tally of its key, by one, and no other. */
  lemma TallySnoc(listed: map<string, string>, front: seq<Credit>, c: Credit, log: seq<Credit>, key: string)
    requires log == front + [c] && (key == c.key || key in Keys(front))
    ensures TallyOf(listed, log, key) ==
      if key == c.key then Bump(TallyOf(listed, front, key).(handle := Order(listed, log)[key]), c.activity)
      else TallyOf(listed, front, key)
  {
  }

  /** The row that the source finds or creates for a key. */
  function RowFor(tallies: map<string, Tally>, order: map<string, string>, key: string): Tally
    requires key in order
  {
    if key in tallies then tallies[key] else Tally(order[key], 0, 0, 0)
  }

  /** Finding or creating the row of a credit and counting it there keeps the map a tally of the log. */
  lemma TalliesSnoc(listed: map<string, string>, front: seq<Credit>, c: Credit, log: seq<Credit>)
    requires log == front + [c]
    ensures c.key in Order(listed, log)
    ensures Tallies(listed, log) ==
      Tallies(listed, front)[c.key := Bump(RowFor(Tallies(listed, front), Order(listed, log), c.key), c.activity)]
  {
    KeysSnoc(front, c, log);
    OrderKeys(listed, log);
    RowBase(listed, front, c, log);
    TallySnoc(listed, front, c, log, c.key);
    var row := TallyOf(listed, log, c.key);
    forall key | key in Keys(front) && key != c.key ensures TallyOf(listed, log, key) == TallyOf(listed, front, key) {
      TallySnoc(listed, front, c, log, key);
    }
    OneRowChanged(listed, front, log, c.key, row);
  }

  /** The rows as the source builds them up, one credit at a time. */
  function Tallied(listed: map<string, string>, log: seq<Credit>): map<string, Tally> {
    if log == [] then map[]
    else
      var before, order, c := Tallied(listed, log[..|log| - 1]), Order(listed, log), log[|log| - 1];
      if c.key in order then before[c.key := Bump(RowFor(before, order, c.key), c.activity)] else before
  }

  /** Finding or creating a credit's row, then counting it there. */
  lemma TalliedNext(listed: map<string, string>, log: seq<Credit>, c: Credit, found: map<string, Tally>,
                    order: map<string, string>)
    requires order == Order(listed, log + [c]) && c.key in order
    requires found == Tallied(listed, log)[c.key := RowFor(Tallied(listed, log), order, c.key)]
    ensures Tallied(listed, log + [c]) == found[c.key := Bump(found[c.key], c.activity)]
  {
  }

  /** Built up row by row or counted afterwards: the same tallies. */
  lemma {:induction false} TalliedIsTallies(listed: map<string, string>, log: seq<Credit>)
    ensures Tallied(listed, log) == Tallies(listed, log)
  {
    if log == [] {
      assert Keys(log) == {};
    } else {
      TalliedIsTallies(listed, log[..|log| - 1]);
      TalliesSnoc(listed, log[..|log| - 1], log[|log| - 1], log);
    }
  }

  lemma TalliedKeys(listed: map<string, string>, log: seq<Credit>)
    ensures Tallied(listed, log).Keys == Keys(log)
  {
  }

  lemma TalliedAt(listed: map<string, string>, log: seq<Credit>, key: string)
    requires key in Keys(log)
    ensures key in Tallied(listed, log) && Tallied(listed, log)[key] == TallyOf(listed, log, key)
  {
    TalliedIsTallies(listed, log);
  }

  lemma OneRowChanged(listed: map<string, string>, front: seq<Credit>, log: seq<Credit>, key: string, row: Tally)
    requires Keys(log) == Keys(front) + {key}
    requires TallyOf(listed, log, key) == row
    requires forall k :: k in Keys(front) && k != key ==> TallyOf(listed, log, k) == TallyOf(listed, front, k)
    ensures Tallies(listed, log) == Tallies(listed, front)[key := row]
  {
  }

  lemma RowBase(listed: map<string, string>, front: seq<Credit>, c: Credit, log: seq<Credit>)
    requires log == front + [c] && c.key in Order(listed, log)
    ensures RowFor(Tallies(listed, front), Order(listed, log), c.key) ==
      TallyOf(listed, front, c.key).(handle := Order(listed, log)[c.key])
  {
    assert log[..|log| - 1] == front;
    OrderKeys(listed, front);
    if c.key !in Keys(front) {
      CountAbsent(front, Board, c.key);
      CountAbsent(front, Chat, c.key);
      CountAbsent(front, Door, c.key);
    }
  }
}
