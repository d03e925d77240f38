/** What NAMES shows, and that on guarded runs it is a scan of the open sessions. */
module IrcListing {
  import opened Text
  import opened Sorting
  import opened FirstOccurrences
  import opened IrcCommands
  import opened IrcModel
  import opened IrcInvariants
  import opened IrcCoherence

  /** How a member is shown: its key, marked when it may moderate. */
  function Display(key: string, canModerate: bool): string {
    if canModerate then "@" + TrimPrefix(key, '@') else key
  }

  /** What NAMES shows for a channel, by key. */
  ghost function Members<C>(w: World<C>, ch: string): map<string, string> {
    if ch in w.peers then BucketMembers(w.sessions, w.peers[ch]) else map[]
  }

  ghost function BucketMembers<C>(sessions: map<C, Session>, bucket: map<string, C>): map<string, string> {
    map k | k in bucket && bucket[k] in sessions && !Blank(sessions[bucket[k]].nick) ::
      Display(k, sessions[bucket[k]].canModerate)
  }

  function Pick(m: map<string, string>, keys: seq<string>): seq<string>
    requires forall k :: k in keys ==> k in m
  {
    if keys == [] then [] else Pick(m, keys[..|keys| - 1]) + [m[keys[|keys| - 1]]]
  }

  ghost predicate Enumerates(keys: seq<string>, s: set<string>) {
    (forall k :: k in keys <==> k in s) && forall i, j :: 0 <= i < j < |keys| ==> keys[i] != keys[j]
  }

  /** `out` is sorted and shows every value of `m` once for each of its keys. */
  ghost predicate IsListing(out: seq<string>, m: map<string, string>) {
    && SortedBy(out, StrLe)
    && exists keys: seq<string> :: Enumerates(keys, m.Keys) && multiset(out) == multiset(Pick(m, keys))
  }

  // ------------------------------------------------------------------
  // Which names there are
  // ------------------------------------------------------------------

  /** The name that an event brings in. */
  function EventName<C>(e: Event<C>): string {
    match e
    case Nick(_, nick) => nick
    case User(_, user) => user
    case SaslPayload(_, user, _) => user
    case _ => ""
  }

  ghost predicate EventNames<C>(es: seq<Event<C>>, p: string -> bool) {
    forall i :: 0 <= i < |es| ==> p(EventName(es[i]))
  }

  lemma NamesSnoc<C>(es: seq<Event<C>>, e: Event<C>, p: string -> bool)
    requires EventNames(es, p) && p(EventName(e))
    ensures EventNames(es + [e], p)
  {
  }

  ghost predicate NamesAre<C>(w: World<C>, p: string -> bool) {
    forall c :: c in w.sessions ==> var s := w.sessions[c]; p(s.nick) && p(s.stateNick) && p(s.user)
  }

  /** The names of `t` are names of `s` or the new name. */
  predicate NamesFrom(s: Session, t: Session, name: string) {
    var names := {s.nick, s.stateNick, s.user, name};
    t.nick in names && t.stateNick in names && t.user in names
  }

  /** Only names of the session itself, or the event's, become its names. */
  ghost predicate StepNames<C>(w: World<C>, w': World<C>, name: string) {
    forall c :: c in w'.sessions ==> c in w.sessions && NamesFrom(w.sessions[c], w'.sessions[c], name)
  }

  lemma AuthNames<C>(cfg: Config, w: World<C>, c: C, verdict: Verdict)
    requires c in w.sessions
    ensures StepNames(w, TryAuthStep(cfg, w, c, verdict), "")
  {
  }

  lemma NameStepNames<C>(cfg: Config, w: World<C>, e: Event<C>)
    requires e.Nick? || e.User? || e.SaslPayload?
    ensures StepNames(w, Step(cfg, w, e), EventName(e))
  {
  }

  lemma OtherStepNames<C>(cfg: Config, w: World<C>, e: Event<C>)
    requires !e.Nick? && !e.User? && !e.SaslPayload? && !e.TryAuth? && !e.Accept?
    ensures StepNames(w, Step(cfg, w, e), "")
  {
  }

  lemma NamesStay<C>(w: World<C>, w': World<C>, name: string, p: string -> bool)
    requires NamesAre(w, p) && p(name) && StepNames(w, w', name)
    ensures NamesAre(w', p)
  {
    forall c | c in w'.sessions
      ensures var t := w'.sessions[c]; p(t.nick) && p(t.stateNick) && p(t.user)
    {
      assert NamesFrom(w.sessions[c], w'.sessions[c], name);
    }
  }

  lemma StepNamesAre<C>(cfg: Config, w: World<C>, e: Event<C>, p: string -> bool)
    requires NamesAre(w, p) && p(EventName(e)) && p("")
    ensures NamesAre(Step(cfg, w, e), p)
  {
    if !e.Accept? {
      if e.Nick? || e.User? || e.SaslPayload? {
        NameStepNames(cfg, w, e);
      } else if !e.TryAuth? {
        OtherStepNames(cfg, w, e);
      } else if Open(w, e.c) {
        AuthNames(cfg, w, e.c, e.verdict);
      }
      NamesStay(w, Step(cfg, w, e), EventName(e), p);
    }
  }

  /** Whatever all names in the commands have in common, all nicks and accounts have, on every run. */
  lemma {:induction false} RunNames<C>(cfg: Config, es: seq<Event<C>>, p: string -> bool)
    requires p("") && EventNames(es, p)
    ensures NamesAre(Run(cfg, es), p)
  {
    if es != [] {
      RunNames(cfg, es[..|es| - 1], p);
      StepNamesAre(cfg, Run(cfg, es[..|es| - 1]), es[|es| - 1], p);
    }
  }

  predicate Trimmed(s: string) {
    TrimSpace(s) == s
  }

  /** The arms of NICK, USER and AUTHENTICATE only pass trimmed names on. */
  lemma ArgumentsTrimmed(raw: string)
    ensures Trimmed(NickArg(raw)) && Trimmed(UserArg(raw))
    ensures SaslCredentials(raw).Some? ==> Trimmed(SaslCredentials(raw).value.0)
  {
    TrimIdempotent(TrimLeft(raw, IsColon), IsSpace);
    var parts := FieldsFunc(raw, IsSpace);
    if |parts| >= 4 {
      TrimIdempotent(parts[0], IsSpace);
    }
    var fields := Split(raw, '\0');
    if |fields| >= 3 {
      TrimIdempotent(fields[|fields| - 2], IsSpace);
    }
  }

  // ------------------------------------------------------------------
  // Listings are scans
  // ------------------------------------------------------------------

  ghost predicate IsMember<C>(w: World<C>, ch: string, c: C) {
    Open(w, c) && w.sessions[c].channel == ch
  }

  /** Where the channel index is a scan and nicks are trimmed, so is what NAMES shows. */
  lemma ShownIsMember<C>(cfg: Config, w: World<C>, ch: string, k: string, c: C)
    requires Basic(cfg, w) && Agree(w) && NamesAre(w, Trimmed) && ch != ""
    ensures (k in Members(w, ch) && w.peers[ch][k] == c) <==> IsMember(w, ch, c) && k == Key(w.sessions[c])
    ensures IsMember(w, ch, c) && k == Key(w.sessions[c]) ==>
      Members(w, ch)[k] == Display(k, w.sessions[c].canModerate)
  {
    EntryIsMember(cfg, w, ch, k, c);
    if Listed(w, ch, k, c) {
      assert Authed(w, w.peers[ch][k]) && SessionOk(cfg, w.sessions[c]) && Trimmed(w.sessions[c].nick);
    }
  }

  /**
   On a guarded run, NAMES shows a key for a channel exactly when an open connection in
   that channel has it, and marks it exactly by the right to moderate.
   */
  lemma NamesAreTheScan<C>(cfg: Config, es: seq<Event<C>>, ch: string, k: string, c: C)
    requires Guarded(cfg, es) && EventNames(es, Trimmed) && ch != ""
    ensures var w := Run(cfg, es);
      (k in Members(w, ch) && w.peers[ch][k] == c) <==> IsMember(w, ch, c) && k == Key(w.sessions[c])
    ensures var w := Run(cfg, es);
      IsMember(w, ch, c) && k == Key(w.sessions[c]) ==> Members(w, ch)[k] == Display(k, w.sessions[c].canModerate)
  {
    GuardedEnd(cfg, es);
    RunNames(cfg, es, Trimmed);
    ShownIsMember(cfg, Run(cfg, es), ch, k, c);
  }

  // ------------------------------------------------------------------
  // Reading a listing
  // ------------------------------------------------------------------

  function Bare(shown: string): string {
    TrimPrefix(shown, '@')
  }

  function BareNames(out: seq<string>): (r: seq<string>)
    ensures |r| == |out|
  {
    seq(|out|, i requires 0 <= i < |out| => Bare(out[i]))
  }

  predicate Marked(shown: string) {
    shown != "" && shown[0] == '@'
  }

  /** `shown` is `c`'s key, and is marked exactly if `c` may moderate. */
  ghost predicate Shows<C>(w: World<C>, ch: string, shown: string, c: C) {
    IsMember(w, ch, c) && Bare(shown) == Key(w.sessions[c]) && (Marked(shown) <==> w.sessions[c].canModerate)
  }

  /** Some line of the list shows `c`. */
  ghost predicate IsShown<C>(out: seq<string>, w: World<C>, ch: string, c: C) {
    exists shown :: shown in out && Shows(w, ch, shown, c)
  }

  /** The list shows members only, all of them, and each one once. */
  ghost predicate ReadsBack<C>(out: seq<string>, w: World<C>, ch: string) {
    && (forall shown :: shown in out ==> exists c :: c in w.sessions && Shows(w, ch, shown, c))
    && (forall c :: c in w.sessions && IsMember(w, ch, c) ==> IsShown(out, w, ch, c))
    && NoDuplicates(BareNames(out))
  }

  /** No member of the channel has a nick that begins with the mark. */
  ghost predicate PlainMembers<C>(w: World<C>, ch: string) {
    forall c :: c in w.sessions && IsMember(w, ch, c) ==> !Marked(w.sessions[c].nick)
  }

  /** The mark can be taken off again, and tells operators apart, where no key begins with it. */
  lemma DisplayReads(k: string, canModerate: bool)
    requires k != "" && k[0] != '@'
    ensures Bare(Display(k, canModerate)) == k
    ensures Marked(Display(k, canModerate)) <==> canModerate
  {
  }

  /** The mark is an '@' in front, and only one. */
  lemma DisplayMeans(k: string)
    ensures Display(k, false) == k && Display("@" + k, true) == "@" + k
    ensures k != "" && k[0] != '@' ==> Display(k, true) == "@" + k
  {
    assert ("@" + k)[1..] == k;
  }

  lemma {:induction false} PickValues(m: map<string, string>, keys: seq<string>, shown: string)
    requires forall k :: k in keys ==> k in m
    ensures shown in Pick(m, keys) <==> exists k :: k in keys && m[k] == shown
  {
    if keys != [] {
      var front, last := keys[..|keys| - 1], keys[|keys| - 1];
      PickValues(m, front, shown);
      assert keys == front + [last];
      assert shown in Pick(m, keys) <==> shown in Pick(m, front) || shown == m[last];
    }
  }

  lemma {:induction false} BarePick(m: map<string, string>, keys: seq<string>)
    requires forall k :: k in keys ==> k in m && Bare(m[k]) == k
    ensures BareNames(Pick(m, keys)) == keys
  {
    if keys != [] {
      var front, last := keys[..|keys| - 1], keys[|keys| - 1];
      BarePick(m, front);
      BareConcat(Pick(m, front), [m[last]]);
      assert keys == front + [last];
    }
  }

  lemma BareConcat(a: seq<string>, b: seq<string>)
    ensures BareNames(a + b) == BareNames(a) + BareNames(b)
  {
  }

  function Without<T>(b: seq<T>, j: nat): seq<T>
    requires j < |b|
  {
    b[..j] + b[j + 1..]
  }

  lemma WithoutOne<T>(b: seq<T>, j: nat)
    requires j < |b|
    ensures multiset(b) == multiset(Without(b, j)) + multiset{b[j]}
    ensures multiset(Without(b, j)) == multiset(b) - multiset{b[j]}
  {
    assert b == b[..j] + [b[j]] + b[j + 1..];
  }

  lemma BareWithout(b: seq<string>, j: nat)
    requires j < |b|
    ensures BareNames(Without(b, j)) == Without(BareNames(b), j)
  {
  }

  lemma {:induction false} BarePermutes(a: seq<string>, b: seq<string>)
    requires multiset(a) == multiset(b)
    ensures multiset(BareNames(a)) == multiset(BareNames(b))
  {
    assert |multiset(a)| == |a| && |multiset(b)| == |b|;
    if a != [] {
      assert a[0] in multiset(b);
      var j :| 0 <= j < |b| && b[j] == a[0];
      WithoutOne(a, 0);
      WithoutOne(b, j);
      BarePermutes(Without(a, 0), Without(b, j));
      BareWithout(a, 0);
      BareWithout(b, j);
      WithoutOne(BareNames(a), 0);
      WithoutOne(BareNames(b), j);
    }
  }

  /** A member has a key, which begins with the mark exactly if its nick does. */
  lemma MemberKey<C>(cfg: Config, w: World<C>, ch: string, c: C)
    requires Basic(cfg, w) && IsMember(w, ch, c) && ch != ""
    ensures Key(w.sessions[c]) != "" && (Marked(Key(w.sessions[c])) <==> Marked(w.sessions[c].nick))
  {
    assert SessionOk(cfg, w.sessions[c]);
    assert LowerChar(w.sessions[c].nick[0]) == '@' <==> w.sessions[c].nick[0] == '@';
  }

  /** A key that is shown is the key of a member, and shown as it is displayed. */
  lemma KeyMember<C>(cfg: Config, w: World<C>, ch: string, k: string) returns (c: C)
    requires Basic(cfg, w) && Agree(w) && NamesAre(w, Trimmed) && ch != "" && k in Members(w, ch)
    ensures c in w.sessions && IsMember(w, ch, c) && k == Key(w.sessions[c]) && k != ""
    ensures Members(w, ch)[k] == Display(k, w.sessions[c].canModerate)
  {
    c := w.peers[ch][k];
    ShownIsMember(cfg, w, ch, k, c);
    MemberKey(cfg, w, ch, c);
  }

  lemma KeyShows<C>(cfg: Config, w: World<C>, ch: string, k: string) returns (c: C)
    requires Basic(cfg, w) && Agree(w) && NamesAre(w, Trimmed) && ch != "" && k in Members(w, ch)
    requires PlainMembers(w, ch)
    ensures c in w.sessions && k == Key(w.sessions[c]) && Shows(w, ch, Members(w, ch)[k], c)
    ensures Bare(Members(w, ch)[k]) == k
  {
    c := KeyMember(cfg, w, ch, k);
    MemberKey(cfg, w, ch, c);
    DisplayReads(k, w.sessions[c].canModerate);
  }

  lemma ListingValues(out: seq<string>, m: map<string, string>, shown: string)
    requires IsListing(out, m)
    ensures shown in out <==> exists k :: k in m && m[k] == shown
  {
    var keys :| Enumerates(keys, m.Keys) && multiset(out) == multiset(Pick(m, keys));
    PickValues(m, keys, shown);
    assert shown in multiset(out) <==> shown in multiset(Pick(m, keys));
  }

  lemma ListingOnce(out: seq<string>, m: map<string, string>)
    requires IsListing(out, m) && forall k :: k in m ==> Bare(m[k]) == k
    ensures NoDuplicates(BareNames(out))
  {
    var keys :| Enumerates(keys, m.Keys) && multiset(out) == multiset(Pick(m, keys));
    BarePick(m, keys);
    BarePermutes(out, Pick(m, keys));
    PermutationNoDuplicates(keys, BareNames(out));
  }

  lemma MemberShows<C>(cfg: Config, w: World<C>, ch: string, out: seq<string>, c: C)
    requires Basic(cfg, w) && Agree(w) && NamesAre(w, Trimmed) && PlainMembers(w, ch) && ch != ""
    requires IsListing(out, Members(w, ch)) && c in w.sessions && IsMember(w, ch, c)
    ensures IsShown(out, w, ch, c)
  {
    var m, k := Members(w, ch), Key(w.sessions[c]);
    ShownIsMember(cfg, w, ch, k, c);
    MemberKey(cfg, w, ch, c);
    DisplayReads(k, w.sessions[c].canModerate);
    ListingValues(out, m, m[k]);
  }

  lemma PlainReadsBack<C>(cfg: Config, w: World<C>, ch: string, out: seq<string>)
    requires Basic(cfg, w) && Agree(w) && NamesAre(w, Trimmed) && PlainMembers(w, ch) && ch != ""
    requires IsListing(out, Members(w, ch))
    ensures ReadsBack(out, w, ch)
  {
    var m := Members(w, ch);
    forall shown | shown in out ensures exists c :: c in w.sessions && Shows(w, ch, shown, c) {
      ListingValues(out, m, shown);
      var k :| k in m && m[k] == shown;
      var c := KeyShows(cfg, w, ch, k);
    }
    forall c | c in w.sessions && IsMember(w, ch, c) ensures IsShown(out, w, ch, c) {
      MemberShows(cfg, w, ch, out, c);
    }
    forall k | k in m ensures Bare(m[k]) == k {
      var c := KeyShows(cfg, w, ch, k);
    }
    ListingOnce(out, m);
  }

  /** What reads back as a name with the mark is displayed for a longer one. */
  lemma DisplayLonger(shown: string, k: string, longer: string, canModerate: bool)
    requires Marked(k) && Bare(shown) == k && shown == Display(longer, canModerate)
    ensures longer == "@" + k
  {
    assert shown == "@" + k;
    if canModerate {
      assert shown[1..] == TrimPrefix(longer, '@') == k;
    }
  }

  /** Where all members are shown, a marked key is shown under a longer one. */
  lemma LongerKey<C>(cfg: Config, w: World<C>, ch: string, out: seq<string>, k: string)
    requires Basic(cfg, w) && Agree(w) && NamesAre(w, Trimmed) && ch != "" && IsListing(out, Members(w, ch))
    requires forall c :: c in w.sessions && IsMember(w, ch, c) ==> IsShown(out, w, ch, c)
    requires k in Members(w, ch) && Marked(k)
    ensures "@" + k in Members(w, ch)
  {
    var m := Members(w, ch);
    var c := KeyMember(cfg, w, ch, k);
    var shown :| shown in out && Shows(w, ch, shown, c);
    ListingValues(out, m, shown);
    var longer :| longer in m && m[longer] == shown;
    var d := KeyMember(cfg, w, ch, longer);
    DisplayLonger(shown, k, longer, w.sessions[d].canModerate);
  }

  /** A finite set of strings has a longest one. */
  lemma {:induction false} Longest(s: set<string>, k: string) returns (longest: string)
    requires k in s
    ensures longest in s && |longest| >= |k| && forall t :: t in s ==> |t| <= |longest|
  {
    var rest := s - {k};
    if t :| t in rest {
      var other := Longest(rest, t);
      longest := if |other| >= |k| then other else k;
    } else {
      longest := k;
    }
    forall t | t in s ensures |t| <= |longest| {
      assert t == k || t in rest;
    }
  }

  /** So no finite channel shows all its members if one of them has a marked nick. */
  lemma ShownArePlain<C>(cfg: Config, w: World<C>, ch: string, out: seq<string>, c: C)
    requires Basic(cfg, w) && Agree(w) && NamesAre(w, Trimmed) && ch != "" && IsListing(out, Members(w, ch))
    requires forall d :: d in w.sessions && IsMember(w, ch, d) ==> IsShown(out, w, ch, d)
    requires c in w.sessions && IsMember(w, ch, c)
    ensures !Marked(w.sessions[c].nick)
  {
    MemberKey(cfg, w, ch, c);
    ShownIsMember(cfg, w, ch, Key(w.sessions[c]), c);
    if Marked(Key(w.sessions[c])) {
      var keys := set k | k in Members(w, ch) && Marked(k);
      var k := Longest(keys, Key(w.sessions[c]));
      LongerKey(cfg, w, ch, out, k);
    }
  }

  /**
   With the marks taken off, NAMES is exactly the members' keys, each once, marked exactly
   by the right to moderate, if and only if no member's nick begins with the mark.
   */
  lemma ListingReadsBackIff<C>(cfg: Config, w: World<C>, ch: string, out: seq<string>)
    requires Basic(cfg, w) && Agree(w) && NamesAre(w, Trimmed) && ch != "" && IsListing(out, Members(w, ch))
    ensures ReadsBack(out, w, ch) <==> PlainMembers(w, ch)
  {
    if PlainMembers(w, ch) {
      PlainReadsBack(cfg, w, ch, out);
    }
    if ReadsBack(out, w, ch) {
      forall c | c in w.sessions && IsMember(w, ch, c) ensures !Marked(w.sessions[c].nick) {
        ShownArePlain(cfg, w, ch, out, c);
      }
    }
  }

  /** The same on every guarded run; its commands only bring in trimmed names. */
  lemma ListingIsScanIff<C>(cfg: Config, es: seq<Event<C>>, ch: string, out: seq<string>)
    requires Guarded(cfg, es) && EventNames(es, Trimmed) && ch != "" && IsListing(out, Members(Run(cfg, es), ch))
    ensures ReadsBack(out, Run(cfg, es), ch) <==> PlainMembers(Run(cfg, es), ch)
  {
    GuardedEnd(cfg, es);
    RunNames(cfg, es, Trimmed);
    ListingReadsBackIff(cfg, Run(cfg, es), ch, out);
  }
}
