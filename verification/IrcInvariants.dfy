/** What every run of the IRC server keeps, with no condition on what the clients send. */
module IrcInvariants {
  import opened Wrappers
  import opened Text
  import opened IrcModel

  // ------------------------------------------------------------------
  // The invariant
  // ------------------------------------------------------------------

  /** What the poller will watch once its queue is drained. */
  function Pending(link: Link): string {
    if link.queue == [] then link.watching else link.queue[|link.queue| - 1]
  }

  /** The queue is bounded, and leads to the real channel unless the last switch was dropped. */
  predicate LinkOk(link: Link, channel: string) {
    |link.queue| <= QUEUE_SLOTS && (!link.dropped ==> Pending(link) == channel)
  }

  predicate SessionOk(cfg: Config, s: Session) {
    && s.nick == s.stateNick
    && (s.authed ==> s.registered)
    && (s.registered ==> s.nick != "")
    && (s.canModerate ==> s.authed)
    && (s.channel != "" ==> s.authed)
    && (cfg.requirePass ==> s.registered == s.authed)
    && LinkOk(s.link, s.channel)
  }

  ghost predicate SessionsOk<C>(cfg: Config, w: World<C>) {
    forall c :: c in w.sessions ==> SessionOk(cfg, w.sessions[c])
  }

  /** A key of the nick index is the fold of the non-empty nick of an open connection. */
  ghost predicate KeyOk<C>(w: World<C>, k: string, c: C) {
    Open(w, c) && w.sessions[c].nick != "" && k == Key(w.sessions[c])
  }

  ghost predicate KeysOk<C>(w: World<C>) {
    forall k :: k in w.byNick ==> KeyOk(w, k, w.byNick[k])
  }

  ghost predicate Authed<C>(w: World<C>, c: C) {
    c in w.sessions && w.sessions[c].authed
  }

  predicate NoEmptyBucket<C>(peers: map<string, map<string, C>>) {
    "" !in peers && forall ch :: ch in peers ==> peers[ch] != map[]
  }

  /** No bucket is empty or nameless, and only authenticated connections are in one. */
  ghost predicate BucketsOk<C>(w: World<C>) {
    && NoEmptyBucket(w.peers)
    && forall ch, k :: ch in w.peers && k in w.peers[ch] ==> Authed(w, w.peers[ch][k])
  }

  ghost predicate Basic<C>(cfg: Config, w: World<C>) {
    SessionsOk(cfg, w) && KeysOk(w) && BucketsOk(w)
  }

  // ------------------------------------------------------------------
  // One session
  // ------------------------------------------------------------------

  lemma SwitchOk(cfg: Config, s: Session, ch: string)
    requires SessionOk(cfg, s) && (ch != "" ==> s.authed)
    ensures SessionOk(cfg, SwitchTo(s, ch))
  {
  }

  lemma ReceiveOk(link: Link, channel: string)
    requires LinkOk(link, channel)
    ensures LinkOk(Receive(link), channel)
  {
  }

  /** What `tryAuthenticate` hands to `completeRegistration`. */
  lemma AuthenticatedOk(cfg: Config, s: Session, verdict: Verdict)
    requires SessionOk(cfg, s) && Authenticated(cfg, s, verdict).Some?
    ensures var r := Registered(Authenticated(cfg, s, verdict).value);
      && SessionOk(cfg, r) && r.registered && r.nick != ""
      && r.open == s.open && r.channel == s.channel
      && (s.nick != "" ==> r.nick == s.nick) && (s.authed ==> r.authed)
      && Authenticated(cfg, s, verdict).value.registered == s.registered
  {
  }

  // ------------------------------------------------------------------
  // One change to the shared state
  // ------------------------------------------------------------------

  /**
   Replacing the session of `c`, the nick index and the channel index keeps the
   invariant when new index entries lead to `c` and fit its new session.
   */
  lemma ChangeBasic<C>(cfg: Config, w: World<C>, c: C, s: Session,
                       byNick: map<string, C>, peers: map<string, map<string, C>>)
    requires Basic(cfg, w) && SessionOk(cfg, s)
    requires c in w.sessions && w.sessions[c].authed ==> s.authed
    requires forall k :: k in byNick ==>
      if byNick[k] == c then s.open && s.nick != "" && k == Key(s) else k in w.byNick && w.byNick[k] == byNick[k]
    requires NoEmptyBucket(peers)
    requires forall ch, k :: ch in peers && k in peers[ch] ==>
      (peers[ch][k] == c && s.authed) || (ch in w.peers && k in w.peers[ch] && w.peers[ch][k] == peers[ch][k])
    ensures Basic(cfg, World(w.sessions[c := s], byNick, peers))
  {
    var w' := World(w.sessions[c := s], byNick, peers);
    forall k | k in w'.byNick ensures KeyOk(w', k, w'.byNick[k]) {
      if byNick[k] != c {
        assert KeyOk(w, k, w.byNick[k]);
      }
    }
    forall ch, k | ch in w'.peers && k in w'.peers[ch] ensures Authed(w', w'.peers[ch][k]) {
      if !(peers[ch][k] == c && s.authed) {
        assert Authed(w, w.peers[ch][k]);
      }
    }
  }

  /** A change of one session that keeps its nick. */
  lemma PutBasic<C>(cfg: Config, w: World<C>, c: C, s: Session)
    requires Basic(cfg, w) && SessionOk(cfg, s)
    requires c in w.sessions ==>
      && (w.sessions[c].authed ==> s.authed)
      && (w.sessions[c].open ==> s.open)
      && (w.sessions[c].nick != "" ==> s.nick == w.sessions[c].nick)
    ensures Basic(cfg, Put(w, c, s))
  {
    forall k | k in w.byNick && w.byNick[k] == c ensures s.open && s.nick != "" && k == Key(s) {
      assert KeyOk(w, k, c);
    }
    ChangeBasic(cfg, w, c, s, w.byNick, w.peers);
  }

  /** Removing one key removes that entry and nothing else. */
  lemma DropPeerEntries<C>(peers: map<string, map<string, C>>, ch: string, k: string)
    requires NoEmptyBucket(peers)
    ensures var r := DropPeer(peers, ch, k);
      && NoEmptyBucket(r)
      && (forall d, j :: d in r && j in r[d] ==>
            d in peers && j in peers[d] && r[d][j] == peers[d][j] && !(d == ch && j == k))
      && (forall d, j :: d in peers && j in peers[d] && !(d == ch && j == k) ==> d in r && j in r[d])
  {
    if ch != "" && ch in peers {
      var bucket := peers[ch] - {k};
      forall j | j in peers[ch] && j != k ensures bucket != map[] {
        assert j in bucket;
      }
    }
  }

  lemma AddPeerEntries<C>(peers: map<string, map<string, C>>, ch: string, k: string, c: C)
    requires NoEmptyBucket(peers) && ch != ""
    ensures var r := AddPeer(peers, ch, k, c);
      && NoEmptyBucket(r)
      && ch in r && k in r[ch] && r[ch][k] == c
      && (forall d, j :: d in r && j in r[d] && !(d == ch && j == k) ==>
            d in peers && j in peers[d] && r[d][j] == peers[d][j])
      && (forall d, j :: d in peers && j in peers[d] ==> d in r && j in r[d])
  {
  }

  /** After `moveClient`, only the entry of the moved client differs. */
  lemma MovePeerEntries<C>(peers: map<string, map<string, C>>, c: C, s: Session, ch: string)
    requires NoEmptyBucket(peers)
    ensures var r := MovePeer(peers, c, s, ch);
      && NoEmptyBucket(r)
      && (forall d, j :: d in r && j in r[d] && !(d == ch && j == Key(s) && s.nick != "") ==>
            d in peers && j in peers[d] && r[d][j] == peers[d][j] && !(d == s.channel && j == Key(s)))
      && (forall d, j :: d in peers && j in peers[d] && !(d == s.channel && j == Key(s)) ==> d in r && j in r[d])
      && (ch != "" && s.nick != "" ==> ch in r && Key(s) in r[ch] && r[ch][Key(s)] == c)
  {
    DropPeerEntries(peers, s.channel, Key(s));
    if ch != "" && s.nick != "" {
      AddPeerEntries(DropPeer(peers, s.channel, Key(s)), ch, Key(s), c);
    }
  }

  lemma SetChannelBasic<C>(cfg: Config, w: World<C>, c: C, ch: string)
    requires Basic(cfg, w) && c in w.sessions && (ch != "" ==> w.sessions[c].authed)
    ensures Basic(cfg, SetChannel(w, c, ch))
  {
    var s := w.sessions[c];
    assert SessionOk(cfg, s);
    SwitchOk(cfg, s, ch);
    MovePeerEntries(w.peers, c, s, ch);
    forall k | k in w.byNick && w.byNick[k] == c
      ensures SwitchTo(s, ch).open && SwitchTo(s, ch).nick != "" && k == Key(SwitchTo(s, ch))
    {
      assert KeyOk(w, k, c);
    }
    ChangeBasic(cfg, w, c, SwitchTo(s, ch), w.byNick, MovePeer(w.peers, c, s, ch));
  }

  lemma NickBasic<C>(cfg: Config, w: World<C>, c: C, nick: string)
    requires Basic(cfg, w) && Open(w, c)
    ensures Basic(cfg, NickStep(w, c, nick))
  {
    if ValidNick(nick) {
      var s := w.sessions[c];
      assert SessionOk(cfg, s);
      var index := IndexWithout(w.byNick, s);
      forall k | k in index ensures index[k] != c {
        assert KeyOk(w, k, w.byNick[k]);
      }
      if ToLower(nick) in index {
        ChangeBasic(cfg, w, c, s, index, w.peers);
        assert w.sessions[c := s] == w.sessions;
      } else {
        ChangeBasic(cfg, w, c, SetNick(s, nick), index[ToLower(nick) := c], w.peers);
      }
    }
  }

  lemma TryAuthBasic<C>(cfg: Config, w: World<C>, c: C, verdict: Verdict)
    requires Basic(cfg, w) && Open(w, c)
    ensures Basic(cfg, TryAuthStep(cfg, w, c, verdict))
  {
    var s := w.sessions[c];
    assert SessionOk(cfg, s);
    if Authenticated(cfg, s, verdict).Some? {
      AuthenticatedOk(cfg, s, verdict);
      var r := Registered(Authenticated(cfg, s, verdict).value);
      forall k | k in w.byNick && w.byNick[k] == c ensures r.nick == s.nick && k == Key(r) {
        assert KeyOk(w, k, c);
      }
      ChangeBasic(cfg, w, c, r, if s.registered then w.byNick else w.byNick[Key(r) := c], w.peers);
    }
  }

  lemma DisconnectBasic<C>(cfg: Config, w: World<C>, c: C)
    requires Basic(cfg, w) && Open(w, c)
    ensures Basic(cfg, DisconnectStep(w, c))
  {
    var s := w.sessions[c];
    assert SessionOk(cfg, s);
    forall k | k in w.byNick && w.byNick[k] == c ensures s.nick != "" && k == Key(s) && Indexed(w, c) {
      assert KeyOk(w, k, c);
    }
    DropPeerEntries(w.peers, s.channel, Key(s));
    if Indexed(w, c) {
      ChangeBasic(cfg, w, c, s.(open := false), w.byNick - {Key(s)}, DropPeer(w.peers, s.channel, Key(s)));
    } else {
      ChangeBasic(cfg, w, c, s.(open := false), w.byNick, w.peers);
    }
  }

  lemma KickBasic<C>(cfg: Config, w: World<C>, c: C, target: string)
    requires Basic(cfg, w) && Open(w, c)
    ensures Basic(cfg, KickStep(w, c, target))
  {
    if KickStep(w, c, target) != w {
      SetChannelBasic(cfg, w, Lookup(w, target).value, "");
    }
  }

  /** Steps that only touch the caller's own session. */
  lemma OwnStepBasic<C>(cfg: Config, w: World<C>, e: Event<C>)
    requires Basic(cfg, w) && Open(w, e.c)
    requires e.User? || e.Pass? || e.CapReq? || e.SaslStart? || e.SaslPayload? || e.Poll?
    ensures Basic(cfg, Step(cfg, w, e))
  {
    var s := w.sessions[e.c];
    assert SessionOk(cfg, s);
    match e
    case User(c, user) => PutBasic(cfg, w, c, UserStep(s, user));
    case Pass(c, pass) => PutBasic(cfg, w, c, PassStep(s, pass));
    case CapReq(c) => PutBasic(cfg, w, c, s.(saslReq := true));
    case SaslStart(c) => PutBasic(cfg, w, c, SaslStartStep(s));
    case SaslPayload(c, user, pass) => PutBasic(cfg, w, c, SaslPayloadStep(s, user, pass));
    case Poll(c) => ReceiveOk(s.link, s.channel); PutBasic(cfg, w, c, s.(link := Receive(s.link)));
  }

  /** Every step of every connection keeps the invariant. */
  lemma StepBasic<C>(cfg: Config, w: World<C>, e: Event<C>)
    requires Basic(cfg, w)
    ensures Basic(cfg, Step(cfg, w, e))
  {
    if e.Accept? {
      if e.c !in w.sessions { PutBasic(cfg, w, e.c, FRESH_SESSION); }
    } else if Open(w, e.c) {
      match e
      case Nick(c, nick) => NickBasic(cfg, w, c, nick);
      case TryAuth(c, verdict) => TryAuthBasic(cfg, w, c, verdict);
      case Join(c, channel) =>
        if w.sessions[c].authed && channel != "" { SetChannelBasic(cfg, w, c, channel); }
      case Part(c) =>
        if w.sessions[c].authed { SetChannelBasic(cfg, w, c, ""); }
      case Kick(c, target) => KickBasic(cfg, w, c, target);
      case Disconnect(c) => DisconnectBasic(cfg, w, c);
      case _ => OwnStepBasic(cfg, w, e);
    }
  }

  /** The invariant holds in every reachable state. */
  lemma {:induction false} RunBasic<C>(cfg: Config, es: seq<Event<C>>)
    ensures Basic(cfg, Run(cfg, es))
  {
    if es != [] {
      RunBasic(cfg, es[..|es| - 1]);
      StepBasic(cfg, Run(cfg, es[..|es| - 1]), es[|es| - 1]);
    }
  }

  // ------------------------------------------------------------------
  // What never goes back
  // ------------------------------------------------------------------

  predicate SessionLater(s: Session, t: Session) {
    (s.registered ==> t.registered) && (s.authed ==> t.authed) && (!s.open ==> !t.open)
  }

  ghost predicate Later<C>(w: World<C>, w': World<C>) {
    forall c :: c in w.sessions ==> c in w'.sessions && SessionLater(w.sessions[c], w'.sessions[c])
  }

  lemma OwnStepLater<C>(cfg: Config, w: World<C>, e: Event<C>)
    requires Open(w, e.c) && !e.Accept? && !e.Nick? && !e.TryAuth? && !e.Kick?
    ensures Later(w, Step(cfg, w, e))
  {
  }

  lemma AuthLater<C>(cfg: Config, w: World<C>, c: C, verdict: Verdict)
    requires c in w.sessions
    ensures Later(w, TryAuthStep(cfg, w, c, verdict))
  {
  }

  lemma StepLater<C>(cfg: Config, w: World<C>, e: Event<C>)
    ensures Later(w, Step(cfg, w, e))
  {
    if !e.Accept? && Open(w, e.c) {
      match e
      case Nick(c, nick) =>
      case TryAuth(c, verdict) => AuthLater(cfg, w, c, verdict);
      case Kick(c, target) =>
      case _ => OwnStepLater(cfg, w, e);
    }
  }

  /** Over any continuation of a run, registered and authed never go back. */
  lemma {:induction false} RunLater<C>(cfg: Config, es: seq<Event<C>>, i: nat)
    requires i <= |es|
    ensures Later(Run(cfg, es[..i]), Run(cfg, es))
    decreases |es| - i
  {
    if i < |es| {
      RunNext(cfg, es, i);
      StepLater(cfg, Run(cfg, es[..i]), es[i]);
      RunLater(cfg, es, i + 1);
    } else {
      assert es[..i] == es;
    }
  }

  // ------------------------------------------------------------------
  // Consequences for every run
  // ------------------------------------------------------------------

  /** No connection is stored under two keys, so the search in `unregisterClientByConn` has at most one match. */
  lemma AtMostOneKey<C>(cfg: Config, es: seq<Event<C>>, j: string, k: string)
    requires var w := Run(cfg, es); j in w.byNick && k in w.byNick && w.byNick[j] == w.byNick[k]
    ensures j == k
  {
    RunBasic(cfg, es);
    var w := Run(cfg, es);
    assert KeyOk(w, j, w.byNick[j]) && KeyOk(w, k, w.byNick[k]);
  }

  /** Once a connection is closed, no lookup returns it again, in any continuation of the run. */
  lemma ClosedIsNeverFound<C>(cfg: Config, es: seq<Event<C>>, i: nat, c: C, nick: string)
    requires i < |es| && es[i] == Disconnect(c) && c in Run(cfg, es[..i]).sessions
    ensures Lookup(Run(cfg, es), nick) != Some(c)
  {
    RunNext(cfg, es, i);
    RunLater(cfg, es, i + 1);
    RunBasic(cfg, es);
    var w := Run(cfg, es);
    assert !Run(cfg, es[..i + 1]).sessions[c].open;
    if ToLower(nick) in w.byNick {
      assert KeyOk(w, ToLower(nick), w.byNick[ToLower(nick)]);
    }
  }

  /** A drained poller watches the channel its client is in, unless the last switch was dropped. */
  lemma PollerFollows<C>(cfg: Config, es: seq<Event<C>>, c: C)
    requires c in Run(cfg, es).sessions
    ensures var s := Run(cfg, es).sessions[c];
      !s.link.dropped && s.link.queue == [] ==> s.link.watching == s.channel
  {
    RunBasic(cfg, es);
    assert SessionOk(cfg, Run(cfg, es).sessions[c]);
  }
}
