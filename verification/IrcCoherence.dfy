/**
 When the nick index and the channel index agree with the connections: exactly which
 steps keep the agreement, and what it gives on a run.
 */
module IrcCoherence {
  import opened Wrappers
  import opened Text
  import opened IrcModel
  import opened IrcInvariants

  // ------------------------------------------------------------------
  // Agreement
  // ------------------------------------------------------------------

  /** `c` is stored in bucket `ch` under `k`. */
  ghost predicate Listed<C>(w: World<C>, ch: string, k: string, c: C) {
    ch in w.peers && k in w.peers[ch] && w.peers[ch][k] == c
  }

  ghost predicate Holds<C>(w: World<C>, k: string, c: C) {
    k in w.byNick && w.byNick[k] == c
  }

  /** An open authenticated connection is the one found under its nick. */
  ghost predicate OwnerOk<C>(w: World<C>, c: C)
    requires c in w.sessions
  {
    var s := w.sessions[c];
    s.open && s.authed ==> Holds(w, Key(s), c)
  }

  /** An entry of the channel index names an open connection by its channel and key. */
  ghost predicate EntryOk<C>(w: World<C>, ch: string, k: string, c: C) {
    Open(w, c) && w.sessions[c].channel == ch && Key(w.sessions[c]) == k
  }

  /** An open connection in a channel has its entry. */
  ghost predicate MemberOk<C>(w: World<C>, c: C)
    requires c in w.sessions
  {
    var s := w.sessions[c];
    s.open && s.channel != "" ==> Listed(w, s.channel, Key(s), c)
  }

  ghost predicate OwnersOk<C>(w: World<C>) {
    forall c :: c in w.sessions ==> OwnerOk(w, c)
  }

  ghost predicate EntriesOk<C>(w: World<C>) {
    forall ch, k :: ch in w.peers && k in w.peers[ch] ==> EntryOk(w, ch, k, w.peers[ch][k])
  }

  ghost predicate MembersOk<C>(w: World<C>) {
    forall c :: c in w.sessions ==> MemberOk(w, c)
  }

  ghost predicate PeersOk<C>(w: World<C>) {
    EntriesOk(w) && MembersOk(w)
  }

  /** Both indexes are plain scans of the open connections. */
  ghost predicate Agree<C>(w: World<C>) {
    OwnersOk(w) && PeersOk(w)
  }

  // ------------------------------------------------------------------
  // The steps that keep it
  // ------------------------------------------------------------------

  /** The nick index leads `k` to another, authenticated connection. */
  ghost predicate OtherOwns<C>(w: World<C>, c: C, k: string) {
    k in w.byNick && w.byNick[k] != c && Authed(w, w.byNick[k])
  }

  /**
   NICK: the key it removes must not be another owner's; a collision must not cost an
   authenticated caller its own; an accepted nick must keep its key inside a channel.
   */
  ghost predicate AllowedNick<C>(w: World<C>, c: C, nick: string)
    requires c in w.sessions
  {
    var s := w.sessions[c];
    var index := IndexWithout(w.byNick, s);
    var k := ToLower(nick);
    ValidNick(nick) ==>
      && !OtherOwns(w, c, Key(s))
      && if k in index && index[k] != c then !s.authed else s.channel != "" ==> k == Key(s)
  }

  /** Registration must not take another owner's key; a login after it finds its own key in place. */
  ghost predicate AllowedAuth<C>(cfg: Config, w: World<C>, c: C, verdict: Verdict)
    requires c in w.sessions
  {
    var s := w.sessions[c];
    var t := Authenticated(cfg, s, verdict);
    t.Some? ==>
      if s.registered then t.value.authed && !s.authed ==> Holds(w, Key(s), c)
      else !OtherOwns(w, c, if s.nick == "" then ToLower(s.user) else Key(s))
  }

  ghost predicate Allowed<C>(cfg: Config, w: World<C>, e: Event<C>) {
    Open(w, e.c) ==>
      match e
      case Nick(c, nick) => AllowedNick(w, c, nick)
      case TryAuth(c, verdict) => AllowedAuth(cfg, w, c, verdict)
      case _ => true
  }

  // ------------------------------------------------------------------
  // One change to one session and to the nick index
  // ------------------------------------------------------------------

  /** The channel index stays right while channel, openness and, in a channel, the key do. */
  lemma PeersKeep<C>(w: World<C>, c: C, s: Session, byNick: map<string, C>)
    requires PeersOk(w) && c in w.sessions
    requires var t := w.sessions[c]; s.open == t.open && s.channel == t.channel
    requires s.channel != "" ==> Key(s) == Key(w.sessions[c])
    requires "" !in w.peers
    ensures PeersOk(World(w.sessions[c := s], byNick, w.peers))
  {
    var w' := World(w.sessions[c := s], byNick, w.peers);
    forall d | d in w'.sessions ensures MemberOk(w', d) {
      assert MemberOk(w, d);
    }
    forall ch, k | ch in w'.peers && k in w'.peers[ch] ensures EntryOk(w', ch, k, w'.peers[ch][k]) {
      assert EntryOk(w, ch, k, w.peers[ch][k]);
    }
  }

  /** The other owners keep their keys exactly when each key that another connection owned still leads to it. */
  ghost predicate OthersKept<C>(w: World<C>, c: C, byNick: map<string, C>) {
    forall k :: OtherOwns(w, c, k) ==> k in byNick && byNick[k] == w.byNick[k]
  }

  lemma ChangeAgrees<C>(cfg: Config, w: World<C>, c: C, s: Session, byNick: map<string, C>)
    requires Basic(cfg, w) && Agree(w) && Open(w, c) && s.open && s.channel == w.sessions[c].channel
    requires s.channel != "" ==> Key(s) == Key(w.sessions[c])
    ensures Agree(World(w.sessions[c := s], byNick, w.peers)) <==>
      OthersKept(w, c, byNick) && (s.authed ==> Key(s) in byNick && byNick[Key(s)] == c)
  {
    var w' := World(w.sessions[c := s], byNick, w.peers);
    PeersKeep(w, c, s, byNick);
    if OwnersOk(w') {
      assert OwnerOk(w', c);
      forall k | OtherOwns(w, c, k) ensures k in byNick && byNick[k] == w.byNick[k] {
        assert KeyOk(w, k, w.byNick[k]) && OwnerOk(w', w.byNick[k]);
      }
    }
    if OthersKept(w, c, byNick) {
      forall d | d in w.sessions && d != c ensures OwnerOk(w', d) {
        assert OwnerOk(w, d);
        if w.sessions[d].open && w.sessions[d].authed { assert OtherOwns(w, c, Key(w.sessions[d])); }
      }
    }
  }

  /** A change of one session that keeps nick and index. */
  lemma PutAgrees<C>(cfg: Config, w: World<C>, c: C, s: Session)
    requires Basic(cfg, w) && Agree(w) && Open(w, c)
    requires var t := w.sessions[c]; s.open && s.channel == t.channel && (t.channel != "" ==> s.nick == t.nick)
    ensures Agree(Put(w, c, s)) <==> (s.authed ==> Holds(w, Key(s), c))
  {
    ChangeAgrees(cfg, w, c, s, w.byNick);
  }

  // ------------------------------------------------------------------
  // NICK, USER and registration
  // ------------------------------------------------------------------

  lemma RefusedNickAgrees<C>(cfg: Config, w: World<C>, c: C, index: map<string, C>)
    requires Basic(cfg, w) && Agree(w) && Open(w, c) && index == IndexWithout(w.byNick, w.sessions[c])
    ensures Agree(w.(byNick := index)) <==> !OtherOwns(w, c, Key(w.sessions[c])) && !w.sessions[c].authed
  {
    var s := w.sessions[c];
    assert SessionOk(cfg, s);
    assert w.sessions[c := s] == w.sessions;
    ChangeAgrees(cfg, w, c, s, index);
    WithoutKeeps(cfg, w, c);
  }

  /** Removing the caller's key costs exactly another owner of that key. */
  lemma WithoutKeeps<C>(cfg: Config, w: World<C>, c: C)
    requires Basic(cfg, w) && Open(w, c)
    ensures var s := w.sessions[c];
      OthersKept(w, c, IndexWithout(w.byNick, s)) <==> !OtherOwns(w, c, Key(s))
  {
    assert SessionOk(cfg, w.sessions[c]);
    assert "" !in w.byNick;
  }

  lemma AcceptedNickAgrees<C>(cfg: Config, w: World<C>, c: C, nick: string, index: map<string, C>)
    requires Basic(cfg, w) && Agree(w) && Open(w, c) && index == IndexWithout(w.byNick, w.sessions[c])
    requires ToLower(nick) in index ==> index[ToLower(nick)] == c
    ensures var s, k := w.sessions[c], ToLower(nick);
      Agree(World(w.sessions[c := SetNick(s, nick)], index[k := c], w.peers)) <==>
      !OtherOwns(w, c, Key(s)) && (s.channel != "" ==> k == Key(s))
  {
    var s, k := w.sessions[c], ToLower(nick);
    var w' := World(w.sessions[c := SetNick(s, nick)], index[k := c], w.peers);
    assert MemberOk(w, c);
    if s.channel != "" && k != Key(s) {
      assert Listed(w', s.channel, Key(s), c);
      assert !EntryOk(w', s.channel, Key(s), c);
    } else {
      ChangeAgrees(cfg, w, c, SetNick(s, nick), index[k := c]);
      WithoutKeeps(cfg, w, c);
      TakenKeeps(w, c, index, k);
    }
  }

  lemma TakenKeeps<C>(w: World<C>, c: C, index: map<string, C>, k: string)
    requires k in index ==> index[k] == c
    requires forall j :: j in index ==> j in w.byNick && w.byNick[j] == index[j]
    ensures OthersKept(w, c, index) <== OthersKept(w, c, index[k := c])
    ensures OthersKept(w, c, index) ==> OthersKept(w, c, index[k := c])
  {
  }

  lemma NickAgrees<C>(cfg: Config, w: World<C>, c: C, nick: string)
    requires Basic(cfg, w) && Agree(w) && Open(w, c)
    ensures Agree(NickStep(w, c, nick)) <==> AllowedNick(w, c, nick)
  {
    if ValidNick(nick) {
      var index := IndexWithout(w.byNick, w.sessions[c]);
      if ToLower(nick) in index && index[ToLower(nick)] != c {
        RefusedNickAgrees(cfg, w, c, index);
      } else {
        AcceptedNickAgrees(cfg, w, c, nick, index);
      }
    }
  }

  lemma UserAgrees<C>(cfg: Config, w: World<C>, c: C, user: string)
    requires Basic(cfg, w) && Agree(w) && Open(w, c)
    ensures Agree(Put(w, c, UserStep(w.sessions[c], user)))
  {
    var s := w.sessions[c];
    assert SessionOk(cfg, s) && OwnerOk(w, c);
    PutAgrees(cfg, w, c, UserStep(s, user));
  }

  lemma AuthAgrees<C>(cfg: Config, w: World<C>, c: C, verdict: Verdict)
    requires Basic(cfg, w) && Agree(w) && Open(w, c)
    ensures Agree(TryAuthStep(cfg, w, c, verdict)) <==> AllowedAuth(cfg, w, c, verdict)
  {
    var s := w.sessions[c];
    assert SessionOk(cfg, s) && OwnerOk(w, c);
    if Authenticated(cfg, s, verdict).Some? {
      AuthenticatedOk(cfg, s, verdict);
      var t := Authenticated(cfg, s, verdict).value;
      if s.registered {
        PutAgrees(cfg, w, c, Registered(t));
      } else {
        RegisteredKey(cfg, s, verdict);
        var k := Key(Registered(t));
        ChangeAgrees(cfg, w, c, Registered(t), w.byNick[k := c]);
        OverwriteKeeps(w, c, k);
      }
    }
  }

  /** Storing the caller under a key costs exactly another owner of that key. */
  lemma OverwriteKeeps<C>(w: World<C>, c: C, k: string)
    ensures OthersKept(w, c, w.byNick[k := c]) <==> !OtherOwns(w, c, k)
  {
  }

  lemma RegisteredKey(cfg: Config, s: Session, verdict: Verdict)
    requires SessionOk(cfg, s) && !s.registered && Authenticated(cfg, s, verdict).Some?
    ensures Key(Registered(Authenticated(cfg, s, verdict).value)) == if s.nick == "" then ToLower(s.user) else Key(s)
  {
  }

  // ------------------------------------------------------------------
  // Moving and leaving
  // ------------------------------------------------------------------

  /** Open authenticated connections with the same key are the same connection. */
  lemma KeyUnique<C>(w: World<C>, c: C, d: C)
    requires OwnersOk(w) && Open(w, c) && Open(w, d)
    requires w.sessions[c].authed && w.sessions[d].authed && Key(w.sessions[c]) == Key(w.sessions[d])
    ensures c == d
  {
    assert OwnerOk(w, c) && OwnerOk(w, d);
  }

  lemma SetChannelAgrees<C>(cfg: Config, w: World<C>, c: C, ch: string)
    requires Basic(cfg, w) && Agree(w) && Open(w, c) && (ch != "" ==> w.sessions[c].authed)
    ensures Agree(SetChannel(w, c, ch))
  {
    var s := w.sessions[c];
    assert SessionOk(cfg, s) && MemberOk(w, c);
    var w' := SetChannel(w, c, ch);
    MovePeerEntries(w.peers, c, s, ch);
    forall d | d in w'.sessions ensures OwnerOk(w', d) {
      assert OwnerOk(w, d);
    }
    forall d | d in w'.sessions ensures MemberOk(w', d) {
      assert MemberOk(w, d);
      if d != c && w.sessions[d].open && w.sessions[d].channel != "" && s.authed {
        assert SessionOk(cfg, w.sessions[d]);
        if Key(w.sessions[d]) == Key(s) { KeyUnique(w, c, d); }
      }
    }
    forall d, k | d in w'.peers && k in w'.peers[d] ensures EntryOk(w', d, k, w'.peers[d][k]) {
      if !(d == ch && k == Key(s) && s.nick != "") {
        assert EntryOk(w, d, k, w.peers[d][k]);
      }
    }
  }

  lemma KickAgrees<C>(cfg: Config, w: World<C>, c: C, target: string)
    requires Basic(cfg, w) && Agree(w) && Open(w, c)
    ensures Agree(KickStep(w, c, target))
  {
    if KickStep(w, c, target) != w {
      var d := Lookup(w, target).value;
      assert KeyOk(w, ToLower(target), d);
      SetChannelAgrees(cfg, w, d, "");
    }
  }

  /** Disconnecting a connection that no key leads to: it is in no channel. */
  lemma VanishAgrees<C>(cfg: Config, w: World<C>, c: C)
    requires Basic(cfg, w) && Agree(w) && Open(w, c) && !Indexed(w, c)
    ensures Agree(DisconnectStep(w, c)) && w.sessions[c].channel == ""
  {
    var s := w.sessions[c];
    assert SessionOk(cfg, s) && OwnerOk(w, c);
    assert !s.authed && s.channel == "";
    var w' := DisconnectStep(w, c);
    forall d | d in w'.sessions ensures OwnerOk(w', d) && MemberOk(w', d) {
      assert OwnerOk(w, d) && MemberOk(w, d);
    }
    forall d, k | d in w'.peers && k in w'.peers[d] ensures EntryOk(w', d, k, w'.peers[d][k]) {
      assert EntryOk(w, d, k, w.peers[d][k]);
    }
  }

  /** What `unregisterClientByConn` takes out of the indexes belongs to its connection. */
  lemma DisconnectEntries<C>(cfg: Config, w: World<C>, c: C)
    requires Basic(cfg, w) && Agree(w) && Open(w, c) && Indexed(w, c)
    ensures var s := w.sessions[c]; var w' := DisconnectStep(w, c);
      && s.nick != "" && Holds(w, Key(s), c)
      && (forall k :: k in w.byNick && k != Key(s) ==> w.byNick[k] != c)
      && w'.byNick == w.byNick - {Key(s)} && w'.peers == DropPeer(w.peers, s.channel, Key(s))
      && (forall d, k :: d in w.peers && k in w.peers[d] && d == s.channel && k == Key(s) ==> w.peers[d][k] == c)
  {
    var s := w.sessions[c];
    assert MemberOk(w, c);
    var j :| j in w.byNick && w.byNick[j] == c;
    assert KeyOk(w, j, c);
    forall k | k in w.byNick && w.byNick[k] == c ensures k == Key(s) {
      assert KeyOk(w, k, c);
    }
    assert "" !in w.peers;
  }

  lemma DisconnectAgrees<C>(cfg: Config, w: World<C>, c: C)
    requires Basic(cfg, w) && Agree(w) && Open(w, c)
    ensures Agree(DisconnectStep(w, c))
  {
    if !Indexed(w, c) {
      VanishAgrees(cfg, w, c);
    } else {
      var s := w.sessions[c];
      var w' := DisconnectStep(w, c);
      DisconnectEntries(cfg, w, c);
      DropPeerEntries(w.peers, s.channel, Key(s));
      forall d | d in w'.sessions ensures OwnerOk(w', d) && MemberOk(w', d) {
        assert OwnerOk(w, d) && MemberOk(w, d);
      }
      forall d, k | d in w'.peers && k in w'.peers[d] ensures EntryOk(w', d, k, w'.peers[d][k]) {
        assert EntryOk(w, d, k, w.peers[d][k]);
      }
    }
  }

  // ------------------------------------------------------------------
  // Every step, every run
  // ------------------------------------------------------------------

  lemma AcceptAgrees<C>(cfg: Config, w: World<C>, c: C)
    requires Basic(cfg, w) && Agree(w) && c !in w.sessions
    ensures Agree(Put(w, c, FRESH_SESSION))
  {
    var w' := Put(w, c, FRESH_SESSION);
    forall d | d in w'.sessions ensures OwnerOk(w', d) && MemberOk(w', d) {
      if d != c { assert OwnerOk(w, d) && MemberOk(w, d); }
    }
    forall ch, k | ch in w'.peers && k in w'.peers[ch] ensures EntryOk(w', ch, k, w'.peers[ch][k]) {
      assert EntryOk(w, ch, k, w.peers[ch][k]);
    }
  }

  lemma OwnStepAgrees<C>(cfg: Config, w: World<C>, e: Event<C>)
    requires Basic(cfg, w) && Agree(w) && Open(w, e.c)
    requires e.Pass? || e.CapReq? || e.SaslStart? || e.SaslPayload? || e.Poll?
    ensures Agree(Step(cfg, w, e))
  {
    var s := w.sessions[e.c];
    assert OwnerOk(w, e.c);
    match e
    case Pass(c, pass) => PutAgrees(cfg, w, c, PassStep(s, pass));
    case CapReq(c) => PutAgrees(cfg, w, c, s.(saslReq := true));
    case SaslStart(c) => PutAgrees(cfg, w, c, SaslStartStep(s));
    case SaslPayload(c, user, pass) => PutAgrees(cfg, w, c, SaslPayloadStep(s, user, pass));
    case Poll(c) => PutAgrees(cfg, w, c, s.(link := Receive(s.link)));
  }

  lemma MoveStepAgrees<C>(cfg: Config, w: World<C>, e: Event<C>)
    requires Basic(cfg, w) && Agree(w) && Open(w, e.c)
    requires e.Join? || e.Part? || e.Kick? || e.Disconnect?
    ensures Agree(Step(cfg, w, e))
  {
    match e
    case Join(c, channel) =>
      if w.sessions[c].authed && channel != "" { SetChannelAgrees(cfg, w, c, channel); }
    case Part(c) =>
      if w.sessions[c].authed { SetChannelAgrees(cfg, w, c, ""); }
    case Kick(c, target) => KickAgrees(cfg, w, c, target);
    case Disconnect(c) => DisconnectAgrees(cfg, w, c);
  }

  /** From agreement, a step leads to agreement exactly when it is allowed. */
  lemma StepAgrees<C>(cfg: Config, w: World<C>, e: Event<C>)
    requires Basic(cfg, w) && Agree(w)
    ensures Agree(Step(cfg, w, e)) <==> Allowed(cfg, w, e)
  {
    if e.Accept? {
      if e.c !in w.sessions { AcceptAgrees(cfg, w, e.c); }
    } else if Open(w, e.c) {
      match e
      case Nick(c, nick) => NickAgrees(cfg, w, c, nick);
      case User(c, user) => UserAgrees(cfg, w, c, user);
      case TryAuth(c, verdict) => AuthAgrees(cfg, w, c, verdict);
      case Join(_, _) => MoveStepAgrees(cfg, w, e);
      case Part(_) => MoveStepAgrees(cfg, w, e);
      case Kick(_, _) => MoveStepAgrees(cfg, w, e);
      case Disconnect(_) => MoveStepAgrees(cfg, w, e);
      case _ => OwnStepAgrees(cfg, w, e);
    }
  }

  /** Every step of the run was allowed in the state it met. */
  ghost predicate Guarded<C>(cfg: Config, es: seq<Event<C>>) {
    forall i :: 0 <= i < |es| ==> Allowed(cfg, Run(cfg, es[..i]), es[i])
  }

  ghost predicate AgreeThroughout<C>(cfg: Config, es: seq<Event<C>>) {
    forall i :: 0 <= i <= |es| ==> Agree(Run(cfg, es[..i]))
  }

  /** Both indexes are scans throughout a run exactly when it is guarded. */
  lemma GuardedRuns<C>(cfg: Config, es: seq<Event<C>>)
    ensures AgreeThroughout(cfg, es) <==> Guarded(cfg, es)
  {
    if Guarded(cfg, es) {
      forall i | 0 <= i <= |es| ensures Agree(Run(cfg, es[..i])) {
        GuardedPrefix(cfg, es, i);
      }
    } else if AgreeThroughout(cfg, es) {
      forall i | 0 <= i < |es| ensures Allowed(cfg, Run(cfg, es[..i]), es[i]) {
        NextAgrees(cfg, es, i);
      }
    }
  }

  lemma NextAgrees<C>(cfg: Config, es: seq<Event<C>>, i: nat)
    requires i < |es| && Agree(Run(cfg, es[..i]))
    ensures Agree(Run(cfg, es[..i + 1])) <==> Allowed(cfg, Run(cfg, es[..i]), es[i])
  {
    RunNext(cfg, es, i);
    RunBasic(cfg, es[..i]);
    StepAgrees(cfg, Run(cfg, es[..i]), es[i]);
  }

  lemma {:induction false} GuardedPrefix<C>(cfg: Config, es: seq<Event<C>>, i: nat)
    requires Guarded(cfg, es) && i <= |es|
    ensures Agree(Run(cfg, es[..i]))
  {
    if i > 0 {
      GuardedPrefix(cfg, es, i - 1);
      NextAgrees(cfg, es, i - 1);
    }
  }

  lemma GuardedEnd<C>(cfg: Config, es: seq<Event<C>>)
    requires Guarded(cfg, es)
    ensures Basic(cfg, Run(cfg, es)) && Agree(Run(cfg, es))
  {
    GuardedPrefix(cfg, es, |es|);
    RunBasic(cfg, es);
    assert es[..|es|] == es;
  }

  // ------------------------------------------------------------------
  // What a guarded run gives
  // ------------------------------------------------------------------

  lemma EntryIsMember<C>(cfg: Config, w: World<C>, ch: string, k: string, c: C)
    requires Basic(cfg, w) && Agree(w)
    ensures Listed(w, ch, k, c) <==> Open(w, c) && ch != "" && w.sessions[c].channel == ch && k == Key(w.sessions[c])
  {
    if Listed(w, ch, k, c) {
      assert EntryOk(w, ch, k, w.peers[ch][k]);
    }
    if Open(w, c) && ch != "" && w.sessions[c].channel == ch && k == Key(w.sessions[c]) {
      assert MemberOk(w, c);
    }
  }

  /** The channel index holds exactly the open connections, by their channel and key. */
  lemma ChannelIndexIsScan<C>(cfg: Config, es: seq<Event<C>>, ch: string, k: string, c: C)
    requires Guarded(cfg, es)
    ensures var w := Run(cfg, es);
      Listed(w, ch, k, c) <==> Open(w, c) && ch != "" && w.sessions[c].channel == ch && k == Key(w.sessions[c])
  {
    GuardedEnd(cfg, es);
    EntryIsMember(cfg, Run(cfg, es), ch, k, c);
  }

  /** An authenticated open connection is the one found under its nick, and no other one shares it. */
  lemma NickIndexIsScan<C>(cfg: Config, es: seq<Event<C>>, c: C, d: C)
    requires Guarded(cfg, es)
    requires var w := Run(cfg, es); Open(w, c) && w.sessions[c].authed
    ensures var w := Run(cfg, es); Lookup(w, w.sessions[c].nick) == Some(c)
    ensures var w := Run(cfg, es);
      Open(w, d) && w.sessions[d].authed && Key(w.sessions[d]) == Key(w.sessions[c]) ==> d == c
  {
    GuardedEnd(cfg, es);
    var w := Run(cfg, es);
    assert OwnerOk(w, c);
    if Open(w, d) && w.sessions[d].authed && Key(w.sessions[d]) == Key(w.sessions[c]) {
      KeyUnique(w, c, d);
    }
  }

  /** Disconnecting takes the connection out of both indexes and leaves every other entry alone. */
  lemma DisconnectErases<C>(cfg: Config, es: seq<Event<C>>, c: C, d: C, ch: string, k: string)
    requires Guarded(cfg, es) && Open(Run(cfg, es), c)
    ensures var w, w' := Run(cfg, es), Run(cfg, es + [Disconnect(c)]);
      && (Holds(w', k, d) <==> Holds(w, k, d) && d != c)
      && (Listed(w', ch, k, d) <==> Listed(w, ch, k, d) && d != c)
  {
    GuardedEnd(cfg, es);
    assert (es + [Disconnect(c)])[..|es|] == es;
    ErasedEntries(cfg, Run(cfg, es), c, d, ch, k);
  }

  lemma ErasedEntries<C>(cfg: Config, w: World<C>, c: C, d: C, ch: string, k: string)
    requires Basic(cfg, w) && Agree(w) && Open(w, c)
    ensures var w' := DisconnectStep(w, c);
      && (Holds(w', k, d) <==> Holds(w, k, d) && d != c)
      && (Listed(w', ch, k, d) <==> Listed(w, ch, k, d) && d != c)
  {
    EntryIsMember(cfg, w, ch, k, c);
    if Indexed(w, c) {
      DisconnectEntries(cfg, w, c);
      DropPeerEntries(w.peers, w.sessions[c].channel, Key(w.sessions[c]));
    } else {
      VanishAgrees(cfg, w, c);
    }
  }
}
