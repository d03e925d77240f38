/**
 The IRC server's objects: `Client` is an `ircClient` with its `ircState`, `Server` holds
 the two global indexes. Every method is proved to be the step, or the steps, of the
 transition system that its arm of `handleIRCConn` takes.
 */
module IrcServer {
  import opened Wrappers
  import opened Text
  import opened Sorting
  import opened FirstOccurrences
  import opened IrcCommands
  import opened IrcModel
  import opened IrcInvariants
  import opened IrcCoherence
  import opened IrcListing

  class Client {
    const conn: nat
    var open: bool
    var nick: string
    var stateNick: string
    var user: string
    var pass: string
    var saslReq: bool
    var awaitSasl: bool
    var authed: bool
    var registered: bool
    var canModerate: bool
    var channel: string
    var linePoll: seq<string>
    var watching: string
    var dropped: bool
    var realName: string

    constructor (conn: nat)
      ensures this.conn == conn && View() == FRESH_SESSION
    {
      this.conn := conn;
      open := true;
      nick, stateNick, user, pass := "", "", "", "";
      saslReq, awaitSasl, authed, registered, canModerate := false, false, false, false, false;
      channel, linePoll, watching, dropped, realName := "", [], "", false, "";
    }

    ghost function View(): Session
      reads this
    {
      Session(open, nick, stateNick, user, pass, saslReq, awaitSasl, authed, registered, canModerate, channel,
              Link(linePoll, watching, dropped))
    }

    method Rename(nick: string)
      modifies `nick, `stateNick
      ensures View() == SetNick(old(View()), nick)
    {
      this.nick := nick;
      stateNick := nick;
    }

    method TakeUser(user: string)
      requires !registered && user != ""
      modifies `user, `nick, `stateNick
      ensures View() == UserStep(old(View()), user)
    {
      this.user := user;
      if stateNick == "" {
        stateNick := user;
        nick := stateNick;
      }
    }

    method LogIn(moderator: Option<bool>)
      modifies `nick, `stateNick, `authed, `canModerate
      ensures View() == LoggedIn(old(View()), moderator)
    {
      authed := true;
      if moderator.Some? {
        canModerate := moderator.value;
      }
      if stateNick == "" {
        Rename(user);
      }
    }

    method TakeCredentials(authUser: string, authPass: string)
      requires saslReq && awaitSasl
      modifies `user, `pass, `awaitSasl
      ensures View() == SaslPayloadStep(old(View()), authUser, authPass)
    {
      user := if authUser == "" then stateNick else authUser;
      pass := authPass;
      awaitSasl := false;
    }

    method Receive()
      modifies `linePoll, `watching
      ensures View() == old(View()).(link := IrcModel.Receive(old(View()).link))
    {
      if linePoll != [] {
        watching := linePoll[0];
        linePoll := linePoll[1..];
      }
    }

    method Register()
      requires !registered
      modifies `nick, `stateNick, `registered
      ensures View() == Registered(old(View()))
    {
      registered := true;
      if stateNick == "" {
        Rename(user);
      }
      nick := stateNick;
    }
  }

  // ------------------------------------------------------------------
  // The steps that a command takes
  // ------------------------------------------------------------------

  ghost function TryIf<C>(c: C, proceed: bool, verdict: Verdict): seq<Event<C>> {
    if proceed then [Event.TryAuth(c, verdict)] else []
  }

  /** NICK: another connection has the key when the caller's own is gone. */
  predicate Collides<C(==)>(index: map<string, C>, c: C, key: string) {
    key in index && index[key] != c
  }

  /** NICK goes on when it was accepted and the caller has named an account. */
  ghost predicate Proceeds<C>(byNick: map<string, C>, s: Session, c: C, nick: string) {
    !Collides(IndexWithout(byNick, s), c, ToLower(nick)) && s.user != ""
  }

  ghost function NickSteps<C>(byNick: map<string, C>, s: Session, c: C, nick: string, verdict: Verdict): seq<Event<C>> {
    if !ValidNick(nick) then []
    else
      [Event.Nick(c, nick)] + TryIf(c, Proceeds(byNick, s, c, nick), verdict)
  }

  ghost function UserSteps<C>(s: Session, c: C, user: string, verdict: Verdict): seq<Event<C>> {
    if s.registered || user == "" then [] else [Event.User(c, user)] + TryIf(c, true, verdict)
  }

  ghost function PassSteps<C>(s: Session, c: C, raw: string, verdict: Verdict): seq<Event<C>> {
    if s.registered || raw == "" then []
    else [Event.Pass(c, Trim(raw, IsColon))] + TryIf(c, s.user != "", verdict)
  }

  ghost function SaslSteps<C>(s: Session, c: C, raw: string, decoded: Option<string>, verdict: Verdict): seq<Event<C>> {
    var chunk := TrimSpace(TrimPrefix(raw, ':'));
    if !s.saslReq then []
    else if ToLower(chunk) == "plain" then [Event.SaslStart(c)]
    else if chunk == "+" || !s.awaitSasl || decoded.None? then []
    else
      match SaslCredentials(decoded.value)
      case None => []
      case Some((user, pass)) => [Event.SaslPayload(c, user, pass)] + TryIf(c, true, verdict)
  }

  class Server {
    const cfg: Config
    var clientsByNick: map<string, Client>
    var channelPeers: map<string, map<string, Client>>
    var nextConn: nat
    ghost var clients: set<Client>
    ghost var byConn: map<nat, Client>
    ghost var trace: seq<Event<Client>>

    constructor (cfg: Config)
      ensures Valid() && this.cfg == cfg && trace == []
    {
      this.cfg := cfg;
      clientsByNick, channelPeers, nextConn, clients, byConn, trace := map[], map[], 0, {}, map[], [];
      new;
      assert View().sessions == map[];
    }

    ghost function Sessions(): map<Client, Session>
      reads this`clients, clients
    {
      map c | c in clients :: c.View()
    }

    ghost function View(): World<Client>
      reads this`clients, this`clientsByNick, this`channelPeers, clients
    {
      World(Sessions(), clientsByNick, channelPeers)
    }

    /** Connections are told apart by their numbers. */
    ghost predicate Numbered()
      reads this`clients, this`nextConn, this`byConn
    {
      forall c :: c in clients ==> c.conn < nextConn && c.conn in byConn && byConn[c.conn] == c
    }

    /** The run leads to `w`; the configuration is bound so that proofs unfold a run only where they name it. */
    ghost predicate LeadsTo(es: seq<Event<Client>>, w: World<Client>) {
      forall config :: config == cfg ==> Run(config, es) == w
    }

    /** The server's state is what the run in its trace leads to, whose commands only bring in trimmed names. */
    ghost predicate Valid()
      reads this, clients
    {
      Numbered() && LeadsTo(trace, View()) && EventNames(trace, Trimmed)
    }

    lemma StateOfTrace()
      requires Valid()
      ensures View() == Run(cfg, trace)
    {
    }

    /** If only `c` changed, only its session changed. */
    twostate lemma OnlyChanged(c: Client)
      requires c in old(clients) && clients == old(clients)
      requires forall d :: d in clients && d != c ==> unchanged(d)
      ensures View().sessions == old(View()).sessions[c := c.View()]
    {
    }

    /** What is known of runs holds for the server. */
    lemma TraceAgrees()
      requires Valid()
      ensures Basic(cfg, View()) && NamesAre(View(), Trimmed)
      ensures Guarded(cfg, trace) ==> Agree(View())
    {
      StateOfTrace();
      RunBasic(cfg, trace);
      RunNames(cfg, trace, Trimmed);
      if Guarded(cfg, trace) {
        GuardedEnd(cfg, trace);
      }
    }

    /** Enters a step that has been taken in the trace. */
    ghost method Took(e: Event<Client>)
      requires Numbered() && View() == Step(cfg, Run(cfg, trace), e)
      requires EventNames(trace, Trimmed) && Trimmed(EventName(e))
      modifies this`trace
      ensures Valid() && trace == old(trace) + [e]
    {
      RunSnoc(cfg, trace, e);
      NamesSnoc(trace, e, Trimmed);
      trace := trace + [e];
    }

    /** Accepting an admitted connection. */
    method Accept() returns (c: Client)
      requires Valid()
      modifies this`nextConn, this`clients, this`byConn, this`trace
      ensures fresh(c) && clients == old(clients) + {c} && c.open
      ensures Valid() && trace == old(trace) + [Event.Accept(c)]
    {
      c := NewClient();
      Took(Event.Accept(c));
    }

    method NewClient() returns (c: Client)
      requires Numbered()
      modifies this`nextConn, this`clients, this`byConn
      ensures fresh(c) && clients == old(clients) + {c} && c.open && Numbered()
      ensures View() == Put(old(View()), c, FRESH_SESSION)
    {
      c := new Client(nextConn);
      nextConn := nextConn + 1;
      clients := clients + {c};
      byConn := byConn[c.conn := c];
      assert Sessions() == old(Sessions())[c := FRESH_SESSION];
    }

    /** The mutex region of NICK. */
    method TakeNick(c: Client, nick: string) returns (accepted: bool)
      requires c in clients
      modifies this`clientsByNick, c`nick, c`stateNick
      ensures View() == IrcModel.TakeNick(old(View()), c, nick)
      ensures accepted <==> !Collides(IndexWithout(old(clientsByNick), old(c.View())), c, ToLower(nick))
      ensures accepted <==> Lookup(View(), nick) == Some(c)
    {
      var key := ToLower(nick);
      if c.stateNick != "" {
        clientsByNick := clientsByNick - {ToLower(c.stateNick)};
      }
      assert clientsByNick == IndexWithout(old(clientsByNick), c.View());
      if Collides(clientsByNick, c, key) {
        OnlyChanged(c);
        return false;
      }
      c.Rename(nick);
      clientsByNick := clientsByNick[key := c];
      OnlyChanged(c);
      return true;
    }

    method NickRegion(c: Client, nick: string, ghost proceeds: bool) returns (accepted: bool)
      requires Valid() && c in clients && c.open && ValidNick(nick) && Trimmed(nick)
      requires proceeds == Proceeds(clientsByNick, c.View(), c, nick)
      modifies this`clientsByNick, this`trace, c`nick, c`stateNick
      ensures Valid() && trace == old(trace) + [Event.Nick(c, nick)]
      ensures proceeds <==> accepted && c.user != ""
    {
      StateOfTrace();
      OpenStep(cfg, View(), Event.Nick(c, nick));
      accepted := TakeNick(c, nick);
      Took(Event.Nick(c, nick));
    }

    method NickGiven(c: Client, nick: string, verdict: Verdict, ghost proceeds: bool)
      requires Valid() && c in clients && c.open && ValidNick(nick) && Trimmed(nick)
      requires proceeds == Proceeds(clientsByNick, c.View(), c, nick)
      modifies this`clientsByNick, this`trace, c`nick, c`stateNick, c`authed, c`canModerate, c`registered
      ensures Valid() && trace == old(trace) + ([Event.Nick(c, nick)] + TryIf(c, proceeds, verdict))
    {
      var accepted := NickRegion(c, nick, proceeds);
      AuthenticateIf(c, accepted && c.user != "", verdict);
    }

    /** The NICK arm. */
    method Nick(c: Client, raw: string, verdict: Verdict)
      requires Valid() && c in clients && c.open
      modifies this`clientsByNick, this`trace, c`nick, c`stateNick, c`authed, c`canModerate, c`registered
      ensures Valid() && trace == old(trace) + NickSteps(old(clientsByNick), old(c.View()), c, NickArg(raw), verdict)
    {
      var nick := NickArg(raw);
      ArgumentsTrimmed(raw);
      if ValidNick(nick) {
        NickGiven(c, nick, verdict, Proceeds(clientsByNick, c.View(), c, nick));
      }
    }

    /** The call of `tryAuthenticate` that ends an arm, as a step of its own. */
    method AuthenticateIf(c: Client, proceed: bool, verdict: Verdict)
      requires Valid() && c in clients && c.open
      modifies this`clientsByNick, this`trace, c`nick, c`stateNick, c`authed, c`canModerate, c`registered
      ensures Valid() && trace == old(trace) + TryIf(c, proceed, verdict)
    {
      if proceed {
        StateOfTrace();
        OpenStep(cfg, View(), Event.TryAuth(c, verdict));
        TryAuthenticate(c, verdict);
        Took(Event.TryAuth(c, verdict));
      }
    }

    method TakeUser(c: Client, user: string)
      requires Valid() && c in clients && c.open && !c.registered && user != "" && Trimmed(user)
      modifies this`trace, c`user, c`nick, c`stateNick
      ensures Valid() && trace == old(trace) + [Event.User(c, user)]
    {
      StateOfTrace();
      OpenStep(cfg, View(), Event.User(c, user));
      c.TakeUser(user);
      OnlyChanged(c);
      Took(Event.User(c, user));
    }

    method NoteRealName(c: Client, raw: string)
      requires Valid() && c in clients
      modifies c`realName
      ensures Valid() && View() == old(View()) && c.View() == old(c.View())
      ensures c.realName == RealName(raw, old(c.realName))
    {
      c.realName := RealName(raw, c.realName);
      OnlyChanged(c);
      assert View() == old(View());
    }

    /** The USER arm. */
    method User(c: Client, raw: string, verdict: Verdict)
      requires Valid() && c in clients && c.open
      modifies this`clientsByNick, this`trace
      modifies c`user, c`nick, c`stateNick, c`authed, c`canModerate, c`registered, c`realName
      ensures Valid() && trace == old(trace) + UserSteps(old(c.View()), c, UserArg(raw), verdict)
      ensures c.realName ==
        if old(c.registered) || UserArg(raw) == "" then old(c.realName) else RealName(raw, old(c.realName))
    {
      var user := UserArg(raw);
      ArgumentsTrimmed(raw);
      if !c.registered && user != "" {
        NoteRealName(c, raw);
      }
      UserNamed(c, user, verdict);
    }

    method UserNamed(c: Client, user: string, verdict: Verdict)
      requires Valid() && c in clients && c.open && Trimmed(user)
      modifies this`clientsByNick, this`trace, c`user, c`nick, c`stateNick, c`authed, c`canModerate, c`registered
      ensures Valid() && trace == old(trace) + UserSteps(old(c.View()), c, user, verdict)
    {
      if !c.registered && user != "" {
        TakeUser(c, user);
        AuthenticateIf(c, true, verdict);
      }
    }

    method TakePass(c: Client, pass: string)
      requires Valid() && c in clients && c.open && !c.registered
      modifies this`trace, c`pass
      ensures Valid() && trace == old(trace) + [Event.Pass(c, pass)]
    {
      StateOfTrace();
      OpenStep(cfg, View(), Event.Pass(c, pass));
      c.pass := pass;
      OnlyChanged(c);
      Took(Event.Pass(c, pass));
    }

    /** The PASS arm. */
    method Pass(c: Client, raw: string, verdict: Verdict)
      requires Valid() && c in clients && c.open
      modifies this`clientsByNick, this`trace, c`pass, c`nick, c`stateNick, c`authed, c`canModerate, c`registered
      ensures Valid() && trace == old(trace) + PassSteps(old(c.View()), c, raw, verdict)
    {
      if !c.registered && raw != "" {
        PassGiven(c, Trim(raw, IsColon), verdict);
      }
    }

    method PassGiven(c: Client, pass: string, verdict: Verdict)
      requires Valid() && c in clients && c.open && !c.registered
      modifies this`clientsByNick, this`trace, c`pass, c`nick, c`stateNick, c`authed, c`canModerate, c`registered
      ensures Valid() && trace == old(trace) + ([Event.Pass(c, pass)] + TryIf(c, old(c.user) != "", verdict))
    {
      TakePass(c, pass);
      AuthenticateIf(c, c.user != "", verdict);
    }

    /** The CAP REQ arm. */
    method CapReq(c: Client, raw: string)
      requires Valid() && c in clients && c.open
      modifies this`trace, c`saslReq
      ensures Valid() && trace == old(trace) + if RequestsSasl(raw) then [Event.CapReq(c)] else []
    {
      if RequestsSasl(raw) {
        StateOfTrace();
        OpenStep(cfg, View(), Event.CapReq(c));
        c.saslReq := true;
        OnlyChanged(c);
        Took(Event.CapReq(c));
      }
    }

    /** The AUTHENTICATE arm; `decoded` is the base64 decoding of the chunk. */
    method Authenticate(c: Client, raw: string, decoded: Option<string>, verdict: Verdict)
      requires Valid() && c in clients && c.open
      modifies this`clientsByNick, this`trace
      modifies c`user, c`pass, c`awaitSasl, c`nick, c`stateNick, c`authed, c`canModerate, c`registered
      ensures Valid() && trace == old(trace) + SaslSteps(old(c.View()), c, raw, decoded, verdict)
    {
      var chunk := TrimSpace(TrimPrefix(raw, ':'));
      if !c.saslReq {
        return;
      }
      if ToLower(chunk) == "plain" {
        StartSasl(c);
        return;
      }
      if chunk == "+" || !c.awaitSasl || decoded.None? {
        return;
      }
      var creds := SaslCredentials(decoded.value);
      if creds.None? {
        return;
      }
      ArgumentsTrimmed(decoded.value);
      TakeSasl(c, creds.value.0, creds.value.1);
      AuthenticateIf(c, true, verdict);
    }

    method StartSasl(c: Client)
      requires Valid() && c in clients && c.open && c.saslReq
      modifies this`trace, c`awaitSasl
      ensures Valid() && trace == old(trace) + [Event.SaslStart(c)]
    {
      StateOfTrace();
      OpenStep(cfg, View(), Event.SaslStart(c));
      c.awaitSasl := true;
      OnlyChanged(c);
      Took(Event.SaslStart(c));
    }

    method TakeSasl(c: Client, user: string, pass: string)
      requires Valid() && c in clients && c.open && c.saslReq && c.awaitSasl && Trimmed(user)
      modifies this`trace, c`user, c`pass, c`awaitSasl
      ensures Valid() && trace == old(trace) + [Event.SaslPayload(c, user, pass)]
    {
      StateOfTrace();
      OpenStep(cfg, View(), Event.SaslPayload(c, user, pass));
      c.TakeCredentials(user, pass);
      OnlyChanged(c);
      Took(Event.SaslPayload(c, user, pass));
    }

    /** `tryAuthenticate`; `verdict` is the account service's answer, should it be asked. */
    method TryAuthenticate(c: Client, verdict: Verdict)
      requires c in clients
      modifies this`clientsByNick, c`nick, c`stateNick, c`authed, c`canModerate, c`registered
      ensures View() == TryAuthStep(cfg, old(View()), c, verdict)
    {
      ghost var asked := Authenticated(cfg, c.View(), verdict);
      if c.user == "" || (!cfg.requirePass && c.pass == "") {
        if c.user != "" {
          assert asked == Some(c.View());
          CompleteRegistration(c);
        }
        return;
      }
      if c.pass == "" && cfg.requirePass {
        return;
      }
      if !cfg.allowAlias && c.stateNick != "" && ToLower(c.stateNick) != ToLower(c.user) {
        return;
      }
      if verdict.Denied? {
        return;
      }
      c.LogIn(verdict.moderator);
      OnlyChanged(c);
      CompleteRegistration(c);
      RegisterAfterPut(old(View()), c, asked.value);
    }

    lemma RegisterAfterPut(w: World<Client>, c: Client, s: Session)
      ensures IrcModel.Register(Put(w, c, s), c, s) == IrcModel.Register(w, c, s)
    {
      assert w.sessions[c := s][c := Registered(s)] == w.sessions[c := Registered(s)];
    }

    /** `completeRegistration` */
    method CompleteRegistration(c: Client)
      requires c in clients
      modifies this`clientsByNick, c`nick, c`stateNick, c`registered
      ensures View() == Register(old(View()), c, old(c.View()))
    {
      OnlyChanged(c);
      if c.registered {
        return;
      }
      c.Register();
      if c.nick != "" {
        clientsByNick := clientsByNick[ToLower(c.nick) := c];
      }
      OnlyChanged(c);
    }

    method RemovePeer(channel: string, key: string)
      modifies this`channelPeers
      ensures channelPeers == DropPeer(old(channelPeers), channel, key)
    {
      if channel != "" && channel in channelPeers {
        var peers := channelPeers[channel] - {key};
        channelPeers := channelPeers[channel := peers];
        if |peers| == 0 {
          channelPeers := channelPeers - {channel};
          assert channelPeers == old(channelPeers) - {channel};
        }
      }
    }

    method InsertPeer(channel: string, key: string, c: Client)
      modifies this`channelPeers
      ensures channelPeers == AddPeer(old(channelPeers), channel, key, c)
    {
      if channel !in channelPeers {
        channelPeers := channelPeers[channel := map[]];
      }
      channelPeers := channelPeers[channel := channelPeers[channel][key := c]];
    }

    /** `moveClient` */
    method MoveClient(c: Client, channel: string)
      modifies this`channelPeers, c`channel
      ensures channelPeers == MovePeer(old(channelPeers), c, old(c.View()), channel)
      ensures c.View() == old(c.View()).(channel := channel)
    {
      RemovePeer(c.channel, ToLower(c.nick));
      c.channel := channel;
      if channel == "" || c.nick == "" {
        return;
      }
      InsertPeer(channel, ToLower(c.nick), c);
    }

    /** The non-blocking send on `linePoll`. */
    method Notify(c: Client, channel: string)
      modifies c`linePoll, c`dropped
      ensures c.View() == old(c.View()).(link := Send(old(c.View()).link, channel))
    {
      c.dropped := |c.linePoll| >= QUEUE_SLOTS;
      if !c.dropped {
        c.linePoll := c.linePoll + [channel];
      }
    }

    /** `setClientChannel` */
    method SetClientChannel(c: Client, channel: string)
      requires c in clients
      modifies this`channelPeers, c`channel, c`linePoll, c`dropped
      ensures View() == SetChannel(old(View()), c, channel)
    {
      MoveClient(c, channel);
      Notify(c, channel);
      assert c.View() == SwitchTo(old(c.View()), channel);
      OnlyChanged(c);
    }

    /** The JOIN arm; `allowed` is what `checkFlood` answered. */
    method Join(c: Client, raw: string, allowed: bool)
      requires Valid() && c in clients && c.open
      modifies this`channelPeers, this`trace, c`channel, c`linePoll, c`dropped
      ensures Valid()
      ensures trace == old(trace) +
        if c.authed && allowed && JoinArg(raw) != "" then [Event.Join(c, JoinArg(raw))] else []
    {
      var channel := JoinArg(raw);
      if c.authed && allowed && channel != "" {
        StateOfTrace();
        OpenStep(cfg, View(), Event.Join(c, channel));
        SetClientChannel(c, channel);
        Took(Event.Join(c, channel));
      }
    }

    /** The PART arm: whatever channel it names, the client leaves its own. */
    method Part(c: Client, allowed: bool)
      requires Valid() && c in clients && c.open
      modifies this`channelPeers, this`trace, c`channel, c`linePoll, c`dropped
      ensures Valid() && trace == old(trace) + if c.authed && allowed then [Event.Part(c)] else []
    {
      if c.authed && allowed {
        StateOfTrace();
        OpenStep(cfg, View(), Event.Part(c));
        SetClientChannel(c, "");
        Took(Event.Part(c));
      }
    }

    /** `clientByNick` */
    method ClientByNick(target: string) returns (r: Option<Client>)
      ensures r == Lookup(View(), TrimSpace(target))
    {
      var key := ToLower(TrimSpace(target));
      r := if key in clientsByNick then Some(clientsByNick[key]) else None;
    }

    /** The KICK arm, with lookup and move as one step. */
    method Kick(c: Client, raw: string, allowed: bool)
      requires Valid() && c in clients && c.open
      modifies this`channelPeers, this`trace, clients`channel, clients`linePoll, clients`dropped
      ensures Valid()
      ensures trace == old(trace) +
        if c.authed && allowed && KickArgs(raw).Some? && c.canModerate
        then [Event.Kick(c, TrimSpace(KickArgs(raw).value.1))] else []
    {
      var args := KickArgs(raw);
      if !c.authed || !allowed || args.None? || !c.canModerate {
        return;
      }
      KickNick(c, args.value.1);
    }

    lemma KeysLead()
      requires Valid()
      ensures KeysOk(View())
    {
      StateOfTrace();
      RunBasic(cfg, trace);
    }

    method KickNick(c: Client, nick: string)
      requires Valid() && c in clients && c.open && c.authed && c.canModerate
      modifies this`channelPeers, this`trace, clients`channel, clients`linePoll, clients`dropped
      ensures Valid() && trace == old(trace) + [Event.Kick(c, TrimSpace(nick))]
    {
      StateOfTrace();
      OpenStep(cfg, View(), Event.Kick(c, TrimSpace(nick)));
      KeysLead();
      MoveOut(c, nick);
      Took(Event.Kick(c, TrimSpace(nick)));
    }

    method MoveOut(ghost c: Client, nick: string)
      requires c in clients && c.authed && c.canModerate && KeysOk(View())
      modifies this`channelPeers, clients`channel, clients`linePoll, clients`dropped
      ensures View() == KickStep(old(View()), c, TrimSpace(nick))
    {
      var target := ClientByNick(nick);
      if target.Some? {
        assert KeyOk(View(), ToLower(TrimSpace(nick)), target.value);
        SetClientChannel(target.value, "");
      }
    }

    /** One receive of the client's poller. */
    method Poll(c: Client)
      requires Valid() && c in clients && c.open
      modifies this`trace, c`linePoll, c`watching
      ensures Valid() && trace == old(trace) + [Event.Poll(c)]
    {
      StateOfTrace();
      OpenStep(cfg, View(), Event.Poll(c));
      c.Receive();
      OnlyChanged(c);
      Took(Event.Poll(c));
    }

    /** The search of `unregisterClientByConn`: the map is visited in no particular order. */
    method FindByConn(conn: nat) returns (target: Client?)
      ensures target != null ==> target.conn == conn && target in clientsByNick.Values
      ensures target == null ==> forall k :: k in clientsByNick ==> clientsByNick[k].conn != conn
    {
      var keys := clientsByNick.Keys;
      while keys != {}
        invariant keys <= clientsByNick.Keys
        invariant forall k :: k in clientsByNick && k !in keys ==> clientsByNick[k].conn != conn
        decreases keys
      {
        var k :| k in keys;
        if clientsByNick[k].conn == conn {
          return clientsByNick[k];
        }
        keys := keys - {k};
      }
      return null;
    }

    lemma FoundIsIndexed(target: Client, c: Client)
      requires Numbered() && c in clients && KeysOk(View())
      requires target in clientsByNick.Values && target.conn == c.conn
      ensures target == c && Indexed(View(), c)
    {
    }

    /** `unregisterClientByConn` */
    method UnregisterClientByConn(c: Client)
      requires Numbered() && c in clients && KeysOk(View())
      modifies this`clientsByNick, this`channelPeers
      ensures View() == Unregister(old(View()), c)
    {
      var target := FindByConn(c.conn);
      if target == null || target.nick == "" {
        return;
      }
      FoundIsIndexed(target, c);
      clientsByNick := clientsByNick - {ToLower(target.nick)};
      RemovePeer(target.channel, ToLower(target.nick));
    }

    /** The end of a connection. */
    method Disconnect(c: Client)
      requires Valid() && c in clients && c.open
      modifies this`clientsByNick, this`channelPeers, this`trace, c`open
      ensures Valid() && trace == old(trace) + [Event.Disconnect(c)]
    {
      StateOfTrace();
      OpenStep(cfg, View(), Event.Disconnect(c));
      KeysLead();
      Leave(c);
      Took(Event.Disconnect(c));
    }

    method Leave(c: Client)
      requires Numbered() && c in clients && KeysOk(View())
      modifies this`clientsByNick, this`channelPeers, c`open
      ensures View() == DisconnectStep(old(View()), c)
    {
      UnregisterClientByConn(c);
      Close(c);
    }

    method Close(c: Client)
      requires c in clients
      modifies c`open
      ensures View() == Put(old(View()), c, old(c.View()).(open := false))
    {
      c.open := false;
      OnlyChanged(c);
    }

    /** `channelMembers` */
    method ChannelMembers(channel: string) returns (out: seq<string>)
      requires Valid()
      ensures IsListing(out, Members(View(), channel))
      ensures Agree(View()) && channel != "" ==> (ReadsBack(out, View(), channel) <==> PlainMembers(View(), channel))
    {
      BucketsHold();
      var members := MemberNames(channel);
      out := SortedValues(members);
      ShownReadsBack(channel, out);
    }

    lemma BucketsHold()
      requires Valid()
      ensures BucketsOk(View())
    {
      StateOfTrace();
      RunBasic(cfg, trace);
    }

    lemma ShownReadsBack(channel: string, out: seq<string>)
      requires Valid() && IsListing(out, Members(View(), channel))
      ensures Agree(View()) && channel != "" ==> (ReadsBack(out, View(), channel) <==> PlainMembers(View(), channel))
    {
      TraceAgrees();
      if Agree(View()) && channel != "" {
        ListingReadsBackIff(cfg, View(), channel, out);
      }
    }

    method MemberNames(channel: string) returns (members: map<string, string>)
      requires BucketsOk(View())
      ensures members == Members(View(), channel)
    {
      members := map[];
      if channel in channelPeers {
        members := DisplayNames(channelPeers[channel]);
        BucketView(channel);
      }
    }

    lemma BucketView(channel: string)
      requires BucketsOk(View()) && channel in channelPeers
      ensures Members(View(), channel) == Shown(channelPeers[channel])
    {
      var bucket := channelPeers[channel];
      forall k | k in bucket ensures bucket[k] in Sessions() && Sessions()[bucket[k]] == bucket[k].View() {
        assert Authed(View(), channelPeers[channel][k]);
      }
    }

    /** `broadcastToChannel`: the clients the line goes to, and whether there are any. */
    method BroadcastTargets(channel: string) returns (targets: seq<Client>, sent: bool)
      requires Valid()
      ensures sent <==> targets != []
      ensures |targets| == |Bucket(View(), channel)|
      ensures forall c :: c in targets <==> c in Bucket(View(), channel).Values
      ensures Agree(View()) && channel != "" ==>
        NoDuplicates(targets) && forall c :: c in targets <==> c in clients && c.open && c.channel == channel
    {
      var bucket := if channel in channelPeers then channelPeers[channel] else map[];
      ghost var keys;
      targets, keys := BucketClients(bucket);
      sent := targets != [];
      TargetsAreMembers(channel, targets, keys);
    }

    lemma TargetsAreMembers(channel: string, targets: seq<Client>, keys: seq<string>)
      requires Valid() && IsPicked(targets, Bucket(View(), channel), keys)
      ensures Agree(View()) && channel != "" ==>
        NoDuplicates(targets) && forall c :: c in targets <==> c in clients && c.open && c.channel == channel
    {
      StateOfTrace();
      RunBasic(cfg, trace);
      if Agree(View()) && channel != "" {
        PickedMembers(channel, targets, keys);
      }
    }

    lemma PickedMembers(channel: string, targets: seq<Client>, keys: seq<string>)
      requires Basic(cfg, View()) && Agree(View()) && channel != ""
      requires IsPicked(targets, Bucket(View(), channel), keys)
      ensures NoDuplicates(targets)
      ensures forall c :: c in targets <==> c in clients && c.open && c.channel == channel
    {
      var w := View();
      forall i | 0 <= i < |keys|
        ensures Listed(w, channel, keys[i], targets[i]) && keys[i] == Key(w.sessions[targets[i]])
      {
        EntryIsMember(cfg, w, channel, keys[i], targets[i]);
      }
      forall c | c in clients && c.open && c.channel == channel ensures c in targets {
        EntryIsMember(cfg, w, channel, Key(c.View()), c);
      }
      forall c | c in targets ensures c in clients && c.open && c.channel == channel {
        var i :| 0 <= i < |targets| && targets[i] == c;
        EntryIsMember(cfg, w, channel, keys[i], c);
      }
    }
  }

  ghost function Bucket<C>(w: World<C>, channel: string): map<string, C> {
    if channel in w.peers then w.peers[channel] else map[]
  }

  /** `targets` are the values of the bucket, in the order of `keys`. */
  ghost predicate IsPicked<C>(targets: seq<C>, bucket: map<string, C>, keys: seq<string>) {
    && |targets| == |keys| && Enumerates(keys, bucket.Keys)
    && forall i :: 0 <= i < |keys| ==> keys[i] in bucket && targets[i] == bucket[keys[i]]
  }

  /** The values of a bucket, visited in no particular order. */
  method BucketClients(bucket: map<string, Client>) returns (targets: seq<Client>, ghost keys: seq<string>)
    ensures IsPicked(targets, bucket, keys)
    ensures |targets| == |bucket| && forall c :: c in targets <==> c in bucket.Values
  {
    var todo := bucket.Keys;
    targets, keys := [], [];
    while todo != {}
      invariant todo <= bucket.Keys
      invariant |targets| == |keys| && Enumerates(keys, bucket.Keys - todo)
      invariant forall i :: 0 <= i < |keys| ==> keys[i] in bucket && targets[i] == bucket[keys[i]]
      invariant |targets| + |todo| == |bucket.Keys|
      decreases todo
    {
      var k :| k in todo;
      targets, keys := targets + [bucket[k]], keys + [k];
      todo := todo - {k};
    }
    forall c | c in bucket.Values ensures c in targets {
      var k :| k in bucket && bucket[k] == c;
      assert k in keys;
    }
  }

  ghost function Shown(bucket: map<string, Client>): map<string, string>
    reads set k | k in bucket :: bucket[k]
  {
    map k | k in bucket && !Blank(bucket[k].nick) :: Display(k, bucket[k].canModerate)
  }

  /** What is shown of a bucket, visited in no particular order. */
  method DisplayNames(bucket: map<string, Client>) returns (members: map<string, string>)
    ensures members == Shown(bucket)
  {
    var todo := bucket.Keys;
    members := map[];
    while todo != {}
      invariant todo <= bucket.Keys
      invariant forall k :: k in members <==> k in bucket && k !in todo && !Blank(bucket[k].nick)
      invariant forall k :: k in members ==> members[k] == Display(k, bucket[k].canModerate)
      decreases todo
    {
      var k :| k in todo;
      if !Blank(bucket[k].nick) {
        members := members[k := Display(k, bucket[k].canModerate)];
      }
      todo := todo - {k};
    }
  }

  /** The values of a map, visited in no particular order and then sorted. */
  method SortedValues(m: map<string, string>) returns (out: seq<string>)
    ensures IsListing(out, m)
  {
    var todo := m.Keys;
    var values: seq<string> := [];
    ghost var keys: seq<string> := [];
    while todo != {}
      invariant todo <= m.Keys
      invariant Enumerates(keys, m.Keys - todo)
      invariant values == Pick(m, keys)
      decreases todo
    {
      var k :| k in todo;
      values := values + [m[k]];
      ghost var before := keys;
      keys := keys + [k];
      assert keys[..|keys| - 1] == before;
      todo := todo - {k};
    }
    assert m.Keys - todo == m.Keys;
    out := SortStrings(values);
  }
}
