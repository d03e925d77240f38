/** Runs that leave the guard, one for each way of doing so, and what they break. */
module IrcBreakage {
  import opened Wrappers
  import opened Text
  import opened IrcModel
  import opened IrcInvariants
  import opened IrcCoherence
  import opened IrcListing

  /** One more step of an open connection. */
  lemma Extend<C>(cfg: Config, es: seq<Event<C>>, e: Event<C>)
    requires Open(Run(cfg, es), e.c)
    ensures var w := Run(cfg, es); var w' := Run(cfg, es + [e]); var s := w.sessions[e.c];
      && (e.Nick? ==> w' == NickStep(w, e.c, e.nick))
      && (e.User? ==> w' == Put(w, e.c, UserStep(s, e.user)))
      && (e.Pass? ==> w' == Put(w, e.c, PassStep(s, e.pass)))
      && (e.CapReq? ==> w' == Put(w, e.c, s.(saslReq := true)))
      && (e.SaslStart? ==> w' == Put(w, e.c, SaslStartStep(s)))
      && (e.SaslPayload? ==> w' == Put(w, e.c, SaslPayloadStep(s, e.user, e.pass)))
      && (e.TryAuth? ==> w' == TryAuthStep(cfg, w, e.c, e.verdict))
      && (e.Join? ==> w' == JoinStep(w, e.c, e.channel))
      && (e.Part? ==> w' == PartStep(w, e.c))
      && (e.Disconnect? ==> w' == DisconnectStep(w, e.c))
  {
    RunSnoc(cfg, es, e);
    OpenStep(cfg, Run(cfg, es), e);
  }

  lemma ExtendAccept<C>(cfg: Config, es: seq<Event<C>>, c: C)
    requires c !in Run(cfg, es).sessions
    ensures Run(cfg, es + [Accept(c)]) == Put(Run(cfg, es), c, FRESH_SESSION)
  {
  }

  /** A client that connects and logs in under its nick. */
  function Login(c: nat, nick: string, pass: string): seq<Event<nat>> {
    [Accept(c)] + [Nick(c, nick)] + Credentials(c, nick, pass)
  }

  function Credentials(c: nat, user: string, pass: string): seq<Event<nat>> {
    [User(c, user)] + [Pass(c, pass)] + [TryAuth(c, Granted(Some(false)))]
  }

  function LoginSession(nick: string, pass: string): Session {
    FRESH_SESSION.(nick := nick, stateNick := nick, user := nick, pass := pass, authed := true, registered := true)
  }

  function Applicant(user: string, pass: string): Session {
    SetNick(FRESH_SESSION, user).(user := user, pass := pass)
  }

  lemma ApplicantRegisters(cfg: Config, user: string, pass: string)
    requires cfg.requirePass && user != "" && pass != ""
    ensures Authenticated(cfg, Applicant(user, pass), Granted(Some(false))).Some?
    ensures Registered(Authenticated(cfg, Applicant(user, pass), Granted(Some(false))).value) == LoginSession(user, pass)
    ensures !Authenticated(cfg, Applicant(user, pass), Granted(Some(false))).value.registered
  {
  }

  lemma FormFilled(s: Session, user: string, pass: string)
    requires user != "" && (s == FRESH_SESSION || s == SetNick(FRESH_SESSION, user))
    ensures PassStep(UserStep(s, user), pass) == Applicant(user, pass) && UserStep(s, user).open
  {
  }

  /** An account name and a password, given by a connection that is new or has that nick. */
  lemma FormRun(cfg: Config, es: seq<Event<nat>>, c: nat, user: string, pass: string)
    requires user != "" && c in Run(cfg, es).sessions
    requires var s := Run(cfg, es).sessions[c]; s == FRESH_SESSION || s == SetNick(FRESH_SESSION, user)
    ensures var w := Run(cfg, es);
      Run(cfg, es + [User(c, user)] + [Pass(c, pass)]) == Put(w, c, Applicant(user, pass))
  {
    var w := Run(cfg, es);
    var s := w.sessions[c];
    FormFilled(s, user, pass);
    Extend(cfg, es, User(c, user));
    Extend(cfg, es + [User(c, user)], Pass(c, pass));
    assert w.sessions[c := UserStep(s, user)][c := Applicant(user, pass)] == w.sessions[c := Applicant(user, pass)];
  }

  lemma CredentialsRun(cfg: Config, es: seq<Event<nat>>, c: nat, user: string, pass: string)
    requires cfg.requirePass && user != "" && pass != ""
    requires c in Run(cfg, es).sessions
    requires var s := Run(cfg, es).sessions[c]; s == FRESH_SESSION || s == SetNick(FRESH_SESSION, user)
    ensures var w := Run(cfg, es);
      Run(cfg, es + Credentials(c, user, pass)) ==
      World(w.sessions[c := LoginSession(user, pass)], w.byNick[ToLower(user) := c], w.peers)
  {
    var w := Run(cfg, es);
    var form := es + [User(c, user)] + [Pass(c, pass)];
    FormRun(cfg, es, c, user, pass);
    Extend(cfg, form, TryAuth(c, Granted(Some(false))));
    ApplicantRegisters(cfg, user, pass);
    assert es + Credentials(c, user, pass) == form + [TryAuth(c, Granted(Some(false)))];
    assert w.sessions[c := Applicant(user, pass)][c := LoginSession(user, pass)]
        == w.sessions[c := LoginSession(user, pass)];
  }

  lemma ArriveRun(cfg: Config, es: seq<Event<nat>>, c: nat, nick: string)
    requires ValidNick(nick)
    requires c !in Run(cfg, es).sessions && ToLower(nick) !in Run(cfg, es).byNick
    ensures var w := Run(cfg, es);
      Run(cfg, es + [Accept(c)] + [Nick(c, nick)]) ==
      World(w.sessions[c := SetNick(FRESH_SESSION, nick)], w.byNick[ToLower(nick) := c], w.peers)
  {
    var w := Run(cfg, es);
    ExtendAccept(cfg, es, c);
    Extend(cfg, es + [Accept(c)], Nick(c, nick));
    assert w.sessions[c := FRESH_SESSION][c := SetNick(FRESH_SESSION, nick)]
        == w.sessions[c := SetNick(FRESH_SESSION, nick)];
  }

  lemma LoginParts(es: seq<Event<nat>>, c: nat, nick: string, pass: string)
    ensures es + Login(c, nick, pass) == es + [Accept(c)] + [Nick(c, nick)] + Credentials(c, nick, pass)
  {
  }

  lemma LoginRun(cfg: Config, es: seq<Event<nat>>, c: nat, nick: string, pass: string)
    requires cfg.requirePass && ValidNick(nick) && pass != ""
    requires c !in Run(cfg, es).sessions && ToLower(nick) !in Run(cfg, es).byNick
    ensures var w := Run(cfg, es);
      Run(cfg, es + Login(c, nick, pass)) ==
      World(w.sessions[c := LoginSession(nick, pass)], w.byNick[ToLower(nick) := c], w.peers)
  {
    ArriveRun(cfg, es, c, nick);
    CredentialsRun(cfg, es + [Accept(c)] + [Nick(c, nick)], c, nick, pass);
    LoginParts(es, c, nick, pass);
    Twice(Run(cfg, es).sessions, c, SetNick(FRESH_SESSION, nick), LoginSession(nick, pass));
    Twice(Run(cfg, es).byNick, ToLower(nick), c, c);
  }

  lemma Twice<K, V>(m: map<K, V>, k: K, v: V, v': V)
    ensures m[k := v][k := v'] == m[k := v']
  {
  }

  lemma FirstLogin(cfg: Config, a: string, pass: string)
    requires cfg.requirePass && ValidNick(a) && pass != ""
    ensures Run(cfg, Login(0, a, pass)) == World(map[0 := LoginSession(a, pass)], map[ToLower(a) := 0], map[])
  {
    LoginRun(cfg, [], 0, a, pass);
    assert [] + Login(0, a, pass) == Login(0, a, pass);
  }

  lemma TwoLogins(cfg: Config, a: string, b: string, pass: string)
    requires cfg.requirePass && ValidNick(a) && ValidNick(b) && ToLower(a) != ToLower(b) && pass != ""
    ensures Run(cfg, Login(0, a, pass) + Login(1, b, pass)) ==
      World(map[0 := LoginSession(a, pass), 1 := LoginSession(b, pass)], map[ToLower(a) := 0, ToLower(b) := 1], map[])
  {
    FirstLogin(cfg, a, pass);
    LoginRun(cfg, Login(0, a, pass), 1, b, pass);
  }

  /** A refused NICK: the caller is authenticated and open, but can no longer be found. */
  lemma RefusedNickHides(cfg: Config, a: string, b: string, pass: string)
    requires cfg.requirePass && ValidNick(a) && ValidNick(b) && ToLower(a) != ToLower(b) && pass != ""
    ensures var w := Run(cfg, Login(0, a, pass) + Login(1, b, pass) + [Nick(1, a)]);
      Open(w, 1) && w.sessions[1].authed && w.sessions[1].nick == b && Lookup(w, b) == None
  {
    TwoLogins(cfg, a, b, pass);
    Extend(cfg, Login(0, a, pass) + Login(1, b, pass), Nick(1, a));
  }

  /** From any state in which 1 is logged in alone as `b` and 0 as `a`: join, refused NICK, disconnect. */
  lemma HauntedWorld(w: World<nat>, a: string, b: string, ch: string)
    requires ValidNick(a) && ToLower(a) != ToLower(b) && b != "" && ch != "" && w.peers == map[]
    requires 1 in w.sessions && w.sessions[1].authed && w.sessions[1].channel == ""
    requires w.sessions[1].nick == w.sessions[1].stateNick == b && w.byNick == map[ToLower(a) := 0, ToLower(b) := 1]
    ensures var w1 := JoinStep(w, 1, ch); var w2 := NickStep(w1, 1, a); var w3 := DisconnectStep(w2, 1);
      w1.sessions[1].open == w2.sessions[1].open == w.sessions[1].open && !Open(w3, 1) && Listed(w3, ch, ToLower(b), 1)
  {
    var w1 := JoinStep(w, 1, ch);
    assert w1.peers == map[ch := map[ToLower(b) := 1]];
    var w2 := NickStep(w1, 1, a);
    assert w2.byNick == map[ToLower(a) := 0];
    assert !Indexed(w2, 1);
  }

  /** A client that was hidden so while in a channel stays in the channel index after it has gone. */
  lemma HiddenClientHaunts(cfg: Config, a: string, b: string, pass: string, ch: string)
    requires cfg.requirePass && ValidNick(a) && ValidNick(b) && ToLower(a) != ToLower(b) && pass != "" && ch != ""
    ensures var w := Run(cfg, Login(0, a, pass) + Login(1, b, pass) + [Join(1, ch)] + [Nick(1, a)] + [Disconnect(1)]);
      !Open(w, 1) && Listed(w, ch, ToLower(b), 1)
  {
    TwoLogins(cfg, a, b, pass);
    var es := Login(0, a, pass) + Login(1, b, pass);
    HauntedWorld(Run(cfg, es), a, b, ch);
    Extend(cfg, es, Join(1, ch));
    Extend(cfg, es + [Join(1, ch)], Nick(1, a));
    Extend(cfg, es + [Join(1, ch)] + [Nick(1, a)], Disconnect(1));
  }

  lemma StaleWorld(w: World<nat>, a: string, b: string, ch: string)
    requires ValidNick(b) && ToLower(a) != ToLower(b) && a != "" && ch != "" && w.peers == map[]
    requires 0 in w.sessions && w.sessions[0].authed && w.sessions[0].channel == ""
    requires w.sessions[0].nick == w.sessions[0].stateNick == a && w.byNick == map[ToLower(a) := 0]
    ensures var w1 := JoinStep(w, 0, ch); var w2 := NickStep(w1, 0, b); var w3 := PartStep(w2, 0);
      && w1.sessions[0].open == w2.sessions[0].open == w3.sessions[0].open == w.sessions[0].open
      && w3.sessions[0].channel == "" && Listed(w3, ch, ToLower(a), 0)
  {
    var w1 := JoinStep(w, 0, ch);
    assert w1.peers == map[ch := map[ToLower(a) := 0]];
  }

  /** A nick changed inside a channel: the old entry outlives the PART. */
  lemma RenamedMemberStays(cfg: Config, a: string, b: string, pass: string, ch: string)
    requires cfg.requirePass && ValidNick(a) && ValidNick(b) && ToLower(a) != ToLower(b) && pass != "" && ch != ""
    ensures var w := Run(cfg, Login(0, a, pass) + [Join(0, ch)] + [Nick(0, b)] + [Part(0)]);
      Open(w, 0) && w.sessions[0].channel == "" && Listed(w, ch, ToLower(a), 0)
  {
    FirstLogin(cfg, a, pass);
    var es := Login(0, a, pass);
    StaleWorld(Run(cfg, es), a, b, ch);
    Extend(cfg, es, Join(0, ch));
    Extend(cfg, es + [Join(0, ch)], Nick(0, b));
    Extend(cfg, es + [Join(0, ch)] + [Nick(0, b)], Part(0));
  }

  /** USER takes a nick that is in use: two authenticated clients share it, and the first one is hidden. */
  lemma UserTakesNick(cfg: Config, a: string, pass: string)
    requires cfg.requirePass && ValidNick(a) && pass != ""
    ensures var w := Run(cfg, Login(0, a, pass) + [Accept(1)] + Credentials(1, a, pass));
      Open(w, 0) && Open(w, 1) && w.sessions[0].authed && w.sessions[1].authed && w.sessions[0].nick == w.sessions[1].nick
      && Lookup(w, a) == Some(1)
  {
    FirstLogin(cfg, a, pass);
    var es := Login(0, a, pass);
    ExtendAccept(cfg, es, 1);
    CredentialsRun(cfg, es + [Accept(1)], 1, a, pass);
  }

  /**
   A nick taken by USER is not in the index, so a newcomer may log in under it; the
   first one's next NICK then removes the newcomer's key.
   */
  lemma UnindexedNickDisplaces(cfg: Config, a: string, b: string, pass: string)
    requires cfg.requirePass && ValidNick(a) && ValidNick(b) && ToLower(a) != ToLower(b) && pass != ""
    ensures var w := Run(cfg, [Accept(0)] + [User(0, a)] + Login(1, a, pass) + [Nick(0, b)]);
      Open(w, 1) && w.sessions[1].authed && w.sessions[1].nick == a && Lookup(w, a) == None
  {
    UnindexedArrival(cfg, a);
    var es := [Accept(0)] + [User(0, a)];
    LoginRun(cfg, es, 1, a, pass);
    Extend(cfg, es + Login(1, a, pass), Nick(0, b));
  }

  lemma UnindexedArrival(cfg: Config, a: string)
    requires a != ""
    ensures Run<nat>(cfg, [Accept(0)] + [User(0, a)]) == World(map[0 := Unindexed(a)], map[], map[])
  {
    UserArrival(cfg, [], 0, a);
    assert [] + [Accept(0)] + [User(0, a)] == [Accept(0)] + [User(0, a)];
  }

  function Unindexed(user: string): Session {
    SetNick(FRESH_SESSION, user).(user := user)
  }

  lemma UserArrival(cfg: Config, es: seq<Event<nat>>, c: nat, user: string)
    requires user != "" && c !in Run(cfg, es).sessions
    ensures var w := Run(cfg, es);
      Run(cfg, es + [Accept(c)] + [User(c, user)]) == World(w.sessions[c := Unindexed(user)], w.byNick, w.peers)
  {
    var w := Run(cfg, es);
    ExtendAccept(cfg, es, c);
    Extend(cfg, es + [Accept(c)], User(c, user));
    assert UserStep(FRESH_SESSION, user) == Unindexed(user);
    assert w.sessions[c := FRESH_SESSION][c := Unindexed(user)] == w.sessions[c := Unindexed(user)];
  }

  // ------------------------------------------------------------------
  // Without passwords: registered first, logged in later
  // ------------------------------------------------------------------

  /** A client that registers by USER alone. */
  function Walk(c: nat, user: string): seq<Event<nat>> {
    [Accept(c)] + [User(c, user)] + [TryAuth(c, Denied)]
  }

  /** A registered client that logs in by SASL. */
  function SaslLogin(c: nat, user: string, pass: string): seq<Event<nat>> {
    [CapReq(c)] + [SaslStart(c)] + [SaslPayload(c, user, pass)] + [TryAuth(c, Granted(Some(false)))]
  }

  function Visitor(user: string): Session {
    Unindexed(user).(registered := true)
  }

  lemma WalkRun(cfg: Config, es: seq<Event<nat>>, c: nat, user: string)
    requires !cfg.requirePass && user != "" && c !in Run(cfg, es).sessions
    ensures var w := Run(cfg, es);
      Run(cfg, es + Walk(c, user)) == World(w.sessions[c := Visitor(user)], w.byNick[ToLower(user) := c], w.peers)
  {
    var w := Run(cfg, es);
    UserArrival(cfg, es, c, user);
    var es1 := es + [Accept(c)] + [User(c, user)];
    Extend(cfg, es1, TryAuth(c, Denied));
    assert Registered(Unindexed(user)) == Visitor(user);
    assert es1 + [TryAuth(c, Denied)] == es + Walk(c, user);
    assert w.sessions[c := Unindexed(user)][c := Visitor(user)] == w.sessions[c := Visitor(user)];
  }

  lemma SaslRun(cfg: Config, es: seq<Event<nat>>, c: nat, user: string, pass: string)
    requires pass != "" && user != "" && c in Run(cfg, es).sessions && Run(cfg, es).sessions[c] == Visitor(user)
    ensures var w, w' := Run(cfg, es), Run(cfg, es + SaslLogin(c, user, pass));
      w'.byNick == w.byNick && Open(w', c) && w'.sessions[c].authed && w'.sessions[c].nick == user
  {
    var es1 := es + [CapReq(c)];
    var es2 := es1 + [SaslStart(c)];
    var es3 := es2 + [SaslPayload(c, user, pass)];
    Extend(cfg, es, CapReq(c));
    Extend(cfg, es1, SaslStart(c));
    Extend(cfg, es2, SaslPayload(c, user, pass));
    Extend(cfg, es3, TryAuth(c, Granted(Some(false))));
    assert es3 + [TryAuth(c, Granted(Some(false)))] == es + SaslLogin(c, user, pass);
  }

  /** Two visitors share a nick; when the first one logs in, it is authenticated and cannot be found. */
  lemma LateLoginUnindexed(cfg: Config, a: string, pass: string)
    requires !cfg.requirePass && a != "" && pass != ""
    ensures var w := Run(cfg, Walk(0, a) + Walk(1, a) + SaslLogin(0, a, pass));
      Open(w, 0) && w.sessions[0].authed && w.sessions[0].nick == a && Lookup(w, a) == Some(1)
  {
    WalkRun(cfg, [], 0, a);
    assert [] + Walk(0, a) == Walk(0, a);
    WalkRun(cfg, Walk(0, a), 1, a);
    SaslRun(cfg, Walk(0, a) + Walk(1, a), 0, a, pass);
  }

  // ------------------------------------------------------------------
  // The mark in NAMES
  // ------------------------------------------------------------------

  lemma MarkedWorld(w: World<nat>, a: string, ch: string)
    requires a != "" && !Blank(a) && ch != "" && w.peers == map[] && Open(w, 0)
    requires var s := w.sessions[0]; s.authed && !s.canModerate && s.nick == a && s.channel == ""
    ensures var w' := JoinStep(w, 0, ch);
      Members(w', ch) == map[ToLower(a) := ToLower(a)] && IsMember(w', ch, 0) && !w'.sessions[0].canModerate
  {
    var w' := JoinStep(w, 0, ch);
    assert w'.peers == map[ch := map[ToLower(a) := 0]];
    assert w'.peers[ch] == map[ToLower(a) := 0];
  }

  /** USER admits a nick that begins with '@': NAMES shows its owner, who may not moderate, like an operator. */
  lemma MarkedNickShown(cfg: Config, a: string, pass: string, ch: string)
    requires cfg.requirePass && pass != "" && ch != "" && a != "" && a[0] == '@' && !Blank(a)
    ensures var w := Run(cfg, [Accept(0)] + Credentials(0, a, pass) + [Join(0, ch)]);
      && Members(w, ch) == map[ToLower(a) := ToLower(a)] && Marked(ToLower(a))
      && IsMember(w, ch, 0) && !w.sessions[0].canModerate
  {
    ExtendAccept(cfg, [], 0);
    assert [] + [Accept(0)] == [Accept(0)];
    CredentialsRun(cfg, [Accept(0)], 0, a, pass);
    var es := [Accept(0)] + Credentials(0, a, pass);
    MarkedWorld(Run(cfg, es), a, ch);
    Extend(cfg, es, Join(0, ch));
  }

  // ------------------------------------------------------------------
  // Registered and authenticated
  // ------------------------------------------------------------------

  /** On all runs, registered and authed are the same for every connection. */
  ghost predicate RegisteredIsAuthed(cfg: Config) {
    forall es: seq<Event<nat>>, c: nat :: c in Run(cfg, es).sessions ==>
      Run(cfg, es).sessions[c].registered == Run(cfg, es).sessions[c].authed
  }

  /** They are exactly when passwords are required. */
  lemma RegisteredIsAuthedIff(cfg: Config)
    ensures RegisteredIsAuthed(cfg) <==> cfg.requirePass
  {
    if cfg.requirePass {
      forall es: seq<Event<nat>>, c: nat | c in Run(cfg, es).sessions
        ensures Run(cfg, es).sessions[c].registered == Run(cfg, es).sessions[c].authed
      {
        RunBasic(cfg, es);
        assert SessionOk(cfg, Run(cfg, es).sessions[c]);
      }
    } else {
      WalkRun(cfg, [], 0, "guest");
      assert Run(cfg, [] + Walk(0, "guest")).sessions[0] == Visitor("guest");
    }
  }
}
