/** The two ways to log in, from a fresh connection to an authenticated client that is found under its nick. */
module IrcLogin {
  import opened Wrappers
  import opened Text
  import opened IrcCommands
  import opened IrcModel
  import opened IrcCoherence
  import opened IrcEffects
  import opened IrcServer

  /** The connection has the nick and is found under it; its session is `s` with that nick. */
  ghost predicate Named<C>(w: World<C>, c: C, s: Session, nick: string) {
    Open(w, c) && w.sessions[c] == s.(nick := nick, stateNick := nick) && Holds(w, ToLower(nick), c)
  }

  /** The connection is authenticated, registered, and found under its nick. */
  ghost predicate LoggedInAs<C>(w: World<C>, c: C, nick: string, user: string, moderator: Option<bool>) {
    && Open(w, c) && w.sessions[c].authed && w.sessions[c].registered
    && w.sessions[c].nick == w.sessions[c].stateNick == nick && w.sessions[c].user == user
    && (w.sessions[c].canModerate <==> moderator == Some(true))
    && Lookup(w, nick) == Some(c)
  }

  lemma PassFirst<C>(cfg: Config, es: seq<Event<C>>, c: C, pass: string, verdict: Verdict)
    requires var w := Run(cfg, es); c in w.sessions && w.sessions[c] == FRESH_SESSION
    requires IsWord(pass) && ':' !in pass
    ensures var w, w' := Run(cfg, es), Run(cfg, es + PassSteps(FRESH_SESSION, c, pass, verdict));
      Open(w', c) && w'.sessions[c] == FRESH_SESSION.(pass := pass) && w'.byNick == w.byNick
  {
    TrimFixed(pass, IsColon);
    RunSnoc(cfg, es, Event.Pass(c, pass));
    PassEffect(cfg, Run(cfg, es), c, pass);
    assert PassSteps(FRESH_SESSION, c, pass, verdict) == [Event.Pass(c, pass)];
  }

  lemma NickFree<C>(cfg: Config, es: seq<Event<C>>, c: C, nick: string, s: Session, verdict: Verdict)
    requires var w := Run(cfg, es); Open(w, c) && w.sessions[c] == s && ToLower(nick) !in w.byNick
    requires s.user == "" && s.stateNick == "" && ValidNick(nick)
    ensures Named(Run(cfg, es + NickSteps(Run(cfg, es).byNick, s, c, nick, verdict)), c, s, nick)
  {
    RunSnoc(cfg, es, Event.Nick(c, nick));
    NickEffect(cfg, Run(cfg, es), c, nick);
    assert NickSteps(Run(cfg, es).byNick, s, c, nick, verdict) == [Event.Nick(c, nick)];
  }

  lemma GrantAfter<C>(cfg: Config, es: seq<Event<C>>, c: C, s: Session, nick: string, moderator: Option<bool>)
    requires Named(Run(cfg, es), c, s, nick) && nick != "" && !s.canModerate
    requires MayLogIn(cfg, s.(stateNick := nick))
    ensures LoggedInAs(Run(cfg, es + [Event.TryAuth(c, Granted(moderator))]), c, nick, s.user, moderator)
  {
    var w, v := Run(cfg, es), Granted(moderator);
    RunSnoc(cfg, es, Event.TryAuth(c, v));
    GrantedLogsIn(cfg, w, c, moderator);
    RegistrationEffect(cfg, w, c, v);
    assert MayLogIn(cfg, w.sessions[c]);
  }

  lemma UserLast<C>(cfg: Config, es: seq<Event<C>>, c: C, s: Session, nick: string, user: string, moderator: Option<bool>)
    requires Named(Run(cfg, es), c, s, nick) && nick != "" && user != "" && s.pass != ""
    requires !s.registered && !s.canModerate
    requires cfg.allowAlias || ToLower(nick) == ToLower(user)
    ensures var t := s.(nick := nick, stateNick := nick);
      LoggedInAs(Run(cfg, es + UserSteps(t, c, user, Granted(moderator))), c, nick, user, moderator)
  {
    var w, t, v := Run(cfg, es), s.(nick := nick, stateNick := nick), Granted(moderator);
    RunSnoc(cfg, es, Event.User(c, user));
    UserEffect(cfg, w, c, user);
    var es' := es + [Event.User(c, user)];
    GrantAfter(cfg, es', c, s.(user := user), nick, moderator);
    assert es + UserSteps(t, c, user, v) == es' + [Event.TryAuth(c, v)];
  }

  /** PASS, NICK and USER, with the account service granting: the connection is logged in under its nick. */
  lemma PasswordLogin<C>(cfg: Config, es: seq<Event<C>>, c: C, pass: string, nick: string, user: string,
                         moderator: Option<bool>)
    requires var w := Run(cfg, es); c in w.sessions && w.sessions[c] == FRESH_SESSION && ToLower(nick) !in w.byNick
    requires IsWord(pass) && ':' !in pass && ValidNick(nick) && user != ""
    requires cfg.allowAlias || ToLower(nick) == ToLower(user)
    ensures var v := Granted(moderator);
      var es1 := es + PassSteps(FRESH_SESSION, c, pass, v);
      var s1 := FRESH_SESSION.(pass := pass);
      var es2 := es1 + NickSteps(Run(cfg, es1).byNick, s1, c, nick, v);
      var s2 := s1.(nick := nick, stateNick := nick);
      && Open(Run(cfg, es1), c) && Run(cfg, es1).sessions[c] == s1
      && Open(Run(cfg, es2), c) && Run(cfg, es2).sessions[c] == s2
      && LoggedInAs(Run(cfg, es2 + UserSteps(s2, c, user, v)), c, nick, user, moderator)
  {
    var v := Granted(moderator);
    PassFirst(cfg, es, c, pass, v);
    var es1 := es + PassSteps(FRESH_SESSION, c, pass, v);
    var s1 := FRESH_SESSION.(pass := pass);
    NickFree(cfg, es1, c, nick, s1, v);
    UserLast(cfg, es1 + NickSteps(Run(cfg, es1).byNick, s1, c, nick, v), c, s1, nick, user, moderator);
  }

  lemma CapFirst<C>(cfg: Config, es: seq<Event<C>>, c: C)
    requires var w := Run(cfg, es); c in w.sessions && w.sessions[c] == FRESH_SESSION
    ensures var w, w' := Run(cfg, es), Run(cfg, es + [Event.CapReq(c)]);
      Open(w', c) && w'.sessions[c] == FRESH_SESSION.(saslReq := true) && w'.byNick == w.byNick
  {
    RunSnoc(cfg, es, Event.CapReq(c));
    SaslStartEffect(cfg, Run(cfg, es), c);
  }

  lemma PlainNext<C>(cfg: Config, es: seq<Event<C>>, c: C, s: Session, nick: string, verdict: Verdict)
    requires Named(Run(cfg, es), c, s, nick) && s.saslReq
    ensures var t := s.(nick := nick, stateNick := nick);
      Named(Run(cfg, es + SaslSteps(t, c, "PLAIN", None, verdict)), c, s.(awaitSasl := true), nick)
  {
    RunSnoc(cfg, es, Event.SaslStart(c));
    SaslStartEffect(cfg, Run(cfg, es), c);
    TrimFixed("PLAIN", IsSpace);
    assert ToLower("PLAIN") == "plain";
    assert SaslSteps(s.(nick := nick, stateNick := nick), c, "PLAIN", None, verdict) == [Event.SaslStart(c)];
  }

  /** The colons around a password do not matter. */
  lemma PassColons<C>(s: Session, c: C, v: string, pass: string, w: string, verdict: Verdict)
    requires AllCut(v, IsColon) && AllCut(w, IsColon) && IsWord(pass) && ':' !in pass
    ensures PassSteps(s, c, v + pass + w, verdict) == PassSteps(s, c, pass, verdict)
  {
    TrimFixed(pass, IsColon);
    TrimUnwraps(v, pass, w, IsColon);
  }

  predicate SpellsPlain(s: string) {
    |s| == 5 && s[0] in "pP" && s[1] in "lL" && s[2] in "aA" && s[3] in "iI" && s[4] in "nN"
  }

  /** Neither does a colon in front of what follows AUTHENTICATE, nor the case of PLAIN. */
  lemma SaslColon<C>(s: Session, c: C, raw: string, decoded: Option<string>, verdict: Verdict)
    requires raw != "" ==> raw[0] != ':'
    ensures SaslSteps(s, c, ":" + raw, decoded, verdict) == SaslSteps(s, c, raw, decoded, verdict)
    ensures s.saslReq && SpellsPlain(raw) ==> SaslSteps(s, c, raw, decoded, verdict) == [Event.SaslStart(c)]
  {
    assert (":" + raw)[1..] == raw;
    if SpellsPlain(raw) {
      TrimFixed(raw, IsSpace);
      assert ToLower(raw) == "plain";
    }
  }

  /** The steps of an AUTHENTICATE with a decoded PLAIN message. */
  lemma PayloadSteps<C>(t: Session, c: C, chunk: string, text: string, user: string, pass: string, verdict: Verdict)
    requires t.saslReq && t.awaitSasl && SaslCredentials(text) == Some((user, pass))
    requires IsWord(chunk) && chunk[0] != ':' && chunk != "+" && ToLower(chunk) != "plain"
    ensures SaslSteps(t, c, chunk, Some(text), verdict) == [Event.SaslPayload(c, user, pass), Event.TryAuth(c, verdict)]
  {
    TrimFixed(chunk, IsSpace);
  }

  lemma PayloadLast<C>(cfg: Config, es: seq<Event<C>>, c: C, s: Session, nick: string, user: string, pass: string,
                       moderator: Option<bool>)
    requires Named(Run(cfg, es), c, s, nick) && s.saslReq && s.awaitSasl && !s.canModerate
    requires nick != "" && user != "" && pass != "" && (cfg.allowAlias || ToLower(nick) == ToLower(user))
    ensures var steps := [Event.SaslPayload(c, user, pass), Event.TryAuth(c, Granted(moderator))];
      LoggedInAs(Run(cfg, es + steps), c, nick, user, moderator)
  {
    RunSnoc(cfg, es, Event.SaslPayload(c, user, pass));
    SaslEffect(cfg, Run(cfg, es), c, user, pass);
    var es' := es + [Event.SaslPayload(c, user, pass)];
    GrantAfter(cfg, es', c, s.(user := user, pass := pass, awaitSasl := false), nick, moderator);
    assert es + [Event.SaslPayload(c, user, pass), Event.TryAuth(c, Granted(moderator))] ==
      es' + [Event.TryAuth(c, Granted(moderator))];
  }

  /** CAP REQ, NICK, AUTHENTICATE PLAIN and the message of section 2 of RFC 4616, with the account service granting. */
  lemma SaslLogin<C>(cfg: Config, es: seq<Event<C>>, c: C, nick: string, chunk: string, authzid: string, user: string,
                     pass: string, moderator: Option<bool>)
    requires var w := Run(cfg, es); c in w.sessions && w.sessions[c] == FRESH_SESSION && ToLower(nick) !in w.byNick
    requires ValidNick(nick) && (cfg.allowAlias || ToLower(nick) == ToLower(user))
    requires IsWord(chunk) && chunk[0] != ':' && chunk != "+" && ToLower(chunk) != "plain"
    requires '\0' !in authzid && IsWord(user) && '\0' !in user && IsWord(pass) && '\0' !in pass
    ensures var v, text := Granted(moderator), authzid + "\0" + user + "\0" + pass;
      var es1 := es + [Event.CapReq(c)];
      var s1 := FRESH_SESSION.(saslReq := true);
      var es2 := es1 + NickSteps(Run(cfg, es1).byNick, s1, c, nick, v);
      var s2 := s1.(nick := nick, stateNick := nick);
      var es3 := es2 + SaslSteps(s2, c, "PLAIN", None, v);
      var s3 := s2.(awaitSasl := true);
      && Open(Run(cfg, es2), c) && Run(cfg, es2).sessions[c] == s2
      && Open(Run(cfg, es3), c) && Run(cfg, es3).sessions[c] == s3
      && LoggedInAs(Run(cfg, es3 + SaslSteps(s3, c, chunk, Some(text), v)), c, nick, user, moderator)
  {
    var v, text := Granted(moderator), authzid + "\0" + user + "\0" + pass;
    var es1, s1 := es + [Event.CapReq(c)], FRESH_SESSION.(saslReq := true);
    CapFirst(cfg, es, c);
    NickFree(cfg, es1, c, nick, s1, v);
    var es2, s2 := es1 + NickSteps(Run(cfg, es1).byNick, s1, c, nick, v), s1.(nick := nick, stateNick := nick);
    PlainNext(cfg, es2, c, s1, nick, v);
    SaslPlainMessage(authzid, user, pass);
    TrimFixed(user, IsSpace);
    TrimFixed(pass, IsSpace);
    PayloadSteps(s2.(awaitSasl := true), c, chunk, text, user, pass, v);
    PayloadLast(cfg, es2 + SaslSteps(s2, c, "PLAIN", None, v), c, s1.(awaitSasl := true), nick, user, pass, moderator);
  }

  /** Where an account has been named, an accepted NICK and a PASS authenticate at once; a refused NICK does not. */
  lemma NamedAccountAuthenticates<C>(byNick: map<string, C>, s: Session, c: C, nick: string, pass: string,
                                     verdict: Verdict)
    requires s.user != "" && ValidNick(nick) && IsWord(pass) && ':' !in pass
    ensures (ToLower(nick) !in byNick || byNick[ToLower(nick)] == c) ==>
      NickSteps(byNick, s, c, nick, verdict) == [Event.Nick(c, nick), Event.TryAuth(c, verdict)]
    ensures ToLower(nick) in byNick && byNick[ToLower(nick)] != c && ToLower(s.stateNick) != ToLower(nick) ==>
      NickSteps(byNick, s, c, nick, verdict) == [Event.Nick(c, nick)]
    ensures !s.registered ==> PassSteps(s, c, pass, verdict) == [Event.Pass(c, pass), Event.TryAuth(c, verdict)]
  {
    TrimFixed(pass, IsColon);
  }

  /** After registration PASS and USER take no steps, and neither does a bad nick. */
  lemma RegisteredTakesNone<C>(byNick: map<string, C>, s: Session, c: C, raw: string, verdict: Verdict)
    ensures s.registered ==> PassSteps(s, c, raw, verdict) == [] && UserSteps(s, c, raw, verdict) == []
    ensures PassSteps(s, c, "", verdict) == [] && UserSteps(s, c, "", verdict) == []
    ensures !ValidNick(raw) ==> NickSteps(byNick, s, c, raw, verdict) == []
  {
  }

  /** AUTHENTICATE takes no step before CAP REQ, for "+", before PLAIN, or for a payload that cannot be read. */
  lemma SaslTakesNone<C>(s: Session, c: C, raw: string, decoded: Option<string>, verdict: Verdict)
    ensures !s.saslReq ==> SaslSteps(s, c, raw, decoded, verdict) == []
    ensures SaslSteps(s, c, "+", decoded, verdict) == []
    ensures ToLower(TrimSpace(TrimPrefix(raw, ':'))) != "plain" && (!s.awaitSasl || decoded.None?) ==>
      SaslSteps(s, c, raw, decoded, verdict) == []
  {
    TrimFixed("+", IsSpace);
    assert |ToLower("+")| != |"plain"|;
  }
}
