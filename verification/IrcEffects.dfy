/** What each command does, on the fields of the sessions and the entries of the two indexes. */
module IrcEffects {
  import opened Wrappers
  import opened Text
  import opened IrcModel
  import opened IrcInvariants
  import opened IrcCoherence

  /** Apart from `c`, every session is as it was. */
  ghost predicate OthersStay<C>(w: World<C>, w': World<C>, c: C) {
    w'.sessions.Keys == w.sessions.Keys && forall d :: d in w.sessions && d != c ==> w'.sessions[d] == w.sessions[d]
  }

  ghost predicate IndexesStay<C>(w: World<C>, w': World<C>) {
    w'.byNick == w.byNick && w'.peers == w.peers
  }

  // ------------------------------------------------------------------
  // Connections come and go
  // ------------------------------------------------------------------

  /** A new connection has no name, no rights and no channel; it disturbs nobody. */
  lemma AcceptIsFresh<C>(cfg: Config, w: World<C>, c: C)
    requires c !in w.sessions
    ensures var w' := Step(cfg, w, Accept(c));
      && c in w'.sessions && IndexesStay(w, w') && w'.sessions.Keys == w.sessions.Keys + {c}
      && (forall d :: d in w.sessions ==> w'.sessions[d] == w.sessions[d])
      && var s := w'.sessions[c];
         && s.open && !s.authed && !s.registered && !s.canModerate && !s.saslReq && !s.awaitSasl
         && s.nick == s.stateNick == s.user == s.pass == s.channel == s.link.watching == ""
         && s.link.queue == []
  {
  }

  /** A connection that has ended, or never was, does nothing. */
  lemma ClosedDoesNothing<C>(cfg: Config, w: World<C>, e: Event<C>)
    requires if e.Accept? then e.c in w.sessions else e.c in w.sessions ==> !w.sessions[e.c].open
    ensures Step(cfg, w, e) == w
  {
  }

  lemma DisconnectCloses<C>(cfg: Config, w: World<C>, c: C)
    requires Open(w, c)
    ensures var w' := Step(cfg, w, Disconnect(c));
      OthersStay(w, w', c) && w'.sessions[c] == w.sessions[c].(open := false)
  {
  }

  // ------------------------------------------------------------------
  // Names and credentials
  // ------------------------------------------------------------------

  /** A nick has 1 to 31 characters, none of which IRC gives a meaning. */
  lemma ValidNickMeans(nick: string)
    ensures ValidNick(nick) <==>
      && 1 <= |nick| < 32
      && ' ' !in nick && '\0' !in nick && '\r' !in nick && '\n' !in nick && ',' !in nick
      && ':' !in nick && '*' !in nick && '?' !in nick && '!' !in nick && '@' !in nick
  {
    BadNickChars();
  }

  lemma BadNickChars()
    ensures forall c :: BadNickChar(c) <==>
      || c == ' ' || c == '\0' || c == '\r' || c == '\n' || c == ','
      || c == ':' || c == '*' || c == '?' || c == '!' || c == '@'
  {
    var bad := " \0\r\n,:*?!@";
    assert bad[0] == ' ' && bad[1] == '\0' && bad[2] == '\r' && bad[3] == '\n' && bad[4] == ',';
    assert bad[5] == ':' && bad[6] == '*' && bad[7] == '?' && bad[8] == '!' && bad[9] == '@';
  }

  /** NICK: the caller has the nick, its old key is gone, and no other entry is touched; unless another has the key. */
  lemma NickEffect<C>(cfg: Config, w: World<C>, c: C, nick: string)
    requires Open(w, c) && ValidNick(nick)
    ensures var s, k, w' := w.sessions[c], ToLower(nick), Step(cfg, w, Nick(c, nick));
      var given := s.stateNick != "" && ToLower(s.stateNick) == k;
      var free := k !in w.byNick || w.byNick[k] == c || given;
      && OthersStay(w, w', c) && w'.peers == w.peers
      && w'.sessions[c] == (if free then s.(nick := nick, stateNick := nick) else s)
      && forall j, d :: Holds(w', j, d) <==>
           if free && j == k then d == c else Holds(w, j, d) && !(s.stateNick != "" && j == ToLower(s.stateNick))
  {
    OpenStep(cfg, w, Nick(c, nick));
  }

  lemma BadNickIgnored<C>(cfg: Config, w: World<C>, c: C, nick: string)
    requires Open(w, c) && !ValidNick(nick)
    ensures Step(cfg, w, Nick(c, nick)) == w
  {
  }

  /** Before registration USER names the account, and the nick of a connection without one; afterwards it does nothing. */
  lemma UserEffect<C>(cfg: Config, w: World<C>, c: C, user: string)
    requires Open(w, c)
    ensures var s, w' := w.sessions[c], Step(cfg, w, User(c, user)); var t := w'.sessions[c];
      && OthersStay(w, w', c) && IndexesStay(w, w')
      && (s.registered || user == "" ==> t == s)
      && (!s.registered && user != "" ==>
           t.user == user && t == s.(user := t.user, nick := t.nick, stateNick := t.stateNick))
      && (!s.registered && user != "" && s.stateNick == "" ==> t.nick == t.stateNick == user)
      && (s.stateNick != "" ==> t.nick == s.nick && t.stateNick == s.stateNick)
  {
    OpenStep(cfg, w, User(c, user));
  }

  /** PASS sets the password, and only before registration. */
  lemma PassEffect<C>(cfg: Config, w: World<C>, c: C, pass: string)
    requires Open(w, c)
    ensures var s, w' := w.sessions[c], Step(cfg, w, Pass(c, pass));
      && OthersStay(w, w', c) && IndexesStay(w, w')
      && w'.sessions[c] == s.(pass := if s.registered then s.pass else pass)
  {
    OpenStep(cfg, w, Pass(c, pass));
  }

  /** SASL credentials count after CAP REQ and AUTHENTICATE PLAIN, once; without an identity they are the nick's. */
  lemma SaslEffect<C>(cfg: Config, w: World<C>, c: C, user: string, pass: string)
    requires Open(w, c)
    ensures var s, w' := w.sessions[c], Step(cfg, w, SaslPayload(c, user, pass)); var t := w'.sessions[c];
      && OthersStay(w, w', c) && IndexesStay(w, w')
      && (!s.saslReq || !s.awaitSasl ==> t == s)
      && (s.saslReq && s.awaitSasl ==>
           && t == s.(user := t.user, pass := pass, awaitSasl := false)
           && (user != "" ==> t.user == user) && (user == "" ==> t.user == s.stateNick))
  {
    OpenStep(cfg, w, SaslPayload(c, user, pass));
  }

  lemma SaslStartEffect<C>(cfg: Config, w: World<C>, c: C)
    requires Open(w, c)
    ensures var s := w.sessions[c];
      && Step(cfg, w, CapReq(c)) == w.(sessions := w.sessions[c := s.(saslReq := true)])
      && Step(cfg, w, SaslStart(c)) == w.(sessions := w.sessions[c := s.(awaitSasl := s.awaitSasl || s.saslReq)])
  {
    OpenStep(cfg, w, CapReq(c));
    OpenStep(cfg, w, SaslStart(c));
  }

  // ------------------------------------------------------------------
  // Logging in
  // ------------------------------------------------------------------

  /** An account is named, a password was given, and the alias rule lets the nick pass. */
  predicate MayLogIn(cfg: Config, s: Session) {
    s.user != "" && s.pass != "" && (cfg.allowAlias || s.stateNick == "" || ToLower(s.stateNick) == ToLower(s.user))
  }

  /** A refusal gives nobody any rights, and changes nothing at all where a password is required or was given. */
  lemma DeniedLogsNobodyIn<C>(cfg: Config, w: World<C>, c: C, d: C)
    requires d in w.sessions
    ensures var w' := Step(cfg, w, TryAuth(c, Denied));
      && d in w'.sessions
      && w'.sessions[d].authed == w.sessions[d].authed && w'.sessions[d].canModerate == w.sessions[d].canModerate
      && (cfg.requirePass || (c in w.sessions && w.sessions[c].pass != "") ==> w' == w)
  {
    if Open(w, c) {
      OpenStep(cfg, w, TryAuth(c, Denied));
    }
  }

  /** The session after `tryAuthenticate`. */
  function Asked(cfg: Config, s: Session, verdict: Verdict): Session {
    var t := Authenticated(cfg, s, verdict);
    if t.Some? then Registered(t.value) else s
  }

  lemma AuthChanges<C>(cfg: Config, w: World<C>, c: C, verdict: Verdict)
    requires Open(w, c)
    ensures var s, w' := w.sessions[c], Step(cfg, w, TryAuth(c, verdict)); var t := w'.sessions[c];
      && OthersStay(w, w', c) && w'.peers == w.peers && t == Asked(cfg, s, verdict)
      && w'.byNick == if t.registered && !s.registered && t.nick != "" then w.byNick[ToLower(t.nick) := c] else w.byNick
  {
    OpenStep(cfg, w, TryAuth(c, verdict));
    AskedRegisters(cfg, w.sessions[c], verdict);
  }

  lemma AskedRegisters(cfg: Config, s: Session, verdict: Verdict)
    ensures var t := Authenticated(cfg, s, verdict);
      && (t.Some? ==> t.value.registered == s.registered && Asked(cfg, s, verdict).registered)
      && (t.None? ==> Asked(cfg, s, verdict) == s)
  {
  }

  /** A grant logs in exactly who may log in, with the rights it names, and nobody else. */
  lemma GrantedLogsIn<C>(cfg: Config, w: World<C>, c: C, moderator: Option<bool>)
    requires Open(w, c)
    ensures var s, w' := w.sessions[c], Step(cfg, w, TryAuth(c, Granted(moderator))); var t := w'.sessions[c];
      && OthersStay(w, w', c)
      && t.authed == (s.authed || MayLogIn(cfg, s))
      && t.canModerate == if MayLogIn(cfg, s) && moderator.Some? then moderator.value else s.canModerate
  {
    AuthChanges(cfg, w, c, Granted(moderator));
    AskedRights(cfg, w.sessions[c], moderator);
  }

  lemma AskedRights(cfg: Config, s: Session, moderator: Option<bool>)
    ensures var t := Asked(cfg, s, Granted(moderator));
      && t.authed == (s.authed || MayLogIn(cfg, s))
      && t.canModerate == if MayLogIn(cfg, s) && moderator.Some? then moderator.value else s.canModerate
  {
    AskedIs(cfg, s, Granted(moderator));
    LoggedInRights(s, moderator);
  }

  lemma LoggedInRights(s: Session, moderator: Option<bool>)
    ensures var t := Registered(LoggedIn(s, moderator));
      t.authed && t.canModerate == if moderator.Some? then moderator.value else s.canModerate
    ensures Registered(s).authed == s.authed && Registered(s).canModerate == s.canModerate
  {
    RegisteredRights(s);
    RegisteredRights(LoggedIn(s, moderator));
  }

  lemma RegisteredRights(s: Session)
    ensures Registered(s).authed == s.authed && Registered(s).canModerate == s.canModerate
  {
  }

  lemma AskedIs(cfg: Config, s: Session, verdict: Verdict)
    ensures Asked(cfg, s, verdict) ==
      if MayLogIn(cfg, s) && verdict.Granted? then Registered(LoggedIn(s, verdict.moderator))
      else if !cfg.requirePass && s.user != "" && s.pass == "" then Registered(s)
      else s
  {
  }

  /**
   Registration follows a login, or the naming of an account where no password is required and
   none was given. It fills in a missing nick from the account, and stores the nick the first
   time; nothing else changes.
   */
  lemma RegistrationEffect<C>(cfg: Config, w: World<C>, c: C, verdict: Verdict)
    requires Open(w, c) && w.sessions[c].nick == w.sessions[c].stateNick
    ensures var s, w' := w.sessions[c], Step(cfg, w, TryAuth(c, verdict)); var t := w'.sessions[c];
      var goes := (MayLogIn(cfg, s) && verdict.Granted?) || (!cfg.requirePass && s.user != "" && s.pass == "");
      && OthersStay(w, w', c) && w'.peers == w.peers
      && t.registered == (s.registered || goes)
      && t == s.(authed := t.authed, canModerate := t.canModerate, registered := t.registered,
                 nick := t.nick, stateNick := t.nick)
      && (s.nick != "" ==> t.nick == s.nick)
      && (t.registered && !s.registered ==> t.nick == if s.nick == "" then s.user else s.nick)
      && w'.byNick == if t.registered && !s.registered then w.byNick[ToLower(t.nick) := c] else w.byNick
  {
    AuthChanges(cfg, w, c, verdict);
    AskedFields(cfg, w.sessions[c], verdict);
  }

  lemma AskedFields(cfg: Config, s: Session, verdict: Verdict)
    requires s.nick == s.stateNick
    ensures var t := Asked(cfg, s, verdict);
      var goes := (MayLogIn(cfg, s) && verdict.Granted?) || (!cfg.requirePass && s.user != "" && s.pass == "");
      && t.registered == (s.registered || goes)
      && t == s.(authed := t.authed, canModerate := t.canModerate, registered := t.registered,
                 nick := t.nick, stateNick := t.nick)
      && (s.nick != "" ==> t.nick == s.nick)
      && (t.registered && !s.registered ==> s.user != "" && t.nick == if s.nick == "" then s.user else s.nick)
  {
    AskedIs(cfg, s, verdict);
    if verdict.Granted? {
      LoggedInFields(s, verdict.moderator);
    }
    RegisteredFields(s);
  }

  lemma LoggedInFields(s: Session, moderator: Option<bool>)
    requires s.nick == s.stateNick
    ensures var t := Registered(LoggedIn(s, moderator));
      && t == s.(authed := true, canModerate := t.canModerate, registered := true, nick := t.nick, stateNick := t.nick)
      && t.nick == if s.nick == "" then s.user else s.nick
  {
  }

  lemma RegisteredFields(s: Session)
    requires s.nick == s.stateNick
    ensures var t := Registered(s);
      && t == s.(registered := true, nick := t.nick, stateNick := t.nick)
      && (s.nick != "" ==> t.nick == s.nick)
      && (!s.registered ==> t.nick == if s.nick == "" then s.user else s.nick)
  {
  }

  /** `es[i]` is a login of `c`: the account service granted it, and the connection was one that may log in. */
  ghost predicate LoginAt<C>(cfg: Config, es: seq<Event<C>>, i: nat, c: C)
    requires i < |es|
  {
    var w := Run(cfg, es[..i]);
    es[i].TryAuth? && es[i].c == c && es[i].verdict.Granted? && Open(w, c) && MayLogIn(cfg, w.sessions[c])
  }

  /** Only a login, or registration without a password, changes these fields. */
  lemma RightsChange<C>(cfg: Config, w: World<C>, e: Event<C>, c: C)
    requires c in w.sessions
    requires !(e.TryAuth? && e.c == c && e.verdict.Granted? && Open(w, c) && MayLogIn(cfg, w.sessions[c]))
    ensures var w' := Step(cfg, w, e);
      c in w'.sessions && w'.sessions[c].authed == w.sessions[c].authed
      && w'.sessions[c].canModerate == w.sessions[c].canModerate
  {
    if e.TryAuth? && Open(w, e.c) {
      if e.verdict.Denied? {
        DeniedLogsNobodyIn(cfg, w, e.c, c);
      } else {
        GrantedLogsIn(cfg, w, e.c, e.verdict.moderator);
      }
    } else if !e.TryAuth? {
      OtherRights(cfg, w, e, c);
    }
  }

  lemma OtherRights<C>(cfg: Config, w: World<C>, e: Event<C>, c: C)
    requires c in w.sessions && !e.TryAuth?
    ensures var w' := Step(cfg, w, e);
      c in w'.sessions && w'.sessions[c].authed == w.sessions[c].authed
      && w'.sessions[c].canModerate == w.sessions[c].canModerate
  {
    if Open(w, e.c) && (e.Join? || e.Part? || e.Kick?) {
      MoveRights(cfg, w, e, c);
    } else if Open(w, e.c) && !e.Accept? {
      OpenStep(cfg, w, e);
    }
  }

  lemma MoveRights<C>(cfg: Config, w: World<C>, e: Event<C>, c: C)
    requires c in w.sessions && Open(w, e.c) && (e.Join? || e.Part? || e.Kick?)
    ensures var w' := Step(cfg, w, e);
      c in w'.sessions && w'.sessions[c].authed == w.sessions[c].authed
      && w'.sessions[c].canModerate == w.sessions[c].canModerate
  {
    OpenStep(cfg, w, e);
    if e.Kick? {
      var d := Lookup(w, e.target);
      if d.Some? && d.value in w.sessions { SetChannelMoves(w, d.value, ""); }
    } else {
      SetChannelMoves(w, e.c, if e.Join? then e.channel else "");
    }
  }

  /** What a login does, and that nothing else does it. */
  lemma RightsNext<C>(cfg: Config, es: seq<Event<C>>, n: nat, c: C)
    requires n < |es| && c in Run(cfg, es[..n]).sessions
    ensures c in Run(cfg, es[..n + 1]).sessions
    ensures var s, t := Run(cfg, es[..n]).sessions[c], Run(cfg, es[..n + 1]).sessions[c];
      && t.authed == (s.authed || LoginAt(cfg, es, n, c))
      && t.canModerate ==
           if LoginAt(cfg, es, n, c) && es[n].verdict.moderator.Some? then es[n].verdict.moderator.value
           else s.canModerate
  {
    RunNext(cfg, es, n);
    if LoginAt(cfg, es, n, c) {
      GrantedLogsIn(cfg, Run(cfg, es[..n]), c, es[n].verdict.moderator);
    } else {
      RightsChange(cfg, Run(cfg, es[..n]), es[n], c);
    }
  }

  /** A connection that appears with a step is fresh, and no earlier step was its login. */
  lemma RightsBegin<C>(cfg: Config, es: seq<Event<C>>, n: nat, c: C)
    requires n < |es| && c !in Run(cfg, es[..n]).sessions && c in Run(cfg, es[..n + 1]).sessions
    ensures var t := Run(cfg, es[..n + 1]).sessions[c]; !t.authed && !t.canModerate
    ensures forall i: nat :: i <= n ==> !LoginAt(cfg, es, i, c)
  {
    RunNext(cfg, es, n);
    AppearsByAccept(cfg, Run(cfg, es[..n]), es[n], c);
    forall i: nat | i <= n ensures !LoginAt(cfg, es, i, c) {
      if c in Run(cfg, es[..i]).sessions {
        assert es[..n][..i] == es[..i];
        RunLater(cfg, es[..n], i);
      }
    }
  }

  lemma AppearsByAccept<C>(cfg: Config, w: World<C>, e: Event<C>, c: C)
    requires c !in w.sessions && c in Step(cfg, w, e).sessions
    ensures e == Accept(c)
  {
  }

  /** A connection is authenticated exactly when a login of it was granted earlier in the run. */
  lemma {:induction false} AuthedByLogin<C>(cfg: Config, es: seq<Event<C>>, n: nat, c: C)
    requires n <= |es| && c in Run(cfg, es[..n]).sessions
    ensures Run(cfg, es[..n]).sessions[c].authed <==> exists i: nat :: i < n && LoginAt(cfg, es, i, c)
  {
    assert es[..0] == [];
    if n > 0 {
      if c in Run(cfg, es[..n - 1]).sessions {
        AuthedByLogin(cfg, es, n - 1, c);
        AuthedCarries(cfg, es, n - 1, n, c);
      } else {
        RightsBegin(cfg, es, n - 1, c);
      }
    }
  }

  lemma AuthedCarries<C>(cfg: Config, es: seq<Event<C>>, n: nat, m: nat, c: C)
    requires n < m == n + 1 <= |es| && c in Run(cfg, es[..n]).sessions
    requires Run(cfg, es[..n]).sessions[c].authed <==> exists i: nat :: i < n && LoginAt(cfg, es, i, c)
    ensures c in Run(cfg, es[..m]).sessions
    ensures Run(cfg, es[..m]).sessions[c].authed <==> exists i: nat :: i < m && LoginAt(cfg, es, i, c)
  {
    RightsNext(cfg, es, n, c);
  }

  /** Login `i` granted the rights of a moderator, and no later one before `n` took them back. */
  ghost predicate ModeratorSince<C>(cfg: Config, es: seq<Event<C>>, i: nat, n: nat, c: C)
    requires i < n <= |es|
  {
    && LoginAt(cfg, es, i, c) && es[i].verdict == Granted(Some(true))
    && forall j: nat :: i < j < n && LoginAt(cfg, es, j, c) ==> es[j].verdict != Granted(Some(false))
  }

  /** A connection may moderate exactly when the last login that named a user named a moderator. */
  lemma {:induction false} ModeratorByLogin<C>(cfg: Config, es: seq<Event<C>>, n: nat, c: C)
    requires n <= |es| && c in Run(cfg, es[..n]).sessions
    ensures Run(cfg, es[..n]).sessions[c].canModerate <==> exists i: nat :: i < n && ModeratorSince(cfg, es, i, n, c)
  {
    assert es[..0] == [];
    if n > 0 {
      if c in Run(cfg, es[..n - 1]).sessions {
        ModeratorByLogin(cfg, es, n - 1, c);
        ModeratorCarries(cfg, es, n - 1, n, c);
      } else {
        RightsBegin(cfg, es, n - 1, c);
      }
    }
  }

  lemma ModeratorCarries<C>(cfg: Config, es: seq<Event<C>>, n: nat, m: nat, c: C)
    requires n < m == n + 1 <= |es| && c in Run(cfg, es[..n]).sessions
    requires Run(cfg, es[..n]).sessions[c].canModerate <==> exists i: nat :: i < n && ModeratorSince(cfg, es, i, n, c)
    ensures c in Run(cfg, es[..m]).sessions
    ensures Run(cfg, es[..m]).sessions[c].canModerate <==> exists i: nat :: i < m && ModeratorSince(cfg, es, i, m, c)
  {
    RightsNext(cfg, es, n, c);
    ModeratorNext(cfg, es, n, m, c);
  }

  lemma ModeratorNext<C>(cfg: Config, es: seq<Event<C>>, n: nat, m: nat, c: C)
    requires n < m == n + 1 <= |es|
    ensures (exists i: nat :: i < m && ModeratorSince(cfg, es, i, m, c)) <==>
      if LoginAt(cfg, es, n, c) && es[n].verdict.moderator.Some? then es[n].verdict.moderator.value
      else exists i: nat :: i < n && ModeratorSince(cfg, es, i, n, c)
  {
    if LoginAt(cfg, es, n, c) && es[n].verdict.moderator.Some? {
      if es[n].verdict.moderator.value {
        assert ModeratorSince(cfg, es, n, m, c);
      }
    } else {
      forall i: nat | i < n ensures ModeratorSince(cfg, es, i, m, c) <==> ModeratorSince(cfg, es, i, n, c) {
      }
    }
  }

  // ------------------------------------------------------------------
  // Moving between channels
  // ------------------------------------------------------------------

  /** The poller's queue takes a switch while it holds fewer than 32, and drops it otherwise. */
  ghost predicate Notified(link: Link, link': Link, ch: string) {
    && link'.watching == link.watching
    && (|link.queue| < 32 ==> link'.queue == link.queue + [ch] && !link'.dropped)
    && (|link.queue| >= 32 ==> link'.queue == link.queue && link'.dropped)
  }

  /** `c` is in channel `ch` now, its poller is told so, and nothing else about the connections changes. */
  ghost predicate Moved<C>(w: World<C>, w': World<C>, c: C, ch: string) {
    && c in w.sessions && OthersStay(w, w', c) && w'.byNick == w.byNick
    && w'.sessions[c] == w.sessions[c].(channel := ch, link := w'.sessions[c].link)
    && Notified(w.sessions[c].link, w'.sessions[c].link, ch)
  }

  lemma SetChannelMoves<C>(w: World<C>, c: C, ch: string)
    requires c in w.sessions
    ensures Moved(w, SetChannel(w, c, ch), c, ch)
  {
  }

  /** JOIN moves an authenticated caller into the channel, and does nothing for another one. */
  lemma JoinMoves<C>(cfg: Config, w: World<C>, c: C, ch: string)
    requires Open(w, c)
    ensures var w' := Step(cfg, w, Join(c, ch));
      if w.sessions[c].authed && ch != "" then Moved(w, w', c, ch) else w' == w
  {
    OpenStep(cfg, w, Join(c, ch));
    SetChannelMoves(w, c, ch);
  }

  /** PART moves an authenticated caller out of its channel, and does nothing for another one. */
  lemma PartMoves<C>(cfg: Config, w: World<C>, c: C)
    requires Open(w, c)
    ensures var w' := Step(cfg, w, Part(c)); if w.sessions[c].authed then Moved(w, w', c, "") else w' == w
  {
    OpenStep(cfg, w, Part(c));
    SetChannelMoves(w, c, "");
  }

  /** KICK by a moderator moves the connection found under the nick out of its channel. */
  lemma KickMoves<C>(cfg: Config, w: World<C>, c: C, target: string, d: C)
    requires Open(w, c) && w.sessions[c].authed && w.sessions[c].canModerate
    requires Holds(w, ToLower(target), d) && d in w.sessions
    ensures Moved(w, Step(cfg, w, Kick(c, target)), d, "")
  {
    OpenStep(cfg, w, Kick(c, target));
    SetChannelMoves(w, d, "");
  }

  /** Without the rights, or where nobody has the nick, KICK does nothing. */
  lemma KickNobody<C>(cfg: Config, w: World<C>, c: C, target: string)
    requires Open(w, c)
    requires !w.sessions[c].authed || !w.sessions[c].canModerate || ToLower(target) !in w.byNick
    ensures Step(cfg, w, Kick(c, target)) == w
  {
    OpenStep(cfg, w, Kick(c, target));
  }

  /** In agreement, a move takes the client out of every bucket but its new channel's, and leaves the other entries. */
  lemma MovedEntries<C>(cfg: Config, w: World<C>, c: C, to: string, ch: string, k: string, d: C)
    requires Basic(cfg, w) && Agree(w) && Open(w, c) && (to != "" ==> w.sessions[c].authed)
    ensures Listed(SetChannel(w, c, to), ch, k, d) <==>
      if d == c then to != "" && ch == to && k == ToLower(w.sessions[c].nick) else Listed(w, ch, k, d)
  {
    var w' := SetChannel(w, c, to);
    SetChannelBasic(cfg, w, c, to);
    SetChannelAgrees(cfg, w, c, to);
    EntryIsMember(cfg, w, ch, k, d);
    EntryIsMember(cfg, w', ch, k, d);
  }

  /** On a guarded run, after a JOIN the caller is in the bucket of its channel, under its nick, and in no other. */
  lemma JoinEntries<C>(cfg: Config, es: seq<Event<C>>, c: C, to: string, ch: string, k: string, d: C)
    requires Guarded(cfg, es) && to != ""
    requires var w := Run(cfg, es); Open(w, c) && w.sessions[c].authed
    ensures var w, w' := Run(cfg, es), Run(cfg, es + [Join(c, to)]);
      Listed(w', ch, k, d) <==>
        if d == c then ch == to && k == ToLower(w.sessions[c].nick) else Listed(w, ch, k, d)
  {
    GuardedEnd(cfg, es);
    RunSnoc(cfg, es, Join(c, to));
    OpenStep(cfg, Run(cfg, es), Join(c, to));
    MovedEntries(cfg, Run(cfg, es), c, to, ch, k, d);
  }

  /** After a PART no bucket has the caller. */
  lemma PartEntries<C>(cfg: Config, es: seq<Event<C>>, c: C, ch: string, k: string, d: C)
    requires Guarded(cfg, es)
    requires var w := Run(cfg, es); Open(w, c) && w.sessions[c].authed
    ensures Listed(Run(cfg, es + [Part(c)]), ch, k, d) <==> d != c && Listed(Run(cfg, es), ch, k, d)
  {
    GuardedEnd(cfg, es);
    RunSnoc(cfg, es, Part(c));
    OpenStep(cfg, Run(cfg, es), Part(c));
    MovedEntries(cfg, Run(cfg, es), c, "", ch, k, d);
  }

  /** After a KICK no bucket has the client that was found under the nick. */
  lemma KickEntries<C>(cfg: Config, es: seq<Event<C>>, c: C, target: string, t: C, ch: string, k: string, d: C)
    requires Guarded(cfg, es)
    requires var w := Run(cfg, es);
      Open(w, c) && w.sessions[c].authed && w.sessions[c].canModerate && Holds(w, ToLower(target), t)
    ensures Listed(Run(cfg, es + [Kick(c, target)]), ch, k, d) <==> d != t && Listed(Run(cfg, es), ch, k, d)
  {
    GuardedEnd(cfg, es);
    RunSnoc(cfg, es, Kick(c, target));
    OpenStep(cfg, Run(cfg, es), Kick(c, target));
    assert KeyOk(Run(cfg, es), ToLower(target), t);
    MovedEntries(cfg, Run(cfg, es), t, "", ch, k, d);
  }

  // ------------------------------------------------------------------
  // The poller hears of the moves in order
  // ------------------------------------------------------------------

  /** The channel that a step moves `c` to, if it moves it. */
  ghost function Switch<C>(w: World<C>, e: Event<C>, c: C): Option<string> {
    if c !in w.sessions || !Open(w, e.c) || !w.sessions[e.c].authed then None
    else
      match e
      case Join(b, ch) => if b == c && ch != "" then Some(ch) else None
      case Part(b) => if b == c then Some("") else None
      case Kick(b, target) => if w.sessions[b].canModerate && Holds(w, ToLower(target), c) then Some("") else None
      case _ => None
  }

  /** The poller of `c` takes the oldest switch from its queue. */
  ghost predicate Takes<C>(w: World<C>, e: Event<C>, c: C) {
    e == Poll(c) && Open(w, c) && w.sessions[c].link.queue != []
  }

  lemma LinkStep<C>(cfg: Config, w: World<C>, e: Event<C>, c: C)
    requires c in w.sessions
    ensures c in Step(cfg, w, e).sessions
    ensures var link, link' := w.sessions[c].link, Step(cfg, w, e).sessions[c].link; var switch := Switch(w, e, c);
      if switch.Some? then Notified(link, link', switch.value)
      else if Takes(w, e, c) then
        link'.queue == link.queue[1..] && link'.watching == link.queue[0] && link'.dropped == link.dropped
      else link' == link
  {
    if !e.Accept? && Open(w, e.c) {
      match e
      case Join(b, ch) => JoinMoves(cfg, w, b, ch);
      case Part(b) => PartMoves(cfg, w, b);
      case Kick(b, target) => KickLink(cfg, w, b, target, c);
      case TryAuth(b, verdict) => AuthLink(cfg, w, b, verdict, c);
      case Nick(_, _) => OtherLink(cfg, w, e, c);
      case Disconnect(_) => OtherLink(cfg, w, e, c);
      case _ => OwnLink(cfg, w, e, c);
    }
  }

  lemma OtherLink<C>(cfg: Config, w: World<C>, e: Event<C>, c: C)
    requires c in w.sessions && (e.Nick? || e.Disconnect?)
    ensures c in Step(cfg, w, e).sessions && Step(cfg, w, e).sessions[c].link == w.sessions[c].link
  {
  }

  lemma OwnLink<C>(cfg: Config, w: World<C>, e: Event<C>, c: C)
    requires c in w.sessions && Open(w, e.c)
    requires e.User? || e.Pass? || e.CapReq? || e.SaslStart? || e.SaslPayload? || e.Poll?
    ensures c in Step(cfg, w, e).sessions
    ensures var link, link' := w.sessions[c].link, Step(cfg, w, e).sessions[c].link;
      if Takes(w, e, c) then link' == link.(queue := link.queue[1..], watching := link.queue[0]) else link' == link
  {
    OpenStep(cfg, w, e);
  }

  lemma AuthLink<C>(cfg: Config, w: World<C>, b: C, verdict: Verdict, c: C)
    requires Open(w, b) && c in w.sessions
    ensures var w' := Step(cfg, w, TryAuth(b, verdict));
      c in w'.sessions && w'.sessions[c].link == w.sessions[c].link
  {
    AuthChanges(cfg, w, b, verdict);
    AskedLink(cfg, w.sessions[b], verdict);
  }

  lemma AskedLink(cfg: Config, s: Session, verdict: Verdict)
    ensures Asked(cfg, s, verdict).link == s.link
  {
    AskedIs(cfg, s, verdict);
    LinkStays(s, None);
    if verdict.Granted? {
      LinkStays(s, verdict.moderator);
      LinkStays(LoggedIn(s, verdict.moderator), None);
    }
  }

  lemma LinkStays(s: Session, moderator: Option<bool>)
    ensures LoggedIn(s, moderator).link == s.link
    ensures Registered(s).link == s.link
  {
  }

  lemma KickLink<C>(cfg: Config, w: World<C>, b: C, target: string, c: C)
    requires Open(w, b) && c in w.sessions
    ensures c in Step(cfg, w, Kick(b, target)).sessions
    ensures var link' := Step(cfg, w, Kick(b, target)).sessions[c].link;
      if Switch(w, Kick(b, target), c).Some? then Notified(w.sessions[c].link, link', "") else link' == w.sessions[c].link
  {
    OpenStep(cfg, w, Kick(b, target));
    var d := Lookup(w, target);
    if d.Some? && d.value in w.sessions {
      SetChannelMoves(w, d.value, "");
    }
  }

  /** The switches that found room in the queue of `c` in the first `n` steps, in order. */
  ghost function Announced<C>(cfg: Config, es: seq<Event<C>>, n: nat, c: C): seq<string>
    requires n <= |es|
  {
    if n == 0 then []
    else
      var before, w := Announced(cfg, es, n - 1, c), Run(cfg, es[..n - 1]);
      var switch := Switch(w, es[n - 1], c);
      if switch.Some? && |w.sessions[c].link.queue| < 32 then before + [switch.value] else before
  }

  /** The switches that the poller of `c` has received in the first `n` steps, in order. */
  ghost function Heard<C>(cfg: Config, es: seq<Event<C>>, n: nat, c: C): seq<string>
    requires n <= |es|
  {
    if n == 0 then []
    else
      var before, w := Heard(cfg, es, n - 1, c), Run(cfg, es[..n - 1]);
      if Takes(w, es[n - 1], c) then before + [w.sessions[c].link.queue[0]] else before
  }

  ghost predicate InOrder(link: Link, heard: seq<string>, announced: seq<string>) {
    && heard + link.queue == announced
    && link.watching == if heard == [] then "" else heard[|heard| - 1]
  }

  ghost predicate Ordered<C>(w: World<C>, c: C, heard: seq<string>, announced: seq<string>) {
    if c in w.sessions then InOrder(w.sessions[c].link, heard, announced) else heard == announced == []
  }

  /** What the poller has received and what waits for it are the announced switches, in order; it watches the last one. */
  lemma {:induction false} HeardInOrder<C>(cfg: Config, es: seq<Event<C>>, n: nat, c: C)
    requires n <= |es|
    ensures Ordered(Run(cfg, es[..n]), c, Heard(cfg, es, n, c), Announced(cfg, es, n, c))
  {
    assert es[..0] == [];
    if n > 0 {
      HeardInOrder(cfg, es, n - 1, c);
      RunNext(cfg, es, n - 1);
      OrderedNext(cfg, Run(cfg, es[..n - 1]), es[n - 1], c, Heard(cfg, es, n - 1, c), Announced(cfg, es, n - 1, c));
    }
  }

  lemma OrderedNext<C>(cfg: Config, w: World<C>, e: Event<C>, c: C, heard: seq<string>, announced: seq<string>)
    requires Ordered(w, c, heard, announced)
    ensures var switch := Switch(w, e, c);
      Ordered(Step(cfg, w, e), c,
        if Takes(w, e, c) then heard + [w.sessions[c].link.queue[0]] else heard,
        if switch.Some? && |w.sessions[c].link.queue| < 32 then announced + [switch.value] else announced)
  {
    if c in w.sessions {
      LinkStep(cfg, w, e, c);
      OrderNext(w.sessions[c].link, Step(cfg, w, e).sessions[c].link, Switch(w, e, c), Takes(w, e, c), heard, announced);
    } else if c in Step(cfg, w, e).sessions {
      AppearsByAccept(cfg, w, e, c);
    }
  }

  lemma OrderNext(link: Link, link': Link, switch: Option<string>, takes: bool, heard: seq<string>,
                  announced: seq<string>)
    requires InOrder(link, heard, announced) && (takes ==> link.queue != [] && switch.None?)
    requires if switch.Some? then Notified(link, link', switch.value)
             else if takes then link'.queue == link.queue[1..] && link'.watching == link.queue[0]
             else link' == link
    ensures InOrder(link',
      if takes then heard + [link.queue[0]] else heard,
      if switch.Some? && |link.queue| < 32 then announced + [switch.value] else announced)
  {
  }
}
