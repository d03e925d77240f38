/**
 The shared state of the IRC server as a transition system. A step is one mutex
 region of cmd/wolfbbs-irc/main.go, or the code of one connection between two
 regions; a run is any interleaving of steps of any number of connections.
 */
module IrcModel {
  import opened Wrappers
  import opened Text

  /** Slots of the channel `linePoll`. */
  const QUEUE_SLOTS: nat := 32

  datatype Config = Config(requirePass: bool, allowAlias: bool)

  /** One connection: an `ircClient` together with its `ircState`. */
  datatype Session = Session(
    open: bool,             // the goroutine of the connection is still running
    nick: string,           // client.nick
    stateNick: string,      // state.nick
    user: string,
    pass: string,
    saslReq: bool,
    awaitSasl: bool,
    authed: bool,
    registered: bool,
    canModerate: bool,
    channel: string,
    link: Link)

  /** The bounded Go channel `linePoll` between a connection and its poller. */
  datatype Link = Link(
    queue: seq<string>,     // switches the poller has not read yet
    watching: string,       // the poller's `current`
    dropped: bool)          // the last switch found the queue full

  const FRESH_SESSION: Session :=
    Session(true, "", "", "", "", false, false, false, false, false, "", Link([], "", false))

  /** Every connection ever accepted, and the two indexes over them. */
  datatype World<C> = World(
    sessions: map<C, Session>,
    byNick: map<string, C>,
    peers: map<string, map<string, C>>)

  function EmptyWorld<C>(): World<C> {
    World(map[], map[], map[])
  }

  /** The answer of the account service; `moderator` is None when it names no user. */
  datatype Verdict = Denied | Granted(moderator: Option<bool>)

  datatype Event<C> =
    | Accept(c: C)
    | Nick(c: C, nick: string)
    | User(c: C, user: string)
    | Pass(c: C, pass: string)
    | CapReq(c: C)
    | SaslStart(c: C)
    | SaslPayload(c: C, user: string, pass: string)
    | TryAuth(c: C, verdict: Verdict)
    | Join(c: C, channel: string)
    | Part(c: C)
    | Kick(c: C, target: string)
    | Poll(c: C)
    | Disconnect(c: C)

  // ------------------------------------------------------------------
  // Steps on one session
  // ------------------------------------------------------------------

  predicate BadNickChar(c: char) { c in " \0\r\n,:*?!@" }

  predicate ValidNick(nick: string) {
    nick != "" && |nick| <= 31 && forall i :: 0 <= i < |nick| ==> !BadNickChar(nick[i])
  }

  function SetNick(s: Session, nick: string): Session {
    s.(nick := nick, stateNick := nick)
  }

  /** USER: the account name becomes the nick of a connection without one, unchecked. */
  function UserStep(s: Session, user: string): Session {
    if s.registered || user == "" then s
    else if s.stateNick == "" then SetNick(s.(user := user), user)
    else s.(user := user)
  }

  function PassStep(s: Session, pass: string): Session {
    if s.registered then s else s.(pass := pass)
  }

  function SaslStartStep(s: Session): Session {
    if s.saslReq then s.(awaitSasl := true) else s
  }

  function SaslPayloadStep(s: Session, user: string, pass: string): Session {
    if !s.saslReq || !s.awaitSasl then s
    else s.(user := if user == "" then s.stateNick else user, pass := pass, awaitSasl := false)
  }

  /** A successful login: the rights, and the account name as nick where there is none. */
  function LoggedIn(s: Session, moderator: Option<bool>): Session {
    var t := s.(authed := true, canModerate := if moderator.Some? then moderator.value else s.canModerate);
    if t.stateNick == "" then SetNick(t, t.user) else t
  }

  /** The state in which `tryAuthenticate` calls `completeRegistration`; None where it returns before. */
  function Authenticated(cfg: Config, s: Session, verdict: Verdict): Option<Session> {
    if s.user == "" || (!cfg.requirePass && s.pass == "") then
      if s.user != "" then Some(s) else None
    else if s.pass == "" && cfg.requirePass then None
    else if !cfg.allowAlias && s.stateNick != "" && ToLower(s.stateNick) != ToLower(s.user) then None
    else
      match verdict
      case Denied => None
      case Granted(moderator) => Some(LoggedIn(s, moderator))
  }

  /** The session after `completeRegistration`. */
  function Registered(s: Session): Session {
    if s.registered then s
    else SetNick(s, if s.stateNick == "" then s.user else s.stateNick).(registered := true)
  }

  /** The non-blocking send to the poller. */
  function Send(link: Link, ch: string): Link {
    if |link.queue| < QUEUE_SLOTS then link.(queue := link.queue + [ch], dropped := false)
    else link.(dropped := true)
  }

  function Receive(link: Link): Link {
    if link.queue == [] then link else link.(watching := link.queue[0], queue := link.queue[1..])
  }

  function SwitchTo(s: Session, ch: string): Session {
    s.(channel := ch, link := Send(s.link, ch))
  }

  // ------------------------------------------------------------------
  // Steps on the shared state
  // ------------------------------------------------------------------

  /** The index key of a session. */
  function Key(s: Session): string {
    ToLower(s.nick)
  }

  ghost predicate Open<C>(w: World<C>, c: C) {
    c in w.sessions && w.sessions[c].open
  }

  function Put<C>(w: World<C>, c: C, s: Session): World<C> {
    w.(sessions := w.sessions[c := s])
  }

  /** The nick index after NICK has removed the caller's old key. */
  function IndexWithout<C>(byNick: map<string, C>, s: Session): map<string, C> {
    if s.stateNick != "" then byNick - {ToLower(s.stateNick)} else byNick
  }

  /** The mutex region of NICK: the old key goes before the collision is looked up. */
  function TakeNick<C>(w: World<C>, c: C, nick: string): World<C>
    requires c in w.sessions
  {
    var s := w.sessions[c];
    var index := IndexWithout(w.byNick, s);
    var k := ToLower(nick);
    if k in index && index[k] != c then w.(byNick := index)
    else World(w.sessions[c := SetNick(s, nick)], index[k := c], w.peers)
  }

  function NickStep<C>(w: World<C>, c: C, nick: string): World<C>
    requires c in w.sessions
  {
    if ValidNick(nick) then TakeNick(w, c, nick) else w
  }

  /** `completeRegistration`, entered in session state `s` */
  function Register<C>(w: World<C>, c: C, s: Session): World<C> {
    var r := Registered(s);
    if s.registered || r.nick == "" then Put(w, c, r)
    else World(w.sessions[c := r], w.byNick[Key(r) := c], w.peers)
  }

  /** `tryAuthenticate`; the verdict is what the account service answers if it is asked. */
  function TryAuthStep<C>(cfg: Config, w: World<C>, c: C, verdict: Verdict): World<C>
    requires c in w.sessions
  {
    match Authenticated(cfg, w.sessions[c], verdict)
    case None => w
    case Some(s) => Register(w, c, s)
  }

  /** Removes a key from a channel bucket, and the bucket with its last key. */
  function DropPeer<C>(peers: map<string, map<string, C>>, ch: string, k: string): map<string, map<string, C>> {
    if ch == "" || ch !in peers then peers
    else
      var bucket := peers[ch] - {k};
      if bucket == map[] then peers - {ch} else peers[ch := bucket]
  }

  function AddPeer<C>(peers: map<string, map<string, C>>, ch: string, k: string, c: C): map<string, map<string, C>> {
    var bucket := if ch in peers then peers[ch] else map[];
    peers[ch := bucket[k := c]]
  }

  /** The channel index after `moveClient`. */
  function MovePeer<C>(peers: map<string, map<string, C>>, c: C, s: Session, ch: string): map<string, map<string, C>> {
    var left := DropPeer(peers, s.channel, Key(s));
    if ch == "" || s.nick == "" then left else AddPeer(left, ch, Key(s), c)
  }

  /** `setClientChannel`: `moveClient`, then the send. */
  function SetChannel<C>(w: World<C>, c: C, ch: string): World<C>
    requires c in w.sessions
  {
    var s := w.sessions[c];
    World(w.sessions[c := SwitchTo(s, ch)], w.byNick, MovePeer(w.peers, c, s, ch))
  }

  function JoinStep<C>(w: World<C>, c: C, channel: string): World<C>
    requires c in w.sessions
  {
    if !w.sessions[c].authed || channel == "" then w else SetChannel(w, c, channel)
  }

  function PartStep<C>(w: World<C>, c: C): World<C>
    requires c in w.sessions
  {
    if !w.sessions[c].authed then w else SetChannel(w, c, "")
  }

  /** `clientByNick` on an already trimmed nick */
  function Lookup<C>(w: World<C>, nick: string): Option<C> {
    if ToLower(nick) in w.byNick then Some(w.byNick[ToLower(nick)]) else None
  }

  /** KICK moves its target out of whatever channel it is in. */
  function KickStep<C>(w: World<C>, c: C, target: string): World<C>
    requires c in w.sessions
  {
    if !w.sessions[c].authed || !w.sessions[c].canModerate then w
    else
      match Lookup(w, target)
      case None => w
      case Some(d) => if d in w.sessions then SetChannel(w, d, "") else w
  }

  ghost predicate Indexed<C>(w: World<C>, c: C) {
    exists k :: k in w.byNick && w.byNick[k] == c
  }

  /** `unregisterClientByConn`: a connection that no key leads to leaves both indexes alone. */
  ghost function Unregister<C>(w: World<C>, c: C): World<C>
    requires c in w.sessions
  {
    var s := w.sessions[c];
    if !Indexed(w, c) || s.nick == "" then w
    else World(w.sessions, w.byNick - {Key(s)}, DropPeer(w.peers, s.channel, Key(s)))
  }

  ghost function DisconnectStep<C>(w: World<C>, c: C): World<C>
    requires c in w.sessions
  {
    Put(Unregister(w, c), c, w.sessions[c].(open := false))
  }

  /** Steps of connections that are not open do nothing. */
  ghost function Step<C>(cfg: Config, w: World<C>, e: Event<C>): World<C> {
    if e.Accept? then
      if e.c in w.sessions then w else Put(w, e.c, FRESH_SESSION)
    else if !Open(w, e.c) then w
    else
      var s := w.sessions[e.c];
      match e
      case Accept(_) => w
      case Nick(c, nick) => NickStep(w, c, nick)
      case User(c, user) => Put(w, c, UserStep(s, user))
      case Pass(c, pass) => Put(w, c, PassStep(s, pass))
      case CapReq(c) => Put(w, c, s.(saslReq := true))
      case SaslStart(c) => Put(w, c, SaslStartStep(s))
      case SaslPayload(c, user, pass) => Put(w, c, SaslPayloadStep(s, user, pass))
      case TryAuth(c, verdict) => TryAuthStep(cfg, w, c, verdict)
      case Join(c, channel) => JoinStep(w, c, channel)
      case Part(c) => PartStep(w, c)
      case Kick(c, target) => KickStep(w, c, target)
      case Poll(c) => Put(w, c, s.(link := Receive(s.link)))
      case Disconnect(c) => DisconnectStep(w, c)
  }

  ghost function Run<C>(cfg: Config, es: seq<Event<C>>): World<C> {
    if es == [] then EmptyWorld()
    else Step(cfg, Run(cfg, es[..|es| - 1]), es[|es| - 1])
  }

  /** What a step of an open connection is, case by case. */
  lemma OpenStep<C>(cfg: Config, w: World<C>, e: Event<C>)
    requires Open(w, e.c)
    ensures var w' := Step(cfg, w, e); var s := w.sessions[e.c];
      && (e.Nick? ==> w' == NickStep(w, e.c, e.nick))
      && (e.User? ==> w' == Put(w, e.c, UserStep(s, e.user)))
      && (e.Pass? ==> w' == Put(w, e.c, PassStep(s, e.pass)))
      && (e.CapReq? ==> w' == Put(w, e.c, s.(saslReq := true)))
      && (e.SaslStart? ==> w' == Put(w, e.c, SaslStartStep(s)))
      && (e.SaslPayload? ==> w' == Put(w, e.c, SaslPayloadStep(s, e.user, e.pass)))
      && (e.TryAuth? ==> w' == TryAuthStep(cfg, w, e.c, e.verdict))
      && (e.Join? ==> w' == JoinStep(w, e.c, e.channel))
      && (e.Part? ==> w' == PartStep(w, e.c))
      && (e.Kick? ==> w' == KickStep(w, e.c, e.target))
      && (e.Poll? ==> w' == Put(w, e.c, s.(link := Receive(s.link))))
      && (e.Disconnect? ==> w' == DisconnectStep(w, e.c))
  {
  }

  lemma RunSnoc<C>(cfg: Config, es: seq<Event<C>>, e: Event<C>)
    ensures Run(cfg, es + [e]) == Step(cfg, Run(cfg, es), e)
  {
    assert (es + [e])[..|es|] == es;
  }

  lemma RunNext<C>(cfg: Config, es: seq<Event<C>>, i: nat)
    requires i < |es|
    ensures Run(cfg, es[..i + 1]) == Step(cfg, Run(cfg, es[..i]), es[i])
  {
    assert es[..i + 1][..i] == es[..i];
  }
}
