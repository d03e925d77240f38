/** The arguments of the IRC commands, as the arms of `handleIRCConn` cut them out of a line. */
module IrcCommands {
  import opened Wrappers
  import opened Text

  predicate IsColon(c: char) { c == ':' }

  function NickArg(raw: string): string {
    TrimSpace(TrimLeft(raw, IsColon))
  }

  /** The account name of a USER command; empty when one of its four parameters is missing. */
  function UserArg(raw: string): string {
    var parts := FieldsFunc(raw, IsSpace);
    if |parts| < 4 then "" else TrimSpace(parts[0])
  }

  /** strings.Index of " :" */
  function TrailerIndex(s: string): (i: int)
    ensures -1 <= i && (i >= 0 ==> i + 2 <= |s| && s[i] == ' ' && s[i + 1] == ':')
  {
    if |s| < 2 then -1
    else if s[0] == ' ' && s[1] == ':' then 0
    else
      var i := TrailerIndex(s[1..]);
      if i < 0 then -1 else i + 1
  }

  /** The real name after a complete USER command: what follows " :", or else the fourth parameter and the rest. */
  function RealName(raw: string, before: string): string {
    var i, parts := TrailerIndex(raw), FieldsFunc(raw, IsSpace);
    var given := if i >= 0 then TrimSpace(raw[i + 2..]) else before;
    if given == "" && |parts| >= 4 then TrimLeft(Join(parts[3..], ' '), IsColon) else given
  }

  function NormalizeChannel(channel: string): string {
    var t := TrimSpace(channel);
    if t == "" then "#lobby" else if t[0] != '#' then "#" + t else t
  }

  /** The channel a JOIN names: the first of a comma list. */
  function JoinArg(raw: string): string {
    var t := TrimSpace(raw);
    if t == "" then ""
    else NormalizeChannel(TrimPrefix(if ',' in t then TrimSpace(Split(t, ',')[0]) else t, ':'))
  }

  /** `parseKick`: the channel and the target nick. */
  function KickArgs(raw: string): Option<(string, string)> {
    var parts := FieldsFunc(raw, IsSpace);
    if |parts| < 2 || TrimSpace(parts[1]) == "" then None
    else Some((NormalizeChannel(parts[0]), TrimSpace(parts[1])))
  }

  predicate HasAt(s: string, t: string, i: nat) {
    i + |t| <= |s| && s[i..i + |t|] == t
  }

  /** CAP REQ asks for sasl somewhere in its argument; other requests are refused. */
  predicate RequestsSasl(raw: string) {
    var sub := ToLower(TrimSpace(raw));
    "req" <= sub && exists i :: 0 <= i < |sub| && HasAt(sub, "sasl", i)
  }

  /** The last two of the NUL-separated parts of a decoded AUTHENTICATE payload. */
  function SaslCredentials(text: string): Option<(string, string)> {
    var parts := Split(text, '\0');
    if |parts| < 3 then None
    else Some((TrimSpace(parts[|parts| - 2]), TrimSpace(parts[|parts| - 1])))
  }

  /** A PLAIN message of section 2 of RFC 4616 yields its authentication identity and password. */
  lemma SaslPlainMessage(authzid: string, authcid: string, passwd: string)
    requires '\0' !in authzid && '\0' !in authcid && '\0' !in passwd
    ensures SaslCredentials(authzid + "\0" + authcid + "\0" + passwd) == Some((TrimSpace(authcid), TrimSpace(passwd)))
  {
    var parts := [authzid, authcid, passwd];
    assert parts[1..] == [authcid, passwd] && [authcid, passwd][1..] == [passwd];
    assert Join([authcid, passwd], '\0') == authcid + ['\0'] + passwd;
    assert Join(parts, '\0') == authzid + "\0" + authcid + "\0" + passwd;
    SplitJoin(parts, '\0');
  }

  /** A channel name always starts with '#', and normalising it again changes nothing. */
  lemma NormalizeChannelStable(channel: string)
    ensures var r := NormalizeChannel(channel); r != "" && r[0] == '#' && NormalizeChannel(r) == r
  {
    TrimMeans(channel, IsSpace);
    TrimFixed(NormalizeChannel(channel), IsSpace);
  }

  // ------------------------------------------------------------------
  // What the arguments are
  // ------------------------------------------------------------------

  /** Not empty, and nothing in it is white space. */
  predicate IsWord(s: string) {
    s != "" && forall i :: 0 <= i < |s| ==> !IsSpace(s[i])
  }

  /** The nick is what is left without the colons in front and the white space around. */
  lemma NickArgMeans(colons: string, v: string, nick: string, w: string)
    requires AllCut(colons, IsColon) && AllCut(v, IsSpace) && AllCut(w, IsSpace)
    requires nick != "" && nick[0] != ':' && !IsSpace(nick[0]) && !IsSpace(nick[|nick| - 1])
    ensures NickArg(colons + (v + nick + w)) == nick
  {
    assert v != "" ==> IsSpace(v[0]);
    assert (v + nick + w)[0] == if v != "" then v[0] else nick[0];
    TrimLeftUnwraps(colons, v + nick + w, IsColon);
    TrimUnwraps(v, nick, w, IsSpace);
  }

  lemma WordField(s: string)
    requires IsWord(s)
    ensures FieldsFunc(s, IsSpace) == [s] && TrimSpace(s) == s
  {
    FieldAlone(s, IsSpace);
    TrimFixed(s, IsSpace);
  }

  lemma WordsFields(a: string, b: string, s: string)
    requires IsWord(a) && s == a + " " + b
    ensures FieldsFunc(s, IsSpace) == [a] + FieldsFunc(b, IsSpace)
  {
    WordField(a);
    FieldsConcat(a, ' ', b, IsSpace);
  }

  /** USER names its account first; it needs four parameters. */
  lemma UserArgMeans(user: string, mode: string, unused: string, full: string)
    requires IsWord(user) && IsWord(mode) && IsWord(unused)
    requires full != "" && !IsSpace(full[0])
    ensures UserArg(user + " " + (mode + " " + (unused + " " + full))) == user
    ensures UserArg(user + " " + (mode + " " + unused)) == "" && UserArg(user + " " + mode) == "" && UserArg(user) == ""
  {
    var three := mode + " " + (unused + " " + full);
    WordsFields(user, three, user + " " + three);
    WordsFields(mode, unused + " " + full, three);
    WordsFields(unused, full, unused + " " + full);
    assert FieldsFunc(full, IsSpace) != [];
    WordsFields(user, mode + " " + unused, user + " " + (mode + " " + unused));
    WordsFields(mode, unused, mode + " " + unused);
    WordsFields(user, mode, user + " " + mode);
    WordField(user);
    WordField(mode);
    WordField(unused);
  }

  /** No " :" in it. */
  predicate NoTrailer(s: string) {
    forall i :: 0 <= i < |s| - 1 ==> !(s[i] == ' ' && s[i + 1] == ':')
  }

  lemma {:induction false} TrailerFirst(a: string, b: string)
    requires NoTrailer(a)
    ensures TrailerIndex(a + " :" + b) == |a|
  {
    var s := a + " :" + b;
    if a != "" {
      assert s[1..] == a[1..] + " :" + b;
      assert s[0] == a[0] && s[1] == if |a| > 1 then a[1] else ' ';
      TrailerFirst(a[1..], b);
    }
  }

  /** The real name is what follows the first " :". */
  lemma RealNameMeans(params: string, full: string, before: string)
    requires NoTrailer(params) && TrimSpace(full) == full != ""
    ensures RealName(params + " :" + full, before) == full
  {
    TrailerFirst(params, full);
    assert (params + " :" + full)[|params| + 2..] == full;
  }

  lemma {:induction false} TrailerNone(s: string)
    requires NoTrailer(s)
    ensures TrailerIndex(s) == -1
  {
    if |s| >= 2 {
      TrailerNone(s[1..]);
    }
  }

  /** Without a " :" an earlier real name stays; the first one is the fourth parameter. */
  lemma RealNameWithout(user: string, mode: string, unused: string, word: string, before: string)
    requires IsWord(user) && IsWord(mode) && IsWord(unused) && IsWord(word)
    requires NoTrailer(user + " " + (mode + " " + (unused + " " + word))) && word[0] != ':'
    ensures RealName(user + " " + (mode + " " + (unused + " " + word)), before) == if before != "" then before else word
  {
    var two := unused + " " + word;
    var three := mode + " " + two;
    TrailerNone(user + " " + three);
    WordsFields(user, three, user + " " + three);
    WordsFields(mode, two, three);
    WordsFields(unused, word, two);
    WordField(word);
    assert ([user] + ([mode] + ([unused] + [word])))[3..] == [word];
  }

  /** A blank channel name is the lobby, one without '#' gets it, and others stay. */
  lemma NormalizeChannelMeans(name: string)
    requires TrimSpace(name) == name
    ensures NormalizeChannel("") == "#lobby" && NormalizeChannel("#" + name) == "#" + name
    ensures name != "" && name[0] != '#' ==> NormalizeChannel(name) == "#" + name
  {
    if name != "" {
      TrimMeans(name, IsSpace);
    }
    TrimFixed("#" + name, IsSpace);
    TrimFixed("", IsSpace);
  }

  /** A JOIN of "#name", of "name", of either after a colon or before a comma is a JOIN of "#name". */
  lemma JoinArgMeans(name: string, more: string)
    requires IsWord(name) && ',' !in name && name[0] != '#' && name[0] != ':'
    requires more != "" ==> !IsSpace(more[|more| - 1])
    ensures JoinArg("#" + name) == JoinArg(name) == JoinArg(":" + name) == JoinArg(":#" + name) == "#" + name
    ensures JoinArg("#" + name + "," + more) == JoinArg(name + "," + more) == "#" + name
  {
    WordField(name);
    NormalizeChannelMeans(name);
    JoinOne(name);
    JoinOne("#" + name);
    JoinOne(":" + name);
    JoinOne(":#" + name);
    assert (":" + name)[1..] == name && (":#" + name)[1..] == "#" + name;
    JoinFirst("#" + name, more);
    JoinFirst(name, more);
  }

  lemma JoinOne(ch: string)
    requires IsWord(ch) && ',' !in ch
    ensures JoinArg(ch) == NormalizeChannel(TrimPrefix(ch, ':'))
  {
    WordField(ch);
  }

  lemma JoinFirst(ch: string, more: string)
    requires IsWord(ch) && ',' !in ch && (more != "" ==> !IsSpace(more[|more| - 1]))
    ensures JoinArg(ch + "," + more) == NormalizeChannel(TrimPrefix(ch, ':'))
  {
    var raw := ch + "," + more;
    TrimFixed(raw, IsSpace);
    SplitConcat(ch, more, ',');
    SplitNoSep(ch, ',');
    assert raw == ch + [','] + more && raw[|ch|] == ',';
    WordField(ch);
  }

  /** KICK names a channel and a nick, whatever follows. */
  lemma KickArgsMean(channel: string, nick: string, comment: string)
    requires IsWord(channel) && IsWord(nick)
    ensures KickArgs(channel + " " + (nick + " " + comment)) == Some((NormalizeChannel(channel), nick))
    ensures KickArgs(channel + " " + nick) == Some((NormalizeChannel(channel), nick))
    ensures KickArgs(channel) == None
  {
    WordsFields(channel, nick + " " + comment, channel + " " + (nick + " " + comment));
    WordsFields(nick, comment, nick + " " + comment);
    WordsFields(channel, nick, channel + " " + nick);
    WordField(channel);
    WordField(nick);
  }

  /** A request for sasl: "req" in front and "sasl" somewhere, in any case. */
  lemma RequestsSaslMeans(raw: string)
    ensures RequestsSasl(raw) <==>
      var t := TrimSpace(raw);
      && |t| >= 3 && t[0] in "rR" && t[1] in "eE" && t[2] in "qQ"
      && exists i :: 0 <= i <= |t| - 4 && SaslAt(t, i)
  {
    var t := TrimSpace(raw);
    var sub := ToLower(t);
    var req, sasl := "req", "sasl";
    assert req[0] == 'r' && req[1] == 'e' && req[2] == 'q';
    assert req <= sub <==> |sub| >= 3 && sub[0] == req[0] && sub[1] == req[1] && sub[2] == req[2];
    forall i | 0 <= i <= |t| - 4 ensures HasAt(sub, sasl, i) <==> SaslAt(t, i) {
      assert sasl[0] == 's' && sasl[1] == 'a' && sasl[2] == 's' && sasl[3] == 'l';
      assert sub[i..i + 4] == [sub[i], sub[i + 1], sub[i + 2], sub[i + 3]];
    }
  }

  predicate SaslAt(t: string, i: int)
    requires 0 <= i <= |t| - 4
  {
    t[i] in "sS" && t[i + 1] in "aA" && t[i + 2] in "sS" && t[i + 3] in "lL"
  }

  /** A payload with fewer than two NULs is refused. */
  lemma SaslNeedsThree(a: string, b: string)
    requires '\0' !in a && '\0' !in b
    ensures SaslCredentials(a) == None && SaslCredentials(a + "\0" + b) == None
  {
    SplitNoSep(a, '\0');
    SplitNoSep(b, '\0');
    SplitConcat(a, b, '\0');
    assert a + "\0" + b == a + ['\0'] + b;
  }
}
