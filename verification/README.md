# WolfBBS verification

A Dafny model of the parts of WolfBBS where state is shared, names are allocated or
numbers have to add up, with proofs of what the code keeps, and of exactly when it does
not. `dafny verify dfyconfig.toml` checks everything.

**The IRC server** (`cmd/wolfbbs-irc/main.go`). `IrcModel` is a transition system over any
number of connections: one step is one mutex region, or the code of one connection between
two of them, and a run is any interleaving. `IrcServer` has the mutable objects (a client
with its state, the two global indexes) and a ghost trace: each command is proved to take
exactly the steps it adds to the trace, and `Valid` says that the objects are where the run
in the trace leads. `IrcInvariants` holds what every run keeps; `IrcCoherence` says, step by
step and as an equivalence, when the nick index and the channel index are plain scans of the
open connections; `IrcBreakage` has concrete runs where they stop being that;
`IrcListing` compares NAMES with a plain scan of the connections. `IrcEffects` says in terms
of fields and index entries what each command does and does not do, and in terms of the
history who is authenticated, who may moderate and what a poller has heard; `IrcLogin` follows
the two ways to log in from end to end. `Admission`, `Flood`,
`FloodRate` and `Poller` are the connection counters, the flood windows compacted in place,
what those windows bound over whole runs, and the merge of live stream and history.
Connection registration, NICK, JOIN and KICK follow sections 3.1, 3.1.2, 3.2.1 and 3.2.8 of
RFC 2812, SASL PLAIN section 2 of RFC 4616.

**The file base** (`cmd/wolfbbs-web/filebase.go`, `cmd/wolfbbs-web/file_features.go`).
`UploadNames` and `BatchNames` allocate names, on top of `FileNames` and `Counting`; `IdList`,
`TagList` and `TagMerge` are list codecs, on top of `Decimal` and `FirstOccurrences`; `Repair`
is the recovery assistant.

**Season scores and menu paths** (`cmd/wolfbbs-web/community_features.go`,
`cmd/wolfbbs-web/menu_admin.go`). `SeasonScores` increments rows held by pointer in a map and
is proved against the plain count in `SeasonTally`; `SeasonCounts` says what that count is in
terms of the posts, lines and door events alone; `SeasonRanking` is the table, and
`SeasonRecords` normalises the stored challenges. `MenuPaths`
normalises menu file paths, over the lexical path algebra in `Paths`.

`Text`, `Sorting` and `Wrappers` are the string and sorting operations the sources import.

Where the code departs from what one would expect, the model follows the code:

- A refused NICK has already deleted the caller's key, NICK inside a channel leaves the old
  channel entry behind, and registration stores a nick without looking at the index, whereas
  `docs/irc-compat.md` promises that NICK changes are guarded by collision checks. The two
  indexes agree with the connections when each open authenticated client is found under its
  nick and the channel index lists exactly the open clients of each channel. `Allowed` is the
  exact condition on a step: from agreement, a step leads to agreement if and only if it is
  allowed, and a run agrees throughout if and only if all its steps were. Only NICK and
  registration can fail it. It is not enough to forbid nicks that are in the index: a NICK
  also fails when the nick the caller gives up is another client's by then
  (`UnindexedNickDisplaces`), and so does the later login of a client that registered without
  a password and has lost its key since (`LateLoginUnindexed`).
- Without passwords a client can be registered and never authenticated: `registered` and
  `authed` are equal on all runs if and only if passwords are required
  (`RegisteredIsAuthedIff`).
- Delivery of every chat message needs first offers in the order of the ids; the equivalence
  is `AllDelivered`, and `OlderMessageLost` a run that loses a message.
- Two members of a batch ZIP get the same name exactly when a queued name already is the
  number that a repeated name gets (`MembersDistinct`, `NumberedNameTwice`).
- The index on file digests is unique, so the digest of a file cannot be stored while another
  entry has it; repair_hash ignores the refusal, and the issue is reported for ever
  (`TwinStaysUnhashed`). `RepairDecreases` gives the exact condition for one repair, and
  `NothingLeftIff` for all of them: no issue is left if and only if the entries that are not
  removed differ in content. The in-memory repository has no such index and may overwrite the
  other entry instead (`InMemoryOverwrites`): one repair_hash is sure to make progress there
  if and only if the index would accept the digest (`InMemoryDecreasesIff`), and all its runs
  are those of the other repositories, with all that is proved of them, if and only if no two
  entries claim one digest (`InMemoryRunsAgreeIff`).
- Removing an entry breaks a sound one that shares its file (`RemovalBreaksSharer`); a repair
  concerns its own issue alone exactly when `RepairResolvesOnlyItsOwn` says so.
- USER admits a nick that begins with `@`, and NAMES then shows its owner like an operator
  (`MarkedNickShown`), where `docs/irc-compat.md` promises that the mark means a moderator. The
  listing with the marks taken off is the members, marked exactly by their rights, if and only
  if no member of the channel has such a nick (`ListingReadsBackIff`, on runs
  `ListingIsScanIff`, and the contract of `ChannelMembers`).
- A relative menu path that climbs out of the root and re-enters it by name is accepted, but
  normalising the result again rejects or moves it; when that happens is `SettlesIff`. A file
  name that begins with `..` is refused although it lies in the root.
- A SASL password is trimmed of white space, which RFC 4616 does not do.

## Model

| member | source | states |
|---|---|---|
| IrcInvariants.StepBasic | cmd/wolfbbs-irc/main.go:315-794 | every step of every connection keeps the invariant: client and state nick equal, authed implies registered implies a nick, rights and channel only when authed, registered and authed equal under requirePass, index keys are folds of open connections' nicks, no empty or nameless bucket, bucket members authed, poller queue bounded and leading to the real channel |
| IrcInvariants.RunBasic | cmd/wolfbbs-irc/main.go:315-794 | that invariant holds in every reachable state of every interleaving |
| IrcInvariants.RunLater | cmd/wolfbbs-irc/main.go:638-689 | over any continuation of any run, registered and authed never go back to false and a closed connection stays closed |
| IrcInvariants.AtMostOneKey | cmd/wolfbbs-irc/main.go:772-784 | on every run a connection is stored under at most one key, so the unordered search has at most one match |
| IrcInvariants.ClosedIsNeverFound | cmd/wolfbbs-irc/main.go:772-794 | after a disconnect no lookup returns that connection in any continuation of the run |
| IrcInvariants.PollerFollows | cmd/wolfbbs-irc/main.go:758-770 | a drained poller watches the channel its client is in, unless the last switch was dropped |
| IrcInvariants.MovePeerEntries | cmd/wolfbbs-irc/main.go:736-756 | moving a client changes only its own entries and leaves no empty bucket |
| IrcEffects.AcceptIsFresh | cmd/wolfbbs-irc/main.go:244-259 | a new connection has no name, no rights and no channel, and disturbs nobody |
| IrcEffects.ClosedDoesNothing | cmd/wolfbbs-irc/main.go:239-242 | a connection that has ended does nothing |
| IrcEffects.DisconnectCloses | cmd/wolfbbs-irc/main.go:239-242 | the end of a connection changes no other session |
| IrcEffects.ValidNickMeans | cmd/wolfbbs-irc/main.go:372-381 | a nick is accepted exactly with 1 to 31 characters and none of the ten listed ones |
| IrcEffects.NickEffect | cmd/wolfbbs-irc/main.go:382-394 | after NICK the caller has the nick, its key leads to the caller, the old key is gone and no other entry differs; or, if another has the key, only the old key is gone |
| IrcEffects.BadNickIgnored | cmd/wolfbbs-irc/main.go:372-381 | a bad nick changes nothing |
| IrcEffects.UserEffect | cmd/wolfbbs-irc/main.go:399-427 | USER sets the account before registration, and the nick only where there is none |
| IrcEffects.PassEffect | cmd/wolfbbs-irc/main.go:358-367 | PASS sets the password, before registration only |
| IrcEffects.SaslEffect | cmd/wolfbbs-irc/main.go:324-350 | SASL credentials are taken once, after CAP REQ and PLAIN, with the nick as identity if none is given |
| IrcEffects.SaslStartEffect | cmd/wolfbbs-irc/main.go:302-320 | CAP REQ and AUTHENTICATE PLAIN set their flags, and nothing else |
| IrcEffects.DeniedLogsNobodyIn | cmd/wolfbbs-irc/main.go:658-662 | a refusal by the account service changes nobody's rights, and nothing at all where a password was asked for or given |
| IrcEffects.GrantedLogsIn | cmd/wolfbbs-irc/main.go:638-667 | a grant logs in exactly a connection with account and password whose nick passes the alias rule, with exactly the rights it names |
| IrcEffects.RegistrationEffect | cmd/wolfbbs-irc/main.go:638-683 | registration follows a login, or an account without a password where none is asked for; every field and index entry it changes, and that it changes no other |
| IrcEffects.AuthedByLogin | cmd/wolfbbs-irc/main.go:638-672 | on every run a connection is authenticated exactly if an earlier step was a granted login of it that met those conditions |
| IrcEffects.ModeratorByLogin | cmd/wolfbbs-irc/main.go:663-666 | on every run a connection may moderate exactly if the last login of it that named a user named a moderator |
| IrcEffects.JoinMoves | cmd/wolfbbs-irc/main.go:452-467 | JOIN puts an authenticated caller into the channel and tells its poller; no other session and no nick entry changes, and nothing for another caller |
| IrcEffects.PartMoves | cmd/wolfbbs-irc/main.go:477-492 | PART does the same with no channel |
| IrcEffects.KickMoves | cmd/wolfbbs-irc/main.go:603-624 | KICK by a moderator leaves the client found under the nick in no channel, and every other session and the nick index as they were |
| IrcEffects.KickNobody | cmd/wolfbbs-irc/main.go:609-624 | without rights, or where nobody has the nick, KICK changes nothing |
| IrcEffects.JoinEntries | cmd/wolfbbs-irc/main.go:736-756 | on a guarded run, after a JOIN the caller is in the bucket of that channel, under its nick, and in no other; all other entries stay |
| IrcEffects.PartEntries | cmd/wolfbbs-irc/main.go:736-756 | on a guarded run, after a PART no bucket has the caller, and all other entries stay |
| IrcEffects.KickEntries | cmd/wolfbbs-irc/main.go:622-624 | on a guarded run, after a KICK no bucket has the target, and all other entries stay |
| IrcEffects.HeardInOrder | cmd/wolfbbs-irc/main.go:758-770 | on every run, what a poller has received and what waits for it are the moves of its client that met fewer than 32 waiting ones, in order, and it watches the last one it received |
| IrcLogin.PasswordLogin | cmd/wolfbbs-irc/main.go:358-429 | PASS, a free NICK and USER, granted, lead a fresh connection to an authenticated and registered client that is found under its nick |
| IrcLogin.SaslLogin | cmd/wolfbbs-irc/main.go:315-357 | so do CAP REQ, NICK, AUTHENTICATE PLAIN and an RFC 4616 message |
| IrcLogin.NamedAccountAuthenticates | cmd/wolfbbs-irc/main.go:367-398 | where an account is named, PASS and an accepted NICK authenticate, and a refused NICK does not |
| IrcLogin.RegisteredTakesNone | cmd/wolfbbs-irc/main.go:358-402 | after registration PASS and USER do nothing |
| IrcLogin.PassColons | cmd/wolfbbs-irc/main.go:367-367 | colons around a password do not matter |
| IrcLogin.SaslColon | cmd/wolfbbs-irc/main.go:316-320 | neither does a colon in front of an AUTHENTICATE argument, nor the case of PLAIN |
| IrcLogin.SaslTakesNone | cmd/wolfbbs-irc/main.go:315-337 | AUTHENTICATE does nothing before CAP REQ, for "+", before PLAIN, or with a payload that cannot be decoded |
| IrcCoherence.NickAgrees | cmd/wolfbbs-irc/main.go:372-394 | NICK keeps both indexes plain scans if and only if the key it removes is no other owner's, a collision does not hit an authenticated caller, and an accepted nick keeps its key inside a channel |
| IrcCoherence.UserAgrees | cmd/wolfbbs-irc/main.go:413-427 | USER always keeps them |
| IrcCoherence.AuthAgrees | cmd/wolfbbs-irc/main.go:638-689 | registration keeps them if and only if no other authenticated client owns the nick it stores; a login after registration if and only if the client still has its key |
| IrcCoherence.SetChannelAgrees | cmd/wolfbbs-irc/main.go:736-770 | the moves of JOIN, PART and KICK always keep them |
| IrcCoherence.DisconnectAgrees | cmd/wolfbbs-irc/main.go:772-794 | disconnecting always keeps them |
| IrcCoherence.StepAgrees | cmd/wolfbbs-irc/main.go:315-794 | from agreement, any of the thirteen kinds of step leads to agreement if and only if it is allowed |
| IrcCoherence.GuardedRuns | cmd/wolfbbs-irc/main.go:315-794 | both indexes are plain scans throughout a run if and only if every step of it was allowed |
| IrcCoherence.ChannelIndexIsScan | cmd/wolfbbs-irc/main.go:736-756 | on such a run, channelPeers[ch][k] is c exactly when c is open, in channel ch, and k folds its nick |
| IrcCoherence.NickIndexIsScan | cmd/wolfbbs-irc/main.go:834-842 | on such a run, an authenticated open client is found under its nick and shares it with no other |
| IrcCoherence.DisconnectErases | cmd/wolfbbs-irc/main.go:772-794 | on such a run, a disconnect removes exactly the entries of its connection from both indexes |
| IrcBreakage.RefusedNickHides | cmd/wolfbbs-irc/main.go:382-390 | a run after which an authenticated open client cannot be found: its NICK was refused |
| IrcBreakage.HiddenClientHaunts | cmd/wolfbbs-irc/main.go:772-784 | a run after which a closed connection is still in a channel |
| IrcBreakage.RenamedMemberStays | cmd/wolfbbs-irc/main.go:391-393 | a run after which a client that left is still listed under its old nick |
| IrcBreakage.UserTakesNick | cmd/wolfbbs-irc/main.go:424-428 | a run after which two authenticated clients share a nick and the first one is hidden |
| IrcBreakage.UnindexedNickDisplaces | cmd/wolfbbs-irc/main.go:382-394 | a run in which the NICK of a client with an unindexed nick removes another client's key |
| IrcBreakage.LateLoginUnindexed | cmd/wolfbbs-irc/main.go:640-672 | a run without passwords after which a client that logged in late is authenticated and cannot be found |
| IrcBreakage.RegisteredIsAuthedIff | cmd/wolfbbs-irc/main.go:638-683 | registered and authed are equal for every connection on all runs if and only if passwords are required |
| IrcBreakage.MarkedNickShown | cmd/wolfbbs-irc/main.go:801-804 | a run after which NAMES shows a client that may not moderate like an operator |
| IrcListing.NamesAreTheScan | cmd/wolfbbs-irc/main.go:796-816 | on a guarded run NAMES shows exactly the open clients whose channel it is, marked exactly by canModerate |
| IrcListing.ListingReadsBackIff | cmd/wolfbbs-irc/main.go:796-816 | where the indexes agree with the connections and nicks are trimmed, the list with the marks taken off is exactly the keys of the open clients of the channel, each once and marked exactly by the right to moderate, if and only if no member's nick begins with the mark |
| IrcListing.ListingIsScanIff | cmd/wolfbbs-irc/main.go:796-816 | the same on every guarded run whose commands bring in trimmed names |
| IrcListing.ArgumentsTrimmed | cmd/wolfbbs-irc/main.go:338-424 | NICK, USER and AUTHENTICATE only pass on trimmed names |
| IrcListing.RunNames | cmd/wolfbbs-irc/main.go:315-429 | whatever holds of all names in the commands of a run holds of all nicks and accounts |
| IrcListing.DisplayMeans | cmd/wolfbbs-irc/main.go:801-805 | the mark of a moderator is one "@" in front |
| IrcCommands.SaslPlainMessage | cmd/wolfbbs-irc/main.go:338-344 | an RFC 4616 PLAIN message yields its identity and password, trimmed |
| IrcCommands.SaslNeedsThree | cmd/wolfbbs-irc/main.go:338-342 | a payload with fewer than two NULs is refused |
| IrcCommands.NickArgMeans | cmd/wolfbbs-irc/main.go:373-373 | the nick is what is left without colons in front and white space around |
| IrcCommands.UserArgMeans | cmd/wolfbbs-irc/main.go:408-413 | USER needs four parameters and names the account first |
| IrcCommands.RealNameMeans | cmd/wolfbbs-irc/main.go:418-420 | the real name is what follows the first " :" |
| IrcCommands.RealNameWithout | cmd/wolfbbs-irc/main.go:421-423 | without one an earlier real name stays, or the fourth parameter is taken |
| IrcCommands.JoinArgMeans | cmd/wolfbbs-irc/main.go:453-461 | a JOIN of a name with or without "#", after a colon or in front of a comma list, is a JOIN of that channel |
| IrcCommands.KickArgsMean | cmd/wolfbbs-irc/main.go:715-726 | KICK names a channel and a nick, whatever follows |
| IrcCommands.RequestsSaslMeans | cmd/wolfbbs-irc/main.go:298-303 | a request is granted exactly if it begins with "req" and has "sasl" in it, in any case |
| IrcCommands.NormalizeChannelStable | internal/chat/service.go:177-186 | a normalised channel name is never empty, starts with '#', and is a fixed point |
| IrcCommands.NormalizeChannelMeans | internal/chat/service.go:177-186 | a blank name is #lobby, a name without # gets it, and a name with it stays |
| IrcServer.Server.TraceAgrees | cmd/wolfbbs-irc/main.go:239-636 | the objects' state satisfies the invariant of all runs, has trimmed names, and is in agreement if its trace is guarded |
| IrcServer.Server.Accept | cmd/wolfbbs-irc/main.go:247-259 | a new connection is the Accept step |
| IrcServer.Server.TakeNick | cmd/wolfbbs-irc/main.go:382-394 | the mutex region of NICK is its step; it is accepted exactly when nobody else has the key once the caller's own is gone, and then the nick leads to the caller |
| IrcServer.Server.Nick | cmd/wolfbbs-irc/main.go:372-398 | NICK takes no step for a bad nick, otherwise its step, followed by authentication if it was accepted and an account is named |
| IrcServer.Server.User | cmd/wolfbbs-irc/main.go:399-429 | USER takes its step, notes the real name and authenticates, unless registered or incomplete |
| IrcServer.Server.Pass | cmd/wolfbbs-irc/main.go:358-371 | PASS takes its step, and authenticates if an account is named |
| IrcServer.Server.CapReq | cmd/wolfbbs-irc/main.go:302-305 | CAP REQ takes a step exactly if it asks for sasl |
| IrcServer.Server.Authenticate | cmd/wolfbbs-irc/main.go:315-357 | AUTHENTICATE takes the steps of each of its cases |
| IrcServer.Server.TryAuthenticate | cmd/wolfbbs-irc/main.go:638-672 | tryAuthenticate is the authentication step, for every verdict of the account service |
| IrcServer.Server.CompleteRegistration | cmd/wolfbbs-irc/main.go:674-689 | completeRegistration registers once, fills in the nick and stores it |
| IrcServer.Server.MoveClient | cmd/wolfbbs-irc/main.go:736-756 | moveClient changes the channel index and the client as the model says |
| IrcServer.Server.Notify | cmd/wolfbbs-irc/main.go:766-769 | the non-blocking send fits into a queue of 32 or is dropped |
| IrcServer.Server.SetClientChannel | cmd/wolfbbs-irc/main.go:758-770 | setClientChannel is one step of the model |
| IrcServer.Server.Join | cmd/wolfbbs-irc/main.go:442-467 | JOIN takes its step for the first channel it names, if authenticated and passed by the flood check |
| IrcServer.Server.Part | cmd/wolfbbs-irc/main.go:442-492 | PART makes such a client leave its own channel, whatever it names |
| IrcServer.Server.ClientByNick | cmd/wolfbbs-irc/main.go:834-842 | the lookup is by trimmed and folded nick |
| IrcServer.Server.Kick | cmd/wolfbbs-irc/main.go:603-624 | KICK by a moderator moves the client found under the target nick out of its channel |
| IrcServer.Server.Poll | cmd/wolfbbs-irc/main.go:962-964 | the poller receives the oldest switch |
| IrcServer.Server.FindByConn | cmd/wolfbbs-irc/main.go:775-781 | the search in arbitrary map order finds a stored client of that connection, or there is none |
| IrcServer.Server.UnregisterClientByConn | cmd/wolfbbs-irc/main.go:772-794 | takes a client that is stored out of both indexes and leaves both alone otherwise |
| IrcServer.Server.Disconnect | cmd/wolfbbs-irc/main.go:239-242 | the end of a connection is the Disconnect step |
| IrcServer.Server.ChannelMembers | cmd/wolfbbs-irc/main.go:796-816 | the sorted list of what the model shows of the channel; in agreement, it reads back as the open clients of the channel, each once and marked by its rights, if and only if no member's nick begins with the mark |
| IrcServer.Server.BroadcastTargets | cmd/wolfbbs-irc/main.go:818-831 | a line goes to the clients in the channel's bucket, and the answer is whether there are any; in agreement, they are the open clients of the channel, each once |
| Admission.ConnectionTable.RegisterConnection | cmd/wolfbbs-irc/main.go:201-216 | admits exactly when not banned and under both limits, and then counts one |
| Admission.ConnectionTable.ReleaseConnection | cmd/wolfbbs-irc/main.go:218-229 | takes one off, and drops an address that reaches zero |
| Admission.Conservation | cmd/wolfbbs-irc/main.go:131-242 | on every run the total, the sum over addresses and the number of live connections agree, each address counts its own with no zero entry, limits hold and no banned address is live |
| Admission.AdmittedWhenFree | cmd/wolfbbs-irc/main.go:201-216 | on every run an unbanned address under the limits is admitted |
| Flood.HitTimes.Compact | cmd/wolfbbs-irc/main.go:1003-1009 | compacting onto the front of the same buffer keeps exactly the hits after the cutoff |
| Flood.HitTimes.Check | cmd/wolfbbs-irc/main.go:1001-1017 | one check decides and updates the window as the specification says, in place while there is room |
| Flood.IpHits.Check | cmd/wolfbbs-irc/main.go:1019-1038 | checking one address decides by its own window and changes no other address's |
| FloodRate.DecidesLikeFullHistory | cmd/wolfbbs-irc/main.go:1001-1017 | a hit passes if and only if fewer than burst hits of the complete accepted history lie in the window ending now |
| FloodRate.StoredIsRecent | cmd/wolfbbs-irc/main.go:1001-1017 | the pruned slice is the complete accepted history after the last cutoff |
| FloodRate.StoredBounded | cmd/wolfbbs-irc/main.go:1001-1017 | the slice never exceeds the burst |
| FloodRate.RateBound | cmd/wolfbbs-irc/main.go:1001-1017 | at most k times burst accepted hits in any interval of k windows, for every start and k |
| FloodRate.AddressesIndependent | cmd/wolfbbs-irc/main.go:1019-1038 | in any interleaving each address is served as if it were alone |
| FloodRate.AddressRateBound | cmd/wolfbbs-irc/main.go:1019-1038 | the same rate bound for each address over all its connections |
| Poller.ChatPoller.OnSwitch | cmd/wolfbbs-irc/main.go:962-964 | a switch changes the channel and the subscription |
| Poller.ChatPoller.OnMessage | cmd/wolfbbs-irc/main.go:965-981 | a streamed message is offered only for the current channel |
| Poller.ChatPoller.OnClosed | cmd/wolfbbs-irc/main.go:966-968 | a closed stream only ends the streaming |
| Poller.ChatPoller.OnTick | cmd/wolfbbs-irc/main.go:982-994 | a tick offers the whole history it gets, in order |
| Poller.SwitchFollowed | cmd/wolfbbs-irc/main.go:962-968 | the poller is in the channel of the last switch, and hears its stream until that closes |
| Poller.OffersMean | cmd/wolfbbs-irc/main.go:965-994 | a message is offered exactly if it came live in the poller's own channel, or in a history it polled while in a channel |
| Poller.DeliversNewMaxima | cmd/wolfbbs-irc/main.go:960-994 | over any run, delivered ids are exactly the successive new maxima of the eligible offers |
| Poller.DeliveredIncreases | cmd/wolfbbs-irc/main.go:976-991 | delivered ids strictly increase, so no message is written twice |
| Poller.AllDelivered | cmd/wolfbbs-irc/main.go:960-994 | every offered message is delivered if and only if no id is first offered after a larger one |
| Poller.OlderMessageLost | cmd/wolfbbs-irc/main.go:976-991 | a run in which history overtakes the stream, and the older message is never written |
| UploadNames.SanitizeIsSafe | cmd/wolfbbs-web/filebase.go:307-329 | a sanitised name is empty or consists of allowed characters with nothing to trim |
| UploadNames.SafeIsFixed | cmd/wolfbbs-web/filebase.go:307-329 | such names are fixed points of the sanitiser |
| UploadNames.SanitizeTakesBase | cmd/wolfbbs-web/filebase.go:308-309 | white space around it, a directory in front and slashes behind, of either kind, do not matter to a sanitised name |
| UploadNames.SanitizeMeans | cmd/wolfbbs-web/filebase.go:310-324 | letters, digits, ".", "-" and "_" stay, each other character becomes "_", and "." and "_" are cut at both ends |
| UploadNames.CandidatesDiffer | cmd/wolfbbs-web/filebase.go:340-343 | the candidate names of an upload are pairwise different |
| UploadNames.CandidateText | cmd/wolfbbs-web/filebase.go:335-343 | the candidates are the name, and then stem-k.ext |
| UploadNames.SomeCandidateFree | cmd/wolfbbs-web/filebase.go:342-348 | fewer than 200 taken names leave one of the 200 candidates free |
| UploadNames.NextAvailable | cmd/wolfbbs-web/filebase.go:331-350 | returns the first free candidate, which is not taken and a fixed point of the sanitiser, and always succeeds with fewer than 200 names taken |
| FileNames.NumberedInjective | cmd/wolfbbs-web/filebase.go:954-956 | name and number can be read off stem-k.ext in only one way |
| FileNames.NumberedText | cmd/wolfbbs-web/filebase.go:954-956 | the number goes after a "-" in front of the extension, or to the end without one |
| FileNames.ExtMeans | cmd/wolfbbs-web/filebase.go:954-955 | the extension begins at the last dot of the last path element |
| FileNames.BaseMeans | cmd/wolfbbs-web/filebase.go:947-947 | the base is the last path element, whatever slashes follow |
| BatchNames.NameMembers | cmd/wolfbbs-web/filebase.go:937-957 | the first occurrence of a name keeps it and the k-th gets number k |
| BatchNames.BaseNameMeans | cmd/wolfbbs-web/filebase.go:947-950 | a member starts from the base of its name, or from "file-<id>.bin" |
| BatchNames.OccurrencesCount | cmd/wolfbbs-web/filebase.go:951-952 | the k that a member gets is the number of places with its name |
| BatchNames.MembersDistinct | cmd/wolfbbs-web/filebase.go:937-957 | member names are pairwise different if and only if no queued name is the number a repeated name will get |
| BatchNames.NumberedNameTwice | cmd/wolfbbs-web/filebase.go:951-957 | a name queued twice and its own second variant give two equal member names |
| Decimal.ParseFormat | cmd/wolfbbs-web/file_features.go:510-518 | parsing undoes printing on every 64-bit integer |
| Decimal.ParseFormatIff | cmd/wolfbbs-web/file_features.go:137-137 | printed integers parse exactly from -2^63 to 2^63-1 |
| Decimal.DigitAppended | cmd/wolfbbs-web/file_features.go:137-137 | each further digit of "0123456789" multiplies by ten and adds its place |
| Decimal.NonDigitRefused | cmd/wolfbbs-web/file_features.go:137-140 | any other character, after a sign, is refused |
| Decimal.NoLeadingZero | cmd/wolfbbs-web/file_features.go:514-514 | no printed number but 0 begins with a 0 |
| Decimal.SignedText | cmd/wolfbbs-web/file_features.go:137-140 | "+" is taken, "-" negates, and a sign alone is no number |
| IdList.Int64ListText | cmd/wolfbbs-web/file_features.go:510-518 | prints the positive ids, separated by commas |
| IdList.ListTextGrows | cmd/wolfbbs-web/file_features.go:510-518 | the text grows by a comma and the number for each further positive id |
| IdList.IdSepMeans | cmd/wolfbbs-web/file_features.go:131-133 | tokens end at the five separators |
| IdList.TokenIdIff | cmd/wolfbbs-web/file_features.go:137-140 | the token of an integer counts exactly from 1 to 2^63-1 |
| IdList.TokenSkipped | cmd/wolfbbs-web/file_features.go:137-140 | a token with any other character in it is skipped |
| IdList.NormalizeFileList | cmd/wolfbbs-web/file_features.go:130-151 | the scan with seen-set and early break computes the specified list |
| IdList.FileListMeans | cmd/wolfbbs-web/file_features.go:130-151 | that list is the first limit distinct positive ids of the text, in order |
| IdList.CodecRoundTrip | cmd/wolfbbs-web/file_features.go:130-151 | reading the printed form of any 64-bit list gives its first limit distinct positive ids |
| IdList.AnySeparatorReads | cmd/wolfbbs-web/file_features.go:131-133 | the same with any of the five separators |
| IdList.ParsePrintParse | cmd/wolfbbs-web/file_features.go:510-518 | parse, print, parse of any text changes nothing |
| TagList.NormalizeTagList | cmd/wolfbbs-web/file_features.go:153-178 | the scan, cut and sort computes the specified tag list |
| TagList.TagsOfMeans | cmd/wolfbbs-web/file_features.go:153-178 | the result is sorted, distinct, clean and bounded |
| TagList.CleanTagMeans | cmd/wolfbbs-web/file_features.go:160-166 | a piece of text stands for what is left in lower case when all but letters, digits, "-" and "_" are cut at both ends, if that has two characters |
| TagList.TagSepMeans | cmd/wolfbbs-web/file_features.go:154-156 | tags end at commas, tabs and line ends |
| TagList.ReparseTags | cmd/wolfbbs-web/file_features.go:153-178 | parsing the comma-joined result with the same limit gives the same list |
| TagMerge.MergeFileTags | cmd/wolfbbs-web/filebase.go:279-305 | the ten smallest of the existing and the new tags, sorted and distinct |
| TagMerge.MergeSetMeans | cmd/wolfbbs-web/filebase.go:281-295 | a tag takes part exactly if an existing tag or a comma-separated piece stands for it |
| TagMerge.KeptTagMeans | cmd/wolfbbs-web/filebase.go:281-286 | an existing tag takes part folded and trimmed, and only a blank one does not |
| Sorting.StrLeMeans | cmd/wolfbbs-web/filebase.go:300-300 | the order of the tags, of tag lists and of NAMES is the lexicographic one: a prefix, or smaller at the first difference |
| Sorting.FirstDifference | cmd/wolfbbs-web/filebase.go:300-300 | the first difference decides |
| Sorting.PrefixFirst | cmd/wolfbbs-web/filebase.go:300-300 | a text comes before its extensions |
| TagMerge.MergeAbsorbs | cmd/wolfbbs-web/filebase.go:279-305 | merging the same text again changes nothing, whatever was cut off |
| Repair.RecoveryDesk.FileRepairIssues | cmd/wolfbbs-web/file_features.go:807-849 | reports exactly the first failing test of each entry and each orphaned review, one issue for a file, in order |
| Repair.IssueMeans | cmd/wolfbbs-web/file_features.go:817-841 | exactly when each kind of issue is reported |
| Repair.IssueLeMeans | cmd/wolfbbs-web/file_features.go:842-847 | the report is in the order of the kinds' names, and then of the ids |
| Repair.RecoveryDesk.RepairHash | cmd/wolfbbs-web/file_features.go:1250-1264 | stores the digest of an existing file, unless the repository refuses the entry or another one has the digest |
| Repair.HashFileEffect | cmd/wolfbbs-web/file_features.go:1250-1262 | the entry keeps its area, its trimmed name and its trimmed path and gets the folded digest of its file; every other entry, the disk and the reviews stay |
| Repair.HashFileRefused | internal/repository/content_repository.go:607-616 | without a file, with an incomplete entry or a taken digest, nothing changes |
| Repair.RecoveryDesk.RepairRemoveFile | cmd/wolfbbs-web/file_features.go:1265-1274 | removes the entry, its file and its review row |
| Repair.RemoveFileEffect | cmd/wolfbbs-web/filebase.go:445-450 | exactly the entry, the file at its trimmed path and the review row go |
| Repair.RecoveryDesk.RepairClearReview | cmd/wolfbbs-web/file_features.go:1275-1281 | removes the review row |
| Repair.ClearReviewEffect | cmd/wolfbbs-web/file_features.go:1275-1281 | exactly the review row goes |
| Repair.RecoveryDesk.RunAction | cmd/wolfbbs-web/file_features.go:820-840 | the action that a reported issue names is the repair of that issue |
| Repair.RepairDecreases | cmd/wolfbbs-web/file_features.go:1250-1282 | a repair decreases entries plus unhashed entries plus review rows, if and only if it is not a hash that the repository refuses, which changes nothing |
| Repair.RepairResolvesOnlyItsOwn | cmd/wolfbbs-web/file_features.go:1250-1282 | a repair removes its own issue and changes no other, if and only if no sound entry shares the removed file, and a digest is accepted for an entry whose trimmed path exists |
| Repair.RepairsTerminate | cmd/wolfbbs-web/file_features.go:1250-1282 | on any store and in any order, no more repairs than the measure says have an effect |
| Repair.RepairsFinish | cmd/wolfbbs-web/file_features.go:1250-1282 | on any store, any sequence of repairs can be carried on until only refused digests are left |
| Repair.RepairsSettle | cmd/wolfbbs-web/file_features.go:1250-1282 | with trimmed distinct paths and unique digests, any order of repairs resolves exactly the ids it visits, one repair for each |
| Repair.RepairsEvolve | cmd/wolfbbs-web/file_features.go:1250-1282 | over any such sequence an entry that is left is the same, or has its name trimmed and the digest of its file, and nothing else of it differs |
| Repair.NothingLeftIff | cmd/wolfbbs-web/file_features.go:1250-1282 | on such a store, repairs carried out as far as they go leave no issue if and only if the entries that are not removed differ in content |
| Repair.TwinStaysUnhashed | cmd/wolfbbs-web/file_features.go:1256-1259 | two files of the same content, one hashed: repairing the other changes nothing |
| Repair.RemovalBreaksSharer | cmd/wolfbbs-web/filebase.go:445-450 | an entry of a deleted area that shares its path with a sound one: the repair makes the other's file missing |
| Repair.InMemoryAgrees | internal/repository/content_repository.go:622-636 | where the digest is accepted, the in-memory repository does what the others do |
| Repair.InMemoryOverwrites | internal/repository/content_repository.go:629-635 | otherwise it may overwrite the entry with that digest, which loses its file, while the issue stays, and again and again |
| Repair.InMemoryDecreasesIff | internal/repository/content_repository.go:621-635 | every outcome of one repair_hash makes progress if and only if the digest is accepted elsewhere |
| Repair.InMemoryRunsAgreeIff | internal/repository/content_repository.go:601-642 | on a well-kept store all in-memory runs of repairs are those of the other repositories if and only if no digest to be stored is another entry's or to be another entry's |
| SeasonScores.IndexUsers | cmd/wolfbbs-web/community_features.go:530-542 | the loop over the users computes the two indexes, in which the last user with a key or an id wins |
| SeasonScores.LastUserNamed | cmd/wolfbbs-web/community_features.go:537-538 | a key is shown as the trimmed handle of the last user that has it |
| SeasonScores.LastUserKnown | cmd/wolfbbs-web/community_features.go:539-539 | an id has the trimmed handle of the last such user |
| SeasonScores.OnlyUsersIndexed | cmd/wolfbbs-web/community_features.go:532-540 | only users with a handle are indexed |
| SeasonScores.SeasonScorer.EnsureRow | cmd/wolfbbs-web/community_features.go:543-557 | no row for a blank handle, otherwise the one row of its key, created empty if missing, with all other rows untouched |
| SeasonScores.SeasonScorer.CountPosts | cmd/wolfbbs-web/community_features.go:579-590 | credits exactly the posts in the window whose author is known |
| SeasonScores.SeasonScorer.CountLines | cmd/wolfbbs-web/community_features.go:598-605 | credits exactly the chat lines in the window with a sender |
| SeasonScores.SeasonScorer.CountDoorEvents | cmd/wolfbbs-web/community_features.go:615-632 | credits exactly the runs in the window whose user is known |
| SeasonCounts.OutOfSeason | cmd/wolfbbs-web/community_features.go:559-571 | nothing at the zero time, before the start or after the end is credited |
| SeasonCounts.InSeasonCredited | cmd/wolfbbs-web/community_features.go:578-633 | in the season, a post, a line and one of four kinds of door event are credited once, under the key of the handle |
| SeasonCounts.PostCounts | cmd/wolfbbs-web/community_features.go:578-590 | a post is credited to a key exactly if it lies in the season and the last user with its author's id and a handle has that key |
| SeasonCounts.LineCounts | cmd/wolfbbs-web/community_features.go:598-605 | a line is credited to a key exactly if it lies in the season and its sender has that key |
| SeasonCounts.RunCounts | cmd/wolfbbs-web/community_features.go:616-633 | a door event is credited to a key exactly if it is of one of the four kinds, lies in the season, and its user has that key |
| SeasonScores.SeasonScorer.Table | cmd/wolfbbs-web/community_features.go:636-640 | collects one pointed row for each credited key, in any order of the map |
| SeasonScores.BuildScores | cmd/wolfbbs-web/community_features.go:526-657 | the result is the ranking of the season's credits, cut to the limit |
| SeasonCounts.TableCounts | cmd/wolfbbs-web/community_features.go:526-657 | the result is in order and within the limit, and each row counts exactly the posts, lines and runs from the start to the end of the season by its handle, each once |
| SeasonScores.TableUnique | cmd/wolfbbs-web/community_features.go:636-656 | only one table fits a season and a limit, so the arbitrary order of the map does not show |
| SeasonTally.TalliedIsTallies | cmd/wolfbbs-web/community_features.go:543-634 | rows built up one increment at a time hold the plain counts of the credits of their key |
| SeasonScores.SeasonConserves | cmd/wolfbbs-web/community_features.go:572-640 | before the limit, the three columns sum to the numbers of attributable events, and the points to their weighted sum |
| SeasonCounts.SeasonSums | cmd/wolfbbs-web/community_features.go:572-640 | the same with those numbers as counts of places: the posts and runs of the season by users with a handle, and its lines with a sender |
| SeasonCounts.RowCounts | cmd/wolfbbs-web/community_features.go:572-640 | before the limit, a row's three counts are the numbers of places of the events that count for its key, and its points their weighted sum |
| SeasonCounts.RowExistsIff | cmd/wolfbbs-web/community_features.go:543-557 | there is a row for a key exactly if some event counts for it, and then one |
| SeasonCounts.RowHandle | cmd/wolfbbs-web/community_features.go:548-556 | a row shows the trimmed handle of the last user with its key |
| SeasonTally.FirstShown | cmd/wolfbbs-web/community_features.go:548-552 | a key that no user has shows the handle of its first credit |
| SeasonRanking.CountedInOneRow | cmd/wolfbbs-web/community_features.go:543-634 | each credited event has exactly one row, which counts all events of that kind and key |
| SeasonRanking.NotAfterOrdering | cmd/wolfbbs-web/community_features.go:641-652 | the comparator is a strict weak ordering |
| SeasonRanking.NotAfterMeans | cmd/wolfbbs-web/community_features.go:641-652 | points, then runs, then posts decide, more first, and then the folded handle |
| SeasonRanking.RankingUnique | cmd/wolfbbs-web/community_features.go:641-652 | rows that tie in the comparator are the same row, so only one order fits |
| SeasonRanking.NormalizeOnce | cmd/wolfbbs-web/community_features.go:431-439 | a normalised challenge has a non-empty window and weights from 1 to 20, and is left alone at any later time |
| SeasonRanking.NormalizeMeans | cmd/wolfbbs-web/community_features.go:431-439 | a missing start is 24 hours ago, a missing end or one not after the start 30 days later, weights are the nearest from 1 to 20, and all else stays |
| SeasonRecords.OneLinerOnce | cmd/wolfbbs-web/main.go:17555-17567 | a cleaned text is a line of words with single blanks within its limit, and is left alone by a second cleaning, cut or not |
| SeasonRecords.OneLinerMeans | cmd/wolfbbs-web/main.go:17555-17567 | the words of the text with single blanks, and cut with an ellipsis where that is too long |
| SeasonRecords.NormalizeRecordOnce | cmd/wolfbbs-web/community_features.go:419-444 | a normalised record is accepted again at any later time, with nothing in it changed |
| SeasonRecords.NormalizeRecordMeans | cmd/wolfbbs-web/community_features.go:419-444 | a record is refused exactly if its name has no word; what each field becomes |
| SeasonRanking.EveryRowScores | cmd/wolfbbs-web/community_features.go:636-640 | in a normalised challenge each row has an event, and from one to twenty points for each of its events |
| MenuPaths.MenuRootIsRoot | cmd/wolfbbs-web/menu_admin.go:14-20 | the menu root is clean and never the bare current directory |
| MenuPaths.MenuRootMeans | cmd/wolfbbs-web/menu_admin.go:14-20 | a blank root or "." is "menus", and a clean one is itself |
| MenuPaths.DefaultIs | cmd/wolfbbs-web/menu_admin.go:22-29 | the default file is main.hjson directly under the root |
| MenuPaths.ChosenMeans | cmd/wolfbbs-web/menu_admin.go:38-51 | a clean request is taken as it is if absolute, or below a relative root as text, and otherwise under the root |
| MenuPaths.AnyCaseExt | cmd/wolfbbs-web/menu_admin.go:53-55 | the extension is .hjson in any case |
| MenuPaths.AbsMeans | cmd/wolfbbs-web/menu_admin.go:32-60 | a relative path starts from the working directory, an absolute one is its own |
| MenuPaths.AcceptedIff | cmd/wolfbbs-web/menu_admin.go:31-69 | a path is accepted if and only if it is the chosen one, ends with .hjson, and its absolute segments extend the root's without first stepping into a name that begins with ".." |
| MenuPaths.BareName | cmd/wolfbbs-web/menu_admin.go:42-64 | a bare file name with the extension in any case is looked up directly under the root, and is refused exactly when it begins with ".." |
| MenuPaths.BlankIsDefault | cmd/wolfbbs-web/menu_admin.go:38-41 | a blank request gives the default menu file, which is always accepted |
| MenuPaths.SettlesIff | cmd/wolfbbs-web/menu_admin.go:31-69 | for every root and working directory, normalising an accepted path again returns it unchanged if and only if it is absolute; or starts with no white space and is below the root as text, or has at least as many ".." in front as the root, whose names are as many; or is one of the odd paths that trimming cuts and joining restores |
| MenuPaths.AcceptedIsTrimmed | cmd/wolfbbs-web/menu_admin.go:38-52 | an accepted path needs no trimming unless the root itself starts with white space |
| MenuPaths.ReentryMoves | cmd/wolfbbs-web/menu_admin.go:45-51 | a family of accepted paths that a second call does not return |
| MenuPaths.SpacedRootMoves | cmd/wolfbbs-web/menu_admin.go:14-20 | the same under any relative root that starts with a space |
| Paths.CleanOnce | cmd/wolfbbs-web/menu_admin.go:38-38 | cleaning a path twice is cleaning it once |
| Paths.CleanDropsDot | cmd/wolfbbs-web/menu_admin.go:38-38 | empty and "." elements do not matter |
| Paths.CleanGoesUp | cmd/wolfbbs-web/menu_admin.go:38-38 | a name followed by ".." does not matter |
| Paths.CleanStaysRooted | cmd/wolfbbs-web/menu_admin.go:38-38 | ".." at the root does not matter |
| Paths.CleanFixed | cmd/wolfbbs-web/menu_admin.go:38-38 | a path with none of these stays, and the empty one is "." |
| Paths.WayLeads | cmd/wolfbbs-web/menu_admin.go:61-61 | following the relative path from one directory to another leads there |
| Text.FoldMeans | cmd/wolfbbs-irc/main.go:383-383 | folding takes each upper-case letter to its lower-case one and nothing else |
| Text.TrimUnwraps | cmd/wolfbbs-irc/main.go:269-269 | trimming takes off exactly what is to be cut at both ends |
| Text.SpaceMeans | cmd/wolfbbs-irc/main.go:269-269 | which characters are white space |
| Text.FieldsConcat | cmd/wolfbbs-irc/main.go:408-408 | a separator cuts a text into the fields before it and those after it |
| FirstOccurrences.DistinctGrows | cmd/wolfbbs-web/file_features.go:141-144 | an element is taken only at its first occurrence, in order |
| FirstOccurrences.CapMeans | cmd/wolfbbs-web/file_features.go:146-148 | a limit keeps the front of the list, and zero or less keeps all |

## Left out

- IrcServer.Server.Kick: the lookup of the target and its move are one step, while the code takes two lock regions, between which the target may move or leave.
- IrcServer.Server.Join: the answer of checkFlood is an input (`Flood` models the check itself), and the chat service's own membership list is not modelled.
- IrcServer.Server.Part: the same.
- IrcServer.Server.BroadcastTargets: the lines written to the targets are not modelled.
- Repair.RepairsTerminate: file operations succeed, file ids are positive, as the review queue enforces, file contents stay, and a path is its text.
- Repair.RecoveryDesk.FileRepairIssues: the repository's listing is complete, which holds up to 500 entries.
- Repair.InMemoryRunsAgreeIff: what in-memory runs do after two entries have claimed one digest is not followed further.
- FloodRate.RateBound: needs a clock that does not go back; instants are unbounded integers.
- SeasonScores.BuildScores: counters are unbounded integers; the services' listings are inputs, a failed one is skipped.
- SeasonRanking.NormalizeOnce: covers the window and the weights; the rest of a record is in `SeasonRecords`.
- Sockets, TLS, flags, environment variables, reply texts and flushing.
- The account service and the chat service: a verdict and the messages they return are inputs of the steps. A tryAuthenticate step may happen at any time in the model, so runs include more than the code's.
- The poller's goroutine is a step of its own; closing its subscription is not modelled.
- Base64, SHA-256, ZIP and multipart encoding; the disk is a set of paths, an upload root a set of taken names.
- Characters outside ASCII: folding, trimming and tag rules are those of ASCII text.
- PRIVMSG, NOTICE, WHO, WHOIS, TOPIC, MODE, LIST and AWAY: they read the indexes or one field and would only add easy members.
- HTML pages, HTTP handlers, backups, release tools and the other capped lists of the web program: easier versions of the list and counter properties here.
- Working-directory errors in menu paths, drive letters and backslashes: paths are those of a Unix system.
