/** The poller of one client (`startChatPoller`): a live stream merged with history polling. */
module Poller {

  datatype Message = Message(id: int, channel: string)

  /** The locals of the poller loop, and the ids of the lines it has written. */
  datatype PollState = PollState(current: string, lastMessage: int, streaming: bool, delivered: seq<int>)

  const START: PollState := PollState("", 0, false, [])

  /** What one round of the select loop may receive; `Tick` carries what the history query returns. */
  datatype Event = Switch(channel: string) | Streamed(msg: Message) | StreamClosed | Tick(history: seq<Message>)

  function Offer(s: PollState, id: int): PollState {
    if id <= s.lastMessage then s else s.(lastMessage := id, delivered := s.delivered + [id])
  }

  function OfferAll(s: PollState, ids: seq<int>): PollState {
    if ids == [] then s else Offer(OfferAll(s, ids[..|ids| - 1]), ids[|ids| - 1])
  }

  function Ids(messages: seq<Message>): (ids: seq<int>)
    ensures |ids| == |messages|
    ensures forall i :: 0 <= i < |ids| ==> ids[i] == messages[i].id
  {
    seq(|messages|, i requires 0 <= i < |messages| => messages[i].id)
  }

  /** The ids that a round offers to the client: nothing without a channel, and only its own channel's stream. */
  function Eligible(s: PollState, e: Event): seq<int> {
    match e
    case Streamed(msg) => if s.streaming && s.current != "" && msg.channel == s.current then [msg.id] else []
    case Tick(history) => if s.current != "" then Ids(history) else []
    case _ => []
  }

  function Step(s: PollState, e: Event): PollState {
    match e
    case Switch(channel) => s.(current := channel, streaming := channel != "")
    case StreamClosed => s.(streaming := false)
    case _ => OfferAll(s, Eligible(s, e))
  }

  function Run(es: seq<Event>): PollState {
    if es == [] then START else Step(Run(es[..|es| - 1]), es[|es| - 1])
  }

  /** All eligible offers of a run, in order. */
  function Offers(es: seq<Event>): seq<int> {
    if es == [] then [] else Offers(es[..|es| - 1]) + Eligible(Run(es[..|es| - 1]), es[|es| - 1])
  }

  class ChatPoller {
    var current: string
    var lastMessage: int
    var streaming: bool
    var delivered: seq<int>

    constructor ()
      ensures View() == START
    {
      current, lastMessage, streaming, delivered := "", 0, false, [];
    }

    function View(): PollState
      reads this
    {
      PollState(current, lastMessage, streaming, delivered)
    }

    method OnSwitch(channel: string)
      modifies this
      ensures View() == Step(old(View()), Switch(channel))
    {
      current := channel;
      streaming := current != "";
    }

    /** A receive from the stream; a nil stream never delivers. */
    method OnMessage(msg: Message)
      requires streaming
      modifies this
      ensures View() == Step(old(View()), Streamed(msg))
    {
      assert [msg.id][..0] == [] && OfferAll(View(), []) == View();
      assert OfferAll(View(), [msg.id]) == Offer(View(), msg.id);
      if current == "" || msg.channel != current || msg.id <= lastMessage {
        return;
      }
      lastMessage := msg.id;
      delivered := delivered + [msg.id];
    }

    method OnClosed()
      modifies this
      ensures View() == Step(old(View()), StreamClosed)
    {
      streaming := false;
    }

    method OnTick(messages: seq<Message>)
      modifies this
      ensures View() == Step(old(View()), Tick(messages))
    {
      if current == "" {
        return;
      }
      ghost var ids := Ids(messages);
      ghost var s := View();
      for i := 0 to |messages|
        invariant View() == OfferAll(s, ids[..i])
      {
        assert ids[..i + 1][..i] == ids[..i];
        if messages[i].id > lastMessage {
          lastMessage := messages[i].id;
          delivered := delivered + [messages[i].id];
        }
      }
      assert ids[..|ids|] == ids;
    }
  }

  // ------------------------------------------------------------------
  // Delivery
  // ------------------------------------------------------------------

  /** The positive ids that exceed every id before them. */
  ghost function NewMaxima(ids: seq<int>): seq<int> {
    if ids == [] then []
    else
      var front, last := ids[..|ids| - 1], ids[|ids| - 1];
      if last > 0 && forall j :: 0 <= j < |front| ==> front[j] < last then NewMaxima(front) + [last]
      else NewMaxima(front)
  }

  ghost predicate IsTop(top: int, ids: seq<int>) {
    && top >= 0 && (top == 0 || top in ids)
    && forall j :: 0 <= j < |ids| ==> ids[j] <= top
  }

  /** The poller's state sums up the offers so far. */
  ghost predicate Tracks(s: PollState, offers: seq<int>) {
    IsTop(s.lastMessage, offers) && s.delivered == NewMaxima(offers)
  }

  lemma OfferKeeps(s: PollState, offers: seq<int>, id: int)
    requires Tracks(s, offers)
    ensures Tracks(Offer(s, id), offers + [id])
  {
    assert (offers + [id])[..|offers|] == offers;
    if id <= s.lastMessage && id > 0 {
      var j :| 0 <= j < |offers| && offers[j] == s.lastMessage;
    }
  }

  lemma {:induction false} OfferAllKeeps(s: PollState, offers: seq<int>, ids: seq<int>, all: seq<int>)
    requires Tracks(s, offers) && all == offers + ids
    ensures Tracks(OfferAll(s, ids), all)
  {
    if ids == [] {
      assert all == offers;
    } else {
      var front, last := ids[..|ids| - 1], ids[|ids| - 1];
      OfferAllKeeps(s, offers, front, all[..|all| - 1]);
      OfferKeeps(OfferAll(s, front), all[..|all| - 1], last);
      assert all == all[..|all| - 1] + [last];
    }
  }

  lemma {:induction false} RunTop(es: seq<Event>)
    ensures Tracks(Run(es), Offers(es))
  {
    if es != [] {
      var front, e := es[..|es| - 1], es[|es| - 1];
      RunTop(front);
      OfferAllKeeps(Run(front), Offers(front), Eligible(Run(front), e), Offers(es));
      assert Offers(front) + [] == Offers(front);
    }
  }

  /** Over any run, what is delivered is exactly the successive new maxima of the offers. */
  lemma DeliversNewMaxima(es: seq<Event>)
    ensures Run(es).delivered == NewMaxima(Offers(es))
  {
    RunTop(es);
  }

  lemma {:induction false} MaximaIncrease(ids: seq<int>)
    ensures forall i, j :: 0 <= i < j < |NewMaxima(ids)| ==> NewMaxima(ids)[i] < NewMaxima(ids)[j]
    ensures forall id :: id in NewMaxima(ids) ==> id in ids && id > 0
  {
    if ids != [] {
      MaximaIncrease(ids[..|ids| - 1]);
      var rest := NewMaxima(ids[..|ids| - 1]);
      forall i | 0 <= i < |rest| ensures rest[i] in ids[..|ids| - 1] {
        assert rest[i] in rest;
      }
      assert ids == ids[..|ids| - 1] + [ids[|ids| - 1]];
    }
  }

  /** Delivered ids strictly increase, so no message is delivered twice. */
  lemma DeliveredIncreases(es: seq<Event>, i: nat, j: nat)
    requires i < j < |Run(es).delivered|
    ensures 0 < Run(es).delivered[i] < Run(es).delivered[j]
  {
    RunTop(es);
    MaximaIncrease(Offers(es));
    assert Run(es).delivered[i] in NewMaxima(Offers(es));
  }

  /** Whenever a larger id is offered before some offer of a positive id, that id was offered before the larger one. */
  ghost predicate FirstOffersInOrder(ids: seq<int>) {
    forall l, i :: 0 <= l < i < |ids| && 0 < ids[i] < ids[l] ==> ids[i] in ids[..l]
  }

  ghost predicate AllIn(ids: seq<int>, out: seq<int>) {
    forall id :: id in ids && id > 0 ==> id in out
  }

  /** Every offered message is delivered exactly when first offers come in the order of the ids. */
  lemma AllDelivered(es: seq<Event>)
    ensures AllIn(Offers(es), Run(es).delivered) <==> FirstOffersInOrder(Offers(es))
  {
    RunTop(es);
    if FirstOffersInOrder(Offers(es)) {
      forall id | id in Offers(es) && id > 0 ensures id in Run(es).delivered {
        FirstIsMaximum(Offers(es), id);
      }
    } else {
      var ids := Offers(es);
      var l, i :| 0 <= l < i < |ids| && 0 < ids[i] < ids[l] && ids[i] !in ids[..l];
      LateIsLost(ids, l, ids[i]);
    }
  }

  lemma {:induction false} FirstIsMaximum(ids: seq<int>, id: int)
    requires FirstOffersInOrder(ids) && id in ids && id > 0
    ensures id in NewMaxima(ids)
  {
    var front, last := ids[..|ids| - 1], ids[|ids| - 1];
    assert ids == front + [last];
    if id in front {
      OrderedFront(ids);
      FirstIsMaximum(front, id);
    } else {
      forall j | 0 <= j < |front| ensures front[j] < last {
        assert front[j] in front;
        assert front[j] == ids[j];
      }
    }
  }

  lemma OrderedFront(ids: seq<int>)
    requires FirstOffersInOrder(ids) && ids != []
    ensures FirstOffersInOrder(ids[..|ids| - 1])
  {
  }

  /** An id first offered after a larger one is never delivered. */
  lemma {:induction false} LateIsLost(ids: seq<int>, l: nat, id: int)
    requires l < |ids| && id < ids[l] && id !in ids[..l]
    ensures id !in NewMaxima(ids)
  {
    var front := ids[..|ids| - 1];
    if l < |front| {
      assert front[..l] == ids[..l];
      LateIsLost(front, l, id);
    } else {
      MaximaIncrease(front);
    }
  }

  // ------------------------------------------------------------------
  // What is offered
  // ------------------------------------------------------------------

  /** The poller is in the channel of the last switch, and hears it live until the stream closes. */
  lemma SwitchFollowed(es: seq<Event>, e: Event)
    ensures var s, s' := Run(es), Run(es + [e]);
      && s'.current == (if e.Switch? then e.channel else s.current)
      && s'.streaming == if e.Switch? then e.channel != "" else if e.StreamClosed? then false else s.streaming
    ensures Run([]).current == "" && !Run([]).streaming
  {
    RunSnoc(es, e);
    StateOfOffers(Run(es), Eligible(Run(es), e));
  }

  /** A message reaches a client in a channel: live, in that very channel, or in the history it polls. */
  predicate OfferedBy(s: PollState, e: Event, id: int) {
    s.current != "" &&
      match e
      case Streamed(msg) => s.streaming && msg.channel == s.current && msg.id == id
      case Tick(history) => exists j :: 0 <= j < |history| && history[j].id == id
      case _ => false
  }

  lemma EligibleMeans(s: PollState, e: Event, id: int)
    ensures id in Eligible(s, e) <==> OfferedBy(s, e, id)
  {
    if e.Tick? {
      var ids := Ids(e.history);
      if j :| 0 <= j < |e.history| && e.history[j].id == id {
        assert ids[j] == id;
      }
    }
  }

  predicate OfferedAt(es: seq<Event>, i: nat, id: int)
    requires i < |es|
  {
    OfferedBy(Run(es[..i]), es[i], id)
  }

  lemma OffersNext(es: seq<Event>, n: nat, id: int)
    requires n < |es|
    ensures id in Offers(es[..n + 1]) <==> id in Offers(es[..n]) || OfferedAt(es, n, id)
  {
    assert es[..n + 1] == es[..n] + [es[n]];
    RunSnoc(es[..n], es[n]);
    EligibleMeans(Run(es[..n]), es[n], id);
  }

  /** The offers of a run are exactly the messages that reached the client at some step. */
  lemma {:induction false} OffersMean(es: seq<Event>, n: nat, id: int)
    requires n <= |es|
    ensures id in Offers(es[..n]) <==> exists i: nat :: i < n && OfferedAt(es, i, id)
  {
    if n > 0 {
      OffersMean(es, n - 1, id);
      OffersNext(es, n - 1, id);
    } else {
      assert es[..0] == [];
    }
  }

  lemma RunSnoc(front: seq<Event>, e: Event)
    ensures Run(front + [e]) == Step(Run(front), e)
    ensures Offers(front + [e]) == Offers(front) + Eligible(Run(front), e)
  {
    assert (front + [e])[..|front|] == front;
  }

  /**
   A tick returns the last twenty messages while an older one still waits in the stream:
   the older one is offered, and never written.
   */
  lemma OlderMessageLost(ch: string, older: int, history: seq<Message>)
    requires ch != "" && history != [] && 0 < older < history[0].id
    ensures var es := [Switch(ch)] + [Tick(history)] + [Streamed(Message(older, ch))];
      Offers(es) == Ids(history) + [older] && older !in Run(es).delivered
  {
    var es1 := [Switch(ch)];
    var es2 := es1 + [Tick(history)];
    RunSnoc([], Switch(ch));
    assert [] + [Switch(ch)] == es1;
    RunSnoc(es1, Tick(history));
    RunSnoc(es2, Streamed(Message(older, ch)));
    StateOfOffers(START.(current := ch, streaming := true), Ids(history));
    assert Offers(es2) == [] + Ids(history) == Ids(history);
    LateIsLost(Ids(history) + [older], 0, older);
    DeliversNewMaxima(es2 + [Streamed(Message(older, ch))]);
  }

  lemma {:induction false} StateOfOffers(s: PollState, ids: seq<int>)
    ensures OfferAll(s, ids).current == s.current && OfferAll(s, ids).streaming == s.streaming
  {
    if ids != [] {
      StateOfOffers(s, ids[..|ids| - 1]);
    }
  }
}
