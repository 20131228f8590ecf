/**
 Numbered messages and pings of one connection (`ClientSender` in
 apps/websocket-api/src/client.rs and the ping branch of `run` in
 apps/websocket-api/src/websocket.rs).
 */
module Pings {
  import opened Wrappers
  import opened Registry
  import opened Deltas

  datatype Body = Ping | Subscribed(key: Key, value: Json) | Update(key: Key, value: Json) | Unsubscribed(key: Key) | Error(code: int)

  datatype Message = Message(number: int, body: Body)

  datatype SenderState = SenderState(counter: int, pending: set<int>, sent: seq<Message>)

  const NEW_SENDER := SenderState(1, {}, [])

  function AfterSend(s: SenderState, body: Body): SenderState {
    s.(counter := s.counter + 1, sent := s.sent + [Message(s.counter, body)])
  }

  function AfterPing(s: SenderState): SenderState {
    AfterSend(s.(pending := s.pending + {s.counter}), Ping)
  }

  /** A pong for a pending ping clears it and every earlier one; any other pong is an error. */
  function AfterPong(s: SenderState, n: int): Option<SenderState> {
    if n in s.pending then Some(s.(pending := set p | p in s.pending && p > n)) else None
  }

  class ClientSender {
    var messageCounter: int
    var pendingPings: set<int>
    /** The messages handed to the socket so far. */
    var tx: seq<Message>

    ghost function State(): SenderState
      reads this
    {
      SenderState(messageCounter, pendingPings, tx)
    }

    constructor ()
      ensures State() == NEW_SENDER
    {
      messageCounter, pendingPings, tx := 1, {}, [];
    }

    method Send(body: Body)
      modifies this
      ensures State() == AfterSend(old(State()), body)
    {
      tx := tx + [Message(messageCounter, body)];
      messageCounter := messageCounter + 1;
    }

    method SendPing()
      modifies this
      ensures State() == AfterPing(old(State()))
    {
      pendingPings := pendingPings + {messageCounter};
      Send(Ping);
    }

    method HandlePong(n: int) returns (ok: bool)
      modifies this
      ensures ok <==> AfterPong(old(State()), n).Some?
      ensures State() == if ok then AfterPong(old(State()), n).value else old(State())
    {
      ok := n in pendingPings;
      if ok {
        pendingPings := set p | p in pendingPings && p > n;
      }
    }
  }

  // ----- Runs of one connection -----

  datatype Event = Post(body: Body) | Tick | Pong(n: int)

  /** A session ends at an invalid pong, and at a tick with too many unanswered pings. */
  datatype Session = Session(sender: SenderState, accepted: int, open: bool)

  function Step(s: Session, e: Event, threshold: nat): Session {
    if !s.open then s
    else match e
      case Post(body) => if body.Ping? then s else s.(sender := AfterSend(s.sender, body))
      case Tick => if |s.sender.pending| >= threshold then s.(open := false) else s.(sender := AfterPing(s.sender))
      case Pong(n) =>
        var after := AfterPong(s.sender, n);
        if after.None? then s.(open := false) else Session(after.value, n, true)
  }

  function Run(events: seq<Event>, threshold: nat): Session {
    if events == [] then Session(NEW_SENDER, 0, true)
    else Step(Run(events[..|events| - 1], threshold), events[|events| - 1], threshold)
  }

  /** The `n`-th message of a list was a ping. */
  ghost predicate IsPing(sent: seq<Message>, n: int) {
    1 <= n <= |sent| && sent[n - 1].body.Ping?
  }

  ghost predicate Numbered(s: SenderState) {
    s.counter == |s.sent| + 1 && forall i :: 0 <= i < |s.sent| ==> s.sent[i].number == i + 1
  }

  /** Pending are exactly the pings numbered above the greatest accepted pong. */
  ghost predicate PendingExact(s: Session) {
    forall n :: n in s.sender.pending <==> IsPing(s.sender.sent, n) && n > s.accepted
  }

  ghost predicate SessionOk(s: Session, threshold: nat) {
    && Numbered(s.sender) && PendingExact(s)
    && 0 <= s.accepted <= |s.sender.sent|
    && |s.sender.pending| <= threshold
  }

  lemma SentIsPing(sent: seq<Message>, m: Message)
    ensures forall n :: IsPing(sent + [m], n) <==> IsPing(sent, n) || (n == |sent| + 1 && m.body.Ping?)
  {
  }

  lemma StepKeepsSession(s: Session, e: Event, threshold: nat)
    requires SessionOk(s, threshold)
    ensures SessionOk(Step(s, e, threshold), threshold)
  {
    match e
    case Post(body) =>
      SentIsPing(s.sender.sent, Message(s.sender.counter, body));
    case Tick =>
      SentIsPing(s.sender.sent, Message(s.sender.counter, Ping));
    case Pong(n) =>
      if n in s.sender.pending {
        SmallerPending(AfterPong(s.sender, n).value.pending, s.sender.pending);
      }
  }

  lemma SmallerPending(a: set<int>, b: set<int>)
    requires a <= b
    ensures |a| <= |b|
  {
    assert b == a + (b - a);
  }

  /** In every run: numbers without gaps, pending pings exact, never more than the threshold. */
  lemma {:induction false} EveryRunIsOk(events: seq<Event>, threshold: nat)
    ensures SessionOk(Run(events, threshold), threshold)
  {
    if events != [] {
      EveryRunIsOk(events[..|events| - 1], threshold);
      StepKeepsSession(Run(events[..|events| - 1], threshold), events[|events| - 1], threshold);
    }
  }

  /** A pong is accepted iff it answers a ping sent after the last one that was answered. */
  lemma PongAccepted(events: seq<Event>, n: int, threshold: nat)
    requires Run(events, threshold).open
    ensures var s := Run(events, threshold);
            Run(events + [Pong(n)], threshold).open <==> IsPing(s.sender.sent, n) && n > s.accepted
  {
    EveryRunIsOk(events, threshold);
    assert (events + [Pong(n)])[..|events|] == events;
  }

  // ----- What a session sends, and when it ends -----

  /** What the events ask to be sent: the posted messages, and a ping for every tick. */
  ghost function Asked(events: seq<Event>): seq<Body> {
    if events == [] then []
    else
      Asked(events[..|events| - 1])
      + match events[|events| - 1]
        case Post(body) => if body.Ping? then [] else [body]
        case Tick => [Ping]
        case Pong(_) => []
  }

  /** The number of the last pong, or zero. */
  ghost function LastPong(events: seq<Event>): int {
    if events == [] then 0
    else if events[|events| - 1].Pong? then events[|events| - 1].n
    else LastPong(events[..|events| - 1])
  }

  lemma ClosedBefore(events: seq<Event>, threshold: nat)
    requires events != [] && Run(events, threshold).open
    ensures Run(events[..|events| - 1], threshold).open
  {
  }

  /** An open session has sent exactly what was asked for, in order, with consecutive numbers. */
  lemma {:induction false} EverythingIsSent(events: seq<Event>, threshold: nat)
    requires Run(events, threshold).open
    ensures var s := Run(events, threshold);
            && |s.sender.sent| == |Asked(events)|
            && (forall i :: 0 <= i < |s.sender.sent| ==> s.sender.sent[i] == Message(i + 1, Asked(events)[i]))
            && s.accepted == LastPong(events)
    decreases |events|
  {
    if events != [] {
      ClosedBefore(events, threshold);
      EverythingIsSent(events[..|events| - 1], threshold);
      EveryRunIsOk(events[..|events| - 1], threshold);
    }
  }

  /** The pings that have not been answered, neither themselves nor by a later pong. */
  ghost function Unanswered(s: Session): set<int> {
    set n | 1 <= n <= |s.sender.sent| && IsPing(s.sender.sent, n) && n > s.accepted
  }

  /**
   A session ends exactly at a tick with as many unanswered pings as the threshold, and at a
   pong for nothing unanswered; whatever comes afterwards, nothing more is sent.
   */
  lemma EndsIff(events: seq<Event>, e: Event, threshold: nat)
    ensures var s, t := Run(events, threshold), Run(events + [e], threshold);
            if s.open then
              && (t.open <==> (e.Tick? ==> |Unanswered(s)| < threshold) && (e.Pong? ==> e.n in Unanswered(s)))
              && (!t.open ==> t.sender == s.sender)
            else t == s
  {
    var s := Run(events, threshold);
    EveryRunIsOk(events, threshold);
    assert (events + [e])[..|events|] == events;
    assert Unanswered(s) == s.sender.pending by {
      forall n ensures n in Unanswered(s) <==> n in s.sender.pending {
      }
    }
  }
}
