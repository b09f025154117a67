/**
  The WebSocket relay: one loop that forwards messages between a client and an upstream.
 */
module Relay {

  /** What a stream yields: a message, or the error that ends the relay. */
  datatype Frame<+M> = Message(payload: M) | Broken

  /** Why the relay stopped, and on which side. */
  datatype Exit = ReceiveFailed(fromClient: bool) | SendFailed(toUpstream: bool) | BothEnded

  // ---------- The relay, step by step ----------

  /** Between a receive and the outcome of its send the relay holds one message. */
  datatype Phase<+M> = Head | Forwarding(toUpstream: bool, held: M) | Exited(exit: Exit)

  /** What has been received from and delivered to either side. */
  datatype State<+M> = State(
    fromClient: seq<M>,
    toUpstream: seq<M>,
    fromUpstream: seq<M>,
    toClient: seq<M>,
    phase: Phase<M>)

  datatype Event<+M> = Receive(fromClient: bool, frame: Frame<M>) | SendDone(ok: bool) | Ended

  function Step<M>(s: State<M>, e: Event<M>): State<M> {
    match (s.phase, e)
    case (Head, Receive(side, Broken)) => s.(phase := Exited(ReceiveFailed(side)))
    case (Head, Receive(true, Message(m))) => s.(fromClient := s.fromClient + [m], phase := Forwarding(true, m))
    case (Head, Receive(false, Message(m))) => s.(fromUpstream := s.fromUpstream + [m], phase := Forwarding(false, m))
    case (Head, Ended) => s.(phase := Exited(BothEnded))
    case (Forwarding(up, m), SendDone(true)) =>
      if up then s.(toUpstream := s.toUpstream + [m], phase := Head)
      else s.(toClient := s.toClient + [m], phase := Head)
    case (Forwarding(up, _), SendDone(false)) => s.(phase := Exited(SendFailed(up)))
    case _ => s
  }

  function Run<M>(events: seq<Event<M>>): State<M> {
    if |events| == 0 then State([], [], [], [], Head)
    else Step(Run(events[..|events| - 1]), events[|events| - 1])
  }

  /** How many received messages have not been delivered. */
  function Undelivered<M>(s: State<M>): int {
    |s.fromClient| - |s.toUpstream| + |s.fromUpstream| - |s.toClient|
  }

  /** Messages are delivered in order and none is made up; at most one is missing, and none
      unless a send is under way or has failed. */
  ghost predicate Conserved<M>(s: State<M>) {
    && s.toUpstream <= s.fromClient
    && s.toClient <= s.fromUpstream
    && Undelivered(s) <= 1
    && (s.phase.Head? ==> s.toUpstream == s.fromClient && s.toClient == s.fromUpstream)
    && (s.phase.Forwarding? ==>
          if s.phase.toUpstream
          then s.fromClient == s.toUpstream + [s.phase.held] && s.toClient == s.fromUpstream
          else s.fromUpstream == s.toClient + [s.phase.held] && s.toUpstream == s.fromClient)
    && (s.phase.Exited? ==> (Undelivered(s) == 1 <==> s.phase.exit.SendFailed?))
  }

  /** Conservation in every reachable state of every schedule. */
  lemma {:induction false} RelayConserves<M>(events: seq<Event<M>>)
    ensures Conserved(Run(events))
  {
    if |events| > 0 {
      RelayConserves(events[..|events| - 1]);
    }
  }

  // ---------- The loop ----------

  /** A stream with the frames it is still to yield before it ends, the outcome of the n-th
      send to it, the messages it yielded, and the messages it accepted and refused. */
  class WebSocket<M(0)> {
    const accepts: nat -> bool
    var attempts: nat
    var incoming: seq<Frame<M>>
    ghost var received: seq<M>
    ghost var sent: seq<M>
    ghost var refused: seq<M>

    constructor (incoming: seq<Frame<M>>, accepts: nat -> bool)
      ensures this.incoming == incoming && this.accepts == accepts && Untouched()
    {
      this.incoming, this.accepts, attempts := incoming, accepts, 0;
      received, sent, refused := [], [], [];
    }

    ghost predicate Untouched()
      reads this
    {
      attempts == 0 && received == sent == refused == []
    }

    method Next() returns (frame: Frame<M>)
      requires incoming != []
      modifies this`incoming, this`received
      ensures frame == old(incoming)[0] && incoming == old(incoming)[1..]
      ensures received == if frame.Message? then old(received) + [frame.payload] else old(received)
    {
      frame := incoming[0];
      incoming := incoming[1..];
      if frame.Message? {
        received := received + [frame.payload];
      }
    }

    /** Any send may fail. */
    method Send(m: M) returns (ok: bool)
      modifies this`attempts, this`sent, this`refused
      ensures ok == accepts(old(attempts)) && attempts == old(attempts) + 1
      ensures sent == if ok then old(sent) + [m] else old(sent)
      ensures refused == if ok then old(refused) else old(refused) + [m]
    {
      ok := accepts(attempts);
      attempts := attempts + 1;
      if ok {
        sent := sent + [m];
      } else {
        refused := refused + [m];
      }
    }
  }

  /** A stream of the frames `all` has yielded the messages `received`, and after them an
      error if `broken`, and has `rest` left. */
  ghost predicate Yielded<M>(all: seq<Frame<M>>, received: seq<M>, broken: bool, rest: seq<Frame<M>>) {
    var n := |received| + (if broken then 1 else 0);
    && n <= |all| && rest == all[n..]
    && (forall i :: 0 <= i < |received| ==> all[i] == Message(received[i]))
    && (broken ==> all[|received|] == Broken)
  }

  /** The state of the relay that two streams show. */
  ghost function Shown<M(0)>(client: WebSocket<M>, upstream: WebSocket<M>, phase: Phase<M>): State<M>
    reads client, upstream
  {
    State(client.received, upstream.sent, upstream.received, client.sent, phase)
  }

  lemma RunSnoc<M>(events: seq<Event<M>>, e: Event<M>)
    ensures Run(events + [e]) == Step(Run(events), e)
  {
    assert (events + [e])[..|events + [e]| - 1] == events;
  }

  /** How one branch of the select went. */
  datatype Turn<+M> = Passed(m: M) | NotReceived | NotSent(m: M) {
    /** The frame that the branch consumed. */
    function Taken(): Frame<M> {
      if NotReceived? then Broken else Message(m)
    }

    ghost function Events(fromClient: bool): seq<Event<M>> {
      match this
      case Passed(m) => [Receive(fromClient, Message(m)), SendDone(true)]
      case NotReceived => [Receive(fromClient, Broken)]
      case NotSent(m) => [Receive(fromClient, Message(m)), SendDone(false)]
    }

    /** The state after the turn. */
    ghost function After(s: State<M>, fromClient: bool): State<M> {
      match this
      case NotReceived => s.(phase := Exited(ReceiveFailed(fromClient)))
      case Passed(m) =>
        if fromClient then s.(fromClient := s.fromClient + [m], toUpstream := s.toUpstream + [m])
        else s.(fromUpstream := s.fromUpstream + [m], toClient := s.toClient + [m])
      case NotSent(m) =>
        if fromClient then s.(fromClient := s.fromClient + [m], phase := Exited(SendFailed(true)))
        else s.(fromUpstream := s.fromUpstream + [m], phase := Exited(SendFailed(false)))
    }

    function Exit(fromClient: bool): Exit
      requires !Passed?
    {
      if NotSent? then SendFailed(fromClient) else ReceiveFailed(fromClient)
    }
  }

  lemma TurnRuns<M>(events: seq<Event<M>>, fromClient: bool, turn: Turn<M>)
    requires Run(events).phase.Head?
    ensures Run(events + turn.Events(fromClient)) == turn.After(Run(events), fromClient)
  {
    match turn {
      case NotReceived => RunSnoc(events, Receive(fromClient, Broken));
      case Passed(m) => RunTwo(events, Receive(fromClient, Message(m)), SendDone(true));
      case NotSent(m) => RunTwo(events, Receive(fromClient, Message(m)), SendDone(false));
    }
  }

  lemma RunTwo<M>(events: seq<Event<M>>, e: Event<M>, f: Event<M>)
    ensures Run(events + [e, f]) == Step(Step(Run(events), e), f)
  {
    RunSnoc(events, e);
    RunSnoc(events + [e], f);
    assert events + [e, f] == events + [e] + [f];
  }

  /** One direction of the relay: the source has yielded the beginning of `all`, with an error
      after it if `broken`, and all its messages were sent on in order, each with one send that
      the target accepted, but for the last `refused` of them, which it refused. */
  ghost predicate Linked<M(0)>(
    all: seq<Frame<M>>, source: WebSocket<M>, target: WebSocket<M>, broken: bool, refused: nat)
    reads source`incoming, source`received, target`attempts, target`sent, target`refused
  {
    && Yielded(all, source.received, broken, source.incoming)
    && source.received == target.sent + target.refused
    && |target.refused| == refused && target.attempts == |target.sent| + refused
    && (forall i :: 0 <= i < |target.sent| ==> target.accepts(i))
    && (refused > 0 ==> !target.accepts(|target.sent|))
  }

  function Messages<M>(ms: seq<M>): seq<Frame<M>> {
    seq(|ms|, i requires 0 <= i < |ms| => Message(ms[i]))
  }

  /** Nothing that comes from `all` can stop a relay to a target with these outcomes. */
  ghost predicate Smooth<M>(all: seq<Frame<M>>, accepts: nat -> bool) {
    Broken !in all && forall i :: 0 <= i < |all| ==> accepts(i)
  }

  /** A direction that has run dry has delivered everything. */
  lemma LinkedDry<M(0)>(all: seq<Frame<M>>, source: WebSocket<M>, target: WebSocket<M>)
    requires Linked(all, source, target, false, 0) && source.incoming == []
    ensures all == Messages(target.sent) && Smooth(all, target.accepts)
  {
    assert source.received == target.sent;
  }

  lemma LinkedStopped<M(0)>(
    all: seq<Frame<M>>, source: WebSocket<M>, target: WebSocket<M>, broken: bool, refused: nat)
    requires Linked(all, source, target, broken, refused) && (broken || refused > 0)
    ensures !Smooth(all, target.accepts)
  {
    if broken {
      assert all[|source.received|] == Broken;
    } else {
      assert |target.sent| < |all|;
    }
  }

  /** One branch: receive the next frame of one side, then send its message to the other.
      `all` is everything that the source yields from its start on. */
  method Branch<M(0)>(source: WebSocket<M>, target: WebSocket<M>, ghost all: seq<Frame<M>>) returns (turn: Turn<M>)
    requires source != target && source.incoming != []
    requires Linked(all, source, target, false, 0)
    modifies source`incoming, source`received, target`attempts, target`sent, target`refused
    ensures turn.Taken() == old(source.incoming)[0] && source.incoming == old(source.incoming)[1..]
    ensures source.received == if turn.NotReceived? then old(source.received) else old(source.received) + [turn.m]
    ensures target.sent == if turn.Passed? then old(target.sent) + [turn.m] else old(target.sent)
    ensures Linked(all, source, target, turn.NotReceived?, if turn.NotSent? then 1 else 0)
  {
    var frame := source.Next();
    if frame.Broken? {
      return NotReceived;
    }
    var ok := target.Send(frame.payload);
    turn := if ok then Passed(frame.payload) else NotSent(frame.payload);
  }

  /** The loop makes a run of the steps above, whichever ready branch it takes. In each
      direction it takes the frames of the stream in order and sends their messages on; the
      one message of a failed send is all that can be missing. It stops at the first error of
      either kind, or else when both streams have ended. */
  method ProxyWs<M(0)>(client: WebSocket<M>, upstream: WebSocket<M>)
    returns (exit: Exit, ghost events: seq<Event<M>>)
    requires client != upstream
    requires client.Untouched() && upstream.Untouched()
    modifies client, upstream
    ensures Shown(client, upstream, Exited(exit)) == Run(events)
    ensures Linked(old(client.incoming), client, upstream,
                   exit == ReceiveFailed(true), if exit == SendFailed(true) then 1 else 0)
    ensures Linked(old(upstream.incoming), upstream, client,
                   exit == ReceiveFailed(false), if exit == SendFailed(false) then 1 else 0)
    ensures exit == BothEnded <==>
              && Smooth(old(client.incoming), upstream.accepts)
              && Smooth(old(upstream.incoming), client.accepts)
    ensures exit == BothEnded ==>
              && old(client.incoming) == Messages(upstream.sent)
              && old(upstream.incoming) == Messages(client.sent)
  {
    events := [];
    while true
      invariant Shown(client, upstream, Head) == Run(events)
      invariant Linked(old(client.incoming), client, upstream, false, 0)
      invariant Linked(old(upstream.incoming), upstream, client, false, 0)
      decreases |client.incoming| + |upstream.incoming|
    {
      var fromClient: bool := *;
      if client.incoming != [] && (fromClient || upstream.incoming == []) {
        var turn := Branch(client, upstream, old(client.incoming));
        TurnRuns(events, true, turn);
        events := events + turn.Events(true);
        if !turn.Passed? {
          exit := turn.Exit(true);
          LinkedStopped(old(client.incoming), client, upstream,
                        turn.NotReceived?, if turn.NotSent? then 1 else 0);
          break;
        }
      } else if upstream.incoming != [] {
        var turn := Branch(upstream, client, old(upstream.incoming));
        TurnRuns(events, false, turn);
        events := events + turn.Events(false);
        if !turn.Passed? {
          exit := turn.Exit(false);
          LinkedStopped(old(upstream.incoming), upstream, client,
                        turn.NotReceived?, if turn.NotSent? then 1 else 0);
          break;
        }
      } else {
        // Both branches are disabled and there is no other: the select panics.
        exit := BothEnded;
        LinkedDry(old(client.incoming), client, upstream);
        LinkedDry(old(upstream.incoming), upstream, client);
        RunSnoc(events, Ended);
        events := events + [Ended];
        break;
      }
    }
  }
}
