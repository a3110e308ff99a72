/**
 * The ICE candidate queue of `createPeerConnection` in
 * frontend/components/peer-connection.js: candidates are sent over the
 * signaling WebSocket when it is open and queued otherwise, and the queue is
 * flushed, in order, when the socket opens.
 */
module IceQueue {
  import opened Wrappers

  /** `WebSocket.readyState`. */
  datatype ReadyState = Connecting | Open | Closing | Closed

  /** A signaling message `{type, data}` before JSON serialization. */
  datatype Frame<C> = Frame(kind: string, data: C)

  const CandidateKind := "candidate"

  /** The socket's state, the queued candidates and every frame sent so far. */
  datatype Channel<C> = Channel(state: ReadyState, queue: seq<C>, sent: seq<Frame<C>>)

  /** A gathered candidate (`None` is the end-of-gathering event), or a socket state change. */
  datatype Event<C> = Candidate(candidate: Option<C>) | SocketOpen | SocketClosing | SocketClosed

  function CandidateFrame<C>(c: C): Frame<C> {
    Frame(CandidateKind, c)
  }

  /** The candidates the frames carry. */
  function Payloads<C>(frames: seq<Frame<C>>): (r: seq<C>)
    ensures |r| == |frames|
  {
    if frames == [] then [] else [frames[0].data] + Payloads(frames[1..])
  }

  lemma {:induction false} PayloadsConcat<C>(a: seq<Frame<C>>, b: seq<Frame<C>>)
    ensures Payloads(a + b) == Payloads(a) + Payloads(b)
  {
    if a == [] {
      assert a + b == b;
    } else {
      assert (a + b)[1..] == a[1..] + b;
      PayloadsConcat(a[1..], b);
    }
  }

  /** `onicecandidate`. */
  function OnIceCandidate<C>(ch: Channel<C>, candidate: Option<C>): (r: Channel<C>)
    ensures candidate.None? ==> r == ch
    ensures r.state == ch.state
    ensures candidate.Some? && ch.state == Open ==> r.queue == ch.queue && r.sent == ch.sent + [CandidateFrame(candidate.value)]
    ensures candidate.Some? && ch.state != Open ==> r.queue == ch.queue + [candidate.value] && r.sent == ch.sent
  {
    match candidate
    case None => ch
    case Some(c) =>
      if ch.state == Open then ch.(sent := ch.sent + [CandidateFrame(c)])
      else ch.(queue := ch.queue + [c])
  }

  /** The `forEach` of `ws.onopen`: one candidate frame per queued candidate, in queue order. */
  method FlushQueue<C>(queue: seq<C>, sent: seq<Frame<C>>) returns (out: seq<Frame<C>>)
    ensures |out| == |sent| + |queue|
    ensures out[..|sent|] == sent
    ensures forall i :: 0 <= i < |queue| ==> out[|sent| + i] == CandidateFrame(queue[i])
    ensures out == sent + Flushed(queue)
  {
    out := sent;
    var i := 0;
    while i < |queue|
      invariant 0 <= i <= |queue|
      invariant |out| == |sent| + i
      invariant out[..|sent|] == sent
      invariant forall k :: 0 <= k < i ==> out[|sent| + k] == CandidateFrame(queue[k])
    {
      out := out + [CandidateFrame(queue[i])];
      i := i + 1;
    }
    assert forall k :: 0 <= k < |out| ==> out[k] == (sent + Flushed(queue))[k];
  }

  /** The frames a flush appends, as a value. */
  function Flushed<C>(queue: seq<C>): (r: seq<Frame<C>>)
    ensures |r| == |queue|
    ensures forall i :: 0 <= i < |queue| ==> r[i] == CandidateFrame(queue[i])
    ensures Payloads(r) == queue
  {
    if queue == [] then [] else [CandidateFrame(queue[0])] + Flushed(queue[1..])
  }

  /** The socket opens and `onopen` flushes the queue, then clears it. */
  function OnOpen<C>(ch: Channel<C>): (r: Channel<C>)
    ensures r.state == Open && r.queue == []
    ensures Payloads(r.sent) == Payloads(ch.sent) + ch.queue
  {
    PayloadsConcat(ch.sent, Flushed(ch.queue));
    Channel(Open, [], ch.sent + Flushed(ch.queue))
  }

  /** A socket that is closing or closed never opens again. */
  predicate ShutDown(state: ReadyState) {
    state == Closing || state == Closed
  }

  /** One event; an `open` event can only come before the socket starts closing. */
  function Step<C>(ch: Channel<C>, e: Event<C>): (r: Channel<C>)
    ensures |ch.sent| <= |r.sent| && r.sent[..|ch.sent|] == ch.sent
  {
    match e
    case Candidate(c) => OnIceCandidate(ch, c)
    case SocketOpen => if ShutDown(ch.state) then ch else OnOpen(ch)
    case SocketClosing => ch.(state := Closing)
    case SocketClosed => ch.(state := Closed)
  }

  /** The channel after `events`; a frame once sent stays sent, in its place. */
  function Run<C>(ch: Channel<C>, events: seq<Event<C>>): (r: Channel<C>)
    ensures |ch.sent| <= |r.sent| && r.sent[..|ch.sent|] == ch.sent
    decreases |events|
  {
    if events == [] then ch else Run(Step(ch, events[0]), events[1..])
  }

  /** The candidates gathering produced, in order. */
  function Generated<C>(events: seq<Event<C>>): seq<C> {
    if events == [] then []
    else
      (match events[0] case Candidate(Some(c)) => [c] case _ => []) + Generated(events[1..])
  }

  /** While the socket is open nothing waits in the queue. */
  ghost predicate OpenMeansDrained<C>(ch: Channel<C>) {
    ch.state == Open ==> ch.queue == []
  }

  lemma StepKeepsCandidates<C>(ch: Channel<C>, e: Event<C>)
    requires OpenMeansDrained(ch)
    ensures Payloads(Step(ch, e).sent) + Step(ch, e).queue ==
      Payloads(ch.sent) + ch.queue + (match e case Candidate(Some(c)) => [c] case _ => [])
  {
    match e
    case Candidate(Some(c)) =>
      if ch.state == Open {
        PayloadsConcat(ch.sent, [CandidateFrame(c)]);
        assert Payloads([CandidateFrame(c)]) == [c];
        assert Step(ch, e).sent == ch.sent + [CandidateFrame(c)];
      } else {
        assert Step(ch, e).queue == ch.queue + [c];
      }
    case _ =>
  }

  /**
   * No candidate is lost, duplicated or reordered: what was sent followed by
   * what is still queued is exactly what gathering produced.
   */
  lemma {:induction false} RunKeepsCandidates<C>(ch: Channel<C>, events: seq<Event<C>>)
    requires OpenMeansDrained(ch)
    ensures Payloads(Run(ch, events).sent) + Run(ch, events).queue == Payloads(ch.sent) + ch.queue + Generated(events)
    decreases |events|
  {
    if events != [] {
      var next := Step(ch, events[0]);
      StepKeepsCandidates(ch, events[0]);
      assert OpenMeansDrained(next);
      RunKeepsCandidates(next, events[1..]);
    }
  }

  /** Every frame the queue sends is a candidate frame. */
  ghost predicate AllCandidateFrames<C>(frames: seq<Frame<C>>) {
    forall i :: 0 <= i < |frames| ==> frames[i].kind == CandidateKind
  }

  lemma FlushedAreCandidates<C>(queue: seq<C>)
    ensures AllCandidateFrames(Flushed(queue))
  {
    if queue != [] {
      FlushedAreCandidates(queue[1..]);
    }
  }

  lemma {:induction false} RunKeepsInvariants<C>(ch: Channel<C>, events: seq<Event<C>>)
    requires OpenMeansDrained(ch) && AllCandidateFrames(ch.sent)
    ensures OpenMeansDrained(Run(ch, events)) && AllCandidateFrames(Run(ch, events).sent)
    decreases |events|
  {
    if events != [] {
      var next := Step(ch, events[0]);
      if events[0].SocketOpen? {
        FlushedAreCandidates(ch.queue);
      }
      assert OpenMeansDrained(next) && AllCandidateFrames(next.sent);
      RunKeepsInvariants(next, events[1..]);
    }
  }

  /** Once the socket is open, every later candidate is sent at once and in order. */
  lemma {:induction false} OpenSendsAtOnce<C>(ch: Channel<C>, cs: seq<C>)
    requires ch.state == Open && ch.queue == []
    ensures var r := Run(ch, seq(|cs|, i requires 0 <= i < |cs| => Candidate(Some(cs[i]))));
      r.queue == [] && Payloads(r.sent) == Payloads(ch.sent) + cs
    decreases |cs|
  {
    var events := seq(|cs|, i requires 0 <= i < |cs| => Candidate(Some(cs[i])));
    if cs != [] {
      var next := Step(ch, events[0]);
      PayloadsConcat(ch.sent, [CandidateFrame(cs[0])]);
      assert Payloads([CandidateFrame(cs[0])]) == [cs[0]];
      OpenSendsAtOnce(next, cs[1..]);
      assert events[1..] == seq(|cs[1..]|, i requires 0 <= i < |cs[1..]| => Candidate(Some(cs[1..][i])));
    }
  }

  /** Opening with nothing queued sends nothing. */
  lemma EmptyFlushSendsNothing<C>(ch: Channel<C>)
    requires ch.queue == []
    ensures OnOpen(ch).sent == ch.sent
  {
  }

  /**
   * Once the socket is closing or closed, `onopen` never fires again: every
   * candidate gathered afterwards joins the queue, in order, and nothing more
   * is sent, whatever events follow.
   */
  lemma {:induction false} ClosedSocketKeepsQueue<C>(ch: Channel<C>, events: seq<Event<C>>)
    requires ShutDown(ch.state)
    ensures var r := Run(ch, events);
      r.sent == ch.sent && r.queue == ch.queue + Generated(events) && ShutDown(r.state)
    decreases |events|
  {
    if events != [] {
      var next := Step(ch, events[0]);
      assert next.sent == ch.sent && ShutDown(next.state);
      assert next.queue == ch.queue + (match events[0] case Candidate(Some(c)) => [c] case _ => []);
      ClosedSocketKeepsQueue(next, events[1..]);
      assert ch.queue + Generated(events) == next.queue + Generated(events[1..]);
    }
  }

}
