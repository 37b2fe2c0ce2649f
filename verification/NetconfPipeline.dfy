/** A NETCONF client and server after the hello, in every order of events: requests sent one by
    one or all at once, bytes arriving in any pieces, replies read early or late. */
module NetconfPipeline {
  import opened Wrappers
  import opened Text
  import opened Framing
  import opened NetconfServer

  /** `wire` and `inbox` hold request bytes in flight and arrived; `outbox` and `mailbox` hold reply
      bytes in flight and arrived. The first `sent` requests have been sent, the first `served`
      answered. */
  datatype World = World(sent: nat, wire: string, inbox: string, served: nat, open: bool,
                         outbox: string, mailbox: string, replies: seq<string>)

  datatype Event = Send | RequestBytes(n: nat) | Serve | ReplyBytes(n: nat) | Receive

  datatype Setup = Setup(s: Server, ms: seq<string>)

  const Initial: World := World(0, "", "", 0, true, "", "", [])

  ghost function Answers(c: Setup): (answers: seq<string>)
    ensures |answers| == |c.ms|
  {
    DispatchAll(c.s, c.ms)
  }

  ghost predicate Suitable(c: Setup) {
    Conversation(c.ms) && forall i :: 0 <= i < |c.ms| ==> |Dispatch(c.s, c.ms[i])| <= MAX_INT
  }

  predicate Enabled(c: Setup, w: World, e: Event) {
    match e
    case Send => w.sent < |c.ms|
    case RequestBytes(n) => 0 < n <= |w.wire|
    case Serve => w.open && Decode(w.inbox).Some?
    case ReplyBytes(n) => 0 < n <= |w.outbox|
    case Receive => Decode(w.mailbox).Some?
  }

  ghost function Apply(c: Setup, w: World, e: Event): World
    requires Enabled(c, w, e)
  {
    match e
    case Send => w.(wire := w.wire + Frame(c.ms[w.sent]), sent := w.sent + 1)
    case RequestBytes(n) => w.(inbox := w.inbox + w.wire[..n], wire := w.wire[n..])
    case Serve =>
      var (msg, rest) := Decode(w.inbox).value;
      w.(inbox := rest, outbox := w.outbox + Frame(Dispatch(c.s, msg)), served := w.served + 1,
         open := !Contains(msg, CLOSE))
    case ReplyBytes(n) => w.(mailbox := w.mailbox + w.outbox[..n], outbox := w.outbox[n..])
    case Receive =>
      var (msg, rest) := Decode(w.mailbox).value;
      w.(mailbox := rest, replies := w.replies + [msg])
  }

  ghost predicate Possible(c: Setup, w: World, es: seq<Event>)
    decreases |es|
  {
    es == [] || (Enabled(c, w, es[0]) && Possible(c, Apply(c, w, es[0]), es[1..]))
  }

  ghost function Run(c: Setup, w: World, es: seq<Event>): World
    requires Possible(c, w, es)
    decreases |es|
  {
    if es == [] then w else Run(c, Apply(c, w, es[0]), es[1..])
  }

  ghost predicate Inv(c: Setup, w: World) {
    && |w.replies| <= w.served <= w.sent <= |c.ms|
    && w.inbox + w.wire == Frames(c.ms[w.served..w.sent])
    && w.mailbox + w.outbox == Frames(Answers(c)[|w.replies|..w.served])
    && w.replies == Answers(c)[..|w.replies|]
    && (w.served < |c.ms| ==> w.open)
  }

  /** The front message of a stream of frames, read from as many bytes as have arrived. */
  lemma FrontOfFrames(arrived: string, coming: string, ms: seq<string>)
    requires arrived + coming == Frames(ms) && Decode(arrived).Some?
    requires forall i :: 0 <= i < |ms| ==> Sendable(ms[i])
    ensures |ms| > 0 && Decode(arrived).value.0 == ms[0]
    ensures Decode(arrived).value.1 + coming == Frames(ms[1..])
  {
    hide Frame, Sendable;
    DecodeAppend(arrived, coming);
    hide Decode;
    if ms == [] {
      DecodeNothing();
    } else {
      DecodeFrame(ms[0], Frames(ms[1..]));
    }
  }

  lemma DecodeAppend(s: string, more: string)
    requires Decode(s).Some?
    ensures Decode(s + more) == Some((Decode(s).value.0, Decode(s).value.1 + more))
  {
    hide Parse, Payload;
    ParseAppend(s, more);
  }

  lemma FramesReady(s: string, ms: seq<string>)
    requires s == Frames(ms) && ms != [] && Sendable(ms[0])
    ensures Decode(s).Some?
  {
    hide Decode, Frame, Sendable;
    DecodeFrame(ms[0], Frames(ms[1..]));
  }

  lemma AnswersSendable(c: Setup)
    requires Suitable(c)
    ensures forall i :: 0 <= i < |c.ms| ==> Sendable(c.ms[i]) && Sendable(Answers(c)[i])
  {
    forall i | 0 <= i < |c.ms| ensures Sendable(Answers(c)[i]) { ReplyIsSendable(c.s, c.ms[i]); }
  }

  lemma SendKeeps(c: Setup, w: World)
    requires Suitable(c) && Inv(c, w) && Enabled(c, w, Send)
    ensures Inv(c, Apply(c, w, Send))
  {
    hide Frame, Frames, Dispatch, Answers, Decode, Conversation;
    var m := c.ms[w.sent];
    assert c.ms[w.served..w.sent + 1] == c.ms[w.served..w.sent] + [m];
    FramesAppend(c.ms[w.served..w.sent], [m]);
    OneFrame(m);
    Assoc(w.inbox, w.wire, Frame(m));
  }

  /** What serving does: the front request goes, and its own answer is written. */
  lemma ServeAnswersFront(c: Setup, w: World)
    requires Suitable(c) && Inv(c, w) && Enabled(c, w, Serve)
    ensures w.served < w.sent
    ensures var w' := Apply(c, w, Serve);
            w' == w.(inbox := w'.inbox, outbox := w.outbox + Frame(Answers(c)[w.served]),
                     served := w.served + 1, open := !Contains(c.ms[w.served], CLOSE)) &&
            w'.inbox + w.wire == Frames(c.ms[w.served + 1..w.sent])
  {
    hide Frame, Dispatch, Decode, Contains, Sendable;
    var pending := c.ms[w.served..w.sent];
    FrontOfFrames(w.inbox, w.wire, pending);
    assert pending[0] == c.ms[w.served] && pending[1..] == c.ms[w.served + 1..w.sent];
  }

  lemma ServeKeeps(c: Setup, w: World)
    requires Suitable(c) && Inv(c, w) && Enabled(c, w, Serve)
    ensures Inv(c, Apply(c, w, Serve))
  {
    hide Frame, Dispatch, Decode, Contains, Sendable;
    ServeAnswersFront(c, w);
    hide Apply;
    var a, k := Answers(c), w.served;
    assert a[|w.replies|..k + 1] == a[|w.replies|..k] + [a[k]];
    FramesAppend(a[|w.replies|..k], [a[k]]);
    OneFrame(a[k]);
    Assoc(w.mailbox, w.outbox, Frame(a[k]));
  }

  lemma ReceiveKeeps(c: Setup, w: World)
    requires Suitable(c) && Inv(c, w) && Enabled(c, w, Receive)
    ensures Inv(c, Apply(c, w, Receive))
  {
    hide Frame, Dispatch, Decode, Contains, Sendable;
    AnswersSendable(c);
    var a, k := Answers(c), |w.replies|;
    var pending := a[k..w.served];
    FrontOfFrames(w.mailbox, w.outbox, pending);
    assert pending[0] == a[k] && pending[1..] == a[k + 1..w.served];
    assert a[..k + 1] == a[..k] + [a[k]];
  }

  lemma BytesKeep(c: Setup, w: World, e: Event)
    requires Inv(c, w) && Enabled(c, w, e) && (e.RequestBytes? || e.ReplyBytes?)
    ensures Inv(c, Apply(c, w, e))
  {
    hide Frames, Answers, Decode;
    var from := if e.RequestBytes? then w.wire else w.outbox;
    assert from == from[..e.n] + from[e.n..];
    Assoc(if e.RequestBytes? then w.inbox else w.mailbox, from[..e.n], from[e.n..]);
  }

  lemma EventKeeps(c: Setup, w: World, e: Event)
    requires Suitable(c) && Inv(c, w) && Enabled(c, w, e)
    ensures Inv(c, Apply(c, w, e))
  {
    hide Inv, Apply;
    match e
    case Send => SendKeeps(c, w);
    case RequestBytes(n) => BytesKeep(c, w, e);
    case Serve => ServeKeeps(c, w);
    case ReplyBytes(n) => BytesKeep(c, w, e);
    case Receive => ReceiveKeeps(c, w);
  }

  lemma InitialInv(c: Setup)
    ensures Inv(c, Initial)
  {
    assert c.ms[0..0] == [] && Answers(c)[0..0] == [] && Answers(c)[..0] == [];
  }

  lemma {:induction false} RunKeeps(c: Setup, w: World, es: seq<Event>)
    requires Suitable(c) && Inv(c, w) && Possible(c, w, es)
    ensures Inv(c, Run(c, w, es))
    decreases |es|
  {
    hide Inv, Suitable;
    if es != [] {
      EventKeeps(c, w, es[0]);
      RunKeeps(c, Apply(c, w, es[0]), es[1..]);
    }
  }

  /** A reply that is missing is on its way, whether or not the client sends anything more. */
  lemma Progress(c: Setup, w: World)
    requires Suitable(c) && Inv(c, w) && |w.replies| < w.sent
    ensures exists e :: e != Send && Enabled(c, w, e)
  {
    hide Frame, Dispatch, Decode, Sendable;
    AnswersSendable(c);
    if w.wire != "" {
      assert Enabled(c, w, RequestBytes(1));
    } else if w.served < w.sent {
      FramesReady(w.inbox, c.ms[w.served..w.sent]);
      assert Enabled(c, w, Serve);
    } else if w.outbox != "" {
      assert Enabled(c, w, ReplyBytes(1));
    } else {
      FramesReady(w.mailbox, Answers(c)[|w.replies|..w.served]);
      assert Enabled(c, w, Receive);
    }
  }

  /** Requests still to send, serve and read the reply of, and bytes still to move. */
  ghost function Measure(c: Setup, w: World): int
    requires |w.replies| <= w.served <= w.sent <= |c.ms|
  {
    3 * |c.ms| - w.sent - w.served - |w.replies|
    + |w.wire| + |Frames(c.ms[w.sent..])| + |w.outbox| + |Frames(Answers(c)[w.served..])|
  }

  lemma EventUsesUp(c: Setup, w: World, e: Event)
    requires Suitable(c) && Inv(c, w) && Enabled(c, w, e)
    ensures Inv(c, Apply(c, w, e)) && Measure(c, Apply(c, w, e)) < Measure(c, w)
  {
    hide Frame, Dispatch, Decode, Contains, Sendable, Frames, Answers;
    EventKeeps(c, w, e);
    match e
    case Send =>
      FramesFrom(c.ms, w.sent);
    case RequestBytes(n) =>
    case Serve =>
      ServeAnswersFront(c, w);
      FramesFrom(Answers(c), w.served);
    case ReplyBytes(n) =>
    case Receive =>
  }

  lemma FramesFrom(ms: seq<string>, k: nat)
    requires k < |ms|
    ensures Frames(ms[k..]) == Frame(ms[k]) + Frames(ms[k + 1..])
  {
    hide Frame;
    assert ms[k..][1..] == ms[k + 1..];
  }

  lemma {:induction false} RunIsBounded(c: Setup, w: World, es: seq<Event>)
    requires Suitable(c) && Inv(c, w) && Possible(c, w, es)
    ensures |es| <= Measure(c, w)
    decreases |es|
  {
    hide Inv, Suitable, Measure, Apply;
    if es == [] {
      MeasureIsNat(c, w);
    } else {
      EventUsesUp(c, w, es[0]);
      RunIsBounded(c, Apply(c, w, es[0]), es[1..]);
      WithinBounds(c, w);
    }
  }

  lemma MeasureIsNat(c: Setup, w: World)
    requires Inv(c, w)
    ensures Measure(c, w) >= 0
  {
  }

  lemma WithinBounds(c: Setup, w: World)
    requires Inv(c, w)
    ensures |w.replies| <= w.served <= w.sent <= |c.ms|
  {
  }

  /** Nothing more happens: no event is possible, or only that of sending a request while a reply is
      missing, which a client that sends its requests one by one does not do. */
  ghost predicate Over(c: Setup, w: World) {
    forall e :: Enabled(c, w, e) ==> e == Send && |w.replies| < w.sent
  }

  /** Pipelining equals sequencing: in every order of events, and for every cutting of both
      streams, the replies read so far are those of the first requests, in order; every run
      comes to an end, and when nothing more happens every request has its reply, whether the client
      waits for each reply before it sends the next request or not. */
  lemma RepliesInOrder(c: Setup, es: seq<Event>)
    requires Suitable(c) && Possible(c, Initial, es)
    ensures |es| <= 3 * |c.ms| + |Frames(c.ms)| + |Frames(Answers(c))|
    ensures var w := Run(c, Initial, es);
            w.replies <= Answers(c) && (Over(c, w) ==> w.replies == Answers(c))
  {
    hide Frames, Dispatch;
    InitialInv(c);
    RunKeeps(c, Initial, es);
    RunIsBounded(c, Initial, es);
    assert c.ms[0..] == c.ms && Answers(c)[0..] == Answers(c);
    var w := Run(c, Initial, es);
    if Over(c, w) {
      if |w.replies| < w.sent { Progress(c, w); }
      assert !Enabled(c, w, Send);
      assert Answers(c)[..|w.replies|] == Answers(c);
    }
  }

  /** So two clients that send the same requests, one waiting for each reply and one not, read
      the same replies. */
  lemma AnyTwoSchedulesAgree(c: Setup, es1: seq<Event>, es2: seq<Event>)
    requires Suitable(c) && Possible(c, Initial, es1) && Possible(c, Initial, es2)
    requires Over(c, Run(c, Initial, es1)) && Over(c, Run(c, Initial, es2))
    ensures Run(c, Initial, es1).replies == Run(c, Initial, es2).replies
  {
    RepliesInOrder(c, es1);
    RepliesInOrder(c, es2);
  }
}
