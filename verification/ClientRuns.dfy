/** What the host's client does with a plan: every exchange, every way its call can raise, and when it succeeds. */
module ClientRuns {
  import opened Bytes
  import opened Frames
  import opened Scanner
  import opened Device
  import opened HostProtocol
  import opened HostTransport

  datatype ClientError =
    | Transport(error: TransportError)
    | DeviceError(response: Response)
    | WrongSequence(response: Response)
    | WrongOffset(offset: u32)
    | StreamEnded
    | BadRequest(payload: PayloadError)

  /** One request: how often it was written, the chunks read meanwhile, and the first frame that answered it. */
  datatype Exchange = Exchange(request: Frame, attempts: nat, fed: seq<seq<byte>>, reply: Option<Frame>)

  /** The serial line: what is pending in the decoder, what is still to be read, and what was written. */
  datatype Port = Port(buffer: seq<byte>, incoming: seq<seq<byte>>, written: seq<seq<byte>>)

  /** How many reads fit before each deadline of each request, and how many attempts there are. */
  datatype Patience = Patience(polls: nat -> nat -> nat, attempts: nat)

  function Decoded(buffer: seq<byte>, chunks: seq<seq<byte>>): Scan {
    ScanStream(buffer + Flatten(chunks))
  }

  /** The exchange read the next chunks of the line; its reply is the first frame in them that answers it. */
  ghost predicate Took(port: Port, e: Exchange) {
    e.fed <= port.incoming && e.reply == FirstReply(Decoded(port.buffer, e.fed).frames, e.request)
  }

  /** The reply was complete with the last chunk read, and not before. */
  ghost predicate Settled(port: Port, e: Exchange) {
    && e.reply.Some? && e.fed != []
    && FirstReply(Decoded(port.buffer, e.fed[..|e.fed| - 1]).frames, e.request).None?
  }

  /** The line after an exchange that wrote only whole requests. */
  function Moved(port: Port, e: Exchange): Port {
    Port(
      Decoded(port.buffer, e.fed).rest,
      if |e.fed| <= |port.incoming| then port.incoming[|e.fed|..] else [],
      port.written + (if e.request.Valid() then Copies(Encode(e.request), e.attempts) else []))
  }

  // ----- How one request can end -----

  /** The request was answered in time by a frame that the host of the end-to-end protocol accepts. */
  ghost predicate Granted(port: Port, e: Exchange, polls: nat -> nat, attempts: nat, offset: nat) {
    && e.request.Valid() && 0 < e.attempts <= attempts && Took(port, e) && Settled(port, e)
    && Total(polls, e.attempts - 1) < |e.fed| <= Total(polls, e.attempts)
    && JudgeFrame(e.request, offset, e.reply.value) == Accepted
  }

  /** Exchange `e` is request `i` of the plan, answered in time by a frame that the host of the end-to-end protocol
      accepts. */
  ghost predicate Acceptance(p: Plan, i: nat, port: Port, e: Exchange, w: Patience)
    requires p.Valid() && i <= p.Last()
  {
    e.request == Request(p, i) && Granted(port, e, w.polls(i), w.attempts, OffsetAfter(p, i))
  }

  /** Why a request raised: in what the transport wrote, read and decoded for it. */
  ghost predicate Raised(port: Port, e: Exchange, polls: nat -> nat, attempts: nat, offset: nat, error: ClientError) {
    && Took(port, e) && e.attempts <= attempts
    && match error
      case Transport(Unencodable) => e.attempts == 0 && (!e.request.Valid() || e.request.command >= 0x80)
      case Transport(ShortWrite) => e.reply.None? && e.attempts < attempts
      case Transport(Timeout) =>
        && e.reply.None? && e.attempts == attempts
        && (|e.fed| == Total(polls, attempts) || e.fed == port.incoming)
      case Transport(Malformed(x)) => Settled(port, e) && DecodeResponse(e.reply.value.payload) == Err(x)
      case DeviceError(r) => Settled(port, e) && DecodeResponse(e.reply.value.payload) == Ok(r) && r.status != OK
      case WrongSequence(r) =>
        && Settled(port, e) && DecodeResponse(e.reply.value.payload) == Ok(r)
        && r.status == OK && r.expected != Next16(e.request.sequence)
      case WrongOffset(o) =>
        && Settled(port, e) && e.request.command in {BEGIN, DATA, END} && o != offset
        && JudgeFrame(e.request, o, e.reply.value) == Accepted
        && DecodeResponse(e.reply.value.payload).value.nextOffset == o
      case _ => false
  }

  /** The line after a request that raised; a short write leaves a part of the request on it. */
  ghost predicate Left(port: Port, e: Exchange, error: ClientError, next: Port) {
    var m := Moved(port, e);
    && next.buffer == m.buffer && next.incoming == m.incoming
    && if error == Transport(ShortWrite) then
        && e.request.Valid() && |next.written| == |m.written| + 1 && next.written[..|m.written|] == m.written
        && next.written[|m.written|] < Encode(e.request)
      else next.written == m.written
  }

  // ----- Conversations -----

  function After(port: Port, log: seq<Exchange>): Port {
    if log == [] then port else Moved(After(port, log[..|log| - 1]), log[|log| - 1])
  }

  /** Each exchange of the log is the next request of the plan, from number `from` on, and was accepted. */
  ghost predicate Conversation(p: Plan, from: nat, port: Port, log: seq<Exchange>, w: Patience)
    requires p.Valid()
    decreases |log|
  {
    if log == [] then from <= p.Last() + 1
    else
      var n := |log| - 1;
      && Conversation(p, from, port, log[..n], w)
      && from + n <= p.Last() && Acceptance(p, from + n, After(port, log[..n]), log[n], w)
  }

  /** The run of a call: requests `from` to `from + |log| - 1` were accepted, and then the call returned, or the next
      request raised, or BEGIN could not be announced, or the image ended before chunk `read` could be read. */
  ghost predicate Carried(p: Plan, from: nat, port: Port, log: seq<Exchange>, e: Exchange, error: Option<ClientError>,
                          next: Port, w: Patience, read: nat)
    requires p.Valid()
  {
    var i, last := from + |log|, After(port, log);
    && Conversation(p, from, port, log, w)
    && match error
      case None => i == p.Last() + 1 && next == last
      case Some(BadRequest(_)) => i == p.infos + 1 && next == last
      case Some(StreamEnded) => i == p.infos + 2 + read < p.Last() && next == last
      case Some(x) =>
        && i <= p.Last() && e.request == Request(p, i)
        && Raised(last, e, w.polls(i), w.attempts, OffsetAfter(p, i), x) && Left(last, e, x, next)
  }

  lemma ConversationNext(p: Plan, from: nat, port: Port, log: seq<Exchange>, e: Exchange, w: Patience)
    requires p.Valid() && Conversation(p, from, port, log, w) && from + |log| <= p.Last()
    requires Acceptance(p, from + |log|, After(port, log), e, w)
    ensures Conversation(p, from, port, log + [e], w) && After(port, log + [e]) == Moved(After(port, log), e)
  {
    hide Acceptance, Moved, Plan.Valid;
    assert (log + [e])[..|log|] == log;
  }

  /** Two conversations, one after the other. */
  lemma {:induction false} AfterAppend(port: Port, a: seq<Exchange>, b: seq<Exchange>)
    ensures After(port, a + b) == After(After(port, a), b)
    decreases |b|
  {
    hide Moved;
    if b == [] {
      assert a + b == a;
    } else {
      assert (a + b)[..|a + b| - 1] == a + b[..|b| - 1];
      AfterAppend(port, a, b[..|b| - 1]);
    }
  }

  lemma {:induction false} ConversationAppend(p: Plan, from: nat, port: Port, a: seq<Exchange>, b: seq<Exchange>,
                                              w: Patience)
    requires p.Valid() && Conversation(p, from, port, a, w) && Conversation(p, from + |a|, After(port, a), b, w)
    ensures Conversation(p, from, port, a + b, w)
    decreases |b|
  {
    hide Acceptance, Moved, After, Plan.Valid;
    if b == [] {
      assert a + b == a;
    } else {
      var n := |b| - 1;
      assert (a + b)[..|a| + n] == a + b[..n] && (a + b)[|a| + n] == b[n];
      AfterAppend(port, a, b[..n]);
      ConversationAppend(p, from, port, a, b[..n], w);
    }
  }

  // ----- Exactly when a call succeeds -----

  /** From request `i` on every request is answered in time by an acceptance: the first frame that answers it is
      complete within the reads of its attempts and is accepted, and so on behind it. */
  ghost predicate Answered(p: Plan, i: nat, buffer: seq<byte>, incoming: seq<seq<byte>>, w: Patience)
    requires p.Valid() && i <= p.Last() + 1
    decreases p.Last() + 1 - i
  {
    i <= p.Last() ==>
      exists n ::
        && 0 < n <= |incoming| && AnsweredBy(p, i, buffer, incoming, w, n)
        && Answered(p, i + 1, Decoded(buffer, incoming[..n]).rest, incoming[n..], w)
  }

  ghost predicate AnsweredBy(p: Plan, i: nat, buffer: seq<byte>, incoming: seq<seq<byte>>, w: Patience, n: nat)
    requires p.Valid() && i <= p.Last() && 0 < n <= |incoming|
  {
    var reply := FirstReply(Decoded(buffer, incoming[..n]).frames, Request(p, i));
    && n <= Total(w.polls(i), w.attempts)
    && FirstReply(Decoded(buffer, incoming[..n - 1]).frames, Request(p, i)).None?
    && reply.Some? && JudgeFrame(Request(p, i), OffsetAfter(p, i), reply.value) == Accepted
  }

  /** The first reply stays the first reply. */
  lemma ReplyStays(buffer: seq<byte>, chunks: seq<seq<byte>>, n: nat, request: Frame)
    requires n <= |chunks| && FirstReply(Decoded(buffer, chunks[..n]).frames, request).Some?
    ensures FirstReply(Decoded(buffer, chunks).frames, request)
      == FirstReply(Decoded(buffer, chunks[..n]).frames, request)
  {
    hide ScanStream, Flatten, FirstReply;
    assert chunks[..n] + chunks[n..] == chunks;
    FlattenAppend(chunks[..n], chunks[n..]);
    var head, tail := Flatten(chunks[..n]), Flatten(chunks[n..]);
    assert buffer + (head + tail) == buffer + head + tail;
    ScanAppend(buffer + Flatten(chunks[..n]), Flatten(chunks[n..]));
    FirstReplyAppend(Decoded(buffer, chunks[..n]).frames,
      ScanStream(ScanStream(buffer + Flatten(chunks[..n])).rest + Flatten(chunks[n..])).frames, request);
  }

  /** The chunk that completes the first reply is unique. */
  lemma SettledOnce(buffer: seq<byte>, incoming: seq<seq<byte>>, m: nat, n: nat, request: Frame)
    requires 0 < m <= |incoming| && 0 < n <= |incoming|
    requires FirstReply(Decoded(buffer, incoming[..m]).frames, request).Some?
    requires FirstReply(Decoded(buffer, incoming[..m - 1]).frames, request).None?
    requires FirstReply(Decoded(buffer, incoming[..n]).frames, request).Some?
    requires FirstReply(Decoded(buffer, incoming[..n - 1]).frames, request).None?
    ensures m == n
  {
    hide Decoded, FirstReply;
    if m < n {
      assert incoming[..n - 1][..m] == incoming[..m];
      ReplyStays(buffer, incoming[..n - 1], m, request);
    } else if n < m {
      assert incoming[..m - 1][..n] == incoming[..n];
      ReplyStays(buffer, incoming[..m - 1], n, request);
    }
  }

  lemma {:induction false} TotalGrows(polls: nat -> nat, m: nat, n: nat)
    requires m <= n
    ensures Total(polls, m) <= Total(polls, n)
    decreases n
  {
    if m < n {
      TotalGrows(polls, m, n - 1);
    }
  }

  lemma FedIsPrefix(port: Port, e: Exchange)
    requires Took(port, e) && e.fed != []
    ensures port.incoming[..|e.fed|] == e.fed && port.incoming[..|e.fed| - 1] == e.fed[..|e.fed| - 1]
  {
    hide Decoded, FirstReply;
  }

  /** After an acceptance, what is left to be answered is what the rest of the line answers. */
  lemma AcceptanceAnswered(p: Plan, i: nat, port: Port, e: Exchange, w: Patience)
    requires p.Valid() && i <= p.Last() && Acceptance(p, i, port, e, w)
    ensures var next := Moved(port, e);
      Answered(p, i, port.buffer, port.incoming, w) <==> Answered(p, i + 1, next.buffer, next.incoming, w)
  {
    hide Decoded, FirstReply, JudgeFrame, Request, Total, Encode;
    var m := |e.fed|;
    FedIsPrefix(port, e);
    TotalGrows(w.polls(i), e.attempts, w.attempts);
    assert AnsweredBy(p, i, port.buffer, port.incoming, w, m);
    forall n | 0 < n <= |port.incoming| && AnsweredBy(p, i, port.buffer, port.incoming, w, n) ensures n == m {
      SettledOnce(port.buffer, port.incoming, m, n, Request(p, i));
    }
  }

  /** A request that raised was not answered, unless a write was cut short. */
  lemma RaisedUnanswered(p: Plan, i: nat, port: Port, e: Exchange, w: Patience, error: ClientError)
    requires p.Valid() && i <= p.Last() && e.request == Request(p, i) && error != Transport(ShortWrite)
    requires Raised(port, e, w.polls(i), w.attempts, OffsetAfter(p, i), error)
    ensures !Answered(p, i, port.buffer, port.incoming, w)
  {
    hide AnsweredBy, Raised, Request, OffsetAfter, Plan.Valid;
    forall n | 0 < n <= |port.incoming| ensures !AnsweredBy(p, i, port.buffer, port.incoming, w, n) {
      RaisedUnansweredAt(p, i, port, e, w, error, n);
    }
  }

  lemma RaisedUnansweredAt(p: Plan, i: nat, port: Port, e: Exchange, w: Patience, error: ClientError, n: nat)
    requires p.Valid() && i <= p.Last() && e.request == Request(p, i) && error != Transport(ShortWrite)
    requires Raised(port, e, w.polls(i), w.attempts, OffsetAfter(p, i), error) && 0 < n <= |port.incoming|
    ensures !AnsweredBy(p, i, port.buffer, port.incoming, w, n)
  {
    hide Decoded, FirstReply, Request, Total, Encode, DecodeResponse, JudgeFrame, OffsetAfter, Plan.Valid;
    RaisedIsRefused(p, i, port, e, w, error);
    if AnsweredBy(p, i, port.buffer, port.incoming, w, n) {
      if e.reply.Some? {
        FedIsPrefix(port, e);
        SettledOnce(port.buffer, port.incoming, |e.fed|, n, Request(p, i));
      } else {
        assert e.fed[..n] == port.incoming[..n];
        ReplyStays(port.buffer, e.fed, n, Request(p, i));
      }
    }
  }

  /** A request of the plan that raises was refused by its first reply, or had none. */
  lemma RaisedIsRefused(p: Plan, i: nat, port: Port, e: Exchange, w: Patience, error: ClientError)
    requires p.Valid() && i <= p.Last() && e.request == Request(p, i)
    requires Raised(port, e, w.polls(i), w.attempts, OffsetAfter(p, i), error)
    ensures e.reply.Some? ==> Settled(port, e) && JudgeFrame(e.request, OffsetAfter(p, i), e.reply.value) == Rejected
    ensures e.reply.None? ==> error == Transport(ShortWrite) || error == Transport(Timeout)
  {
    hide Decoded, Request, Total, Encode, DecodeResponse;
    PlanRequest(p, i);
    if e.reply.Some? {
      FirstReplyReplies(Decoded(port.buffer, e.fed).frames, e.request);
    }
  }

  lemma PlanRequest(p: Plan, i: nat)
    requires p.Valid() && i <= p.Last()
    ensures Request(p, i).Valid() && Request(p, i).command < 0x80
  {
    hide PayloadAt;
  }

  lemma {:induction false} ConversationAnswered(p: Plan, from: nat, port: Port, log: seq<Exchange>, w: Patience)
    requires p.Valid() && Conversation(p, from, port, log, w)
    ensures from + |log| <= p.Last() + 1
    ensures var last := After(port, log);
      Answered(p, from, port.buffer, port.incoming, w) <==> Answered(p, from + |log|, last.buffer, last.incoming, w)
    decreases |log|
  {
    hide Acceptance, Moved, Answered, Plan.Valid;
    if log == [] {
      assert After(port, log) == port;
    } else {
      var n := |log| - 1;
      ConversationAnswered(p, from, port, log[..n], w);
      AcceptanceAnswered(p, from + n, After(port, log[..n]), log[n], w);
    }
  }

  /** Exactly: unless a write is cut short or the image ends too early, a call returns normally if and only if every
      request it awaits is answered in time by an acceptance. */
  lemma SucceedsExactly(p: Plan, from: nat, port: Port, log: seq<Exchange>, e: Exchange, error: Option<ClientError>,
                        next: Port, w: Patience, read: nat)
    requires p.Valid() && from <= p.Last() && Carried(p, from, port, log, e, error, next, w, read)
    requires error != Some(Transport(ShortWrite)) && error != Some(StreamEnded)
    requires error.Some? ==> !error.value.BadRequest?
    ensures error.None? <==> Answered(p, from, port.buffer, port.incoming, w)
  {
    hide Conversation, Raised, Left, After, Plan.Valid;
    ConversationAnswered(p, from, port, log, w);
    if error.Some? {
      RaisedUnanswered(p, from + |log|, After(port, log), e, w, error.value);
    }
  }

  // ----- The client is the host of the end-to-end protocol -----

  /** The frames the client looks at: up to the first that answers the request; the rest of that chunk is lost. */
  function Until(frames: seq<Frame>, request: Frame): seq<Frame> {
    if frames == [] then []
    else if Replies(request, frames[0]) then [frames[0]]
    else [frames[0]] + Until(frames[1..], request)
  }

  function Seen(port: Port, log: seq<Exchange>): seq<Frame> {
    if log == [] then []
    else
      var n := |log| - 1;
      Seen(port, log[..n]) + SeenIn(After(port, log[..n]), log[n])
  }

  function SeenIn(port: Port, e: Exchange): seq<Frame> {
    Until(Decoded(port.buffer, e.fed).frames, e.request)
  }

  lemma {:induction false} HostAfterAppend(p: Plan, host: Host, a: seq<Frame>, b: seq<Frame>)
    requires p.Valid() && (host.Waiting? ==> host.step <= p.Last())
    ensures var middle := HostAfter(p, host, a);
      (middle.Waiting? ==> middle.step <= p.Last()) && HostAfter(p, host, a + b) == HostAfter(p, middle, b)
    decreases |a|
  {
    hide JudgeFrame, Request;
    if a == [] {
      assert a + b == b;
    } else if host.Waiting? {
      assert (a + b)[1..] == a[1..] + b && (a + b)[0] == a[0];
      var h := host.step;
      HostAfterAppend(p, OnVerdict(p, h, JudgeFrame(Request(p, h), OffsetAfter(p, h), a[0])), a[1..], b);
    }
  }

  /** While it waits for one reply, the host ignores what the transport skips and judges what the transport returns. */
  lemma {:induction false} HostHears(p: Plan, h: nat, frames: seq<Frame>)
    requires p.Valid() && h <= p.Last()
    ensures HostAfter(p, Waiting(h), Until(frames, Request(p, h))) == match FirstReply(frames, Request(p, h))
      case None => Waiting(h)
      case Some(r) => OnVerdict(p, h, JudgeFrame(Request(p, h), OffsetAfter(p, h), r))
    decreases |frames|
  {
    hide Request, DecodeResponse;
    if frames != [] && !Replies(Request(p, h), frames[0]) {
      HostHears(p, h, frames[1..]);
    }
  }

  /** Whatever run of the client: on the frames it looked at, the host of the end-to-end protocol is where the client
      is; it has returned exactly if the call has, and a request that raised on a reply is the one it failed at. */
  lemma {:induction false} ClientIsHost(p: Plan, from: nat, port: Port, log: seq<Exchange>, w: Patience)
    requires p.Valid() && from <= p.Last() && Conversation(p, from, port, log, w)
    ensures HostAfter(p, Waiting(from), Seen(port, log))
      == if from + |log| == p.Last() + 1 then Done else Waiting(from + |log|)
    decreases |log|
  {
    hide Acceptance, Moved, SeenIn, HostAfter, After, Plan.Valid;
    if log == [] {
      NothingSeen(p, from);
    } else {
      var n := |log| - 1;
      var before, e := After(port, log[..n]), log[n];
      ClientIsHost(p, from, port, log[..n], w);
      HostAfterAppend(p, Waiting(from), Seen(port, log[..n]), SeenIn(before, e));
      AcceptanceHeard(p, from + n, before, e, w);
    }
  }

  lemma NothingSeen(p: Plan, h: nat)
    requires p.Valid() && h <= p.Last()
    ensures HostAfter(p, Waiting(h), []) == Waiting(h)
  {
  }

  lemma AcceptanceHeard(p: Plan, i: nat, port: Port, e: Exchange, w: Patience)
    requires p.Valid() && i <= p.Last() && Acceptance(p, i, port, e, w)
    ensures HostAfter(p, Waiting(i), SeenIn(port, e)) == if i == p.Last() then Done else Waiting(i + 1)
  {
    hide Decoded, FirstReply, Until, JudgeFrame, Request, HostAfter;
    HostHears(p, i, Decoded(port.buffer, e.fed).frames);
  }

  /** A call that raised: the host has failed at the very request that raised, or still waits for its reply and only
      has to give up. */
  lemma RaisedIsFailed(p: Plan, from: nat, port: Port, log: seq<Exchange>, e: Exchange, error: ClientError, next: Port,
                       w: Patience, read: nat)
    requires p.Valid() && from <= p.Last() && Carried(p, from, port, log, e, Some(error), next, w, read)
    requires error != StreamEnded && !error.BadRequest?
    ensures var i := from + |log|;
      && i <= p.Last()
      && HostAfter(p, Waiting(from), Seen(port, log) + SeenIn(After(port, log), e))
        == if e.reply.Some? then Failed(i) else Waiting(i)
  {
    hide Conversation, Decoded, FirstReply, Until, JudgeFrame, Request, HostAfter, After, Seen, Plan.Valid;
    var i, last := from + |log|, After(port, log);
    ClientIsHost(p, from, port, log, w);
    HostAfterAppend(p, Waiting(from), Seen(port, log), SeenIn(last, e));
    HostHears(p, i, Decoded(last.buffer, e.fed).frames);
    RaisedIsRefused(p, i, last, e, w, error);
  }
}
