/** The host's serial transport as the Python code keeps it: one request at a time, written again until answered. */
module HostTransport {
  import opened Bytes
  import opened Frames
  import opened Scanner
  import opened StreamDecoder
  import opened HostProtocol

  /** The serial port: what it will deliver, what was written to it, and how much of each write it takes. */
  class SerialStream {
    var incoming: seq<seq<byte>>
    var written: seq<seq<byte>>
    const accepts: nat -> nat

    constructor (incoming: seq<seq<byte>>, accepts: nat -> nat)
      ensures this.incoming == incoming && written == [] && this.accepts == accepts
    {
      this.incoming, this.written, this.accepts := incoming, [], accepts;
    }

    method Write(data: seq<byte>) returns (count: nat)
      modifies this`written
      ensures count == Min(accepts(|old(written)|), |data|) && written == old(written) + [data[..count]]
    {
      count := Min(accepts(|written|), |data|);
      written := written + [data[..count]];
    }

    /** One read: whatever has arrived, or nothing when the port times out. */
    method Read() returns (chunk: seq<byte>)
      modifies this`incoming
      ensures if old(incoming) == [] then chunk == [] && incoming == [] else [chunk] + incoming == old(incoming)
    {
      if incoming == [] {
        return [];
      }
      chunk, incoming := incoming[0], incoming[1..];
    }
  }

  datatype TransportError = Unencodable | ShortWrite | Malformed(error: PayloadError) | Timeout

  function FirstReply(frames: seq<Frame>, request: Frame): Option<Frame> {
    if frames == [] then None
    else if Replies(request, frames[0]) then Some(frames[0])
    else FirstReply(frames[1..], request)
  }

  lemma {:induction false} FirstReplyAppend(a: seq<Frame>, b: seq<Frame>, request: Frame)
    ensures FirstReply(a + b, request)
      == if FirstReply(a, request).Some? then FirstReply(a, request) else FirstReply(b, request)
  {
    if a == [] {
      assert a + b == b;
    } else {
      assert (a + b)[1..] == a[1..] + b;
      FirstReplyAppend(a[1..], b, request);
    }
  }

  function Copies(bytes: seq<byte>, n: nat): (r: seq<seq<byte>>)
    ensures |r| == n
  {
    seq(n, _ => bytes)
  }

  lemma CopiesNext(writes: seq<seq<byte>>, bytes: seq<byte>, n: nat)
    ensures writes + Copies(bytes, n + 1) == writes + Copies(bytes, n) + [bytes]
  {
  }

  /** The reads of the first `n` attempts. */
  function Total(polls: nat -> nat, n: nat): nat {
    if n == 0 then 0 else Total(polls, n - 1) + polls(n - 1)
  }

  class SerialTransport {
    const stream: SerialStream
    const decoder: StreamDecoder
    const maxAttempts: nat

    constructor (stream: SerialStream, maxAttempts: nat)
      requires maxAttempts >= 1
      ensures Valid() && this.stream == stream && this.maxAttempts == maxAttempts && fresh(decoder)
      ensures decoder.buffer == []
    {
      this.stream, this.maxAttempts := stream, maxAttempts;
      decoder := new StreamDecoder();
    }

    ghost predicate Valid()
      reads this, decoder
    {
      maxAttempts >= 1 && Pending(decoder.buffer)
    }

    /** What the frames so far decide about a request. */
    ghost predicate Settled(frames: seq<Frame>, frame: Frame, result: Result<Response, TransportError>) {
      match result
      case Ok(r) => FirstReply(frames, frame).Some? && DecodeResponse(FirstReply(frames, frame).value.payload) == Ok(r)
      case Err(Malformed(e)) =>
        FirstReply(frames, frame).Some? && DecodeResponse(FirstReply(frames, frame).value.payload) == Err(e)
      case Err(_) => FirstReply(frames, frame).None?
    }

    /** How far the transport listened: every attempt before the last uses up its reads, a reply ends the last one at
        the very chunk that completes it, and a timeout uses up all of them, or all that will ever arrive. */
    ghost predicate Listened(fed: seq<seq<byte>>, rest: seq<seq<byte>>, polls: nat -> nat, attempts: nat,
                             result: Result<Response, TransportError>)
    {
      match result
      case Ok(_) => attempts > 0 && Total(polls, attempts - 1) < |fed| <= Total(polls, attempts)
      case Err(Malformed(_)) => attempts > 0 && Total(polls, attempts - 1) < |fed| <= Total(polls, attempts)
      case Err(_) => |fed| == Total(polls, attempts) || (rest == [] && |fed| <= Total(polls, attempts))
    }

    /** No earlier chunk settled the request. */
    ghost predicate JustSettled(start: seq<byte>, fed: seq<seq<byte>>, frame: Frame) {
      fed != [] && FirstReply(ScanStream(start + Flatten(fed[..|fed| - 1])).frames, frame).None?
    }

    /** `SerialTransport.request`: identical writes, at most `maxAttempts` of them, until the first frame that
        answers the request decides; `polls` says how many reads fit before each deadline. */
    method SendRequest(frame: Frame, polls: nat -> nat)
      returns (result: Result<Response, TransportError>, ghost fed: seq<seq<byte>>, ghost attempts: nat)
      requires Valid()
      modifies stream, decoder
      ensures Valid() && old(stream.incoming) == fed + stream.incoming
      ensures Settled(ScanStream(old(decoder.buffer) + Flatten(fed)).frames, frame, result)
      ensures attempts <= maxAttempts && Listened(fed, stream.incoming, polls, attempts, result)
      ensures decoder.buffer == ScanStream(old(decoder.buffer) + Flatten(fed)).rest
      ensures result.Ok? || result.error.Malformed? ==> JustSettled(old(decoder.buffer), fed, frame)
      ensures result == Err(Timeout) ==> attempts == maxAttempts
      ensures result == Err(Unencodable) <==> !frame.Valid() || frame.command >= 0x80
      ensures result == Err(Unencodable) ==> attempts == 0 && stream.written == old(stream.written)
      ensures frame.Valid() && result != Err(ShortWrite) ==>
        stream.written == old(stream.written) + Copies(Encode(frame), attempts)
      ensures frame.Valid() && result == Err(ShortWrite) ==>
        && |stream.written| == |old(stream.written)| + attempts + 1
        && stream.written[..|stream.written| - 1] == old(stream.written) + Copies(Encode(frame), attempts)
        && stream.written[|stream.written| - 1] < Encode(frame)
        && attempts < maxAttempts && stream.accepts(|stream.written| - 1) < |Encode(frame)|
    {
      hide DecodeResponse, Encode, ScanStream, Pending, Replies, Flatten, FirstReply, JustSettled, Copies, Header;
      fed, attempts := [], 0;
      ghost var start, writes := decoder.buffer, stream.written;
      PendingIsFixed(start);
      NothingFed(start, frame);
      if !frame.Valid() || frame.command >= 0x80 {
        return Err(Unencodable), fed, attempts;
      }
      var encoded := Encode(frame);
      ghost var frames: seq<Frame> := [];
      for attempt := 0 to maxAttempts
        invariant Valid() && old(stream.incoming) == fed + stream.incoming && attempts == attempt
        invariant Scan(frames, decoder.buffer) == ScanStream(start + Flatten(fed)) && FirstReply(frames, frame).None?
        invariant stream.written == writes + Copies(encoded, attempts)
        invariant |fed| == Total(polls, attempt) || (stream.incoming == [] && |fed| <= Total(polls, attempt))
      {
        var written := stream.Write(encoded);
        if written != |encoded| {
          assert stream.written[..|stream.written| - 1] == writes + Copies(encoded, attempts);
          return Err(ShortWrite), fed, attempts;
        }
        attempts := attempts + 1;
        assert encoded[..|encoded|] == encoded;
        CopiesNext(writes, encoded, attempt);
        var done;
        done, result, fed, frames := Listen(frame, polls(attempt), start, fed, frames);
        if done {
          return;
        }
      }
      return Err(Timeout), fed, attempts;
    }

    /** The reads of one attempt. */
    method Listen(frame: Frame, polls: nat, ghost start: seq<byte>, ghost before: seq<seq<byte>>,
                  ghost past: seq<Frame>)
      returns (done: bool, result: Result<Response, TransportError>, ghost fed: seq<seq<byte>>,
               ghost frames: seq<Frame>)
      requires Valid() && Scan(past, decoder.buffer) == ScanStream(start + Flatten(before))
      requires FirstReply(past, frame).None?
      modifies stream`incoming, decoder
      ensures Valid() && before + old(stream.incoming) == fed + stream.incoming
      ensures Scan(frames, decoder.buffer) == ScanStream(start + Flatten(fed))
      ensures |before| <= |fed| <= |before| + polls
      ensures !done ==>
        FirstReply(frames, frame).None? && (stream.incoming == [] || |fed| == |before| + polls)
      ensures done ==>
        && Settled(frames, frame, result) && (result.Ok? || result.error.Malformed?)
        && |before| < |fed| && JustSettled(start, fed, frame)
    {
      hide DecodeResponse, ScanStream, Pending, Replies, FirstReply, Settled, Flatten;
      fed, frames, result := before, past, Err(Timeout);
      for i := 0 to polls
        invariant Valid() && before + old(stream.incoming) == fed + stream.incoming
        invariant Scan(frames, decoder.buffer) == ScanStream(start + Flatten(fed)) && FirstReply(frames, frame).None?
        invariant |before| <= |fed| <= |before| + i && (stream.incoming == [] || |fed| == |before| + i)
      {
        ghost var waiting := stream.incoming;
        var chunk := stream.Read();
        if chunk != [] {
          done, result, frames := Absorb(frame, chunk, start, fed, frames);
          assert (fed + [chunk])[..|fed|] == fed;
          fed := fed + [chunk];
          if done {
            return;
          }
        } else if waiting != [] {
          FedNext(start, fed, chunk);
          assert start + Flatten(fed) + [] == start + Flatten(fed);
          fed := fed + [chunk];
        }
      }
      return false, result, fed, frames;
    }

    /** One chunk: its first frame that answers the request settles it. */
    method Absorb(frame: Frame, chunk: seq<byte>, ghost start: seq<byte>, ghost fed: seq<seq<byte>>,
                  ghost past: seq<Frame>)
      returns (done: bool, result: Result<Response, TransportError>, ghost frames: seq<Frame>)
      requires Valid() && Scan(past, decoder.buffer) == ScanStream(start + Flatten(fed))
      requires FirstReply(past, frame).None?
      modifies decoder
      ensures Valid() && Scan(frames, decoder.buffer) == ScanStream(start + Flatten(fed + [chunk]))
      ensures !done ==> FirstReply(frames, frame).None?
      ensures done ==> Settled(frames, frame, result) && (result.Ok? || result.error.Malformed?)
    {
      hide DecodeResponse, ScanStream, Pending, Replies;
      FedNext(start, fed, chunk);
      ScanAppend(start + Flatten(fed), chunk);
      var more := decoder.Feed(chunk);
      frames := past + more;
      FirstReplyAppend(past, more, frame);
      var reply := FindReply(more, frame);
      if reply.None? {
        return false, Err(Timeout), frames;
      }
      match DecodeResponse(reply.value.payload) {
        case Ok(r) => return true, Ok(r), frames;
        case Err(e) => return true, Err(Malformed(e)), frames;
      }
    }

    /** The loop over the frames of one chunk. */
    method FindReply(frames: seq<Frame>, frame: Frame) returns (reply: Option<Frame>)
      ensures reply == FirstReply(frames, frame)
    {
      for i := 0 to |frames|
        invariant FirstReply(frames, frame) == FirstReply(frames[i..], frame)
      {
        if Replies(frame, frames[i]) {
          return Some(frames[i]);
        }
      }
      return None;
    }
  }

  lemma {:induction false} FirstReplyReplies(frames: seq<Frame>, request: Frame)
    requires FirstReply(frames, request).Some?
    ensures Replies(request, FirstReply(frames, request).value)
  {
    if !Replies(request, frames[0]) {
      FirstReplyReplies(frames[1..], request);
    }
  }

  lemma NothingFed(start: seq<byte>, frame: Frame)
    ensures start + Flatten([]) == start && FirstReply([], frame).None?
  {
  }

  lemma FedNext(start: seq<byte>, fed: seq<seq<byte>>, chunk: seq<byte>)
    ensures start + Flatten(fed + [chunk]) == start + Flatten(fed) + chunk
  {
    assert (fed + [chunk])[..|fed|] == fed;
  }
}
