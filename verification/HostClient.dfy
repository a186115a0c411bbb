/** The stateful client as the Python code keeps it, over the retrying transport. */
module HostClient {
  import opened Bytes
  import opened Frames
  import opened Scanner
  import opened Device
  import opened HostProtocol
  import opened HostTransport
  import opened ClientRuns
  import opened ImagePlans

  /** The image file: a read returns at least one byte until the end, but not always all that was asked for. */
  class ImageFile {
    var rest: seq<byte>
    var calls: nat
    const grant: nat -> nat

    constructor (contents: seq<byte>, grant: nat -> nat)
      ensures rest == contents && this.grant == grant
    {
      rest, calls, this.grant := contents, 0, grant;
    }

    ghost function Source(size: nat): Source
      reads this
    {
      ImagePlans.Source(rest, size, grant, calls)
    }

    /** The next read of a transfer that still wants `size` bytes. */
    method Read(size: nat) returns (data: seq<byte>)
      requires size > 0
      modifies this
      ensures data == old(rest)[..old(Source(size)).Next()] && (data == [] <==> old(rest) == [])
      ensures Source(size - |data|) == old(Source(size)).Rest()
    {
      var length := Min(Min(Min(MAX_DATA, size), |rest|), if grant(calls) > 0 then grant(calls) else 1);
      data, rest := rest[..length], rest[length..];
      calls := calls + 1;
    }
  }

  /** Only BEGIN, DATA and END replies are held to an offset. */
  lemma OffsetIrrelevant(port: Port, e: Exchange, polls: nat -> nat, attempts: nat, offset: nat, other: nat)
    requires e.request.command in {HELLO, INFO} && Granted(port, e, polls, attempts, offset)
    ensures Granted(port, e, polls, attempts, other)
  {
    hide DecodeResponse;
  }

  class IapClient {
    const transport: SerialTransport
    var nextSequence: u16
    var nextOffset: u32

    constructor (transport: SerialTransport)
      ensures this.transport == transport && nextSequence == 0 && nextOffset == 0
    {
      this.transport, nextSequence, nextOffset := transport, 0, 0;
    }

    ghost function Line(): Port
      reads this, transport, transport.stream, transport.decoder
    {
      Port(transport.decoder.buffer, transport.stream.incoming, transport.stream.written)
    }

    /** The port takes every request whole. */
    ghost predicate FullWrites() {
      forall k :: transport.stream.accepts(k) >= MAX_FRAME
    }

    /** `_successful_request`. */
    method SuccessfulRequest(command: byte, payload: seq<byte>, polls: nat -> nat)
      returns (result: Result<Response, ClientError>, ghost e: Exchange)
      requires transport.Valid()
      modifies this, transport.stream, transport.decoder
      ensures transport.Valid() && e.request == Frame(PROTOCOL_VERSION, command, old(nextSequence), payload)
      ensures result.Ok? ==>
        && Granted(old(Line()), e, polls, transport.maxAttempts, result.value.nextOffset)
        && DecodeResponse(e.reply.value.payload) == Ok(result.value) && Line() == Moved(old(Line()), e)
        && nextSequence == Next16(old(nextSequence)) && nextOffset == result.value.nextOffset
      ensures result.Err? ==>
        && Raised(old(Line()), e, polls, transport.maxAttempts, 0, result.error) && !result.error.WrongOffset?
        && Left(old(Line()), e, result.error, Line())
        && nextSequence == old(nextSequence) && nextOffset == old(nextOffset)
      ensures FullWrites() ==> result != Err(Transport(ShortWrite))
    {
      hide DecodeResponse, Encode, ScanStream, Pending, Flatten, FirstReply;
      var sequence := nextSequence;
      var frame := Frame(PROTOCOL_VERSION, command, sequence, payload);
      var answer; ghost var fed, attempts;
      ghost var start := Line();
      answer, fed, attempts := transport.SendRequest(frame, polls);
      e := Exchange(frame, attempts, fed, FirstReply(Decoded(start.buffer, fed).frames, frame));
      assert frame.Valid() ==> |Encode(frame)| <= MAX_FRAME;
      if answer.Err? {
        return Err(Transport(answer.error)), e;
      }
      var response := answer.value;
      if response.status != OK {
        return Err(DeviceError(response)), e;
      }
      var expected := (sequence + 1) % U16_MODULUS;
      if response.expected != expected {
        return Err(WrongSequence(response)), e;
      }
      nextSequence := response.expected;
      nextOffset := response.nextOffset;
      FirstReplyReplies(Decoded(start.buffer, fed).frames, frame);
      return Ok(response), e;
    }

    /** `hello` starts over at sequence zero, whatever comes of it. */
    method Hello(polls: nat -> nat) returns (result: Result<Response, ClientError>, ghost e: Exchange)
      requires transport.Valid()
      modifies this, transport.stream, transport.decoder
      ensures transport.Valid() && e.request == Frame(PROTOCOL_VERSION, HELLO, 0, [])
      ensures result.Ok? ==>
        && Granted(old(Line()), e, polls, transport.maxAttempts, 0) && Line() == Moved(old(Line()), e)
        && nextSequence == 1
        && DecodeResponse(e.reply.value.payload) == Ok(result.value) && nextOffset == result.value.nextOffset
      ensures result.Err? ==>
        && Raised(old(Line()), e, polls, transport.maxAttempts, 0, result.error) && !result.error.WrongOffset?
        && Left(old(Line()), e, result.error, Line()) && nextSequence == 0 && nextOffset == 0
      ensures FullWrites() ==> result != Err(Transport(ShortWrite))
    {
      hide Granted, Raised, Left, Moved, Encode, DecodeResponse, Pending;
      nextSequence, nextOffset := 0, 0;
      result, e := SuccessfulRequest(HELLO, [], polls);
      if result.Ok? {
        OffsetIrrelevant(old(Line()), e, polls, transport.maxAttempts, result.value.nextOffset, 0);
      }
    }

    /** `boot` and `abort`: after an accepted one the offset is zero again. */
    method Leave(command: byte, polls: nat -> nat) returns (result: Result<Response, ClientError>, ghost e: Exchange)
      requires transport.Valid() && command in {BOOT, ABORT}
      modifies this, transport.stream, transport.decoder
      ensures transport.Valid() && e.request == Frame(PROTOCOL_VERSION, command, old(nextSequence), [])
      ensures result.Ok? ==>
        && Granted(old(Line()), e, polls, transport.maxAttempts, result.value.nextOffset)
        && DecodeResponse(e.reply.value.payload) == Ok(result.value) && Line() == Moved(old(Line()), e)
        && nextSequence == Next16(old(nextSequence)) && nextOffset == 0
      ensures result.Err? ==>
        && Raised(old(Line()), e, polls, transport.maxAttempts, 0, result.error) && !result.error.WrongOffset?
        && Left(old(Line()), e, result.error, Line())
        && nextSequence == old(nextSequence) && nextOffset == old(nextOffset)
      ensures FullWrites() ==> result != Err(Transport(ShortWrite))
    {
      hide Granted, Raised, Left, Moved, Encode, DecodeResponse, Pending;
      result, e := SuccessfulRequest(command, [], polls);
      if result.Ok? {
        nextOffset := 0;
      }
    }

    /** BEGIN, DATA or END: the request, and the check of the offset in its reply. */
    method SendExpecting(command: byte, payload: seq<byte>, offset: u32, polls: nat -> nat)
      returns (error: Option<ClientError>, ghost e: Exchange)
      requires transport.Valid() && command in {BEGIN, DATA, END}
      modifies this, transport.stream, transport.decoder
      ensures transport.Valid() && e.request == Frame(PROTOCOL_VERSION, command, old(nextSequence), payload)
      ensures error.None? ==>
        && Granted(old(Line()), e, polls, transport.maxAttempts, offset) && Line() == Moved(old(Line()), e)
        && nextSequence == Next16(old(nextSequence)) && nextOffset == offset
      ensures error.Some? ==>
        && Raised(old(Line()), e, polls, transport.maxAttempts, offset, error.value)
        && Left(old(Line()), e, error.value, Line())
        && nextSequence == (if error.value.WrongOffset? then Next16(old(nextSequence)) else old(nextSequence))
        && nextOffset == (if error.value.WrongOffset? then error.value.offset else old(nextOffset))
      ensures FullWrites() ==> error != Some(Transport(ShortWrite))
    {
      hide Encode, Pending, DecodeResponse, Decoded, FirstReply, Total;
      var response;
      response, e := SuccessfulRequest(command, payload, polls);
      if response.Err? {
        return Some(response.error), e;
      }
      if response.value.nextOffset != offset {
        return Some(WrongOffset(response.value.nextOffset)), e;
      }
      return None, e;
    }

    /** The body of the transfer loop: read, send, and check that the device moved by exactly what was sent. */
    method SendChunk(image: ImageFile, imageSize: u32, polls: nat -> nat)
      returns (error: Option<ClientError>, data: seq<byte>, ghost e: Exchange)
      requires transport.Valid() && nextOffset < imageSize
      modifies this, transport.stream, transport.decoder, image
      ensures transport.Valid()
      ensures data == old(image.rest)[..old(image.Source(imageSize - nextOffset)).Next()]
      ensures image.Source(imageSize - old(nextOffset) - |data|) == old(image.Source(imageSize - nextOffset)).Rest()
      ensures error == Some(StreamEnded) <==> old(image.rest) == []
      ensures error == Some(StreamEnded) ==>
        Line() == old(Line()) && nextSequence == old(nextSequence) && nextOffset == old(nextOffset)
      ensures error != Some(StreamEnded) ==>
        && 0 < |data| <= MAX_DATA && old(nextOffset) + |data| <= imageSize
        && e.request == Frame(PROTOCOL_VERSION, DATA, old(nextSequence), EncodeData(old(nextOffset), data).value)
      ensures error.None? ==>
        && Granted(old(Line()), e, polls, transport.maxAttempts, nextOffset) && Line() == Moved(old(Line()), e)
        && nextSequence == Next16(old(nextSequence)) && nextOffset == old(nextOffset) + |data|
      ensures error.Some? && error != Some(StreamEnded) ==>
        && Raised(old(Line()), e, polls, transport.maxAttempts, old(nextOffset) + |data|, error.value)
        && Left(old(Line()), e, error.value, Line())
        && nextSequence == (if error.value.WrongOffset? then Next16(old(nextSequence)) else old(nextSequence))
      ensures FullWrites() ==> error != Some(Transport(ShortWrite))
    {
      hide Granted, Left, Moved, Encode, Pending, Le32;
      e := Exchange(Frame(PROTOCOL_VERSION, DATA, nextSequence, []), 0, [], None);
      data := image.Read(imageSize - nextOffset);
      if data == [] {
        return Some(StreamEnded), data, e;
      }
      var payload := EncodeData(nextOffset, data).value;
      error, e := SendExpecting(DATA, payload, nextOffset + |data|, polls);
    }

    /** The transfer loop of `flash_stream`; it terminates whatever the device answers. */
    method Transfer(image: ImageFile, imageSize: u32, infos: nat, w: Patience, ghost p: Plan, ghost source: Source,
                    ghost start: Port, ghost begun: seq<Exchange>)
      returns (error: Option<ClientError>, index: nat, ghost log: seq<Exchange>, ghost e: Exchange)
      requires transport.Valid() && transport.maxAttempts == w.attempts && source == image.Source(imageSize)
      requires p.Valid() && p.infos == infos && |p.Image()| == imageSize && Cuts(source) <= p.chunks
      requires imageSize > |image.rest| ==> |Cuts(source)| < |p.chunks|
      requires nextOffset == 0 && nextSequence == (infos + 2) % U16_MODULUS
      requires |begun| == 1 && Conversation(p, infos + 1, start, begun, w) && Line() == After(start, begun)
      modifies this, transport.stream, transport.decoder, image
      ensures transport.Valid()
      ensures error.None? ==>
        && Conversation(p, infos + 1, start, log, w) && |log| == 1 + |Cuts(source)| && Line() == After(start, log)
        && imageSize <= |source.image| && nextOffset == imageSize
      ensures error.Some? ==> Carried(p, infos + 1, start, log, e, error, Line(), w, |Cuts(source)|)
      ensures index == infos + 1 + |log| && nextSequence == (index + Moves(error)) % U16_MODULUS
      ensures error == Some(StreamEnded) ==> |source.image| < imageSize
      ensures error.Some? ==> !error.value.BadRequest?
      ensures FullWrites() ==> error != Some(Transport(ShortWrite))
    {
      hide Granted, Raised, Left, Moved, Encode, Pending, Cuts, Conversation, EncodeData, Flatten, After, Carried;
      hide Plan.Valid, Plan.Image, Transferring;
      log, e, index := begun, begun[0], infos + 2;
      TransferStarts(p, source, start, log, Line(), w);
      while nextOffset < imageSize
        invariant transport.Valid() && nextOffset <= imageSize && index == infos + 1 + |log|
        invariant nextSequence == index % U16_MODULUS
        invariant Transferring(p, source, start, log, image.Source(imageSize - nextOffset), nextOffset, Line(), w)
        decreases imageSize - nextOffset
      {
        ghost var offset, now, line := nextOffset, image.Source(imageSize - nextOffset), Line();
        var data;
        error, data, e := SendChunk(image, imageSize, w.polls(index));
        if error == Some(StreamEnded) {
          ChunkMissing(p, source, start, log, e, now, offset, line, w);
          return;
        }
        if error.Some? {
          ChunkRaised(p, source, start, log, e, now, offset, line, error.value, Line(), w);
          return;
        }
        NextIndex(index);
        ChunkAccepted(p, source, start, log, e, now, offset, line, w);
        log, index := log + [e], index + 1;
      }
      TransferEnds(p, source, start, log, image.Source(0), nextOffset, Line(), w);
      error := None;
    }

    /** The END request of `flash_stream`. */
    method Finish(imageSize: u32, index: nat, w: Patience, ghost p: Plan, ghost start: Port,
                  ghost before: seq<Exchange>, ghost read: nat)
      returns (error: Option<ClientError>, ghost log: seq<Exchange>, ghost e: Exchange)
      requires transport.Valid() && transport.maxAttempts == w.attempts && nextSequence == index % U16_MODULUS
      requires p.Valid() && |p.Image()| == imageSize && index == p.Last() == p.infos + 1 + |before|
      requires Conversation(p, p.infos + 1, start, before, w) && Line() == After(start, before)
      modifies this, transport.stream, transport.decoder
      ensures transport.Valid() && Carried(p, p.infos + 1, start, log, e, error, Line(), w, read)
      ensures error.Some? ==> !error.value.StreamEnded? && !error.value.BadRequest?
      ensures nextSequence == (p.infos + 1 + |log| + Moves(error)) % U16_MODULUS
      ensures FullWrites() ==> error != Some(Transport(ShortWrite))
    {
      hide Granted, Raised, Left, Moved, Encode, Pending, Conversation, After, Carried, Flatten;
      PlanEnd(p);
      error, e := SendExpecting(END, [], imageSize, w.polls(index));
      NextIndex(index);
      log := LastRequest(p, p.infos + 1, start, before, e, error, Line(), w, read);
    }

    /** What follows an accepted BEGIN. */
    method TransferAndFinish(image: ImageFile, imageSize: u32, infos: nat, w: Patience, ghost p: Plan,
                             ghost source: Source, ghost start: Port, ghost begun: seq<Exchange>)
      returns (error: Option<ClientError>, ghost log: seq<Exchange>, ghost e: Exchange)
      requires transport.Valid() && transport.maxAttempts == w.attempts && source == image.Source(imageSize)
      requires p.Valid() && p.infos == infos && |p.Image()| == imageSize && Cuts(source) <= p.chunks
      requires if imageSize > |image.rest| then |Cuts(source)| < |p.chunks| else p.chunks == Cuts(source)
      requires nextOffset == 0 && nextSequence == (infos + 2) % U16_MODULUS
      requires |begun| == 1 && Conversation(p, infos + 1, start, begun, w) && Line() == After(start, begun)
      modifies this, transport.stream, transport.decoder, image
      ensures transport.Valid() && Carried(p, infos + 1, start, log, e, error, Line(), w, |Cuts(source)|)
      ensures error.None? ==> imageSize <= |source.image|
      ensures error == Some(StreamEnded) ==> |source.image| < imageSize
      ensures error.Some? ==> !error.value.BadRequest?
      ensures nextSequence == (infos + 1 + |log| + Moves(error)) % U16_MODULUS
      ensures FullWrites() ==> error != Some(Transport(ShortWrite))
    {
      hide Carried, Conversation, After, Pending, Cuts, Flatten, Plan.Valid, Plan.Image;
      var index;
      error, index, log, e := Transfer(image, imageSize, infos, w, p, source, start, begun);
      if error.None? {
        error, log, e := Finish(imageSize, index, w, p, start, log, |Cuts(source)|);
      }
    }

    /** `flash_stream`, whatever the device answers: the BEGIN, DATA and END requests of the plan that the image makes
        are written in order, each after the one before was accepted, until all were, or one raised, or the image
        ended early. If no write is cut short, the call returns normally exactly when the announcement is valid, the
        image is long enough and every request is answered in time by an acceptance. */
    method FlashStream(image: ImageFile, imageSize: u32, digest: seq<byte>, version: seq<byte>, infos: nat, w: Patience)
      returns (error: Option<ClientError>, ghost log: seq<Exchange>, ghost e: Exchange)
      requires transport.Valid() && transport.maxAttempts == w.attempts && nextSequence == (infos + 1) % U16_MODULUS
      modifies this, transport.stream, transport.decoder, image
      ensures transport.Valid()
      ensures var source := old(image.Source(imageSize)); var p := ClientPlan(infos, version, digest, source);
        && p.Valid() && Carried(p, infos + 1, old(Line()), log, e, error, Line(), w, |Cuts(source)|)
        && (FullWrites() ==>
          (error.None? <==>
            && EncodeBegin(imageSize, digest, version).Ok? && imageSize <= |source.image|
            && Answered(p, infos + 1, old(Line().buffer), old(Line().incoming), w)))
      ensures error.Some? && error.value.BadRequest? <==> EncodeBegin(imageSize, digest, version).Err?
      ensures error == Some(StreamEnded) ==> |old(image.rest)| < imageSize
      ensures error.None? ==> imageSize <= |old(image.rest)|
      ensures FullWrites() ==> error != Some(Transport(ShortWrite))
      ensures nextSequence == (infos + 1 + |log| + Moves(error)) % U16_MODULUS
    {
      hide Granted, Raised, Left, Moved, Encode, Pending, Cuts, EncodeBegin, Answered, Conversation, After, ClientPlan,
        Flatten, Carried;
      hide Plan.Valid, Request, OffsetAfter, Plan.Offset, Plan.Image;
      ghost var start, source := Line(), image.Source(imageSize);
      ghost var p := ClientPlan(infos, version, digest, source);
      ClientPlanValid(infos, version, digest, source);
      log, e := [], NothingYet();
      var begin := EncodeBegin(imageSize, digest, version);
      if begin.Err? {
        NotAnnounced(p, infos, start, e, BadRequest(begin.error), w, |Cuts(source)|);
        return Some(BadRequest(begin.error)), log, e;
      }
      PlanBegin(p);
      error, e := SendExpecting(BEGIN, begin.value, 0, w.polls(infos + 1));
      if error.Some? {
        NothingSaid(p, infos + 1, start, w);
        NextRaised(p, infos + 1, start, [], e, error.value, Line(), w, |Cuts(source)|);
        FlashExactly(p, infos + 1, start, [], e, error, Line(), w, |Cuts(source)|);
        return;
      }
      FirstAccepted(p, infos + 1, start, e, w);
      NextIndex(infos + 1);
      error, log, e := TransferAndFinish(image, imageSize, infos, w, p, source, start, [e]);
      FlashExactly(p, infos + 1, start, log, e, error, Line(), w, |Cuts(source)|);
    }

    /** `hello` and some `info` calls. */
    method Greet(infos: nat, w: Patience, ghost p: Plan)
      returns (error: Option<ClientError>, ghost log: seq<Exchange>, ghost e: Exchange)
      requires transport.Valid() && transport.maxAttempts == w.attempts && p.Valid() && p.infos == infos
      modifies this, transport.stream, transport.decoder
      ensures transport.Valid()
      ensures error.None? ==>
        && Conversation(p, 0, old(Line()), log, w) && |log| == infos + 1 && Line() == After(old(Line()), log)
        && nextSequence == (infos + 1) % U16_MODULUS
      ensures error.Some? ==>
        && (forall read :: Carried(p, 0, old(Line()), log, e, error, Line(), w, read)) && |log| <= infos
        && !error.value.StreamEnded? && !error.value.BadRequest? && !error.value.WrongOffset?
        && nextSequence == |log| % U16_MODULUS
      ensures FullWrites() ==> error != Some(Transport(ShortWrite))
    {
      hide Granted, Raised, Left, Moved, Encode, Pending, Conversation, After, Carried, DecodeResponse, Plan.Valid,
        Request;
      ghost var start := Line();
      var response;
      response, e := Hello(w.polls(0));
      log := [];
      NothingSaid(p, 0, start, w);
      PlanGreeting(p, 0);
      if response.Err? {
        GreetingRaised(p, start, log, e, response.error, Line(), w);
        return Some(response.error), log, e;
      }
      GreetingAccepted(p, start, log, e, w, 0);
      log := log + [e];
      for i := 0 to infos
        invariant transport.Valid() && nextSequence == (i + 1) % U16_MODULUS && |log| == i + 1
        invariant Conversation(p, 0, start, log, w) && Line() == After(start, log)
      {
        PlanGreeting(p, i + 1);
        response, e := SuccessfulRequest(INFO, [], w.polls(i + 1));
        if response.Err? {
          GreetingRaised(p, start, log, e, response.error, Line(), w);
          return Some(response.error), log, e;
        }
        NextIndex(i + 1);
        GreetingAccepted(p, start, log, e, w, response.value.nextOffset);
        log := log + [e];
      }
      error := None;
    }

    /** `hello`, some `info` calls and `flash_stream`, as the command line tool makes them: the same, for the whole
        plan from its first HELLO on. */
    method Update(image: ImageFile, imageSize: u32, digest: seq<byte>, version: seq<byte>, infos: nat, w: Patience)
      returns (error: Option<ClientError>, ghost log: seq<Exchange>, ghost e: Exchange)
      requires transport.Valid() && transport.maxAttempts == w.attempts
      modifies this, transport.stream, transport.decoder, image
      ensures transport.Valid()
      ensures var source := old(image.Source(imageSize)); var p := ClientPlan(infos, version, digest, source);
        && p.Valid() && Carried(p, 0, old(Line()), log, e, error, Line(), w, |Cuts(source)|)
        && (FullWrites() ==>
          (error.None? <==>
            && EncodeBegin(imageSize, digest, version).Ok? && imageSize <= |source.image|
            && Answered(p, 0, old(Line().buffer), old(Line().incoming), w)))
      ensures error.Some? && error.value.BadRequest? ==> EncodeBegin(imageSize, digest, version).Err?
      ensures error == Some(StreamEnded) ==> |old(image.rest)| < imageSize
      ensures nextSequence == (|log| + Moves(error)) % U16_MODULUS
    {
      hide Raised, Left, Moved, Encode, Pending, Cuts, EncodeBegin, Answered, Conversation, After, ClientPlan,
        Flatten, Carried;
      hide Plan.Valid, Request, OffsetAfter, Plan.Offset, Plan.Image;
      ghost var start, source := Line(), image.Source(imageSize);
      ghost var p := ClientPlan(infos, version, digest, source);
      ClientPlanValid(infos, version, digest, source);
      error, log, e := Greet(infos, w, p);
      if error.None? {
        ghost var greeting, line := log, Line();
        error, log, e := FlashStream(image, imageSize, digest, version, infos, w);
        log := CarriedOn(p, start, greeting, log, e, error, Line(), w, |Cuts(source)|);
      }
      if error.None? || !error.value.BadRequest? {
        FlashExactly(p, 0, start, log, e, error, Line(), w, |Cuts(source)|);
      }
    }
  }

  /** A wrong offset is noticed only after the sequence has moved on. */
  function Moves(error: Option<ClientError>): nat {
    if error.Some? && error.value.WrongOffset? then 1 else 0
  }

  lemma NothingRead(p: Plan)
    ensures p.Offset(0) == 0
  {
    assert p.chunks[..0] == [];
  }

  lemma PlanData(p: Plan, j: nat)
    requires p.Valid() && j < |p.chunks|
    ensures p.Offset(j) + |p.chunks[j]| == p.Offset(j + 1) <= |p.Image()| && 0 < |p.chunks[j]| <= MAX_DATA
    ensures Request(p, p.infos + 2 + j) == Frame(PROTOCOL_VERSION, DATA, (p.infos + 2 + j) % U16_MODULUS,
      EncodeData(p.Offset(j), p.chunks[j]).value)
    ensures OffsetAfter(p, p.infos + 2 + j) == p.Offset(j + 1)
  {
    hide Flatten, EncodeBegin;
    OffsetBound(p, j);
  }

  lemma PlanBegin(p: Plan)
    requires p.Valid()
    ensures EncodeBegin(|p.Image()|, p.digest, p.version).Ok?
    ensures Request(p, p.infos + 1) == Frame(PROTOCOL_VERSION, BEGIN, (p.infos + 1) % U16_MODULUS,
      EncodeBegin(|p.Image()|, p.digest, p.version).value)
    ensures OffsetAfter(p, p.infos + 1) == 0
  {
    hide Flatten, EncodeData;
  }

  lemma PlanEnd(p: Plan)
    requires p.Valid()
    ensures Request(p, p.Last()) == Frame(PROTOCOL_VERSION, END, p.Last() % U16_MODULUS, [])
    ensures OffsetAfter(p, p.Last()) == |p.Image()|
  {
  }

  lemma PlanGreeting(p: Plan, i: nat)
    requires p.Valid() && i <= p.infos
    ensures Request(p, i) == Frame(PROTOCOL_VERSION, if i == 0 then HELLO else INFO, i % U16_MODULUS, [])
    ensures OffsetAfter(p, i) == 0
  {
  }

  ghost function NothingYet(): Exchange {
    Exchange(Frame(0, 0, 0, []), 0, [], None)
  }

  lemma NotAnnounced(p: Plan, infos: nat, start: Port, e: Exchange, error: ClientError, w: Patience, read: nat)
    requires p.Valid() && p.infos == infos && error.BadRequest?
    ensures Carried(p, infos + 1, start, [], e, Some(error), start, w, read)
  {
  }

  lemma NothingSaid(p: Plan, from: nat, start: Port, w: Patience)
    requires p.Valid() && from <= p.Last()
    ensures Conversation(p, from, start, [], w) && After(start, []) == start
  {
  }

  /** The next request of a call raises. */
  lemma NextRaised(p: Plan, from: nat, start: Port, log: seq<Exchange>, e: Exchange, error: ClientError, next: Port,
                   w: Patience, read: nat)
    requires p.Valid() && Conversation(p, from, start, log, w) && from + |log| <= p.Last()
    requires e.request == Request(p, from + |log|) && Left(After(start, log), e, error, next)
    requires var i := from + |log|; Raised(After(start, log), e, w.polls(i), w.attempts, OffsetAfter(p, i), error)
    ensures Carried(p, from, start, log, e, Some(error), next, w, read)
    ensures !error.StreamEnded? && !error.BadRequest?
  {
    hide Request, OffsetAfter, Left, Conversation, After, Plan.Valid, Took, Settled, Total;
  }

  /** HELLO and INFO. */
  lemma GreetingRaised(p: Plan, start: Port, log: seq<Exchange>, e: Exchange, error: ClientError, next: Port,
                       w: Patience)
    requires p.Valid() && Conversation(p, 0, start, log, w) && |log| <= p.infos && e.request == Request(p, |log|)
    requires Raised(After(start, log), e, w.polls(|log|), w.attempts, 0, error)
    requires Left(After(start, log), e, error, next)
    ensures forall read :: Carried(p, 0, start, log, e, Some(error), next, w, read)
    ensures !error.StreamEnded? && !error.BadRequest?
  {
    hide Raised, Left, Conversation, After, Carried, Plan.Valid, Request;
    PlanGreeting(p, |log|);
    forall read ensures Carried(p, 0, start, log, e, Some(error), next, w, read) {
      NextRaised(p, 0, start, log, e, error, next, w, read);
    }
    NextRaised(p, 0, start, log, e, error, next, w, 0);
  }

  lemma GreetingAccepted(p: Plan, start: Port, log: seq<Exchange>, e: Exchange, w: Patience, offset: nat)
    requires p.Valid() && Conversation(p, 0, start, log, w) && |log| <= p.infos && e.request == Request(p, |log|)
    requires Granted(After(start, log), e, w.polls(|log|), w.attempts, offset)
    ensures Conversation(p, 0, start, log + [e], w) && After(start, log + [e]) == Moved(After(start, log), e)
  {
    hide Granted, Moved, Conversation, After, Plan.Valid, Request;
    PlanGreeting(p, |log|);
    OffsetIrrelevant(After(start, log), e, w.polls(|log|), w.attempts, offset, 0);
    ConversationNext(p, 0, start, log, e, w);
  }

  /** A call behind an accepted greeting. */
  lemma CarriedOn(p: Plan, start: Port, greeting: seq<Exchange>, log: seq<Exchange>, e: Exchange,
                  error: Option<ClientError>, next: Port, w: Patience, read: nat) returns (all: seq<Exchange>)
    requires p.Valid() && Conversation(p, 0, start, greeting, w) && |greeting| == p.infos + 1
    requires Carried(p, p.infos + 1, After(start, greeting), log, e, error, next, w, read)
    ensures Carried(p, 0, start, all, e, error, next, w, read) && |all| == p.infos + 1 + |log|
  {
    hide Raised, Left, Conversation, After, Plan.Valid, Request, OffsetAfter;
    all := greeting + log;
    AfterAppend(start, greeting, log);
    ConversationAppend(p, 0, start, greeting, log, w);
  }

  // ----- The transfer -----

  /** BEGIN and one DATA per chunk read so far were accepted, and the rest of the image is still to be read. */
  ghost predicate Transferring(p: Plan, source: Source, start: Port, log: seq<Exchange>, now: Source, offset: nat,
                               line: Port, w: Patience)
    requires p.Valid()
  {
    && |log| >= 1 && Reading(p, source, |log| - 1, now) && offset == p.Offset(|log| - 1)
    && Conversation(p, p.infos + 1, start, log, w) && line == After(start, log)
  }

  lemma TransferStarts(p: Plan, source: Source, start: Port, log: seq<Exchange>, line: Port, w: Patience)
    requires p.Valid() && |log| == 1 && Cuts(source) <= p.chunks
    requires Conversation(p, p.infos + 1, start, log, w) && line == After(start, log)
    ensures Transferring(p, source, start, log, source, 0, line, w)
  {
    hide Conversation, After, Plan.Valid;
    ReadingStarts(p, source);
    NothingRead(p);
  }

  lemma ChunkAccepted(p: Plan, source: Source, start: Port, log: seq<Exchange>, e: Exchange, now: Source, offset: nat,
                      line: Port, w: Patience)
    requires p.Valid() && Transferring(p, source, start, log, now, offset, line, w) && now.size > 0 && now.image != []
    requires offset <= U32_MAX && 0 < now.Next() <= MAX_DATA
    requires e.request == Frame(PROTOCOL_VERSION, DATA, (p.infos + 1 + |log|) % U16_MODULUS,
      EncodeData(offset, now.image[..now.Next()]).value)
    requires Granted(line, e, w.polls(p.infos + 1 + |log|), w.attempts, offset + now.Next())
    ensures Transferring(p, source, start, log + [e], now.Rest(), offset + now.Next(), Moved(line, e), w)
  {
    hide Conversation, After, Plan.Valid, Granted, Moved, EncodeData, Reading, Request, OffsetAfter, Cuts;
    ReadingNext(p, source, |log| - 1, now);
    PlanData(p, |log| - 1);
    ConversationNext(p, p.infos + 1, start, log, e, w);
  }

  lemma ChunkRaised(p: Plan, source: Source, start: Port, log: seq<Exchange>, e: Exchange, now: Source, offset: nat,
                    line: Port, error: ClientError, next: Port, w: Patience)
    requires p.Valid() && Transferring(p, source, start, log, now, offset, line, w) && now.size > 0 && now.image != []
    requires offset <= U32_MAX && 0 < now.Next() <= MAX_DATA
    requires e.request == Frame(PROTOCOL_VERSION, DATA, (p.infos + 1 + |log|) % U16_MODULUS,
      EncodeData(offset, now.image[..now.Next()]).value)
    requires Raised(line, e, w.polls(p.infos + 1 + |log|), w.attempts, offset + now.Next(), error)
    requires Left(line, e, error, next)
    ensures Carried(p, p.infos + 1, start, log, e, Some(error), next, w, |Cuts(source)|)
    ensures !error.StreamEnded? && !error.BadRequest?
  {
    hide Conversation, After, Plan.Valid, Raised, Left, EncodeData, Reading, Request, OffsetAfter, Cuts, Carried;
    ReadingNext(p, source, |log| - 1, now);
    PlanData(p, |log| - 1);
    NextRaised(p, p.infos + 1, start, log, e, error, next, w, |Cuts(source)|);
  }

  lemma ChunkMissing(p: Plan, source: Source, start: Port, log: seq<Exchange>, e: Exchange, now: Source, offset: nat,
                     line: Port, w: Patience)
    requires p.Valid() && Transferring(p, source, start, log, now, offset, line, w) && now.size > 0 && now.image == []
    requires |source.image| < source.size ==> |Cuts(source)| < |p.chunks|
    ensures Carried(p, p.infos + 1, start, log, e, Some(StreamEnded), line, w, |Cuts(source)|)
    ensures |source.image| < source.size
  {
    hide Conversation, After, Plan.Valid, Reading, Cuts, Carried;
    ReadingEnds(p, source, |log| - 1, now);
    RanOut(p, start, log, e, w, |log| - 1);
  }

  lemma TransferEnds(p: Plan, source: Source, start: Port, log: seq<Exchange>, now: Source, offset: nat, line: Port,
                     w: Patience)
    requires p.Valid() && Transferring(p, source, start, log, now, offset, line, w) && now.size == 0
    ensures |log| == 1 + |Cuts(source)| && source.size <= |source.image|
    ensures Conversation(p, p.infos + 1, start, log, w) && line == After(start, log)
  {
    hide Conversation, After, Plan.Valid, Reading, Cuts;
    ReadingEnds(p, source, |log| - 1, now);
  }

  /** The image ends before the next chunk. */
  lemma RanOut(p: Plan, start: Port, log: seq<Exchange>, e: Exchange, w: Patience, read: nat)
    requires p.Valid() && Conversation(p, p.infos + 1, start, log, w) && |log| == 1 + read && read < |p.chunks|
    ensures Carried(p, p.infos + 1, start, log, e, Some(StreamEnded), After(start, log), w, read)
  {
    hide Conversation, After, Plan.Valid;
  }

  lemma FirstAccepted(p: Plan, from: nat, start: Port, e: Exchange, w: Patience)
    requires p.Valid() && from <= p.Last() && e.request == Request(p, from)
    requires Granted(start, e, w.polls(from), w.attempts, OffsetAfter(p, from))
    ensures Conversation(p, from, start, [e], w) && After(start, [e]) == Moved(start, e)
  {
    hide Request, OffsetAfter, Granted, Moved, Plan.Valid;
    NothingSaid(p, from, start, w);
    ConversationNext(p, from, start, [], e, w);
    assert [] + [e] == [e];
  }

  /** What the last request of a call makes of its log. */
  lemma LastRequest(p: Plan, from: nat, start: Port, log: seq<Exchange>, e: Exchange, error: Option<ClientError>,
                    next: Port, w: Patience, read: nat) returns (all: seq<Exchange>)
    requires p.Valid() && Conversation(p, from, start, log, w) && from + |log| == p.Last()
    requires e.request == Request(p, p.Last())
    requires error.None? ==>
      && Granted(After(start, log), e, w.polls(p.Last()), w.attempts, OffsetAfter(p, p.Last()))
      && next == Moved(After(start, log), e)
    requires error.Some? ==>
      && Raised(After(start, log), e, w.polls(p.Last()), w.attempts, OffsetAfter(p, p.Last()), error.value)
      && Left(After(start, log), e, error.value, next)
    ensures Carried(p, from, start, all, e, error, next, w, read)
    ensures |all| == |log| + (if error.None? then 1 else 0)
    ensures error.Some? ==> !error.value.StreamEnded? && !error.value.BadRequest?
  {
    hide Request, OffsetAfter, Granted, Moved, Left, Conversation, After, Plan.Valid, Raised;
    all := log;
    if error.None? {
      ConversationNext(p, from, start, log, e, w);
      all := log + [e];
    } else {
      NextRaised(p, from, start, log, e, error.value, next, w, read);
    }
  }

  lemma FlashExactly(p: Plan, from: nat, start: Port, log: seq<Exchange>, e: Exchange, error: Option<ClientError>,
                     next: Port, w: Patience, read: nat)
    requires p.Valid() && from <= p.Last() && Carried(p, from, start, log, e, error, next, w, read)
    requires error.Some? ==> !error.value.BadRequest?
    ensures error != Some(Transport(ShortWrite)) && error != Some(StreamEnded) ==>
      (error.None? <==> Answered(p, from, start.buffer, start.incoming, w))
  {
    hide Carried, Answered;
    if error != Some(Transport(ShortWrite)) && error != Some(StreamEnded) {
      SucceedsExactly(p, from, start, log, e, error, next, w, read);
    }
  }
}
