/** The requests the host makes for one update, and how it judges the replies. */
module HostProtocol {
  import opened Bytes
  import opened Frames
  import opened Device
  import opened ReplyCache

  const MAX_DATA: nat := 1020

  datatype Response = Response(status: u16, expected: u16, nextOffset: u32, detail: seq<byte>)

  datatype PayloadError = ResponseTruncated | DetailTooLong | DetailLengthMismatch
    | ZeroSize | BadDigest | VersionTooLong | NoData | DataTooLong

  /** `decode_response`, up to the text decoding of the detail. */
  function DecodeResponse(payload: seq<byte>): Result<Response, PayloadError> {
    if |payload| < RESPONSE_PREFIX then Err(ResponseTruncated)
    else if payload[8] > MAX_DETAIL then Err(DetailTooLong)
    else if |payload| != RESPONSE_PREFIX + payload[8] then Err(DetailLengthMismatch)
    else Ok(Response(ReadLe16(payload, 0), ReadLe16(payload, 2), ReadLe32(payload, 4), payload[RESPONSE_PREFIX..]))
  }

  /** `encode_begin_request`. */
  function EncodeBegin(imageSize: u32, digest: seq<byte>, version: seq<byte>): Result<seq<byte>, PayloadError> {
    if imageSize == 0 then Err(ZeroSize)
    else if |digest| != DIGEST_SIZE then Err(BadDigest)
    else if |version| > MAX_VERSION then Err(VersionTooLong)
    else Ok(Le32(imageSize) + digest + [|version|] + version)
  }

  /** `encode_data_request`. */
  function EncodeData(offset: u32, data: seq<byte>): Result<seq<byte>, PayloadError> {
    if data == [] then Err(NoData)
    else if |data| > MAX_DATA then Err(DataTooLong)
    else Ok(Le32(offset) + data)
  }

  /** Which requests can be announced at all, and which replies can be read; each rejection by its cause. */
  lemma PayloadErrorsExactly(size: u32, digest: seq<byte>, version: seq<byte>, data: seq<byte>, reply: seq<byte>)
    ensures var begin := EncodeBegin(size, digest, version);
      && (begin == Err(ZeroSize) <==> size == 0)
      && (begin == Err(BadDigest) <==> size != 0 && |digest| != 32)
      && (begin == Err(VersionTooLong) <==> size != 0 && |digest| == 32 && |version| > 32)
      && (begin.Ok? <==> size != 0 && |digest| == 32 && |version| <= 32)
    ensures var sent := EncodeData(size, data);
      && (sent == Err(NoData) <==> data == []) && (sent == Err(DataTooLong) <==> |data| > 1020)
      && (sent.Ok? <==> 0 < |data| <= 1020)
    ensures var read := DecodeResponse(reply);
      && (read == Err(ResponseTruncated) <==> |reply| < 9)
      && (read == Err(DetailTooLong) <==> |reply| >= 9 && reply[8] > 96)
      && (read == Err(DetailLengthMismatch) <==> |reply| >= 9 && reply[8] <= 96 && |reply| != 9 + reply[8])
      && (read.Ok? <==> |reply| >= 9 && reply[8] <= 96 && |reply| == 9 + reply[8])
  {
  }

  /** The device reads back exactly the fields the host wrote. */
  lemma BeginFields(imageSize: u32, digest: seq<byte>, version: seq<byte>)
    requires EncodeBegin(imageSize, digest, version).Ok?
    ensures var s := EncodeBegin(imageSize, digest, version).value;
      && |s| == BEGIN_PREFIX + |version| && ReadLe32(s, 0) == imageSize && s[4..36] == digest
      && s[36] == |version| && s[37..] == version
  {
    var s := EncodeBegin(imageSize, digest, version).value;
    assert s[0..4] == Le32(imageSize);
    Le32Inverse(s, 0, imageSize);
  }

  lemma DataFields(offset: u32, data: seq<byte>)
    requires EncodeData(offset, data).Ok?
    ensures var s := EncodeData(offset, data).value;
      && OFFSET_SIZE < |s| <= MAX_PAYLOAD && ReadLe32(s, 0) == offset && s[OFFSET_SIZE..] == data
  {
    var s := EncodeData(offset, data).value;
    assert s[0..4] == Le32(offset);
    Le32Inverse(s, 0, offset);
  }

  /** The host reads back exactly the fields the device wrote. */
  lemma ResponseFields(status: u16, expected: u16, nextOffset: u32, detail: seq<byte>)
    requires |detail| <= MAX_DETAIL
    ensures DecodeResponse(ReplyPayload(status, expected, nextOffset, detail))
      == Ok(Response(status, expected, nextOffset, detail))
  {
    ReplyFields(status, expected, nextOffset, detail);
  }

  // ----- The plan of one update -----

  /** HELLO, some INFO requests, then one call of `flash_stream` whose stream is read in the given chunks. */
  datatype Plan = Plan(infos: nat, version: seq<byte>, digest: seq<byte>, chunks: seq<seq<byte>>)
  {
    function Image(): seq<byte> {
      Flatten(chunks)
    }

    function Offset(j: nat): nat
      requires j <= |chunks|
    {
      |Flatten(chunks[..j])|
    }

    predicate Valid() {
      && |version| <= MAX_VERSION && |digest| == DIGEST_SIZE
      && 0 < |Image()| <= U32_MAX
      && forall c :: c in chunks ==> 0 < |c| <= MAX_DATA
    }

    /** The index of END. */
    function Last(): nat {
      infos + 2 + |chunks|
    }
  }

  lemma OffsetBound(p: Plan, j: nat)
    requires j <= |p.chunks|
    ensures p.Offset(j) <= |p.Image()|
    ensures j == |p.chunks| ==> p.Offset(j) == |p.Image()|
    ensures j < |p.chunks| ==> p.Offset(j + 1) == p.Offset(j) + |p.chunks[j]| <= |p.Image()|
    ensures j < |p.chunks| ==> p.Image()[p.Offset(j)..p.Offset(j + 1)] == p.chunks[j]
  {
    FlattenPrefix(p.chunks, j);
    if j == |p.chunks| {
      assert p.chunks[..j] == p.chunks;
    } else {
      FlattenNext(p.chunks, j);
      FlattenPrefix(p.chunks, j + 1);
      var all, a, b := p.Image(), p.Offset(j), p.Offset(j + 1);
      assert all[a..b] == all[..b][a..];
    }
  }

  function CommandAt(p: Plan, i: nat): byte
    requires i <= p.Last()
  {
    if i == 0 then HELLO
    else if i <= p.infos then INFO
    else if i == p.infos + 1 then BEGIN
    else if i < p.Last() then DATA
    else END
  }

  function PayloadAt(p: Plan, i: nat): (s: seq<byte>)
    requires p.Valid() && i <= p.Last()
    ensures |s| <= MAX_PAYLOAD
  {
    if CommandAt(p, i) == BEGIN then EncodeBegin(|p.Image()|, p.digest, p.version).value
    else if CommandAt(p, i) == DATA then
      var j := i - p.infos - 2;
      OffsetBound(p, j);
      EncodeData(p.Offset(j), p.chunks[j]).value
    else []
  }

  /** The request with index `i`; sequence numbers wrap at 16 bits. */
  function Request(p: Plan, i: nat): (f: Frame)
    requires p.Valid() && i <= p.Last()
    ensures f.Valid()
  {
    Frame(PROTOCOL_VERSION, CommandAt(p, i), i % U16_MODULUS, PayloadAt(p, i))
  }

  // ----- Sequence numbers one apart differ -----

  lemma NextIndex(k: nat)
    ensures Next16(k % U16_MODULUS) == (k + 1) % U16_MODULUS != k % U16_MODULUS
  {
  }

  lemma RequestsDiffer(p: Plan, k: nat)
    requires p.Valid() && k < p.Last()
    ensures Request(p, k).sequence != Request(p, k + 1).sequence
    ensures Encode(Request(p, k)) != Encode(Request(p, k + 1))
  {
    NextIndex(k);
    CodecInverse(Encode(Request(p, k)), Request(p, k));
    CodecInverse(Encode(Request(p, k)), Request(p, k + 1));
  }

  /** The offset both sides are at after request `i`. */
  function OffsetAfter(p: Plan, i: nat): nat
    requires i <= p.Last()
  {
    if i <= p.infos + 1 then 0
    else if i < p.Last() then p.Offset(i - p.infos - 1)
    else |p.Image()|
  }

  // ----- Judging a reply -----

  datatype Verdict = Ignored | Accepted | Rejected

  /** `_successful_request` and the offset checks of `flash_stream`. */
  predicate ResponseAccepted(command: byte, sequence: u16, offset: nat, r: Response) {
    && r.status == OK
    && r.expected == Next16(sequence)
    && (command == BEGIN || command == DATA || command == END ==> r.nextOffset == offset)
  }

  /** The frame answers the request; `request` skips every other one. */
  predicate Replies(request: Frame, r: Frame) {
    r.version == PROTOCOL_VERSION && r.command == ResponseCommand(request.command) && r.sequence == request.sequence
  }

  /** What the host does with one decoded frame while it waits for the reply to a request. */
  function JudgeFrame(request: Frame, offset: nat, r: Frame): Verdict {
    if !Replies(request, r) then Ignored
    else match DecodeResponse(r.payload)
      case Err(_) => Rejected
      case Ok(response) =>
        if ResponseAccepted(request.command, request.sequence, offset, response) then Accepted else Rejected
  }

  function Judge(p: Plan, i: nat, bytes: seq<byte>): Verdict
    requires p.Valid() && i <= p.Last()
  {
    match Decode(bytes)
    case Err(_) => Ignored
    case Ok(r) => JudgeFrame(Request(p, i), OffsetAfter(p, i), r)
  }

  /** A well-formed reply to request `i` is judged by its status, its sequence and its offset. */
  lemma AnswerJudged(p: Plan, i: nat, status: u16, expected: u16, nextOffset: u32, detail: seq<byte>)
    requires p.Valid() && i <= p.Last() && |detail| <= MAX_DETAIL
    ensures var f := Request(p, i);
      var bytes := Encode(Reply(f.command, f.sequence, status, expected, nextOffset, detail));
      && Decode(bytes).Ok? && Decode(bytes).value.sequence == f.sequence
      && (Judge(p, i, bytes) == Accepted <==>
        ResponseAccepted(f.command, f.sequence, OffsetAfter(p, i), Response(status, expected, nextOffset, detail)))
  {
    var f := Request(p, i);
    ReplyDecodes(f.command, f.sequence, status, expected, nextOffset, detail);
    ResponseFields(status, expected, nextOffset, detail);
  }

  // ----- The host as an automaton -----

  /** The host waits for the reply to one request of its plan, or its call has returned, or it raised while
      waiting for that reply. */
  datatype Host = Waiting(step: nat) | Done | Failed(step: nat)

  function OnVerdict(p: Plan, h: nat, verdict: Verdict): (host: Host)
    requires h <= p.Last()
    ensures host.Waiting? ==> host.step <= p.Last()
  {
    match verdict
    case Ignored => Waiting(h)
    case Rejected => Failed(h)
    case Accepted => if h == p.Last() then Done else Waiting(h + 1)
  }

  function Judged(p: Plan, h: nat, m: seq<byte>): Host
    requires p.Valid() && h <= p.Last()
  {
    OnVerdict(p, h, Judge(p, h, m))
  }

  /** The host after some frames; it hears nothing more once its call has ended. */
  function HostAfter(p: Plan, host: Host, frames: seq<Frame>): Host
    requires p.Valid() && (host.Waiting? ==> host.step <= p.Last())
    decreases |frames|
  {
    if frames == [] || !host.Waiting? then host
    else
      var h := host.step;
      HostAfter(p, OnVerdict(p, h, JudgeFrame(Request(p, h), OffsetAfter(p, h), frames[0])), frames[1..])
  }
}
