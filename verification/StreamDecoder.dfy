/** The chunked Python decoder, with its growing buffer, and its agreement with the C parser. */
module StreamDecoder {
  import opened Bytes
  import opened Frames
  import opened FrameBuffers
  import opened Scanner
  import opened Parser

  /** `bytearray.find(SOF)`: the first position of the two start bytes, or -1. */
  method FindSof(s: seq<byte>) returns (index: int)
    ensures -1 <= index < |s|
    ensures index >= 0 ==> StartsFrame(s[index..]) && ScanStream(s) == ScanStream(s[index..])
    ensures index < 0 ==> ScanStream(s) == Scan([], if |s| > 0 && s[|s| - 1] == SOF_FIRST then [SOF_FIRST] else [])
  {
    index := 0;
    assert s[0..] == s;
    while index + 1 < |s|
      invariant 0 <= index <= |s| && (|s| > 0 ==> index < |s|)
      invariant ScanStream(s) == ScanStream(s[index..])
    {
      if s[index] == SOF_FIRST && s[index + 1] == SOF_SECOND {
        return;
      }
      assert s[index..][1..] == s[index + 1..];
      index := index + 1;
    }
    if s != [] {
      assert s[index..] == [s[|s| - 1]];
    }
    index := -1;
  }

  lemma PrependMore(frames: seq<Frame>, more: seq<Frame>, tail: Scan)
    ensures Prepend(frames, Prepend(more, tail)) == Prepend(frames + more, tail)
  {
    assert frames + (more + tail.frames) == frames + more + tail.frames;
  }

  class StreamDecoder {
    var buffer: seq<byte>

    constructor ()
      ensures buffer == []
    {
      buffer := [];
    }

    /** `StreamDecoder.feed`: a chunk of any length advances the decoder as the reference scan does. */
    method Feed(data: seq<byte>) returns (frames: seq<Frame>)
      modifies this
      ensures Scan(frames, buffer) == ScanStream(old(buffer) + data)
      ensures Pending(buffer) && |buffer| < MAX_FRAME
    {
      buffer := buffer + data;
      ghost var all := buffer;
      frames := [];
      RestIsPending(all);
      while true
        invariant ScanStream(all) == Prepend(frames, ScanStream(buffer))
        decreases |buffer|
      {
        var sofIndex := FindSof(buffer);
        if sofIndex < 0 {
          var keep := if |buffer| > 0 && buffer[|buffer| - 1] == SOF_FIRST then 1 else 0;
          buffer := buffer[|buffer| - keep..];
          break;
        }
        buffer := buffer[sofIndex..];
        var waiting, more := TakeCandidate();
        PrependMore(frames, more, if waiting then Scan([], buffer) else ScanStream(buffer));
        frames := frames + more;
        if waiting {
          break;
        }
      }
    }

    /** The candidate at the front of the buffer is waited for, dropped, or taken out. */
    method TakeCandidate() returns (waiting: bool, frames: seq<Frame>)
      requires StartsFrame(buffer)
      modifies this
      ensures ScanStream(old(buffer)) == Prepend(frames, if waiting then Scan([], buffer) else ScanStream(buffer))
      ensures waiting ==> frames == []
      ensures !waiting ==> |buffer| < |old(buffer)|
    {
      if |buffer| < HEADER_SIZE {
        return true, [];
      }
      if !HeaderOk(buffer) {
        buffer := buffer[1..];
        return false, [];
      }
      var frameLength := MIN_FRAME + PayloadLength(buffer);
      if |buffer| < frameLength {
        return true, [];
      }
      var rawFrame := buffer[..frameLength];
      buffer := buffer[frameLength..];
      match Decode(rawFrame) {
        case Ok(f) => return false, [f];
        case Err(_) => return false, [];
      }
    }

    /** Reading a stream in arbitrary pieces, as the transport does. */
    method FeedAll(chunks: seq<seq<byte>>) returns (frames: seq<Frame>)
      requires Pending(buffer)
      modifies this
      ensures Scan(frames, buffer) == ScanStream(old(buffer) + Flatten(chunks))
      ensures Pending(buffer)
    {
      ghost var start := buffer;
      frames := [];
      PendingIsFixed(start);
      assert start + Flatten(chunks[..0]) == start;
      for index := 0 to |chunks|
        invariant Scan(frames, buffer) == ScanStream(start + Flatten(chunks[..index]))
        invariant Pending(buffer)
      {
        var more := Feed(chunks[index]);
        frames := frames + more;
        ScanAppend(start + Flatten(chunks[..index]), chunks[index]);
        assert chunks[..index + 1][..index] == chunks[..index];
        assert start + Flatten(chunks[..index + 1]) == start + Flatten(chunks[..index]) + chunks[index];
      }
      assert chunks[..|chunks|] == chunks;
    }
  }

  /** For every stream and every way of cutting it, both decoders emit the same frames and hold the same bytes. */
  method DecodersAgree(chunks: seq<seq<byte>>) returns (device: Scan, host: Scan)
    ensures device == host == ScanStream(Flatten(chunks))
  {
    var parser := new Parser();
    var frame := new FrameBuffer();
    var deviceFrames := parser.PushAll(Flatten(chunks), frame);
    device := Scan(deviceFrames, parser.buffer[..parser.length]);
    var decoder := new StreamDecoder();
    var hostFrames := decoder.FeedAll(chunks);
    host := Scan(hostFrames, decoder.buffer);
    assert [] + Flatten(chunks) == Flatten(chunks);
  }
}
