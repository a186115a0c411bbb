/** The reference meaning of a byte stream: which frames it carries and which suffix stays pending. */
module Scanner {
  import opened Bytes
  import opened Crc
  import opened Frames

  datatype Scan = Scan(frames: seq<Frame>, rest: seq<byte>)

  /** Drop one byte at a time until a candidate is pending or complete. */
  function ScanStream(s: seq<byte>): Scan
    decreases |s|
  {
    if s == [] then Scan([], [])
    else if |s| == 1 then Scan([], if s[0] == SOF_FIRST then s else [])
    else if !StartsFrame(s) then ScanStream(s[1..])
    else if |s| < HEADER_SIZE then Scan([], s)
    else if !HeaderOk(s) then ScanStream(s[1..])
    else
      var n := MIN_FRAME + PayloadLength(s);
      if |s| < n then Scan([], s)
      else Emit(Decode(s[..n]), ScanStream(s[n..]))
  }

  /** A complete candidate comes out if it decodes, and is skipped whole if it does not. */
  function Emit(candidate: Result<Frame, DecodeError>, tail: Scan): Scan {
    match candidate
    case Ok(f) => Scan([f] + tail.frames, tail.rest)
    case Err(_) => tail
  }

  function Prepend(frames: seq<Frame>, scan: Scan): Scan {
    Scan(frames + scan.frames, scan.rest)
  }

  /** What a receiver can hold between two bytes. */
  predicate Pending(s: seq<byte>) {
    && (|s| >= 1 ==> s[0] == SOF_FIRST)
    && (|s| >= 2 ==> s[1] == SOF_SECOND)
    && (|s| >= HEADER_SIZE ==> HeaderOk(s) && |s| < MIN_FRAME + PayloadLength(s))
  }

  /** The pending buffers are exactly the streams that scan to themselves. */
  lemma PendingIsFixed(s: seq<byte>)
    ensures Pending(s) <==> ScanStream(s) == Scan([], s)
  {
    if !Pending(s) {
      RestNoLonger(s);
      if |s| >= 2 && StartsFrame(s) && |s| >= HEADER_SIZE && HeaderOk(s) {
        RestNoLonger(s[MIN_FRAME + PayloadLength(s)..]);
      } else if |s| >= 2 {
        RestNoLonger(s[1..]);
      }
    }
  }

  lemma {:induction false} RestNoLonger(s: seq<byte>)
    ensures |ScanStream(s).rest| <= |s|
    decreases |s|
  {
    if |s| < 2 {
    } else if !StartsFrame(s) || (|s| >= HEADER_SIZE && !HeaderOk(s)) {
      RestNoLonger(s[1..]);
    } else if |s| >= HEADER_SIZE && |s| >= MIN_FRAME + PayloadLength(s) {
      RestNoLonger(s[MIN_FRAME + PayloadLength(s)..]);
    }
  }

  /** The pending suffix is always pending, shorter than a maximal frame, and re-scans to itself. */
  lemma {:induction false} RestIsPending(s: seq<byte>)
    ensures Pending(ScanStream(s).rest) && |ScanStream(s).rest| < MAX_FRAME
    decreases |s|
  {
    if |s| < 2 {
    } else if !StartsFrame(s) || (|s| >= HEADER_SIZE && !HeaderOk(s)) {
      RestIsPending(s[1..]);
    } else if |s| >= HEADER_SIZE && |s| >= MIN_FRAME + PayloadLength(s) {
      RestIsPending(s[MIN_FRAME + PayloadLength(s)..]);
    }
  }

  /** Scanning is incremental: only the pending suffix has to be kept. */
  lemma {:induction false} ScanAppend(s: seq<byte>, t: seq<byte>)
    ensures ScanStream(s + t) == Prepend(ScanStream(s).frames, ScanStream(ScanStream(s).rest + t))
    decreases |s|
  {
    var head := ScanStream(s);
    if s == [] {
      assert s + t == t == head.rest + t;
    } else if |s| == 1 {
      if s[0] == SOF_FIRST {
      } else if t == [] {
        assert s + t == s && head.rest + t == [];
      } else {
        assert (s + t)[1..] == t == head.rest + t;
      }
    } else if !StartsFrame(s) {
      assert (s + t)[1..] == s[1..] + t;
      ScanAppend(s[1..], t);
    } else if |s| >= HEADER_SIZE {
      HeaderStable(s, t);
      if !HeaderOk(s) {
        assert (s + t)[1..] == s[1..] + t;
        ScanAppend(s[1..], t);
      } else if |s| >= MIN_FRAME + PayloadLength(s) {
        var n := MIN_FRAME + PayloadLength(s);
        assert (s + t)[n..] == s[n..] + t && (s + t)[..n] == s[..n];
        ScanAppend(s[n..], t);
        EmitAppend(Decode(s[..n]), ScanStream(s[n..]), ScanStream(head.rest + t));
      }
    }
  }

  lemma HeaderStable(s: seq<byte>, t: seq<byte>)
    requires |s| >= HEADER_SIZE
    ensures StartsFrame(s + t) == StartsFrame(s)
    ensures HeaderOk(s + t) == HeaderOk(s) && PayloadLength(s + t) == PayloadLength(s)
  {
    assert (s + t)[2..8] == s[2..8];
  }

  lemma EmitAppend(candidate: Result<Frame, DecodeError>, inner: Scan, tail: Scan)
    ensures Emit(candidate, Prepend(inner.frames, tail)) == Prepend(Emit(candidate, inner).frames, tail)
  {
    if candidate.Ok? {
      assert [candidate.value] + (inner.frames + tail.frames) == ([candidate.value] + inner.frames) + tail.frames;
    }
  }

  /** Frames sent back to back are all recovered, and nothing stays pending. */
  lemma ScanEncoded(f: Frame, t: seq<byte>)
    requires f.Valid()
    ensures ScanStream(Encode(f) + t) == Scan([f] + ScanStream(t).frames, ScanStream(t).rest)
  {
    var s := Encode(f) + t;
    var n := |Encode(f)|;
    assert s[..HEADER_SIZE] == Header(f);
    HeaderPrefix(f, s);
    assert s[..n] == Encode(f) && s[n..] == t;
    CodecInverse(s[..n], f);
  }

  /** Some position of the noise starts a candidate whose header is valid, possibly reaching past the noise. */
  predicate HeaderInside(noise: seq<byte>, t: seq<byte>) {
    exists i :: 0 <= i < |noise| && StartsFrame((noise + t)[i..]) && |(noise + t)[i..]| >= HEADER_SIZE
      && HeaderOk((noise + t)[i..])
  }

  /** Noise without a valid header in it delays nothing: exactly the frames after it come out. */
  lemma {:induction false} RecoveryFromNoise(noise: seq<byte>, f: Frame, t: seq<byte>)
    requires f.Valid() && !HeaderInside(noise, Encode(f) + t)
    ensures ScanStream(noise + Encode(f) + t) == Scan([f] + ScanStream(t).frames, ScanStream(t).rest)
    decreases |noise|
  {
    hide HeaderOk, PayloadLength, Decode, Header;
    var s := noise + (Encode(f) + t);
    assert noise + Encode(f) + t == s;
    if noise == [] {
      assert s == Encode(f) + t;
      ScanEncoded(f, t);
    } else {
      var next := noise[1..];
      assert s[1..] == next + (Encode(f) + t) == next + Encode(f) + t;
      assert s[0..] == s;
      assert forall i :: 0 <= i < |next| ==> (next + (Encode(f) + t))[i..] == s[i + 1..];
      assert !HeaderInside(next, Encode(f) + t);
      RecoveryFromNoise(next, f, t);
    }
  }

  /** How much the scan drops when it looks at the front of a stream: a candidate with a valid header is taken or
      skipped whole, anything else byte by byte. */
  function Skip(s: seq<byte>): (n: nat)
    requires |s| >= HEADER_SIZE
    ensures n > 0
  {
    if StartsFrame(s) && HeaderOk(s) then MIN_FRAME + PayloadLength(s) else 1
  }

  /** The scan comes to look at position `n`. */
  predicate Visits(s: seq<byte>, n: nat)
    decreases n
  {
    n == 0 || (|s| >= HEADER_SIZE && Skip(s) <= n && Skip(s) <= |s| && Visits(s[Skip(s)..], n - Skip(s)))
  }

  /** The frames that came out before. */
  function Passed(s: seq<byte>, n: nat): seq<Frame>
    requires Visits(s, n)
    decreases n
  {
    if n == 0 then [] else Emit(Decode(s[..Skip(s)]), Scan([], [])).frames + Passed(s[Skip(s)..], n - Skip(s))
  }

  lemma {:induction false} VisitedScan(s: seq<byte>, n: nat)
    requires Visits(s, n)
    ensures n <= |s| && ScanStream(s) == Prepend(Passed(s, n), ScanStream(s[n..]))
    decreases n
  {
    hide Decode, Skip, ScanStream, Emit;
    if n > 0 {
      var m := Skip(s);
      VisitedScan(s[m..], n - m);
      assert s[m..][n - m..] == s[n..];
      StepScan(s);
    }
  }

  /** One step of the scan. */
  lemma StepScan(s: seq<byte>)
    requires |s| >= HEADER_SIZE && Skip(s) <= |s|
    ensures ScanStream(s) == Prepend(Emit(Decode(s[..Skip(s)]), Scan([], [])).frames, ScanStream(s[Skip(s)..]))
  {
    hide Decode, HeaderOk, PayloadLength, StartsFrame;
    ByteIsNoFrame(s[..1]);
  }

  lemma ByteIsNoFrame(s: seq<byte>)
    requires |s| == 1
    ensures Decode(s).Err?
  {
  }

  /** If the scan looks at position `i`, the candidate there, if any, ends at `n` at the latest. */
  predicate Contained(s: seq<byte>, n: nat, i: nat)
    requires i + HEADER_SIZE <= |s|
  {
    Visits(s, i) ==> i + Skip(s[i..]) <= n
  }

  lemma {:induction false} VisitsOnly(s: seq<byte>, n: nat)
    requires |s| >= n + HEADER_SIZE
    ensures Visits(s, n) <==> forall i :: 0 <= i < n ==> Contained(s, n, i)
    decreases n
  {
    hide Skip;
    if n > 0 {
      var m := Skip(s);
      FrontContained(s, n);
      if m <= n {
        var r, k := s[m..], n - m;
        VisitsOnly(r, k);
        forall i | m <= i < n ensures Contained(s, n, i) == Contained(r, k, i - m) {
          assert s[i..] == r[i - m..];
        }
        forall j | 0 <= j < k ensures Contained(r, k, j) == Contained(s, n, j + m) {
          assert j + m - m == j;
        }
      }
    }
  }

  lemma FrontContained(s: seq<byte>, n: nat)
    requires 0 < n && |s| >= n + HEADER_SIZE
    ensures Contained(s, n, 0) <==> Skip(s) <= n
    ensures forall i :: 0 < i < Skip(s) && i < n ==> Contained(s, n, i)
  {
    hide Skip;
    assert s[0..] == s;
  }

  /** Exactly when a frame behind noise is recovered: if the scan comes to look at its first byte, it comes out next
      and the stream behind it is scanned alone; the scan does so if and only if no candidate with a valid header
      that it looks at inside the noise reaches beyond the noise. */
  lemma RecoveryExactly(noise: seq<byte>, f: Frame, t: seq<byte>)
    requires f.Valid()
    ensures var s, n := noise + Encode(f) + t, |noise|;
      && (Visits(s, n) ==>
        ScanStream(s) == Scan(Passed(s, n) + [f] + ScanStream(t).frames, ScanStream(t).rest))
      && (Visits(s, n) <==> forall i :: 0 <= i < n ==> Contained(s, n, i))
  {
    hide Decode, Skip, ScanStream, Visits, Passed, Header;
    var s, n := noise + Encode(f) + t, |noise|;
    VisitsOnly(s, n);
    if Visits(s, n) {
      VisitedScan(s, n);
      assert s[n..] == Encode(f) + t;
      ScanEncoded(f, t);
    }
  }

  /** A candidate that reaches beyond the noise: until it is complete everything is held back, and then the scan goes
      on behind it, inside the frame or behind it. */
  lemma CandidateSwallows(s: seq<byte>, i: nat)
    requires Visits(s, i) && i + HEADER_SIZE <= |s|
    ensures var m := i + Skip(s[i..]);
      ScanStream(s) == Prepend(Passed(s, i),
        if m > |s| then Scan([], s[i..]) else Emit(Decode(s[i..m]), ScanStream(s[m..])))
  {
    hide Decode, Visits, Passed, Skip, Emit, ScanStream;
    VisitedScan(s, i);
    var r := s[i..];
    LookAtFront(r);
    if i + Skip(r) <= |s| {
      assert r[..Skip(r)] == s[i..i + Skip(r)] && r[Skip(r)..] == s[i + Skip(r)..];
    }
  }

  lemma LookAtFront(s: seq<byte>)
    requires |s| >= HEADER_SIZE
    ensures ScanStream(s)
      == if Skip(s) > |s| then Scan([], s) else Emit(Decode(s[..Skip(s)]), ScanStream(s[Skip(s)..]))
  {
    hide Decode, HeaderOk, PayloadLength, StartsFrame;
    ByteIsNoFrame(s[..1]);
  }

  /** A family in which recovery fails: any valid header that announces at least the bytes of the following frame
      swallows it. */
  lemma HeaderCapturesFrame(header: Frame, f: Frame)
    requires header.Valid() && f.Valid() && |header.payload| >= |Encode(f)|
    ensures HeaderInside(Header(header), Encode(f))
    ensures ScanStream(Header(header) + Encode(f)) == Scan([], Header(header) + Encode(f))
  {
    var noise, s := Header(header), Header(header) + Encode(f);
    assert s[..HEADER_SIZE] == noise;
    HeaderPrefix(header, s);
    assert s[0..] == s;
    PendingIsFixed(s);
  }

  /** A payload burst loses that frame and nothing else, whatever follows it. */
  lemma PayloadBurstLosesOneFrame(f: Frame, payload: seq<byte>, from: nat, t: seq<byte>)
    requires f.Valid() && |payload| == |f.payload| && payload != f.payload
    requires forall k :: 0 <= k < |payload| && !(from <= k < from + 4) ==> payload[k] == f.payload[k]
    ensures ScanStream(Header(f) + payload + Le32(Crc32(f.payload)) + t) == ScanStream(t)
  {
    var raw := Header(f) + payload + Le32(Crc32(f.payload));
    PayloadBurstRejected(f, payload, from);
    RejectedFrameIsSkipped(f, raw, t);
  }

  lemma RejectedFrameIsSkipped(f: Frame, raw: seq<byte>, t: seq<byte>)
    requires f.Valid() && |raw| == MIN_FRAME + |f.payload| && raw[..HEADER_SIZE] == Header(f) && Decode(raw).Err?
    ensures ScanStream(raw + t) == ScanStream(t)
  {
    var s := raw + t;
    assert s[..HEADER_SIZE] == raw[..HEADER_SIZE];
    HeaderPrefix(f, s);
    assert s[..|raw|] == raw && s[|raw|..] == t;
  }
}
