/** Exactly-once processing: what the one-entry reply cache answers, and what it never answers. */
module ReplyCache {
  import opened Bytes
  import opened Crc
  import opened Frames
  import opened Device
  import opened UpdateHistory

  /** The bytes decode to an OK reply to the given request that announces the given next sequence. */
  predicate IsOkReply(bytes: seq<byte>, command: byte, sequence: u16, expected: u16) {
    match Decode(bytes)
    case Err(_) => false
    case Ok(r) =>
      && r.version == PROTOCOL_VERSION && r.command == ResponseCommand(command) && r.sequence == sequence
      && |r.payload| >= RESPONSE_PREFIX && r.payload[8] <= MAX_DETAIL && |r.payload| == RESPONSE_PREFIX + r.payload[8]
      && ReadLe16(r.payload, 0) == OK && ReadLe16(r.payload, 2) == expected
  }

  lemma ReplyFields(status: u16, expected: u16, nextOffset: u32, detail: seq<byte>)
    requires |detail| <= MAX_DETAIL
    ensures var s := ReplyPayload(status, expected, nextOffset, detail);
      ReadLe16(s, 0) == status && ReadLe16(s, 2) == expected && ReadLe32(s, 4) == nextOffset
      && s[8] == |detail| && s[9..] == detail
  {
    var s := ReplyPayload(status, expected, nextOffset, detail);
    assert s[0..2] == Le16(status) && s[2..4] == Le16(expected) && s[4..8] == Le32(nextOffset);
    Le16Inverse(s, 0, status);
    Le16Inverse(s, 2, expected);
    Le32Inverse(s, 4, nextOffset);
  }

  lemma ReplyDecodes(command: byte, sequence: u16, status: u16, expected: u16, nextOffset: u32, detail: seq<byte>)
    requires |detail| <= MAX_DETAIL
    ensures var r := Reply(command, sequence, status, expected, nextOffset, detail);
      Decode(Encode(r)) == Ok(r)
    ensures var bytes := Encode(Reply(command, sequence, status, expected, nextOffset, detail));
      IsOkReply(bytes, command, sequence, expected) <==> status == OK
  {
    var r := Reply(command, sequence, status, expected, nextOffset, detail);
    CodecInverse(Encode(r), r);
    ReplyFields(status, expected, nextOffset, detail);
  }

  /** The cache answers only the last accepted request, in step with the sequence; after HELLO nothing is open. */
  predicate Coherent(d: Device) {
    match d.cache
    case None => true
    case Some(c) =>
      && d.expected == Next16(c.sequence)
      && IsOkReply(c.reply, c.command, c.sequence, d.expected)
      && (c.command == HELLO ==> c.sequence == 0 && !d.active && d.nextOffset == 0)
  }

  /** Coherence is kept by every frame, whatever the flash does. */
  lemma CoherentStep(env: Env, d: Device, f: Frame, x: Faults)
    requires Sound(env, d) && Coherent(d)
    ensures Coherent(Process(env, d, f, x).device)
  {
    hide IsOkReply, BeginUpdate, WriteUpdate, FinishUpdate, Crc32;
    var o := Process(env, d, f, x);
    if o.executed.Some? {
      var d0 := if f.command == HELLO then d.Abandon().(expected := 0, cache := None) else d;
      var (h, _) := Execute(env, d0, f, x);
      ExecuteSound(env, d0, f, x);
      if h.status == OK {
        ReplyDecodes(f.command, f.sequence, OK, o.device.expected, o.device.nextOffset, Detail(env, h.message));
      } else if d.cache.Some? && d.cache.value.command == HELLO {
        RejectedStaysIdle(env, d, f, x);
      }
    }
  }

  /** A request that fails never opens an update. */
  lemma RejectedStaysIdle(env: Env, d: Device, f: Frame, x: Faults)
    requires Sound(env, d) && Execute(env, d, f, x).0.status != OK && !d.active && d.nextOffset == 0
    ensures !Execute(env, d, f, x).0.device.active && Execute(env, d, f, x).0.device.nextOffset == 0
  {
  }

  // ----- Re-delivery -----

  /** All replies to a request delivered again and again, under any faults, with the final state. */
  ghost function Redeliver(env: Env, d: Device, f: Frame, faults: seq<Faults>): (r: (Device, seq<seq<byte>>))
    requires Sound(env, d)
    ensures |r.1| == |faults|
    decreases |faults|
  {
    if faults == [] then (d, [])
    else
      var o := Process(env, d, f, faults[0]);
      ProcessSound(env, d, f, faults[0]);
      var (last, replies) := Redeliver(env, o.device, f, faults[1..]);
      (last, [o.sent] + replies)
  }

  /** Once accepted, a request has no further effect, however often it arrives: same state, same bytes. */
  lemma {:induction false} ExactlyOnce(env: Env, d: Device, f: Frame, x: Faults, again: seq<Faults>)
    requires Sound(env, d) && Process(env, d, f, x).executed == Some(OK)
    ensures var o := Process(env, d, f, x);
      && Sound(env, o.device)
      && Redeliver(env, o.device, f, again).0 == o.device
      && (forall k :: 0 <= k < |again| ==> Redeliver(env, o.device, f, again).1[k] == o.sent)
  {
    var o := Process(env, d, f, x);
    ProcessSound(env, d, f, x);
    RepeatIsFixed(env, o.device, f, again);
  }

  lemma {:induction false} RepeatIsFixed(env: Env, d: Device, f: Frame, again: seq<Faults>)
    requires Sound(env, d) && MatchesLast(d, f)
    ensures Redeliver(env, d, f, again).0 == d
    ensures forall k :: 0 <= k < |again| ==> Redeliver(env, d, f, again).1[k] == d.cache.value.reply
    decreases |again|
  {
    if again != [] {
      RepeatIsFixed(env, d, f, again[1..]);
    }
  }

  /** In every state that still caches an accepted request, a request that differs from it inside four consecutive
      payload bytes, such as the DATA offset, is not answered from the cache. */
  lemma OffsetIsNeverConfused(env: Env, d: Device, f: Frame, x: Faults, later: seq<Event>, g: Frame, from: nat)
    requires Sound(env, d) && Process(env, d, f, x).executed == Some(OK)
    requires Sound(env, Process(env, d, f, x).device)
    requires Run(env, Process(env, d, f, x).device, NOTHING, later).0.cache == Process(env, d, f, x).device.cache
    requires |g.payload| == |f.payload| && g.payload != f.payload
    requires forall k :: 0 <= k < |f.payload| && !(from <= k < from + 4) ==> g.payload[k] == f.payload[k]
    ensures !MatchesLast(Run(env, Process(env, d, f, x).device, NOTHING, later).0, g)
  {
    hide Process, Run;
    AcceptedIsCached(env, d, f, x);
    Crc32DetectsByteBurst(g.payload, f.payload, from);
  }

  lemma AcceptedIsCached(env: Env, d: Device, f: Frame, x: Faults)
    requires Sound(env, d) && Process(env, d, f, x).executed == Some(OK)
    ensures MatchesLast(Process(env, d, f, x).device, f)
  {
    hide Execute, SendResponse, Crc32;
  }

  // ----- Whole sessions -----

  /** Over every session the cached reply is the OK reply to the cached request and announces the expected sequence. */
  lemma {:induction false} CoherentRun(env: Env, d: Device, events: seq<Event>)
    requires Sound(env, d) && Coherent(d)
    ensures Coherent(Run(env, d, NOTHING, events).0)
    decreases |events|
  {
    hide Process, Coherent, Note;
    if events != [] {
      var last := events[|events| - 1];
      CoherentRun(env, d, events[..|events| - 1]);
      CoherentStep(env, Run(env, d, NOTHING, events[..|events| - 1]).0, last.frame, last.faults);
    }
  }

  /** A session starts without a cached reply, so the cache is coherent in each of its states. */
  lemma CoherentSession(env: Env, cells: seq<byte>, events: seq<Event>)
    requires env.layout.WellFormed() && |cells| == env.layout.flashSize
    ensures Sound(env, Fresh(env, cells))
    ensures var d := Run(env, Fresh(env, cells), NOTHING, events).0;
      d.cache.Some? ==>
        && d.expected == Next16(d.cache.value.sequence)
        && IsOkReply(d.cache.value.reply, d.cache.value.command, d.cache.value.sequence, d.expected)
  {
    FreshSound(env, cells);
    CoherentRun(env, Fresh(env, cells), events);
  }
}
