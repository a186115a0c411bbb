/** Whole sessions: what the accepted requests said, and what the flash holds because of them. */
module UpdateHistory {
  import opened Bytes
  import opened Frames
  import opened Flash
  import opened OtaData
  import opened Device

  datatype Event = Event(frame: Frame, faults: Faults)

  /** The most recent accepted BEGIN, and the DATA payloads accepted since. */
  datatype History = History(begun: bool, size: nat, digest: seq<byte>, received: seq<byte>)

  const NOTHING: History := History(false, 0, [], [])

  function Note(h: History, f: Frame, executed: Option<u16>): History {
    if executed != Some(OK) then h
    else if f.command == BEGIN && |f.payload| >= BEGIN_PREFIX then
      History(true, ReadLe32(f.payload, 0), f.payload[4..36], [])
    else if f.command == DATA && |f.payload| > OFFSET_SIZE then
      h.(received := h.received + f.payload[OFFSET_SIZE..])
    else h
  }

  ghost function Run(env: Env, d: Device, h: History, events: seq<Event>): (r: (Device, History))
    requires Sound(env, d)
    ensures Sound(env, r.0) && r.0.target == d.target
    decreases |events|
  {
    if events == [] then (d, h)
    else
      var last := events[|events| - 1];
      var (d1, h1) := Run(env, d, h, events[..|events| - 1]);
      var o := Process(env, d1, last.frame, last.faults);
      ProcessSound(env, d1, last.frame, last.faults);
      (o.device, Note(h1, last.frame, o.executed))
  }

  // ----- What the open update was told -----

  predicate Remembers(d: Device, h: History) {
    d.active ==> h.begun && h.size == d.imageSize && h.digest == d.digest
  }

  lemma RemembersStep(env: Env, d: Device, h: History, f: Frame, x: Faults, o: Outcome)
    requires Sound(env, d) && Remembers(d, h) && Effect(env, d, f, x, o)
    ensures Remembers(o.device, Note(h, f, o.executed))
  {
  }

  lemma {:induction false} RemembersRun(env: Env, d: Device, h: History, events: seq<Event>)
    requires Sound(env, d) && Remembers(d, h)
    ensures var (d1, h1) := Run(env, d, h, events); Remembers(d1, h1)
    decreases |events|
  {
    if events != [] {
      var last := events[|events| - 1];
      RemembersRun(env, d, h, events[..|events| - 1]);
      var (d1, h1) := Run(env, d, h, events[..|events| - 1]);
      ProcessEffect(env, d1, last.frame, last.faults);
      RemembersStep(env, d1, h1, last.frame, last.faults, Process(env, d1, last.frame, last.faults));
    }
  }

  // ----- What the target holds -----

  /** The received bytes are stored exactly, and everything behind them is blank, the padding of a last word
      included. */
  ghost predicate Holds(cells: seq<byte>, at: nat, size: nat, received: seq<byte>)
    requires |received| <= size && at + Sectors(size) <= |cells|
  {
    && (forall i :: at <= i < at + |received| ==> cells[i] == received[i - at])
    && (forall i :: at + |received| <= i < at + Sectors(size) ==> cells[i] == 0xFF)
  }

  ghost predicate Stored(env: Env, d: Device, h: History)
    requires Sound(env, d)
  {
    d.active ==> |h.received| == d.nextOffset && Holds(d.cells, TargetSlot(env, d).offset, d.imageSize, h.received)
  }

  /** A DATA request whose flash write failed left the flash as it was. */
  predicate CleanFailure(d: Device, f: Frame, o: Outcome) {
    f.command == DATA && o.executed == Some(ERR_FLASH) ==> o.device.cells == d.cells
  }

  lemma StoredBegin(env: Env, d: Device, f: Frame, x: Faults, r: Device)
    requires Sound(env, d) && Sound(env, r)
    requires BeginUpdate(env, d, f, x).status == OK && SameUpdate(r, BeginUpdate(env, d, f, x).device)
    ensures Stored(env, r, History(true, ReadLe32(f.payload, 0), f.payload[4..36], []))
  {
  }

  lemma HoldsProgram(cells: seq<byte>, at: nat, size: nat, received: seq<byte>, data: seq<byte>)
    requires |received| + |data| <= size && at + Sectors(size) <= |cells| && |received| % 4 == 0
    requires Holds(cells, at, size, received)
    ensures Holds(Program(cells, at + |received|, Padded(data)), at, size, received + data)
  {
    hide And, Words;
    var n := at + |received|;
    WordsAfterAligned(|received|, |data|);
    var after := Program(cells, n, Padded(data));
    forall i | at <= i < at + |received + data| ensures after[i] == (received + data)[i - at] {
      if i >= n {
        AndErased(data[i - n]);
      }
    }
    forall i | at + |received + data| <= i < at + Sectors(size) ensures after[i] == 0xFF {
      PaddingStaysBlank(cells, n, data, i);
    }
  }

  /** The padding of a written word is ones: a blank cell behind the data stays blank. */
  lemma PaddingStaysBlank(cells: seq<byte>, at: nat, data: seq<byte>, i: nat)
    requires at + |data| <= i < |cells| && cells[i] == 0xFF
    ensures Program(cells, at, Padded(data))[i] == 0xFF
  {
    AndErased(0xFF);
  }

  /** Per frame, from any state: behind the offset that an accepted DATA leaves, every blank cell is still blank. */
  lemma AcceptedDataKeepsBlank(env: Env, d: Device, f: Frame, x: Faults, i: nat)
    requires Sound(env, d) && f.command == DATA && Process(env, d, f, x).executed == Some(OK)
    ensures var o := Process(env, d, f, x);
      && |o.device.cells| == |d.cells| && d.active && o.device.nextOffset > d.nextOffset
      && (TargetSlot(env, d).offset + o.device.nextOffset <= i < |d.cells| && d.cells[i] == 0xFF ==>
        o.device.cells[i] == 0xFF)
  {
    hide Process, Padded, Program, And;
    ProcessEffect(env, d, f, x);
    var at := TargetSlot(env, d).offset;
    if at + Process(env, d, f, x).device.nextOffset <= i < |d.cells| && d.cells[i] == 0xFF {
      PaddingStaysBlank(d.cells, at + d.nextOffset, f.payload[OFFSET_SIZE..], i);
    }
  }

  lemma StoredData(env: Env, d: Device, h: History, f: Frame, x: Faults, r: Device)
    requires Sound(env, d) && Sound(env, r) && Stored(env, d, h)
    requires WriteUpdate(env, d, f, x).status == OK && SameUpdate(r, WriteUpdate(env, d, f, x).device)
    ensures Stored(env, r, h.(received := h.received + f.payload[OFFSET_SIZE..]))
  {
    HoldsProgram(d.cells, TargetSlot(env, d).offset, d.imageSize, h.received, f.payload[OFFSET_SIZE..]);
  }

  lemma HoldsKept(cells: seq<byte>, after: seq<byte>, at: nat, size: nat, received: seq<byte>)
    requires |received| <= size && at + Sectors(size) <= |cells| == |after|
    requires Holds(cells, at, size, received)
    requires forall i :: at <= i < at + Sectors(size) ==> after[i] == cells[i]
    ensures Holds(after, at, size, received)
  {
  }

  lemma FinishShape(env: Env, d: Device, f: Frame, x: Faults)
    requires Sound(env, d)
    ensures var r := FinishUpdate(env, d, f, x).device;
      |r.cells| == |d.cells| && r == d.(cells := r.cells, active := r.active) && (r.active ==> d.active)
  {
  }

  /** Committing, or failing to, does not touch the target. */
  lemma StoredFinish(env: Env, d: Device, h: History, f: Frame, x: Faults, r: Device, finished: Device)
    requires Sound(env, d) && Sound(env, r) && Stored(env, d, h)
    requires finished == FinishUpdate(env, d, f, x).device && SameUpdate(r, finished)
    ensures Stored(env, r, h)
  {
    FinishShape(env, d, f, x);
    if r.active {
      var slot := TargetSlot(env, d);
      forall i | slot.offset <= i < slot.offset + slot.size ensures r.cells[i] == d.cells[i] {
        FinishKeepsSlot(env, d, f, x, i);
      }
      HoldsKept(d.cells, r.cells, slot.offset, d.imageSize, h.received);
    }
  }

  lemma FinishKeepsSlot(env: Env, d: Device, f: Frame, x: Faults, i: nat)
    requires Sound(env, d) && d.active
    requires TargetSlot(env, d).offset <= i < TargetSlot(env, d).offset + TargetSlot(env, d).size
    ensures FinishUpdate(env, d, f, x).device.cells[i] == d.cells[i]
  {
    CommitTouchesOneSector(env.layout, d.cells, d.target.value, x.commit, i);
  }

  lemma StoredRejected(env: Env, d: Device, h: History, f: Frame, x: Faults, o: Outcome)
    requires Sound(env, d) && Sound(env, o.device) && Stored(env, d, h) && Effect(env, d, f, x, o)
    requires CleanFailure(d, f, o) && o.executed != Some(OK) && (f.command != END || o.executed.None?)
    ensures Stored(env, o.device, h)
  {
  }

  lemma StoredStep(env: Env, d: Device, h: History, f: Frame, x: Faults, o: Outcome)
    requires Sound(env, d) && Sound(env, o.device) && Stored(env, d, h) && Effect(env, d, f, x, o)
    requires CleanFailure(d, f, o)
    ensures Stored(env, o.device, Note(h, f, o.executed))
  {
    if f.command == END && o.executed.Some? {
      StoredFinish(env, d, h, f, x, o.device, FinishUpdate(env, d, f, x).device);
    } else if o.executed != Some(OK) {
      StoredRejected(env, d, h, f, x, o);
    } else if f.command == BEGIN {
      StoredBegin(env, d, f, x, o.device);
    } else if f.command == DATA {
      StoredData(env, d, h, f, x, o.device);
    }
  }

  ghost predicate CleanFailures(env: Env, d: Device, h: History, events: seq<Event>)
    requires Sound(env, d)
    decreases |events|
  {
    events == [] ||
    var last := events[|events| - 1];
    var before := Run(env, d, h, events[..|events| - 1]).0;
    && CleanFailures(env, d, h, events[..|events| - 1])
    && CleanFailure(before, last.frame, Process(env, before, last.frame, last.faults))
  }

  lemma StoredReads(env: Env, d: Device, h: History)
    requires Sound(env, d) && Stored(env, d, h) && d.active
    ensures Slice(d.cells, TargetSlot(env, d).offset, d.nextOffset) == h.received
  {
  }

  /** Over every run, while an update is open: the target starts with exactly the DATA payloads accepted since
      the last BEGIN, the rest of the erased range is blank, and the offset is aligned unless it is final. */
  lemma {:induction false} StoredRun(env: Env, d: Device, events: seq<Event>)
    requires Sound(env, d) && !d.active && CleanFailures(env, d, NOTHING, events)
    ensures var (d1, h1) := Run(env, d, NOTHING, events);
      && Stored(env, d1, h1)
      && (d1.active ==>
        && Slice(d1.cells, TargetSlot(env, d1).offset, d1.nextOffset) == h1.received
        && (d1.nextOffset % 4 == 0 || d1.nextOffset == d1.imageSize == h1.size))
    decreases |events|
  {
    hide Holds, Process, Note, Effect, CleanFailure;
    RemembersRun(env, d, NOTHING, events);
    var (after, seen) := Run(env, d, NOTHING, events);
    if events != [] {
      var last := events[|events| - 1];
      StoredRun(env, d, events[..|events| - 1]);
      var (d1, h1) := Run(env, d, NOTHING, events[..|events| - 1]);
      var o := Process(env, d1, last.frame, last.faults);
      ProcessSound(env, d1, last.frame, last.faults);
      ProcessEffect(env, d1, last.frame, last.faults);
      StoredStep(env, d1, h1, last.frame, last.faults, o);
    }
    if after.active {
      StoredReads(env, after, seen);
    }
  }
}
