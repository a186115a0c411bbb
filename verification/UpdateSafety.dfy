/** Where a session may write, when it may change the boot selection, and to what. */
module UpdateSafety {
  import opened Bytes
  import opened Frames
  import opened Flash
  import opened OtaData
  import opened Device
  import opened UpdateHistory

  // ----- Write confinement -----

  predicate InRange(i: nat, from: nat, n: nat) {
    from <= i < from + n
  }

  /** The cells one frame may change: the erased range of the update, or the otadata entry that is not active. */
  ghost predicate Writable(env: Env, d: Device, f: Frame, i: nat)
    requires Sound(env, d)
  {
    if f.command == BEGIN then
      d.target.Some? && |f.payload| >= BEGIN_PREFIX
      && Sectors(ReadLe32(f.payload, 0)) <= TargetSlot(env, d).size
      && InRange(i, TargetSlot(env, d).offset, Sectors(ReadLe32(f.payload, 0)))
    else if f.command == DATA then
      d.active && InRange(i, TargetSlot(env, d).offset + d.nextOffset, Sectors(d.imageSize) - d.nextOffset)
    else
      f.command == END && InRange(i, EntryAddress(env.layout, NextEntry(env.layout, d.cells)), SECTOR)
  }

  lemma EraseBlocksConfined(cells: seq<byte>, at: nat, n: nat, fault: Option<BlockFault>, i: nat)
    requires i < |cells| && !InRange(i, at, n)
    ensures |EraseBlocks(cells, at, n, fault).1| == |cells| && EraseBlocks(cells, at, n, fault).1[i] == cells[i]
  {
  }

  lemma BeginConfined(env: Env, d: Device, f: Frame, x: Faults, i: nat, r: Device)
    requires Sound(env, d) && i < |d.cells| && r == BeginUpdate(env, d, f, x).device
    ensures |r.cells| == |d.cells| && (r.cells[i] != d.cells[i] ==> Writable(env, d, f.(command := BEGIN), i))
  {
    if d.target.Some? && |f.payload| >= BEGIN_PREFIX {
      var slot, n := TargetSlot(env, d), Sectors(ReadLe32(f.payload, 0));
      if !InRange(i, slot.offset, n) {
        EraseBlocksConfined(d.cells, slot.offset, n, x.erase, i);
      }
    }
  }

  lemma WordsWithinSectors(n: nat, length: nat, size: nat)
    requires n + length <= size && (n % 4 == 0 || length == 0)
    ensures n + Words(length) <= Sectors(size)
  {
    SectorsAreWords(size);
    if n % 4 == 0 {
      WordsAfterAligned(n, length);
      WordsLeast(n + length, Sectors(size));
    }
  }

  lemma DataConfined(env: Env, d: Device, f: Frame, x: Faults, i: nat, r: Device)
    requires Sound(env, d) && i < |d.cells| && r == WriteUpdate(env, d, f, x).device
    ensures |r.cells| == |d.cells| && (r.cells[i] != d.cells[i] ==> Writable(env, d, f.(command := DATA), i))
  {
    if r.cells != d.cells {
      WordsWithinSectors(d.nextOffset, |f.payload| - OFFSET_SIZE, d.imageSize);
    }
  }

  lemma EndConfined(env: Env, d: Device, f: Frame, x: Faults, i: nat, r: Device)
    requires Sound(env, d) && i < |d.cells| && r == FinishUpdate(env, d, f, x).device
    ensures |r.cells| == |d.cells| && (r.cells[i] != d.cells[i] ==> Writable(env, d, f.(command := END), i))
  {
    if r.cells != d.cells && !Writable(env, d, f.(command := END), i) {
      CommitTouchesOneSector(env.layout, d.cells, d.target.value, x.commit, i);
    }
  }

  /** Whatever the frame and however the flash fails, nothing else changes. */
  lemma WriteConfined(env: Env, d: Device, f: Frame, x: Faults, o: Outcome, i: nat)
    requires Sound(env, d) && Effect(env, d, f, x, o) && i < |d.cells|
    ensures |o.device.cells| == |d.cells| && (o.device.cells[i] != d.cells[i] ==> Writable(env, d, f, i))
  {
    if f.command == BEGIN {
      BeginConfined(env, d, f, x, i, BeginUpdate(env, d, f, x).device);
    } else if f.command == DATA {
      DataConfined(env, d, f, x, i, WriteUpdate(env, d, f, x).device);
    } else if f.command == END {
      EndConfined(env, d, f, x, i, FinishUpdate(env, d, f, x).device);
    }
  }

  /** Where the sector of a cell starts, both counted from the start of a slot. */
  function SectorStart(k: nat): nat {
    k - k % SECTOR
  }

  lemma SectorTouched(k: nat, size: nat)
    ensures SectorStart(k) < size <==> k < Sectors(size)
  {
    var q, p := k / SECTOR, (size + 0xFFF) / SECTOR;
    assert SectorStart(k) == SECTOR * q && Sectors(size) == SECTOR * p;
  }

  lemma BegunErases(env: Env, d: Device, f: Frame, x: Faults, i: nat, r: Device)
    requires Sound(env, d) && i < |d.cells| && r == BeginUpdate(env, d, f, x).device
    requires BeginUpdate(env, d, f, x).status == OK
    ensures d.target.Some? && |f.payload| >= BEGIN_PREFIX && |r.cells| == |d.cells|
    ensures var slot, size := TargetSlot(env, d), ReadLe32(f.payload, 0);
      r.cells[i] == if slot.offset <= i < slot.offset + Sectors(size) then ERASED else d.cells[i]
  {
  }

  /** An accepted BEGIN has blanked exactly the sectors of the target that will hold a byte of the image. */
  lemma AcceptedBeginErases(env: Env, d: Device, f: Frame, x: Faults, o: Outcome, i: nat)
    requires Sound(env, d) && Effect(env, d, f, x, o) && i < |d.cells|
    requires f.command == BEGIN && o.executed == Some(OK)
    ensures d.target.Some? && |f.payload| >= BEGIN_PREFIX && |o.device.cells| == |d.cells|
    ensures var slot, size := TargetSlot(env, d), ReadLe32(f.payload, 0);
      o.device.cells[i]
        == if slot.offset <= i && SectorStart(i - slot.offset) < size then ERASED else d.cells[i]
  {
    hide BeginUpdate, WriteUpdate, FinishUpdate, SectorStart, Sectors, Layout.WellFormed;
    BegunErases(env, d, f, x, i, BeginUpdate(env, d, f, x).device);
    var slot, size := TargetSlot(env, d), ReadLe32(f.payload, 0);
    if slot.offset <= i {
      SectorTouched(i - slot.offset, size);
    }
  }

  // ----- The selection changes only at a justified END -----

  lemma SelectionReadsOtaOnly(l: Layout, a: seq<byte>, b: seq<byte>)
    requires l.otaInfo + 2 * SECTOR <= |a| == |b|
    requires forall i :: l.otaInfo <= i < l.otaInfo + 2 * SECTOR ==> a[i] == b[i]
    ensures ActiveEntry(l, a) == ActiveEntry(l, b) && ActiveSequence(l, a) == ActiveSequence(l, b)
    ensures Selected(l, a) == Selected(l, b)
  {
    SliceKept(a, b, EntryAddress(l, 0), EntryAddress(l, 0) + ENTRY_SIZE);
    SliceKept(a, b, EntryAddress(l, 1), EntryAddress(l, 1) + ENTRY_SIZE);
  }

  lemma SlotIsNotOta(env: Env, d: Device, f: Frame, i: nat)
    requires Sound(env, d) && InRange(i, env.layout.otaInfo, 2 * SECTOR) && Writable(env, d, f, i)
    ensures f.command == END
  {
  }

  lemma OnlyEndTouchesOta(env: Env, d: Device, f: Frame, x: Faults, o: Outcome)
    requires Sound(env, d) && Effect(env, d, f, x, o) && f.command != END
    ensures forall i :: env.layout.otaInfo <= i < env.layout.otaInfo + 2 * SECTOR ==>
      i < |d.cells| == |o.device.cells| && o.device.cells[i] == d.cells[i]
  {
    forall i: nat | env.layout.otaInfo <= i < env.layout.otaInfo + 2 * SECTOR
      ensures i < |d.cells| == |o.device.cells| && o.device.cells[i] == d.cells[i]
    {
      WriteConfined(env, d, f, x, o, i);
      if o.device.cells[i] != d.cells[i] {
        SlotIsNotOta(env, d, f, i);
      }
    }
  }

  /** The whole verify chain, judged against the most recent accepted BEGIN. */
  ghost predicate Justified(env: Env, d: Device, h: History)
    requires Sound(env, d)
  {
    d.active && h.begun && h.size <= TargetSlot(env, d).size
    && d.nextOffset == h.size
    && env.sha256(Slice(d.cells, TargetSlot(env, d).offset, h.size)) == h.digest
    && env.imageLength(Slice(d.cells, TargetSlot(env, d).offset, TargetSlot(env, d).size)) == Some(h.size)
  }

  lemma FinishJustified(env: Env, d: Device, h: History, f: Frame, x: Faults)
    requires Sound(env, d) && Remembers(d, h)
    requires FinishUpdate(env, d, f, x).device.cells != d.cells || FinishUpdate(env, d, f, x).status == OK
    ensures f.payload == [] && Justified(env, d, h)
  {
  }

  /** Over every run of arbitrary frames and flash faults: a frame that changes otadata, or that succeeds in
      ending the session with a reset, is an END that passed the whole verify chain. */
  lemma CommitSafety(env: Env, start: Device, events: seq<Event>, last: Event)
    requires Sound(env, start) && !start.active
    ensures var (d, h) := Run(env, start, NOTHING, events);
      var o := Process(env, d, last.frame, last.faults);
      OtaChanged(env, d, o.device) || o.action == Reset ==>
        last.frame.command == END && last.frame.payload == [] && Justified(env, d, h)
  {
    RemembersRun(env, start, NOTHING, events);
    var (d, h) := Run(env, start, NOTHING, events);
    var o := Process(env, d, last.frame, last.faults);
    ProcessSound(env, d, last.frame, last.faults);
    ProcessEffect(env, d, last.frame, last.faults);
    if OtaChanged(env, d, o.device) || o.action == Reset {
      ChangeIsJustified(env, d, h, last.frame, last.faults, o);
    }
  }

  ghost predicate OtaChanged(env: Env, d: Device, after: Device) {
    exists i :: env.layout.otaInfo <= i < env.layout.otaInfo + 2 * SECTOR
      && i < |d.cells| && i < |after.cells| && after.cells[i] != d.cells[i]
  }

  lemma ChangeIsJustified(env: Env, d: Device, h: History, f: Frame, x: Faults, o: Outcome)
    requires Sound(env, d) && Remembers(d, h) && Effect(env, d, f, x, o)
    requires OtaChanged(env, d, o.device) || o.action == Reset
    ensures f.command == END && f.payload == [] && Justified(env, d, h)
  {
    if f.command != END {
      OnlyEndTouchesOta(env, d, f, x, o);
    } else {
      FinishJustified(env, d, h, f, x);
    }
  }

  // ----- What the selection becomes -----

  ghost predicate BenignStep(env: Env, d: Device, x: Faults)
    requires Sound(env, d)
  {
    d.target.Some? ==> Benign(env.layout, d.cells, d.target.value, x.commit)
  }

  lemma FailedFinish(env: Env, d: Device, f: Frame, x: Faults, r: Device)
    requires Sound(env, d) && BenignStep(env, d, x) && r == FinishUpdate(env, d, f, x).device
    requires FinishUpdate(env, d, f, x).status != OK
    ensures |r.cells| == |d.cells| && ActiveEntry(env.layout, r.cells) == ActiveEntry(env.layout, d.cells)
    ensures ActiveSequence(env.layout, r.cells) == ActiveSequence(env.layout, d.cells)
  {
    hide Benign, Commit, ActiveEntry, ActiveSequence;
    if r.cells != d.cells {
      FailedCommitKeepsActive(env.layout, d.cells, d.target.value, x.commit);
    }
  }

  /** Unless it ends in a reset, a frame leaves the active entry alone, an END whose commit failed included. */
  lemma StepKeepsSelection(env: Env, d: Device, f: Frame, x: Faults, o: Outcome)
    requires Sound(env, d) && Effect(env, d, f, x, o) && BenignStep(env, d, x) && o.action != Reset
    ensures |o.device.cells| == |d.cells|
    ensures ActiveEntry(env.layout, o.device.cells) == ActiveEntry(env.layout, d.cells)
    ensures ActiveSequence(env.layout, o.device.cells) == ActiveSequence(env.layout, d.cells)
    ensures Selected(env.layout, o.device.cells) == Selected(env.layout, d.cells)
  {
    if f.command == END && o.executed.Some? {
      FailedFinish(env, d, f, x, FinishUpdate(env, d, f, x).device);
    } else if f.command != END {
      OnlyEndTouchesOta(env, d, f, x, o);
      SelectionReadsOtaOnly(env.layout, o.device.cells, d.cells);
    }
  }

  /** An END that ends in a reset selects the target, unless the sequence has reached the erased marker. */
  lemma StepCommits(env: Env, d: Device, f: Frame, x: Faults, o: Outcome)
    requires Sound(env, d) && Effect(env, d, f, x, o) && o.action == Reset
    requires Selected(env.layout, d.cells) != d.target
    ensures |o.device.cells| == |d.cells| && d.target.Some?
    ensures Selected(env.layout, o.device.cells) == d.target
      <==> !MarkerIsNext(env.layout, d.cells, d.target.value)
    ensures MarkerIsNext(env.layout, d.cells, d.target.value) ==>
      Selected(env.layout, o.device.cells) == Selected(env.layout, d.cells)
    ensures forall i :: TargetSlot(env, d).offset <= i < TargetSlot(env, d).offset + TargetSlot(env, d).size ==>
      o.device.cells[i] == d.cells[i]
  {
    FinishIsCommit(env, d, f, x);
    SuccessfulCommitSelects(env.layout, d.cells, d.target.value, x.commit);
    var slot := TargetSlot(env, d);
    forall i | slot.offset <= i < slot.offset + slot.size ensures o.device.cells[i] == d.cells[i] {
      FinishKeepsSlot(env, d, f, x, i);
    }
  }

  lemma FinishIsCommit(env: Env, d: Device, f: Frame, x: Faults)
    requires Sound(env, d) && FinishUpdate(env, d, f, x).status == OK
    ensures d.active
    ensures var c := Commit(env.layout, d.cells, d.target.value, x.commit);
      c.ok && FinishUpdate(env, d, f, x).device.cells == c.cells
  {
  }

  // ----- Whole sessions -----

  /** A session that has not reset: every frame so far left it open or rejected, with benign commit faults. */
  ghost predicate Live(env: Env, d: Device, events: seq<Event>)
    requires Sound(env, d)
    decreases |events|
  {
    events == [] ||
    var last := events[|events| - 1];
    var before := Run(env, d, NOTHING, events[..|events| - 1]).0;
    && Live(env, d, events[..|events| - 1])
    && BenignStep(env, before, last.faults)
    && Process(env, before, last.frame, last.faults).action != Reset
  }

  /** Over every session that does not reset, the selection is the one at entry. */
  lemma {:induction false} SessionKeepsSelection(env: Env, d: Device, events: seq<Event>)
    requires Sound(env, d) && Live(env, d, events)
    ensures var after := Run(env, d, NOTHING, events).0.cells;
      && |after| == |d.cells|
      && ActiveEntry(env.layout, after) == ActiveEntry(env.layout, d.cells)
      && ActiveSequence(env.layout, after) == ActiveSequence(env.layout, d.cells)
      && Selected(env.layout, after) == Selected(env.layout, d.cells)
    decreases |events|
  {
    if events != [] {
      var last := events[|events| - 1];
      SessionKeepsSelection(env, d, events[..|events| - 1]);
      var before := Run(env, d, NOTHING, events[..|events| - 1]).0;
      ProcessEffect(env, before, last.frame, last.faults);
      StepKeepsSelection(env, before, last.frame, last.faults, Process(env, before, last.frame, last.faults));
    }
  }

  /** The target, which is not the slot that boots, and the otadata sector that is not active. */
  ghost predicate SessionWritable(env: Env, d: Device, i: nat)
    requires Sound(env, d)
  {
    || (d.target.Some? && d.target != Selected(env.layout, d.cells)
        && InRange(i, TargetSlot(env, d).offset, TargetSlot(env, d).size))
    || InRange(i, EntryAddress(env.layout, NextEntry(env.layout, d.cells)), SECTOR)
  }

  /** Over every session up to and including its resetting END, every changed cell lies in the slot that does
      not boot or in the otadata sector that is not active, both as they were at entry. */
  lemma {:induction false} SessionConfined(env: Env, d: Device, events: seq<Event>, last: Event, i: nat)
    requires Sound(env, d) && Live(env, d, events) && i < |d.cells|
    requires d.target == ChooseTarget(env.layout, Selected(env.layout, d.cells))
    ensures var before := Run(env, d, NOTHING, events).0;
      var after := Process(env, before, last.frame, last.faults).device.cells;
      |after| == |before.cells| == |d.cells| && (after[i] != d.cells[i] ==> SessionWritable(env, d, i))
    decreases |events|
  {
    var before := Run(env, d, NOTHING, events).0;
    SessionKeepsSelection(env, d, events);
    ProcessEffect(env, before, last.frame, last.faults);
    var o := Process(env, before, last.frame, last.faults);
    WriteConfined(env, before, last.frame, last.faults, o, i);
    if o.device.cells[i] != before.cells[i] {
      WritableInSession(env, d, before, last.frame, i);
    } else if events != [] {
      SessionConfined(env, d, events[..|events| - 1], events[|events| - 1], i);
    }
  }

  lemma WritableInSession(env: Env, d: Device, before: Device, f: Frame, i: nat)
    requires Sound(env, d) && Sound(env, before) && before.target == d.target
    requires ActiveEntry(env.layout, before.cells) == ActiveEntry(env.layout, d.cells)
    requires d.target == ChooseTarget(env.layout, Selected(env.layout, d.cells))
    requires Writable(env, before, f, i)
    ensures SessionWritable(env, d, i)
  {
    hide Selected;
  }

  /** Over every session the slot that boots keeps its contents, up to and including the resetting END. */
  lemma BootSlotUntouched(env: Env, d: Device, events: seq<Event>, last: Event, boot: nat, i: nat)
    requires Sound(env, d) && Live(env, d, events) && i < |d.cells|
    requires d.target == ChooseTarget(env.layout, Selected(env.layout, d.cells))
    requires Selected(env.layout, d.cells) == Some(boot) && boot < |env.layout.slots|
    requires env.layout.slots[boot].Present()
    requires InRange(i, env.layout.slots[boot].offset, env.layout.slots[boot].size)
    ensures var before := Run(env, d, NOTHING, events).0;
      var after := Process(env, before, last.frame, last.faults).device.cells;
      |after| == |d.cells| && after[i] == d.cells[i]
  {
    hide Selected, Process, Live, ActiveEntry;
    SessionConfined(env, d, events, last, i);
  }
}
