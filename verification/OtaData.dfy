/** The two otadata entries, the boot selection they encode, and the commit that changes it. */
module OtaData {
  import opened Bytes
  import opened Flash
  import opened Modular

  const ENTRY_SIZE: nat := 32
  const LABEL_SIZE: nat := 20
  const STATE_INVALID: u32 := 3
  const STATE_ABORTED: u32 := 4
  const STATE_UNDEFINED: u32 := U32_MAX

  datatype Partition = Partition(offset: nat, size: nat)
  {
    predicate Present() {
      offset != 0 && size != 0
    }

    predicate Disjoint(other: Partition) {
      offset + size <= other.offset || other.offset + other.size <= offset
    }
  }

  /** The partition table, with the two ESP-IDF checks that stay uninterpreted. */
  datatype Layout = Layout(
    flashSize: nat,
    otaInfo: nat,
    slots: seq<Partition>,
    entryCrc: seq<byte> -> u32)
  {
    /** Application partitions and the two otadata sectors are sector-aligned, disjoint and inside the flash. */
    ghost predicate WellFormed() {
      && flashSize <= 0x1_0000_0000
      && |slots| <= 16
      && otaInfo % SECTOR == 0 && otaInfo + 2 * SECTOR <= flashSize
      && (forall i :: 0 <= i < |slots| && slots[i].Present() ==>
        slots[i].offset % SECTOR == 0 && slots[i].offset + slots[i].size <= flashSize
        && slots[i].Disjoint(Partition(otaInfo, 2 * SECTOR)))
      && (forall i, j :: 0 <= i < j < |slots| && slots[i].Present() && slots[j].Present() ==>
        slots[i].Disjoint(slots[j]))
    }
  }

  // ----- Reading the selection (the ESP-IDF rule) -----

  function EntryAddress(l: Layout, index: nat): nat {
    l.otaInfo + index * SECTOR
  }

  function Entry(l: Layout, cells: seq<byte>, index: nat): (e: seq<byte>)
    requires EntryAddress(l, index) + ENTRY_SIZE <= |cells|
    ensures |e| == ENTRY_SIZE
  {
    cells[EntryAddress(l, index)..EntryAddress(l, index) + ENTRY_SIZE]
  }

  function EntrySequence(e: seq<byte>): u32
    requires |e| == ENTRY_SIZE
  {
    ReadLe32(e, 0)
  }

  function EntryState(e: seq<byte>): u32
    requires |e| == ENTRY_SIZE
  {
    ReadLe32(e, 24)
  }

  predicate EntryValid(l: Layout, e: seq<byte>)
    requires |e| == ENTRY_SIZE
  {
    && EntrySequence(e) != U32_MAX && EntryState(e) != STATE_INVALID && EntryState(e) != STATE_ABORTED
    && ReadLe32(e, 28) == l.entryCrc(e[..4])
  }

  /** The valid entry with the greatest sequence, the first one on a tie. */
  function ActiveEntry(l: Layout, cells: seq<byte>): (active: Option<nat>)
    requires l.otaInfo + 2 * SECTOR <= |cells|
    ensures active.Some? ==> active.value < 2 && EntryValid(l, Entry(l, cells, active.value))
  {
    var e0, e1 := Entry(l, cells, 0), Entry(l, cells, 1);
    if EntryValid(l, e0) && EntryValid(l, e1) then Some(if EntrySequence(e0) >= EntrySequence(e1) then 0 else 1)
    else if EntryValid(l, e0) then Some(0)
    else if EntryValid(l, e1) then Some(1)
    else None
  }

  function ActiveSequence(l: Layout, cells: seq<byte>): Option<u32>
    requires l.otaInfo + 2 * SECTOR <= |cells|
  {
    match ActiveEntry(l, cells)
    case None => None
    case Some(i) => Some(EntrySequence(Entry(l, cells, i)))
  }

  /** The active entry is a valid one with the greatest sequence, the first one on a tie; without a valid entry there
      is none. */
  lemma ActiveIsGreatest(l: Layout, cells: seq<byte>, index: nat)
    requires l.otaInfo + 2 * SECTOR <= |cells| && index < 2
    ensures var active, e := ActiveEntry(l, cells), Entry(l, cells, index);
      && (EntryValid(l, e) ==> active.Some?)
      && (active.Some? ==> EntryValid(l, Entry(l, cells, active.value)))
      && (active.Some? && EntryValid(l, e) ==>
        && EntrySequence(e) <= EntrySequence(Entry(l, cells, active.value))
        && (EntrySequence(e) == EntrySequence(Entry(l, cells, active.value)) ==> active.value <= index))
  {
  }

  /** `(ota_seq - 1) mod app_count`, in 32-bit arithmetic. */
  function SlotOf(sequence: u32, count: nat): nat
    requires count > 0
  {
    (sequence + U32_MAX) % 0x1_0000_0000 % count
  }

  /** The slot that boots next; `None` when no entry is valid and the factory application boots. */
  function Selected(l: Layout, cells: seq<byte>): Option<nat>
    requires l.otaInfo + 2 * SECTOR <= |cells|
  {
    match ActiveSequence(l, cells)
    case None => None
    case Some(sequence) => if |l.slots| == 0 then None else Some(SlotOf(sequence, |l.slots|))
  }

  /** `choose_target`: the slot that does not boot, if the partition table has it. */
  function ChooseTarget(l: Layout, boot: Option<nat>): (target: Option<nat>)
    ensures target.Some? ==> target.value < |l.slots| && l.slots[target.value].Present() && boot != target
  {
    if |l.slots| < 2 then None
    else
      var index := if boot == Some(0) then 1 else 0;
      if l.slots[index].Present() then Some(index) else None
  }

  /** The factory application and every slot but the first update slot 0; slot 0 updates slot 1. */
  lemma TargetTable(l: Layout, boot: nat)
    requires |l.slots| >= 2
    ensures ChooseTarget(l, None) == if l.slots[0].Present() then Some(0) else None
    ensures ChooseTarget(l, Some(0)) == if l.slots[1].Present() then Some(1) else None
    ensures boot > 0 ==> ChooseTarget(l, Some(boot)) == if l.slots[0].Present() then Some(0) else None
  {
  }

  // ----- The sequence arithmetic of `commit_target` -----

  /** The loop of `commit_target` without its overflow guard. */
  function NextSequence(from: nat, active: nat, count: nat): (s: nat)
    requires count > 0
    ensures from <= s && active <= s
    decreases active - from
  {
    if from >= active then from else NextSequence(from + count, active, count)
  }

  lemma SlotOfPositive(sequence: u32, count: nat)
    requires count > 0 && sequence > 0
    ensures SlotOf(sequence, count) == (sequence - 1) % count
  {
    assert (sequence + U32_MAX) % 0x1_0000_0000 == sequence - 1;
  }

  lemma {:induction false} NextSequenceCongruent(from: nat, active: nat, count: nat)
    requires count > 0 && from > 0
    ensures (NextSequence(from, active, count) - 1) % count == (from - 1) % count
    ensures from < active ==> NextSequence(from, active, count) < active + count
    decreases active - from
  {
    if from < active {
      AddModulus(from - 1, count);
      NextSequenceCongruent(from + count, active, count);
    }
  }

  /** The committed sequence is the least one that selects the target and is not below the active one. */
  lemma NextSequenceLeast(target: nat, active: u32, count: nat, other: u32)
    requires target < count
    requires other > 0 && other >= active && SlotOf(other, count) == target
    ensures NextSequence(target + 1, active, count) <= other
  {
    var s := NextSequence(target + 1, active, count);
    NextSequenceCongruent(target + 1, active, count);
    SlotOfPositive(other, count);
    SmallResidue(target, count);
    if other < s && target + 1 < active {
      CloseResiduesDiffer(other - 1, s - 1, count);
    } else if other < s {
      SmallResidue(other - 1, count);
    }
  }

  lemma SmallResidue(a: nat, n: nat)
    requires a < n
    ensures a % n == a
  {
  }

  /** When the target is not the slot that boots now, its sequence is strictly above the active one. */
  lemma NextSequenceSelects(target: nat, active: u32, count: nat)
    requires target < count < U32_MAX && SlotOf(active, count) != target
    ensures var s := NextSequence(target + 1, active, count);
      && active < s
      && (s <= U32_MAX ==> SlotOf(s, count) == target)
      && (active <= U32_MAX - count ==> s < U32_MAX)
  {
    var s := NextSequence(target + 1, active, count);
    NextSequenceCongruent(target + 1, active, count);
    SmallResidue(target, count);
    if s <= U32_MAX {
      SlotOfPositive(s, count);
    }
  }

  /** The sequence is the erased marker exactly when the active one is within one slot count of the top and the
      marker itself selects the target. */
  lemma NextSequenceIsMarker(target: nat, active: u32, count: nat)
    requires target < count < U32_MAX
    ensures NextSequence(target + 1, active, count) == U32_MAX
      <==> active > U32_MAX - count && SlotOf(U32_MAX, count) == target
  {
    var s := NextSequence(target + 1, active, count);
    NextSequenceCongruent(target + 1, active, count);
    SmallResidue(target, count);
    SlotOfPositive(U32_MAX, count);
    if active > U32_MAX - count && SlotOf(U32_MAX, count) == target {
      NextSequenceLeast(target, active, count, U32_MAX);
      if s < U32_MAX {
        CloseResiduesDiffer(s - 1, U32_MAX - 1, count);
      }
    }
  }

  /** The sequence fits 32 bits exactly when some 32-bit sequence that is not below the active one selects the
      target. */
  lemma NextSequenceFits(target: nat, active: u32, count: nat)
    requires target < count < U32_MAX
    ensures NextSequence(target + 1, active, count) <= U32_MAX
      <==> exists other: u32 :: 0 < other && active <= other && SlotOf(other, count) == target
  {
    var s := NextSequence(target + 1, active, count);
    if s <= U32_MAX {
      NextSequenceCongruent(target + 1, active, count);
      SmallResidue(target, count);
      SlotOfPositive(s, count);
    }
    if other: u32 :| 0 < other && active <= other && SlotOf(other, count) == target {
      NextSequenceLeast(target, active, count, other);
    }
  }

  /** The search of `commit_target`: its guard fires exactly when no sequence that selects the target is left. */
  method ChooseSequence(target: nat, active: u32, count: nat) returns (ok: bool, sequence: u32)
    requires 0 < count <= 16 && target < count
    ensures ok <==> exists other: u32 :: 0 < other && active <= other && SlotOf(other, count) == target
    ensures ok <==> NextSequence(target + 1, active, count) <= U32_MAX
    ensures ok ==> sequence == NextSequence(target + 1, active, count)
  {
    NextSequenceFits(target, active, count);
    sequence := target + 1;
    while sequence < active
      invariant NextSequence(sequence, active, count) == NextSequence(target + 1, active, count)
      decreases active - sequence
    {
      if sequence > U32_MAX - count {
        return false, sequence;
      }
      sequence := sequence + count;
    }
    return true, sequence;
  }

  // ----- The commit -----

  /** How the commit ends: by itself, at a failing flash operation, or at a power cut during that operation. */
  datatype CommitFault = Healthy | ReadFails | EraseFails(residue: seq<byte>) | WriteFails(residue: seq<byte>)

  datatype CommitResult = CommitResult(ok: bool, cells: seq<byte>)

  function NextEntry(l: Layout, cells: seq<byte>): (index: nat)
    requires l.otaInfo + 2 * SECTOR <= |cells|
    ensures index < 2
  {
    match ActiveEntry(l, cells)
    case None => 0
    case Some(i) => 1 - i
  }

  function CommitSequence(l: Layout, cells: seq<byte>, target: nat): nat
    requires l.otaInfo + 2 * SECTOR <= |cells| && |l.slots| > 0
  {
    match ActiveSequence(l, cells)
    case None => target + 1
    case Some(active) => NextSequence(target + 1, active, |l.slots|)
  }

  /** The active sequence is within one slot count of the top, and the erased marker selects the target. */
  predicate MarkerIsNext(l: Layout, cells: seq<byte>, target: nat)
    requires l.otaInfo + 2 * SECTOR <= |cells| && |l.slots| > 0
  {
    match ActiveSequence(l, cells)
    case None => false
    case Some(active) => active > U32_MAX - |l.slots| && SlotOf(U32_MAX, |l.slots|) == target
  }

  lemma MarkerExactly(l: Layout, cells: seq<byte>, target: nat)
    requires l.otaInfo + 2 * SECTOR <= |cells| && target < |l.slots| <= 16
    ensures CommitSequence(l, cells, target) == U32_MAX <==> MarkerIsNext(l, cells, target)
  {
    if ActiveSequence(l, cells).Some? {
      NextSequenceIsMarker(target, ActiveSequence(l, cells).value, |l.slots|);
    }
  }

  function NewEntry(l: Layout, sequence: u32): (e: seq<byte>)
    ensures |e| == ENTRY_SIZE
  {
    Le32(sequence) + seq(LABEL_SIZE, _ => ERASED) + Le32(STATE_UNDEFINED) + Le32(l.entryCrc(Le32(sequence)))
  }

  /** Erase the sector of the entry, then program the entry. */
  function EntryWritten(l: Layout, cells: seq<byte>, index: nat, entry: seq<byte>, fault: CommitFault): CommitResult {
    var at := EntryAddress(l, index);
    match fault
    case EraseFails(residue) => CommitResult(false, Damage(cells, at, SECTOR, residue))
    case WriteFails(residue) => CommitResult(false, Damage(Erase(cells, at, SECTOR), at, ENTRY_SIZE, residue))
    case _ => CommitResult(true, Program(Erase(cells, at, SECTOR), at, entry))
  }

  function Commit(l: Layout, cells: seq<byte>, target: nat, fault: CommitFault): CommitResult
    requires l.otaInfo + 2 * SECTOR <= |cells|
  {
    if fault.ReadFails? || |l.slots| == 0 then CommitResult(false, cells)
    else if CommitSequence(l, cells, target) > U32_MAX then CommitResult(false, cells)
    else EntryWritten(l, cells, NextEntry(l, cells), NewEntry(l, CommitSequence(l, cells, target)), fault)
  }

  /** A torn entry does not read as valid; a failed erase may also have left the old entry intact. */
  predicate Benign(l: Layout, cells: seq<byte>, target: nat, fault: CommitFault)
    requires l.otaInfo + 2 * SECTOR <= |cells|
  {
    var next := NextEntry(l, cells);
    var torn := Entry(l, Commit(l, cells, target, fault).cells, next);
    fault.EraseFails? || fault.WriteFails? ==> torn == Entry(l, cells, next) || !EntryValid(l, torn)
  }

  /** A commit succeeds exactly when nothing fails and some 32-bit sequence not below the active one selects the
      target; without a failed erase or write one that does not succeed leaves the flash as it is. */
  lemma CommitSucceedsExactly(l: Layout, cells: seq<byte>, target: nat, fault: CommitFault)
    requires l.otaInfo + 2 * SECTOR <= |cells| && target < |l.slots| <= 16
    ensures var c, active := Commit(l, cells, target, fault), ActiveSequence(l, cells);
      && (c.ok <==>
        && fault.Healthy?
        && (active.None?
          || exists other: u32 :: 0 < other && active.value <= other && SlotOf(other, |l.slots|) == target))
      && (!c.ok && !fault.EraseFails? && !fault.WriteFails? ==> c.cells == cells)
  {
    var active := ActiveSequence(l, cells);
    if active.Some? {
      NextSequenceFits(target, active.value, |l.slots|);
    }
  }

  /** Everything outside the sector of the entry that is not active survives every ending of the commit. */
  lemma CommitTouchesOneSector(l: Layout, cells: seq<byte>, target: nat, fault: CommitFault, i: nat)
    requires l.otaInfo + 2 * SECTOR <= |cells| && i < |cells|
    requires !(EntryAddress(l, NextEntry(l, cells)) <= i < EntryAddress(l, NextEntry(l, cells)) + SECTOR)
    ensures |Commit(l, cells, target, fault).cells| == |cells|
    ensures Commit(l, cells, target, fault).cells[i] == cells[i]
  {
  }

  lemma OtherEntryKept(l: Layout, cells: seq<byte>, target: nat, fault: CommitFault)
    requires l.otaInfo + 2 * SECTOR <= |cells|
    ensures |Commit(l, cells, target, fault).cells| == |cells|
    ensures var other := 1 - NextEntry(l, cells);
      Entry(l, Commit(l, cells, target, fault).cells, other) == Entry(l, cells, other)
  {
    var other := 1 - NextEntry(l, cells);
    var after := Commit(l, cells, target, fault).cells;
    var from := EntryAddress(l, other);
    forall i | from <= i < from + ENTRY_SIZE ensures after[i] == cells[i] {
      CommitTouchesOneSector(l, cells, target, fault, i);
    }
    SliceKept(after, cells, from, from + ENTRY_SIZE);
  }

  lemma NewEntryReads(l: Layout, sequence: u32)
    ensures EntrySequence(NewEntry(l, sequence)) == sequence && EntryState(NewEntry(l, sequence)) == U32_MAX
    ensures EntryValid(l, NewEntry(l, sequence)) <==> sequence != U32_MAX
  {
    var e := NewEntry(l, sequence);
    assert e[0..4] == Le32(sequence) == e[..4];
    assert e[24..28] == Le32(STATE_UNDEFINED);
    assert e[28..32] == Le32(l.entryCrc(Le32(sequence)));
    Le32Inverse(e, 0, sequence);
    Le32Inverse(e, 24, STATE_UNDEFINED);
    Le32Inverse(e, 28, l.entryCrc(Le32(sequence)));
  }

  lemma ErasedEntryInvalid(l: Layout, e: seq<byte>)
    requires |e| == ENTRY_SIZE && forall k :: 0 <= k < 4 ==> e[k] == ERASED
    ensures !EntryValid(l, e)
  {
  }

  lemma CommitWritesEntry(l: Layout, cells: seq<byte>, target: nat, fault: CommitFault)
    requires l.otaInfo + 2 * SECTOR <= |cells| && Commit(l, cells, target, fault).ok
    ensures Entry(l, Commit(l, cells, target, fault).cells, NextEntry(l, cells))
      == NewEntry(l, CommitSequence(l, cells, target))
  {
    var at := EntryAddress(l, NextEntry(l, cells));
    ProgramErased(Erase(cells, at, SECTOR), at, NewEntry(l, CommitSequence(l, cells, target)));
  }

  /** What a successful commit leaves in the sector of the entry that was not active: the sequence, a blank label, the
      undefined state, a checksum that holds, and nothing else. */
  lemma CommittedSector(l: Layout, cells: seq<byte>, target: nat, fault: CommitFault)
    requires l.otaInfo + 2 * SECTOR <= |cells| && Commit(l, cells, target, fault).ok
    ensures |Commit(l, cells, target, fault).cells| == |cells|
    ensures var after, next := Commit(l, cells, target, fault).cells, NextEntry(l, cells);
      var e, at := Entry(l, after, next), EntryAddress(l, next);
      && next == (if ActiveEntry(l, cells) == Some(0) then 1 else 0)
      && EntrySequence(e) == CommitSequence(l, cells, target)
      && (forall k :: 4 <= k < 24 ==> e[k] == 0xFF) && EntryState(e) == U32_MAX
      && ReadLe32(e, 28) == l.entryCrc(e[..4])
      && forall i :: at + ENTRY_SIZE <= i < at + SECTOR ==> after[i] == 0xFF
  {
    hide ActiveEntry, CommitSequence, NewEntry, EntryState, EntrySequence, Commit, NextEntry, Entry;
    NextIsOther(l, cells);
    CommittedRest(l, cells, target, fault);
    CommitWritesEntry(l, cells, target, fault);
    var sequence := CommitSequence(l, cells, target);
    NewEntryReads(l, sequence);
    NewEntryParts(l, sequence);
  }

  lemma NextIsOther(l: Layout, cells: seq<byte>)
    requires l.otaInfo + 2 * SECTOR <= |cells|
    ensures NextEntry(l, cells) == if ActiveEntry(l, cells) == Some(0) then 1 else 0
  {
    hide EntryValid;
  }

  lemma CommittedRest(l: Layout, cells: seq<byte>, target: nat, fault: CommitFault)
    requires l.otaInfo + 2 * SECTOR <= |cells| && Commit(l, cells, target, fault).ok
    ensures |Commit(l, cells, target, fault).cells| == |cells|
    ensures |l.slots| > 0 && CommitSequence(l, cells, target) <= U32_MAX
    ensures var at := EntryAddress(l, NextEntry(l, cells));
      at + SECTOR <= |cells|
      && forall i :: at + ENTRY_SIZE <= i < at + SECTOR ==> Commit(l, cells, target, fault).cells[i] == 0xFF
  {
    hide ActiveEntry, CommitSequence, And, NextEntry, NewEntry;
  }

  lemma NewEntryParts(l: Layout, sequence: u32)
    ensures var e := NewEntry(l, sequence);
      (forall k :: 4 <= k < 24 ==> e[k] == 0xFF) && ReadLe32(e, 28) == l.entryCrc(e[..4])
  {
    var e := NewEntry(l, sequence);
    assert e[..4] == Le32(sequence) && e[28..32] == Le32(l.entryCrc(Le32(sequence)));
    Le32Inverse(e, 28, l.entryCrc(Le32(sequence)));
  }

  /** A cut between the erase and the write is harmless without any assumption: the entry is blank. */
  lemma CutBeforeWriteIsBenign(l: Layout, cells: seq<byte>, target: nat)
    requires l.otaInfo + 2 * SECTOR <= |cells|
    ensures Benign(l, cells, target, WriteFails([]))
  {
    hide ActiveEntry, EntrySequence;
    var next := NextEntry(l, cells);
    var c := Commit(l, cells, target, WriteFails([]));
    if c.cells != cells {
      ErasedEntryInvalid(l, Entry(l, c.cells, next));
    }
  }

  lemma ActiveEntryKept(l: Layout, cells: seq<byte>, after: seq<byte>)
    requires l.otaInfo + 2 * SECTOR <= |cells| == |after|
    requires Entry(l, after, 1 - NextEntry(l, cells)) == Entry(l, cells, 1 - NextEntry(l, cells))
    requires Entry(l, after, NextEntry(l, cells)) == Entry(l, cells, NextEntry(l, cells))
      || !EntryValid(l, Entry(l, after, NextEntry(l, cells)))
    ensures ActiveEntry(l, after) == ActiveEntry(l, cells)
    ensures ActiveSequence(l, after) == ActiveSequence(l, cells)
  {
  }

  /** A commit that fails or is cut short, wherever that happens, leaves the active entry the active entry. */
  lemma FailedCommitKeepsActive(l: Layout, cells: seq<byte>, target: nat, fault: CommitFault)
    requires l.otaInfo + 2 * SECTOR <= |cells|
    requires Benign(l, cells, target, fault) && !Commit(l, cells, target, fault).ok
    ensures |Commit(l, cells, target, fault).cells| == |cells|
    ensures ActiveEntry(l, Commit(l, cells, target, fault).cells) == ActiveEntry(l, cells)
    ensures ActiveSequence(l, Commit(l, cells, target, fault).cells) == ActiveSequence(l, cells)
    ensures Selected(l, Commit(l, cells, target, fault).cells) == Selected(l, cells)
  {
    OtherEntryKept(l, cells, target, fault);
    ActiveEntryKept(l, cells, Commit(l, cells, target, fault).cells);
  }

  lemma CommitSequenceSelects(l: Layout, cells: seq<byte>, target: nat)
    requires l.otaInfo + 2 * SECTOR <= |cells|
    requires target < |l.slots| <= 16 && Selected(l, cells) != Some(target)
    ensures var sequence := CommitSequence(l, cells, target);
      && (ActiveSequence(l, cells).Some? ==> ActiveSequence(l, cells).value < sequence)
      && (sequence <= U32_MAX ==> SlotOf(sequence, |l.slots|) == target)
  {
    if ActiveSequence(l, cells).Some? {
      NextSequenceSelects(target, ActiveSequence(l, cells).value, |l.slots|);
    } else {
      SlotOfPositive(target + 1, |l.slots|);
      SmallResidue(target, |l.slots|);
    }
  }

  lemma SelectionAfterWrite(l: Layout, cells: seq<byte>, after: seq<byte>, sequence: u32)
    requires l.otaInfo + 2 * SECTOR <= |cells| == |after|
    requires Entry(l, after, 1 - NextEntry(l, cells)) == Entry(l, cells, 1 - NextEntry(l, cells))
    requires Entry(l, after, NextEntry(l, cells)) == NewEntry(l, sequence)
    requires ActiveSequence(l, cells).Some? ==> ActiveSequence(l, cells).value < sequence
    ensures ActiveSequence(l, after) == if sequence == U32_MAX then ActiveSequence(l, cells) else Some(sequence)
  {
    NewEntryReads(l, sequence);
  }

  /** A commit that reports success selects the target, unless its sequence would be the erased marker;
      in that one case the old selection stays. */
  lemma SuccessfulCommitSelects(l: Layout, cells: seq<byte>, target: nat, fault: CommitFault)
    requires l.otaInfo + 2 * SECTOR <= |cells|
    requires target < |l.slots| <= 16 && Selected(l, cells) != Some(target)
    requires Commit(l, cells, target, fault).ok
    ensures |Commit(l, cells, target, fault).cells| == |cells|
    ensures Selected(l, Commit(l, cells, target, fault).cells) == Some(target) <==> !MarkerIsNext(l, cells, target)
    ensures MarkerIsNext(l, cells, target) ==>
      Selected(l, Commit(l, cells, target, fault).cells) == Selected(l, cells)
    ensures ActiveSequence(l, Commit(l, cells, target, fault).cells)
      == if MarkerIsNext(l, cells, target) then ActiveSequence(l, cells) else Some(CommitSequence(l, cells, target))
  {
    CommitSequenceSelects(l, cells, target);
    OtherEntryKept(l, cells, target, fault);
    CommitWritesEntry(l, cells, target, fault);
    MarkerExactly(l, cells, target);
    SelectionAfterWrite(l, cells, Commit(l, cells, target, fault).cells, CommitSequence(l, cells, target));
  }

  /** Blank otadata select nothing. */
  lemma BlankSelectsNothing(l: Layout, cells: seq<byte>)
    requires l.otaInfo + 2 * SECTOR <= |cells|
    requires forall i :: l.otaInfo <= i < l.otaInfo + 2 * SECTOR ==> cells[i] == ERASED
    ensures ActiveEntry(l, cells).None?
  {
    BlankEntry(l, cells, 0);
    BlankEntry(l, cells, 1);
  }

  lemma BlankEntry(l: Layout, cells: seq<byte>, index: nat)
    requires index < 2 && l.otaInfo + 2 * SECTOR <= |cells|
    requires forall i :: l.otaInfo <= i < l.otaInfo + 2 * SECTOR ==> cells[i] == ERASED
    ensures !EntryValid(l, Entry(l, cells, index))
  {
    var at := EntryAddress(l, index);
    forall k | 0 <= k < 4 ensures Entry(l, cells, index)[k] == ERASED {
      assert Entry(l, cells, index)[k] == cells[at + k];
    }
    ErasedEntryInvalid(l, Entry(l, cells, index));
  }

  /** Crash atomicity: wherever the commit fails or loses power, the selection is the old one or the target. */
  lemma CommitIsAtomic(l: Layout, cells: seq<byte>, target: nat, fault: CommitFault)
    requires l.otaInfo + 2 * SECTOR <= |cells|
    requires target < |l.slots| <= 16 && Selected(l, cells) != Some(target)
    requires Benign(l, cells, target, fault)
    ensures var after := Commit(l, cells, target, fault);
      && |after.cells| == |cells|
      && Selected(l, after.cells)
        == (if after.ok && !MarkerIsNext(l, cells, target) then Some(target) else Selected(l, cells))
  {
    hide Commit, Benign, ActiveSequence, CommitSequence, MarkerIsNext;
    if Commit(l, cells, target, fault).ok {
      SuccessfulCommitSelects(l, cells, target, fault);
    } else {
      FailedCommitKeepsActive(l, cells, target, fault);
    }
  }

  lemma HealthyCommitSucceeds(l: Layout, cells: seq<byte>, target: nat)
    requires l.otaInfo + 2 * SECTOR <= |cells| && |l.slots| > 0 && CommitSequence(l, cells, target) <= U32_MAX
    ensures Commit(l, cells, target, Healthy).ok
  {
    hide ActiveEntry, Program, Erase, NewEntry;
  }

  lemma OneEntryIsActive(l: Layout, cells: seq<byte>, sequence: u32)
    requires l.otaInfo + 2 * SECTOR <= |cells| && sequence != U32_MAX
    requires Entry(l, cells, 0) == NewEntry(l, sequence) && !EntryValid(l, Entry(l, cells, 1))
    ensures ActiveSequence(l, cells) == Some(sequence)
  {
    hide NewEntry, EntryValid, EntrySequence;
    NewEntryReads(l, sequence);
  }

  /** At the top of the range a healthy commit reports success and selects nothing: slot 1 boots with the last
      sequence but one, and the sequence that would select the target, slot 0, is the erased marker. */
  lemma MarkerIsLost(l: Layout, cells: seq<byte>)
    requires l.otaInfo + 2 * SECTOR <= |cells| && |l.slots| == 2 && l.slots[0].Present()
    requires ActiveSequence(l, cells) == Some(U32_MAX - 1)
    ensures Selected(l, cells) == Some(1) && ChooseTarget(l, Selected(l, cells)) == Some(0)
    ensures Commit(l, cells, 0, Healthy).ok
    ensures |Commit(l, cells, 0, Healthy).cells| == |cells|
    ensures Selected(l, Commit(l, cells, 0, Healthy).cells) == Some(1)
  {
    hide ActiveEntry, ActiveSequence, Commit, NewEntry, NextSequence;
    LastSequences();
    MarkerExactly(l, cells, 0);
    HealthyCommitSucceeds(l, cells, 0);
    SuccessfulCommitSelects(l, cells, 0, Healthy);
  }

  const SMALL_LAYOUT: Layout := Layout(0x8000, 0x1000, [Partition(0x4000, 0x1000), Partition(0x5000, 0x1000)], _ => 0)

  /** Such a state exists. */
  lemma MarkerIsReachable() returns (cells: seq<byte>)
    ensures SMALL_LAYOUT.WellFormed() && |cells| == SMALL_LAYOUT.flashSize
    ensures Selected(SMALL_LAYOUT, cells) == Some(1)
    ensures ChooseTarget(SMALL_LAYOUT, Selected(SMALL_LAYOUT, cells)) == Some(0)
    ensures var c := Commit(SMALL_LAYOUT, cells, 0, Healthy);
      c.ok && |c.cells| == |cells| && Selected(SMALL_LAYOUT, c.cells) == Some(1)
  {
    hide ActiveEntry, ActiveSequence, Commit, NewEntry, Selected, And;
    var l := SMALL_LAYOUT;
    var blank: seq<byte> := seq(0x8000, _ => ERASED);
    cells := Program(blank, 0x1000, NewEntry(l, U32_MAX - 1));
    ProgramErased(blank, 0x1000, NewEntry(l, U32_MAX - 1));
    ErasedEntryInvalid(l, Entry(l, cells, 1));
    OneEntryIsActive(l, cells, U32_MAX - 1);
    MarkerIsLost(l, cells);
  }

  lemma LastSequences()
    ensures SlotOf(U32_MAX - 1, 2) == 1 && SlotOf(U32_MAX, 2) == 0
  {
  }

  // ----- Repeated updates of an A/B pair -----

  function OtherSlot(slot: nat): nat {
    if slot == 0 then 1 else 0
  }

  /** The flash after a number of sessions that each commit the slot chosen at their start. */
  function AfterUpdates(l: Layout, cells: seq<byte>, updates: nat): (after: seq<byte>)
    requires l.otaInfo + 2 * SECTOR <= |cells|
    ensures |after| == |cells|
    decreases updates
  {
    if updates == 0 then cells
    else
      var before := AfterUpdates(l, cells, updates - 1);
      match ChooseTarget(l, Selected(l, before))
      case None => before
      case Some(target) => OtherEntryKept(l, before, target, Healthy); Commit(l, before, target, Healthy).cells
  }

  /** The active sequence, counting blank otadata as zero. */
  function Updates(l: Layout, cells: seq<byte>): u32
    requires l.otaInfo + 2 * SECTOR <= |cells|
  {
    match ActiveSequence(l, cells)
    case None => 0
    case Some(active) => active
  }

  lemma NextOfTwo(active: u32)
    requires active < U32_MAX
    ensures NextSequence(OtherSlot(SlotOf(active, 2)) + 1, active, 2) == active + 1
    ensures SlotOf(active + 1, 2) == OtherSlot(SlotOf(active, 2))
  {
    var target := OtherSlot(SlotOf(active, 2));
    SlotOfPositive(active + 1, 2);
    if active > 0 {
      SlotOfPositive(active, 2);
    }
    NextSequenceSelects(target, active, 2);
    NextSequenceLeast(target, active, 2, active + 1);
  }

  /** One update of a pair: the commit succeeds, counts up by one, and selects the other slot. */
  lemma OneUpdate(l: Layout, cells: seq<byte>)
    requires l.otaInfo + 2 * SECTOR <= |cells|
    requires |l.slots| == 2 && l.slots[0].Present() && l.slots[1].Present() && Updates(l, cells) + 1 < U32_MAX
    ensures var target := ChooseTarget(l, Selected(l, cells));
      && target.Some?
      && Commit(l, cells, target.value, Healthy).ok
      && |Commit(l, cells, target.value, Healthy).cells| == |cells|
      && ActiveSequence(l, Commit(l, cells, target.value, Healthy).cells) == Some(Updates(l, cells) + 1)
      && target.value == SlotOf(Updates(l, cells) + 1, 2)
  {
    hide ActiveEntry, EntryWritten, Entry, NewEntry;
    NextOfTwo(Updates(l, cells));
    var target := ChooseTarget(l, Selected(l, cells)).value;
    MarkerExactly(l, cells, target);
    HealthyCommitSucceeds(l, cells, target);
    SuccessfulCommitSelects(l, cells, target, Healthy);
  }

  /** With two slots, updates count up by one from wherever they start, blank otadata included; each selects the
      slot that did not boot before it. */
  lemma {:induction false} UpdatesAlternate(l: Layout, cells: seq<byte>, updates: nat)
    requires l.otaInfo + 2 * SECTOR <= |cells|
    requires |l.slots| == 2 && l.slots[0].Present() && l.slots[1].Present()
    requires 0 < updates && Updates(l, cells) + updates < U32_MAX
    ensures var before, after := AfterUpdates(l, cells, updates - 1), AfterUpdates(l, cells, updates);
      && ActiveSequence(l, after) == Some(Updates(l, cells) + updates)
      && Selected(l, after) == Some(SlotOf(Updates(l, cells) + updates, 2)) == ChooseTarget(l, Selected(l, before))
      && Selected(l, after) != Selected(l, before)
    decreases updates
  {
    hide ActiveEntry, ActiveSequence, Commit;
    if updates > 1 {
      UpdatesAlternate(l, cells, updates - 1);
      UpdatesOfActive(l, AfterUpdates(l, cells, updates - 1));
    }
    var before := AfterUpdates(l, cells, updates - 1);
    OneUpdate(l, before);
  }

  lemma UpdatesOfActive(l: Layout, cells: seq<byte>)
    requires l.otaInfo + 2 * SECTOR <= |cells| && ActiveSequence(l, cells).Some?
    ensures Updates(l, cells) == ActiveSequence(l, cells).value
  {
    hide ActiveEntry;
  }
}
