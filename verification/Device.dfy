/** The update session of the bootloader as a function of its state, one received frame and the flash faults. */
module Device {
  import opened Bytes
  import opened Crc
  import opened Frames
  import opened Flash
  import opened OtaData

  const OK: u16 := 0x0
  const ERR_VERSION: u16 := 0x1
  const ERR_COMMAND: u16 := 0x2
  const ERR_SEQUENCE: u16 := 0x3
  const ERR_LENGTH: u16 := 0x4
  const ERR_STATE: u16 := 0x6
  const ERR_OFFSET: u16 := 0x7
  const ERR_FLASH: u16 := 0x8
  const ERR_IMAGE: u16 := 0x9
  const ERR_HASH: u16 := 0xA

  const RESPONSE_PREFIX: nat := 9
  const MAX_DETAIL: nat := 96
  const BEGIN_PREFIX: nat := 37
  const MAX_VERSION: nat := 32
  const OFFSET_SIZE: nat := 4
  const DIGEST_SIZE: nat := 32
  const FLASH_BLOCK: nat := 0x1_0000

  /** The texts a reply can carry, by the branch that chooses them. */
  datatype Message =
    | NoText | HelloText | InfoText(target: Option<nat>)
    | UnsupportedVersion | HelloSequenceNotZero | UnexpectedSequence | UnsupportedCommand
    | FlashEncryption | TwoSlotsRequired | BeginTruncated | BadSizeOrVersion | EraseFailed
    | BeginRequired | NoImageBytes | UnexpectedOffset | ExceedsImage | NotAligned | WriteFailed
    | EndNotEmpty | NoUpdate | Incomplete | HashFailed | HashMismatch | ImageInvalid | CommitFailed
    | AbortNotEmpty | BootNotEmpty

  /** What the session does not decide itself: the partition table, the hash, the image verifier, the texts. */
  datatype Env = Env(
    layout: Layout,
    encrypted: bool,
    sha256: seq<byte> -> seq<byte>,
    imageLength: seq<byte> -> Option<nat>,
    text: Message -> seq<byte>)

  /** Where and how the flash fails while one frame is processed; a power cut leaves the same cells behind. */
  datatype Faults = Faults(
    erase: Option<BlockFault>,
    write: Option<seq<byte>>,
    hashFails: bool,
    verifyFails: bool,
    commit: CommitFault)

  datatype BlockFault = BlockFault(block: nat, residue: seq<byte>)

  datatype Cached = Cached(command: byte, sequence: u16, crc: u32, reply: seq<byte>)

  /** `iap_bootloader_context_t`, together with the flash it works on. */
  datatype Device = Device(
    cells: seq<byte>,
    target: Option<nat>,
    expected: u16,
    cache: Option<Cached>,
    active: bool,
    imageSize: nat,
    nextOffset: nat,
    digest: seq<byte>)
  {
    function Abandon(): Device {
      this.(active := false, imageSize := 0, nextOffset := 0, digest := seq(DIGEST_SIZE, _ => 0))
    }
  }

  datatype Action = Continue | Boot | Reset

  datatype Handled = Handled(device: Device, status: u16, message: Message)

  /** `executed` is the status of the request, or `None` when it was answered without being executed. */
  datatype Outcome = Outcome(device: Device, sent: seq<byte>, action: Action, executed: Option<u16>)

  // ----- Session start -----

  function Fresh(env: Env, cells: seq<byte>): Device
    requires env.layout.otaInfo + 2 * SECTOR <= |cells|
  {
    Device(cells, ChooseTarget(env.layout, Selected(env.layout, cells)), 0, None, false, 0, 0, seq(DIGEST_SIZE, _ => 0))
  }

  function TargetSlot(env: Env, d: Device): Partition
    requires d.target.Some? && d.target.value < |env.layout.slots|
  {
    env.layout.slots[d.target.value]
  }

  function Slice(cells: seq<byte>, at: nat, n: nat): (s: seq<byte>)
    requires at + n <= |cells|
    ensures |s| == n
  {
    cells[at..at + n]
  }

  /** `iap_bootloader_run`: the first frame decides whether there is a session at all. */
  predicate OpensSession(f: Frame) {
    f.version == PROTOCOL_VERSION && f.command == HELLO && f.sequence == 0
  }

  // ----- Handlers -----

  /** `erase_target_range`: block by block, stopping at the first failing block. */
  function EraseBlocks(cells: seq<byte>, at: nat, n: nat, fault: Option<BlockFault>): (bool, seq<byte>) {
    if fault.None? || fault.value.block * FLASH_BLOCK >= n then (true, Erase(cells, at, n))
    else
      var done := fault.value.block * FLASH_BLOCK;
      (false, Damage(Erase(cells, at, done), at + done, Min(FLASH_BLOCK, n - done), fault.value.residue))
  }

  function BeginUpdate(env: Env, d: Device, f: Frame, x: Faults): Handled
    requires d.target.Some? ==> d.target.value < |env.layout.slots|
  {
    if env.encrypted then Handled(d, ERR_STATE, FlashEncryption)
    else if d.target.None? then Handled(d, ERR_STATE, TwoSlotsRequired)
    else if |f.payload| < BEGIN_PREFIX then Handled(d, ERR_LENGTH, BeginTruncated)
    else
      var slot := TargetSlot(env, d);
      var imageSize := ReadLe32(f.payload, 0);
      var versionLength := f.payload[36];
      if imageSize == 0 || imageSize > slot.size || versionLength > MAX_VERSION
        || |f.payload| != BEGIN_PREFIX + versionLength
      then Handled(d, ERR_LENGTH, BadSizeOrVersion)
      else
        var d1 := d.Abandon();
        if imageSize > U32_MAX - 0xFFF || Sectors(imageSize) > slot.size then Handled(d1, ERR_FLASH, EraseFailed)
        else
          var (ok, cells) := EraseBlocks(d.cells, slot.offset, Sectors(imageSize), x.erase);
          if !ok then Handled(d1.(cells := cells), ERR_FLASH, EraseFailed)
          else Handled(
            d1.(cells := cells, active := true, imageSize := imageSize, digest := f.payload[4..36]), OK, NoText)
  }

  function Padded(data: seq<byte>): (r: seq<byte>)
    ensures |r| == Words(|data|)
  {
    data + seq(Words(|data|) - |data|, _ => ERASED)
  }

  function WriteUpdate(env: Env, d: Device, f: Frame, x: Faults): Handled
    requires d.active ==> d.target.Some? && d.target.value < |env.layout.slots|
  {
    if !d.active then Handled(d, ERR_STATE, BeginRequired)
    else if |f.payload| <= OFFSET_SIZE then Handled(d, ERR_LENGTH, NoImageBytes)
    else
      var data := f.payload[OFFSET_SIZE..];
      if ReadLe32(f.payload, 0) != d.nextOffset then Handled(d, ERR_OFFSET, UnexpectedOffset)
      else if d.nextOffset > d.imageSize || |data| > d.imageSize - d.nextOffset
      then Handled(d, ERR_LENGTH, ExceedsImage)
      else if d.nextOffset + |data| != d.imageSize && |data| % 4 != 0 then Handled(d, ERR_LENGTH, NotAligned)
      else
        var at := TargetSlot(env, d).offset + d.nextOffset;
        if x.write.Some?
        then Handled(d.(cells := Damage(d.cells, at, Words(|data|), x.write.value)), ERR_FLASH, WriteFailed)
        else Handled(d.(cells := Program(d.cells, at, Padded(data)), nextOffset := d.nextOffset + |data|), OK, NoText)
  }

  function FinishUpdate(env: Env, d: Device, f: Frame, x: Faults): Handled
    requires env.layout.otaInfo + 2 * SECTOR <= |d.cells|
    requires d.active ==> d.target.Some? && d.target.value < |env.layout.slots|
    requires d.active ==> d.imageSize <= TargetSlot(env, d).size
    requires d.active ==> TargetSlot(env, d).offset + TargetSlot(env, d).size <= |d.cells|
  {
    if f.payload != [] then Handled(d, ERR_LENGTH, EndNotEmpty)
    else if !d.active then Handled(d, ERR_STATE, NoUpdate)
    else if d.nextOffset != d.imageSize then Handled(d, ERR_LENGTH, Incomplete)
    else if x.hashFails then Handled(d, ERR_FLASH, HashFailed)
    else
      var slot := TargetSlot(env, d);
      if env.sha256(Slice(d.cells, slot.offset, d.imageSize)) != d.digest then Handled(d, ERR_HASH, HashMismatch)
      else if x.verifyFails || env.imageLength(Slice(d.cells, slot.offset, slot.size)) != Some(d.imageSize)
      then Handled(d, ERR_IMAGE, ImageInvalid)
      else
        var c := Commit(env.layout, d.cells, d.target.value, x.commit);
        if !c.ok then Handled(d.(cells := c.cells), ERR_FLASH, CommitFailed)
        else Handled(d.(cells := c.cells, active := false), OK, NoText)
  }

  /** What every handler relies on; it holds in every reachable state. */
  ghost predicate Sound(env: Env, d: Device) {
    && env.layout.WellFormed()
    && |d.cells| == env.layout.flashSize
    && (d.target.Some? ==> d.target.value < |env.layout.slots| && TargetSlot(env, d).Present())
    && (d.active ==> d.target.Some? && 0 < d.imageSize <= U32_MAX && Sectors(d.imageSize) <= TargetSlot(env, d).size)
    && d.nextOffset <= d.imageSize <= U32_MAX
    && (d.active ==> d.nextOffset % 4 == 0 || d.nextOffset == d.imageSize)
    && |d.digest| == DIGEST_SIZE
  }

  ghost function Execute(env: Env, d: Device, f: Frame, x: Faults): (Handled, Action)
    requires Sound(env, d)
  {
    if f.command == HELLO then (Handled(d, OK, HelloText), Continue)
    else if f.command == INFO then (Handled(d, OK, InfoText(d.target)), Continue)
    else if f.command == BEGIN then (BeginUpdate(env, d, f, x), Continue)
    else if f.command == DATA then (WriteUpdate(env, d, f, x), Continue)
    else if f.command == END then
      var h := FinishUpdate(env, d, f, x);
      (h, if h.status == OK then Reset else Continue)
    else if f.command == ABORT then
      if f.payload != [] then (Handled(d, ERR_LENGTH, AbortNotEmpty), Continue)
      else (Handled(d.Abandon(), OK, NoText), Continue)
    else if f.command == BOOT then
      if f.payload != [] then (Handled(d, ERR_LENGTH, BootNotEmpty), Continue)
      else (Handled(d.Abandon(), OK, NoText), Boot)
    else (Handled(d, ERR_COMMAND, UnsupportedCommand), Continue)
  }

  // ----- Replies -----

  function Detail(env: Env, message: Message): (s: seq<byte>)
    ensures |s| <= MAX_DETAIL
  {
    var s := if message == NoText then [] else env.text(message);
    if |s| > MAX_DETAIL then s[..MAX_DETAIL] else s
  }

  function ReplyPayload(status: u16, expected: u16, nextOffset: u32, detail: seq<byte>): (s: seq<byte>)
    requires |detail| <= MAX_DETAIL
    ensures |s| == RESPONSE_PREFIX + |detail|
  {
    Le16(status) + Le16(expected) + Le32(nextOffset) + [|detail|] + detail
  }

  function Reply(command: byte, sequence: u16, status: u16, expected: u16, nextOffset: u32,
                 detail: seq<byte>): (f: Frame)
    requires |detail| <= MAX_DETAIL
    ensures f.Valid()
  {
    Frame(PROTOCOL_VERSION, ResponseCommand(command), sequence, ReplyPayload(status, expected, nextOffset, detail))
  }

  function SendResponse(env: Env, d: Device, f: Frame, status: u16, message: Message): seq<byte>
    requires d.nextOffset <= U32_MAX
  {
    Encode(Reply(f.command, f.sequence, status, d.expected, d.nextOffset, Detail(env, message)))
  }

  // ----- One frame -----

  predicate MatchesLast(d: Device, f: Frame) {
    d.cache.Some? && f.command == d.cache.value.command && f.sequence == d.cache.value.sequence
    && Crc32(f.payload) == d.cache.value.crc
  }

  /** A request is executed in the state in which it was admitted. */
  ghost function Executed(env: Env, d: Device, f: Frame, x: Faults): Outcome
    requires Sound(env, d)
  {
    ExecuteSound(env, d, f, x);
    var (h, action) := Execute(env, d, f, x);
    Conclude(env, f, h, action)
  }

  ghost function Process(env: Env, d: Device, f: Frame, x: Faults): Outcome
    requires Sound(env, d)
  {
    if MatchesLast(d, f) then Outcome(d, d.cache.value.reply, Continue, None)
    else if f.version != PROTOCOL_VERSION then
      Outcome(d, SendResponse(env, d, f, ERR_VERSION, UnsupportedVersion), Continue, None)
    else if f.command == HELLO && f.sequence != 0 then
      Outcome(d, SendResponse(env, d, f, ERR_SEQUENCE, HelloSequenceNotZero), Continue, None)
    else if f.command != HELLO && f.sequence != d.expected then
      Outcome(d, SendResponse(env, d, f, ERR_SEQUENCE, UnexpectedSequence), Continue, None)
    else
      Executed(env, if f.command == HELLO then d.Abandon().(expected := 0, cache := None) else d, f, x)
  }

  /** The end of `process_frame`: a success advances the sequence and fills the cache, a failure does neither. */
  function Conclude(env: Env, f: Frame, h: Handled, action: Action): Outcome
    requires h.device.nextOffset <= U32_MAX
  {
    if h.status != OK then
      Outcome(h.device, SendResponse(env, h.device, f, h.status, h.message), action, Some(h.status))
    else
      var d := h.device.(expected := Next16(h.device.expected));
      var reply := SendResponse(env, d, f, OK, h.message);
      Outcome(d.(cache := Some(Cached(f.command, f.sequence, Crc32(f.payload), reply))), reply, action, Some(OK))
  }

  /** A handler keeps the state sound and never touches the reply cache, the sequence or the target. */
  ghost predicate SoundResult(env: Env, d: Device, h: Handled) {
    Sound(env, h.device) && h.device.target == d.target && h.device.expected == d.expected && h.device.cache == d.cache
  }

  lemma BeginSound(env: Env, d: Device, f: Frame, x: Faults)
    requires Sound(env, d)
    ensures SoundResult(env, d, BeginUpdate(env, d, f, x))
  {
  }

  lemma WriteSound(env: Env, d: Device, f: Frame, x: Faults)
    requires Sound(env, d)
    ensures SoundResult(env, d, WriteUpdate(env, d, f, x))
  {
    if WriteUpdate(env, d, f, x).status == OK {
      StillAligned(d.nextOffset, |f.payload| - OFFSET_SIZE);
    }
  }

  lemma StillAligned(n: nat, length: nat)
    ensures n % 4 == 0 && length % 4 == 0 ==> (n + length) % 4 == 0
  {
    if n % 4 == 0 && length % 4 == 0 {
      assert n + length == 4 * (n / 4 + length / 4);
    }
  }

  lemma FinishSound(env: Env, d: Device, f: Frame, x: Faults)
    requires Sound(env, d)
    ensures SoundResult(env, d, FinishUpdate(env, d, f, x))
  {
  }

  lemma ExecuteSound(env: Env, d: Device, f: Frame, x: Faults)
    requires Sound(env, d)
    ensures SoundResult(env, d, Execute(env, d, f, x).0)
    ensures Execute(env, d, f, x).0.status == OK || Execute(env, d, f, x).1 == Continue
  {
    if f.command == BEGIN {
      BeginSound(env, d, f, x);
    } else if f.command == DATA {
      WriteSound(env, d, f, x);
    } else if f.command == END {
      FinishSound(env, d, f, x);
    }
  }

  lemma FreshSound(env: Env, cells: seq<byte>)
    requires env.layout.WellFormed() && |cells| == env.layout.flashSize
    ensures Sound(env, Fresh(env, cells))
  {
  }

  /** A current request that is not a repetition is executed. */
  lemma ProcessExecutes(env: Env, d: Device, f: Frame, x: Faults)
    requires Sound(env, d) && !MatchesLast(d, f) && f.version == PROTOCOL_VERSION
    requires f.command != HELLO && f.sequence == d.expected
    ensures var (h, action) := Execute(env, d, f, x);
      h.device.nextOffset <= U32_MAX && Process(env, d, f, x) == Conclude(env, f, h, action)
  {
    ExecuteSound(env, d, f, x);
  }

  lemma ProcessHello(env: Env, d: Device, f: Frame, x: Faults)
    requires Sound(env, d) && !MatchesLast(d, f) && f.version == PROTOCOL_VERSION
    requires f.command == HELLO && f.sequence == 0
    ensures Process(env, d, f, x)
      == Conclude(env, f, Handled(d.Abandon().(expected := 0, cache := None), OK, HelloText), Continue)
  {
  }

  lemma ProcessSound(env: Env, d: Device, f: Frame, x: Faults)
    requires Sound(env, d)
    ensures Sound(env, Process(env, d, f, x).device) && Process(env, d, f, x).device.target == d.target
  {
    hide SendResponse, Crc32, BeginUpdate, WriteUpdate, FinishUpdate;
    var d0 := if f.command == HELLO then d.Abandon().(expected := 0, cache := None) else d;
    ExecuteSound(env, d0, f, x);
  }

  // ----- The effect of one frame on the update, without the sequence and the cache -----

  predicate SameUpdate(a: Device, b: Device) {
    a.cells == b.cells && a.target == b.target && a.active == b.active && a.imageSize == b.imageSize
    && a.nextOffset == b.nextOffset && a.digest == b.digest
  }

  ghost predicate HandledAs(o: Outcome, h: Handled) {
    o.executed == Some(h.status) && SameUpdate(o.device, h.device)
  }

  ghost predicate Effect(env: Env, d: Device, f: Frame, x: Faults, o: Outcome)
    requires Sound(env, d)
  {
    if o.executed.None? then SameUpdate(o.device, d) && o.action == Continue
    else if f.command == HELLO then HandledAs(o, Handled(d.Abandon(), OK, HelloText)) && o.action == Continue
    else if f.command == BEGIN then HandledAs(o, BeginUpdate(env, d, f, x)) && o.action == Continue
    else if f.command == DATA then HandledAs(o, WriteUpdate(env, d, f, x)) && o.action == Continue
    else if f.command == END then
      HandledAs(o, FinishUpdate(env, d, f, x)) && o.action == (if o.executed == Some(OK) then Reset else Continue)
    else if f.command == ABORT || f.command == BOOT then
      && o.executed == Some(if f.payload == [] then OK else ERR_LENGTH)
      && SameUpdate(o.device, if f.payload == [] then d.Abandon() else d)
      && (o.action == Boot <==> f.command == BOOT && f.payload == []) && o.action != Reset
    else
      && o.executed == Some(if f.command == INFO then OK else ERR_COMMAND)
      && SameUpdate(o.device, d) && o.action == Continue
  }

  lemma ProcessEffect(env: Env, d: Device, f: Frame, x: Faults)
    requires Sound(env, d)
    ensures Effect(env, d, f, x, Process(env, d, f, x))
  {
    if f.command == HELLO {
      HelloEffect(env, d, f, x);
    } else {
      OtherEffect(env, d, f, x);
    }
  }

  lemma HelloEffect(env: Env, d: Device, f: Frame, x: Faults)
    requires Sound(env, d) && f.command == HELLO
    ensures Effect(env, d, f, x, Process(env, d, f, x))
  {
    hide SendResponse, Crc32, BeginUpdate, WriteUpdate, FinishUpdate;
  }

  lemma OtherEffect(env: Env, d: Device, f: Frame, x: Faults)
    requires Sound(env, d) && f.command != HELLO
    ensures Effect(env, d, f, x, Process(env, d, f, x))
  {
    hide SendResponse, Crc32, BeginUpdate, WriteUpdate, FinishUpdate;
    var o := Process(env, d, f, x);
    if o.executed.Some? {
      var (h, action) := Execute(env, d, f, x);
      assert HandledAs(o, h) && o.action == action;
      ExecuteEffect(env, d, f, x, o);
    }
  }

  lemma ExecuteEffect(env: Env, d: Device, f: Frame, x: Faults, o: Outcome)
    requires Sound(env, d) && f.command != HELLO
    requires HandledAs(o, Execute(env, d, f, x).0) && o.action == Execute(env, d, f, x).1
    ensures Effect(env, d, f, x, o)
  {
  }

  /** A session is left by an executed BOOT, ended by an executed END, and by nothing else. */
  lemma ActionExactly(env: Env, d: Device, f: Frame, x: Faults)
    requires Sound(env, d)
    ensures var o := Process(env, d, f, x);
      && (o.action == Boot <==> f.command == BOOT && o.executed == Some(OK))
      && (o.action == Reset <==> f.command == END && o.executed == Some(OK))
  {
    hide Process, BeginUpdate, WriteUpdate, FinishUpdate;
    ProcessEffect(env, d, f, x);
  }
}
