/** The AT45DB chip as the driver sees it: main memory, one SRAM buffer and a byte-serial command
    decoder that is reset when the chip is selected and acts when it is deselected. */
module At45 {
  import opened Octets

  datatype Device = AT45DB041B | AT45DB081D | AT45DB161D | AT45DB642D

  datatype Info = Info(densityId: nat, pageSize: nat, pageBits: nat, pageCnt: nat, readCmd: u8)

  const READ_BYTE_D: u8 := 0x0B
  const READ_BYTE_B: u8 := 0xE8
  const WRITE_BUFF1: u8 := 0x84
  const BUFF1_TO_MEM_E: u8 := 0x83
  const MEM_TO_BUFF1: u8 := 0x53
  const READ_STATUS: u8 := 0xD7

  function MemInfo(dev: Device): Info {
    match dev
    case AT45DB041B => Info(0x07, 264, 9, 2048, READ_BYTE_B)
    case AT45DB081D => Info(0x09, 264, 9, 4096, READ_BYTE_D)
    case AT45DB161D => Info(0x0B, 528, 10, 4096, READ_BYTE_D)
    case AT45DB642D => Info(0x0F, 1056, 11, 8192, READ_BYTE_D)
  }

  /** `frame` holds the bytes shifted in since selection, `shifted` counts the bytes shifted out,
      and `busy` is the number of status polls the chip will still answer "busy". */
  datatype Chip = Chip(dev: Device, main: seq<u8>, buffer: seq<u8>,
                       selected: bool, frame: seq<u8>, shifted: nat, busy: nat)
  {
    predicate WellFormed() {
      var info := MemInfo(dev);
      |main| == info.pageSize * info.pageCnt && |buffer| == info.pageSize
    }
  }

  datatype Address = Address(page: nat, offset: nat)

  /** The 24 address bits are, from the top, reserved bits, page number and offset in the page:
      11 + 9, 12 + 9, 12 + 10 and 13 + 11 significant bits on the four devices. */
  function DecodeWord(dev: Device, word: nat): (a: Address)
    ensures a.page < MemInfo(dev).pageCnt
  {
    match dev
    case AT45DB041B => Address(word / 512 % 2048, word % 512)
    case AT45DB081D => Address(word / 512 % 4096, word % 512)
    case AT45DB161D => Address(word / 1024 % 4096, word % 1024)
    case AT45DB642D => Address(word / 2048 % 8192, word % 2048)
  }

  function DecodeAddress(dev: Device, b1: u8, b2: u8, b3: u8): (a: Address)
    ensures a.page < MemInfo(dev).pageCnt
  {
    DecodeWord(dev, (b1 as nat) * 0x10000 + (b2 as nat) * 0x100 + (b3 as nat))
  }

  function FrameAddress(c: Chip): (a: Address)
    requires |c.frame| >= 4
    ensures a.page < MemInfo(c.dev).pageCnt
  {
    DecodeAddress(c.dev, c.frame[1], c.frame[2], c.frame[3])
  }

  /** `m` with the bytes from `at` on replaced by `b`. */
  function Overlay(m: seq<u8>, at: nat, b: seq<u8>): (r: seq<u8>)
    requires at + |b| <= |m|
    ensures |r| == |m|
    ensures forall k :: 0 <= k < |m| ==> r[k] == if at <= k < at + |b| then b[k - at] else m[k]
  {
    m[..at] + b + m[at + |b|..]
  }

  /** Index in main memory of the first byte of a page. */
  function PageStart(dev: Device, page: nat): (at: nat)
    ensures page < MemInfo(dev).pageCnt ==>
              at + MemInfo(dev).pageSize <= MemInfo(dev).pageSize * MemInfo(dev).pageCnt
  {
    match dev
    case AT45DB041B => page * 264
    case AT45DB081D => page * 264
    case AT45DB161D => page * 528
    case AT45DB642D => page * 1056
  }

  /** Addresses past the end start over. */
  function Wrap(x: nat, m: nat): (r: nat)
    requires m > 0
    ensures r < m
    ensures x < m ==> r == x
  {
    if x < m then x else Wrap(x - m, m)
  }

  lemma WrapsAround(x: nat, m: nat)
    requires m > 0
    ensures Wrap(x + m, m) == Wrap(x, m)
  {
  }

  function Select(c: Chip): Chip {
    c.(selected := true, frame := [], shifted := 0)
  }

  /** Releasing the select line starts the transfer commands, which keep the chip busy for `delay` polls. */
  function Deselect(c: Chip, delay: nat): (d: Chip)
    requires c.WellFormed()
    ensures d.WellFormed() && !d.selected && d.dev == c.dev
  {
    var idle := c.(selected := false);
    if !c.selected || |c.frame| < 4 || c.busy > 0 then idle
    else
      var size := MemInfo(c.dev).pageSize;
      var page := FrameAddress(c).page;
      var at := PageStart(c.dev, page);
      if c.frame[0] == MEM_TO_BUFF1 then
        idle.(buffer := c.main[at..at + size], busy := delay)
      else if c.frame[0] == BUFF1_TO_MEM_E then
        idle.(main := Overlay(c.main, at, c.buffer), busy := delay)
      else idle
  }

  /** Releasing the select line may start a transfer. */
  predicate Pending(c: Chip) {
    c.selected && |c.frame| >= 4 && c.busy == 0
  }

  /** A pulse on the reset line ends whatever keeps the chip busy. */
  function Reset(c: Chip): Chip {
    c.(selected := false, frame := [], busy := 0)
  }

  /** Shift one byte in. The bytes after a buffer-write header land in the buffer. */
  function ShiftIn(c: Chip, b: u8): (d: Chip)
    requires c.WellFormed()
    ensures d.WellFormed() && d.dev == c.dev
  {
    if !c.selected then c
    else
      var d := c.(frame := c.frame + [b]);
      if |c.frame| >= 4 && c.frame[0] == WRITE_BUFF1 && c.busy == 0 then
        var at := Wrap(FrameAddress(c).offset + |c.frame| - 4, MemInfo(c.dev).pageSize);
        d.(buffer := c.buffer[at := b])
      else d
  }

  /** Don't-care bytes a continuous array read takes between its address and its data. */
  function DontCare(opcode: u8): nat {
    if opcode == READ_BYTE_B then 4 else 1
  }

  predicate Reading(c: Chip) {
    && c.selected && c.busy == 0
    && |c.frame| >= 4
    && (c.frame[0] == READ_BYTE_B || c.frame[0] == READ_BYTE_D)
    && |c.frame| == 4 + DontCare(c.frame[0])
  }

  /** Bit 7 is set when the chip is idle, bits 2 to 5 give the density. */
  function StatusByte(dev: Device, busy: nat): (stat: u8)
    ensures (stat as nat) / 0x80 % 2 == 1 <==> busy == 0
    ensures (stat as nat) / 4 % 16 == MemInfo(dev).densityId
  {
    Cast8((if busy == 0 then 0x80 else 0) + 4 * MemInfo(dev).densityId)
  }

  /** The byte on the output line: status, or the continuous array running over page ends. */
  function OutByte(c: Chip): u8
    requires c.WellFormed()
  {
    if c.selected && c.frame == [READ_STATUS] then
      StatusByte(c.dev, c.busy)
    else if Reading(c) then
      var a := FrameAddress(c);
      c.main[Wrap(PageStart(c.dev, a.page) + a.offset + c.shifted, |c.main|)]
    else 0xFF
  }

  function ShiftOut(c: Chip): (d: Chip)
    requires c.WellFormed()
    ensures d.WellFormed() && d.dev == c.dev
  {
    var polled := c.selected && c.frame == [READ_STATUS] && c.busy > 0;
    c.(shifted := c.shifted + 1, busy := if polled then c.busy - 1 else c.busy)
  }

  /** The opcodes, as the chip takes them: page to buffer, buffer to page with erase, buffer write, and the
      continuous reads and the status of each kind of device. */
  lemma ChipCommands(c: Chip, page: nat, delay: nat)
    requires c.WellFormed() && c.selected && c.busy == 0 && |c.frame| >= 4 && FrameAddress(c).page == page
    ensures c.frame[0] == 0x53 ==>
              Deselect(c, delay).buffer == c.main[PageStart(c.dev, page)..PageStart(c.dev, page) + |c.buffer|]
    ensures c.frame[0] == 0x83 ==> Deselect(c, delay).main == Overlay(c.main, PageStart(c.dev, page), c.buffer)
    ensures c.frame[0] != 0x53 && c.frame[0] != 0x83 ==> Deselect(c, delay) == c.(selected := false)
    ensures c.frame[0] != 0x84 ==> ShiftIn(c, 0).buffer == c.buffer
    ensures c.frame[0] == 0x84 ==> ShiftIn(c, 0).buffer[Wrap(FrameAddress(c).offset + |c.frame| - 4, |c.buffer|)] == 0
    ensures Reading(c) ==> |c.frame| == if c.frame[0] == 0xE8 then 8 else 5
    ensures MemInfo(c.dev).readCmd == if c.dev == AT45DB041B then 0xE8 else 0x0B
  {
  }

  /** During a buffer write, data byte number `|c.frame| - 4` goes to that distance from the offset. */
  lemma BufferWriteByte(c: Chip, offset: nat, b: u8)
    requires c.WellFormed() && c.selected && c.busy == 0
    requires |c.frame| >= 4 && c.frame[0] == WRITE_BUFF1 && FrameAddress(c).offset == offset
    requires offset + |c.frame| - 4 < MemInfo(c.dev).pageSize
    ensures ShiftIn(c, b) == c.(frame := c.frame + [b], buffer := c.buffer[offset + |c.frame| - 4 := b])
  {
  }

  /** During a continuous read, byte number `shifted` is that far from the addressed byte, in whatever page. */
  lemma ArrayReadByte(c: Chip, page: nat, offset: nat)
    requires c.WellFormed() && Reading(c) && FrameAddress(c) == Address(page, offset)
    requires PageStart(c.dev, page) + offset + c.shifted < |c.main|
    ensures OutByte(c) == c.main[PageStart(c.dev, page) + offset + c.shifted]
    ensures ShiftOut(c) == c.(shifted := c.shifted + 1)
  {
  }

  lemma EndRead(c: Chip, delay: nat)
    requires c.WellFormed() && Reading(c)
    ensures Deselect(c, delay) == c.(selected := false)
  {
  }

  lemma OverlayOneMore(m: seq<u8>, at: nat, b: seq<u8>, x: u8)
    requires at + |b| < |m|
    ensures Overlay(m, at, b)[at + |b| := x] == Overlay(m, at, b + [x])
  {
  }

  lemma OverlayNested(m: seq<u8>, at: nat, b: seq<u8>, k: nat, d: seq<u8>)
    requires at + |b| <= |m| && k + |d| <= |b|
    ensures Overlay(m, at, Overlay(b, k, d)) == Overlay(Overlay(m, at, b), at + k, d)
  {
  }

  lemma OverlayAdjacent(m: seq<u8>, at: nat, a: seq<u8>, b: seq<u8>)
    requires at + |a| + |b| <= |m|
    ensures Overlay(Overlay(m, at, a), at + |a|, b) == Overlay(m, at, a + b)
  {
  }
}
