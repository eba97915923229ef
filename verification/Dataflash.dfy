/** The driver: a flat byte file kept in the chip's pages with one write-back page buffer. */
module Dataflash {
  import opened Common
  import opened Octets
  import opened At45

  const BUSY_BIT: nat := 0x80

  // ---- address bytes ----------------------------------------------------------------------

  function AddressByte1(dev: Device, page: nat): u8 {
    var bits := MemInfo(dev).pageBits;
    Cast8(Shr(page, 16 - bits))
  }

  function AddressByte2(dev: Device, page: nat, offset: nat): u8 {
    var bits := MemInfo(dev).pageBits;
    Cast8(Shl(page, bits - 8) + Shr(offset, 8))
  }

  function AddressByte3(offset: nat): u8 {
    Cast8(offset)
  }

  lemma ShlValues(x: nat)
    ensures Shl(x, 1) == x * 2 && Shl(x, 2) == x * 4 && Shl(x, 3) == x * 8
  {
    assert Shl(x, 2) == 2 * Shl(x, 1) && Shl(x, 3) == 2 * Shl(x, 2);
  }

  /** Bits of the address word the page number is shifted by: 2 to the `pageBits`. */
  function Span(dev: Device): nat {
    match dev
    case AT45DB041B => 512
    case AT45DB081D => 512
    case AT45DB161D => 1024
    case AT45DB642D => 2048
  }

  function Word(b1: u8, b2: u8, b3: u8): nat {
    (b1 as nat) * 0x10000 + (b2 as nat) * 0x100 + (b3 as nat)
  }

  lemma SentPage(dev: Device, page: nat)
    ensures Span(dev) == 512 ==> AddressByte1(dev, page) as nat == page / 128 % 256
    ensures Span(dev) == 1024 ==> AddressByte1(dev, page) as nat == page / 64 % 256
    ensures Span(dev) == 2048 ==> AddressByte1(dev, page) as nat == page / 32 % 256
  {
    ShrValues(page);
  }

  lemma SentOffset(dev: Device, page: nat, offset: nat)
    ensures Span(dev) == 512 ==> AddressByte2(dev, page, offset) as nat == (page * 2 + offset / 256) % 256
    ensures Span(dev) == 1024 ==> AddressByte2(dev, page, offset) as nat == (page * 4 + offset / 256) % 256
    ensures Span(dev) == 2048 ==> AddressByte2(dev, page, offset) as nat == (page * 8 + offset / 256) % 256
  {
    ShrValues(offset);
    ShlValues(page);
  }

  lemma SentWord(dev: Device, page: nat, offset: nat)
    requires page < MemInfo(dev).pageCnt
    requires offset < MemInfo(dev).pageSize
    ensures Word(AddressByte1(dev, page), AddressByte2(dev, page, offset), AddressByte3(offset))
         == page * Span(dev) + offset
  {
    SentPage(dev, page);
    SentOffset(dev, page, offset);
    match dev {
      case AT45DB041B => Recombine9(page, offset);
      case AT45DB081D => Recombine9(page, offset);
      case AT45DB161D => Recombine10(page, offset);
      case AT45DB642D => Recombine11(page, offset);
    }
  }

  lemma Recombine9(page: nat, offset: nat)
    requires page < 4096 && offset < 264
    ensures (page / 128 % 256) * 0x10000 + ((page * 2 + offset / 256) % 256) * 0x100 + offset % 256
         == page * 512 + offset
  {
  }

  lemma Recombine10(page: nat, offset: nat)
    requires page < 4096 && offset < 528
    ensures (page / 64 % 256) * 0x10000 + ((page * 4 + offset / 256) % 256) * 0x100 + offset % 256
         == page * 1024 + offset
  {
  }

  lemma Recombine11(page: nat, offset: nat)
    requires page < 8192 && offset < 1056
    ensures (page / 32 % 256) * 0x10000 + ((page * 8 + offset / 256) % 256) * 0x100 + offset % 256
         == page * 2048 + offset
  {
  }

  lemma ReceivedWord(dev: Device, word: nat, page: nat, offset: nat)
    requires page < MemInfo(dev).pageCnt
    requires offset < MemInfo(dev).pageSize
    requires word == page * Span(dev) + offset
    ensures DecodeWord(dev, word) == Address(page, offset)
  {
    hide DecodeWord;
    match dev {
      case AT45DB041B => Received512(dev, page, offset);
      case AT45DB081D => Received512(dev, page, offset);
      case AT45DB161D => Received1024(page, offset);
      case AT45DB642D => Received2048(page, offset);
    }
  }

  lemma Received512(dev: Device, page: nat, offset: nat)
    requires Span(dev) == 512 && page < MemInfo(dev).pageCnt && offset < 512
    ensures DecodeWord(dev, page * 512 + offset) == Address(page, offset)
  {
    SplitWord512(page, offset);
    SmallModulo(page, 2048);
    SmallModulo(page, 4096);
  }

  lemma Received1024(page: nat, offset: nat)
    requires page < 4096 && offset < 1024
    ensures DecodeWord(AT45DB161D, page * 1024 + offset) == Address(page, offset)
  {
    SplitWord1024(page, offset);
    SmallModulo(page, 4096);
  }

  lemma Received2048(page: nat, offset: nat)
    requires page < 8192 && offset < 2048
    ensures DecodeWord(AT45DB642D, page * 2048 + offset) == Address(page, offset)
  {
    SplitWord2048(page, offset);
    SmallModulo(page, 8192);
  }

  lemma SmallModulo(x: nat, m: nat)
    requires m > 0
    ensures x < m ==> x % m == x
  {
  }

  lemma SplitWord512(page: nat, offset: nat)
    requires offset < 512
    ensures (page * 512 + offset) / 512 == page && (page * 512 + offset) % 512 == offset
  {
  }

  lemma SplitWord1024(page: nat, offset: nat)
    requires offset < 1024
    ensures (page * 1024 + offset) / 1024 == page && (page * 1024 + offset) % 1024 == offset
  {
  }

  lemma SplitWord2048(page: nat, offset: nat)
    requires offset < 2048
    ensures (page * 2048 + offset) / 2048 == page && (page * 2048 + offset) % 2048 == offset
  {
  }

  /** The three bytes the driver sends are decoded by the chip to the page and offset meant. */
  lemma AddressRoundTrip(dev: Device, page: nat, offset: nat)
    requires page < MemInfo(dev).pageCnt
    requires offset < MemInfo(dev).pageSize
    ensures DecodeAddress(dev, AddressByte1(dev, page), AddressByte2(dev, page, offset), AddressByte3(offset))
         == Address(page, offset)
  {
    SentWord(dev, page, offset);
    ReceivedWord(dev, page * Span(dev) + offset, page, offset);
  }

  // ---- the flat file ----------------------------------------------------------------------

  /** What the file holds: main memory overlaid by the buffer on the page it caches. */
  ghost function Overlaid(c: Chip, page: nat): (f: seq<u8>)
    requires c.WellFormed() && page < MemInfo(c.dev).pageCnt
    ensures |f| == |c.main|
  {
    Overlay(c.main, PageStart(c.dev, page), c.buffer)
  }

  ghost function PageOf(c: Chip, page: nat): (p: seq<u8>)
    requires c.WellFormed() && page < MemInfo(c.dev).pageCnt
    ensures |p| == MemInfo(c.dev).pageSize
  {
    c.main[PageStart(c.dev, page)..PageStart(c.dev, page) + MemInfo(c.dev).pageSize]
  }

  lemma CachedPage(c: Chip, page: nat)
    requires c.WellFormed() && page < MemInfo(c.dev).pageCnt && c.buffer == PageOf(c, page)
    ensures Overlaid(c, page) == c.main
  {
  }

  lemma SamePage(c: Chip, d: Chip, page: nat)
    requires c.WellFormed() && d.WellFormed() && page < MemInfo(c.dev).pageCnt
    requires c.dev == d.dev && c.main == d.main
    ensures PageOf(c, page) == PageOf(d, page)
  {
  }

  predicate IsReady(stat: u8) {
    (stat as nat) / BUSY_BIT % 2 == 1
  }

  datatype Whence = SeekSet | SeekCur | SeekEnd

  function SeekBase(whence: Whence, pos: int, size: nat): int {
    match whence
    case SeekSet => 0
    case SeekCur => pos
    case SeekEnd => size
  }

  // ---- the reference: a flat byte file ----

  datatype FlatFile = FlatFile(bytes: seq<u8>, pos: int)

  datatype Call =
    | CallRead(count: nat)
    | CallWrite(data: seq<u8>)
    | CallSeek(offset: int, whence: Whence)
    | CallFlush
    | CallClose
    | CallReopen

  datatype Reply = Bytes(bytes: seq<u8>) | Count(n: nat) | Position(pos: int) | Done

  /** Reading and writing need a position inside the file. */
  predicate Allowed(f: FlatFile, call: Call) {
    call.CallRead? || call.CallWrite? ==> 0 <= f.pos <= |f.bytes|
  }

  function Step(f: FlatFile, call: Call): (FlatFile, Reply)
    requires Allowed(f, call)
  {
    match call
    case CallRead(count) =>
      var got: nat := Min(count, |f.bytes| - f.pos);
      (f.(pos := f.pos + got), Bytes(f.bytes[f.pos..f.pos + got]))
    case CallWrite(data) =>
      var got: nat := Min(|data|, |f.bytes| - f.pos);
      (FlatFile(Overlay(f.bytes, f.pos, data[..got]), f.pos + got), Count(got))
    case CallSeek(offset, whence) =>
      var pos := SeekBase(whence, f.pos, |f.bytes|) + offset;
      (f.(pos := pos), Position(pos))
    case CallFlush => (f, Done)
    case CallClose => (f, Done)
    case CallReopen => (f.(pos := 0), Done)
  }

  predicate Admissible(f: FlatFile, calls: seq<Call>)
    decreases |calls|
  {
    calls == [] || (Allowed(f, calls[0]) && Admissible(Step(f, calls[0]).0, calls[1..]))
  }

  function Final(f: FlatFile, calls: seq<Call>): FlatFile
    requires Admissible(f, calls)
    decreases |calls|
  {
    if calls == [] then f else Final(Step(f, calls[0]).0, calls[1..])
  }

  function Replies(f: FlatFile, calls: seq<Call>): seq<Reply>
    requires Admissible(f, calls)
    decreases |calls|
  {
    if calls == [] then [] else [Step(f, calls[0]).1] + Replies(Step(f, calls[0]).0, calls[1..])
  }

  lemma {:induction false} QuietKeepsBytes(f: FlatFile, calls: seq<Call>)
    requires Admissible(f, calls)
    requires forall i :: 0 <= i < |calls| ==> !calls[i].CallWrite?
    ensures Final(f, calls).bytes == f.bytes
    decreases |calls|
  {
    if calls == [] {
    } else {
      QuietKeepsBytes(Step(f, calls[0]).0, calls[1..]);
    }
  }

  lemma {:induction false} RepliesAppend(f: FlatFile, a: seq<Call>, b: seq<Call>)
    requires Admissible(f, a) && Admissible(Final(f, a), b)
    ensures Admissible(f, a + b) && Final(f, a + b) == Final(Final(f, a), b)
    ensures Replies(f, a + b) == Replies(f, a) + Replies(Final(f, a), b)
    decreases |a|
  {
    hide Step;
    if a == [] {
      assert a + b == b;
    } else {
      RepliesAppend(Step(f, a[0]).0, a[1..], b);
      assert (a + b)[1..] == a[1..] + b;
    }
  }

  /** A seek replies the position it leaves: from the start, from the position, or back from the end.
      Reopening goes back to the start; flushing and closing leave file and position alone. */
  lemma CallsReply(f: FlatFile, k: int)
    requires 0 <= k && 0 <= f.pos <= |f.bytes|
    ensures Step(f, CallSeek(k, SeekSet)) == (f.(pos := k), Position(k))
    ensures Step(f, CallSeek(k, SeekCur)) == (f.(pos := f.pos + k), Position(f.pos + k))
    ensures Step(f, CallSeek(-k, SeekCur)) == (f.(pos := f.pos - k), Position(f.pos - k))
    ensures Step(f, CallSeek(-k, SeekEnd)) == (f.(pos := |f.bytes| - k), Position(|f.bytes| - k))
    ensures Step(f, CallFlush) == Step(f, CallClose) == (f, Done)
    ensures Step(f, CallReopen) == (FlatFile(f.bytes, 0), Done)
  {
  }

  /** A write that fits replaces its bytes and is counted whole; one that does not is a write of what fits. */
  lemma WriteReply(f: FlatFile, data: seq<u8>)
    requires 0 <= f.pos <= |f.bytes|
    ensures var (g, reply) := Step(f, CallWrite(data)); var end := f.pos + |data|;
            if end <= |f.bytes| then
              reply == Count(|data|) && g.pos == end && g.bytes == f.bytes[..f.pos] + data + f.bytes[end..]
            else
              Step(f, CallWrite(data)) == Step(f, CallWrite(data[..|f.bytes| - f.pos]))
  {
    var left := |f.bytes| - f.pos;
    if |data| <= left {
      assert data[..|data|] == data;
    } else {
      assert data[..left][..left] == data[..left];
    }
  }

  lemma RepliesCons(f: FlatFile, call: Call, rest: seq<Call>)
    requires Allowed(f, call) && Admissible(Step(f, call).0, rest)
    ensures Admissible(f, [call] + rest)
    ensures Replies(f, [call] + rest) == [Step(f, call).1] + Replies(Step(f, call).0, rest)
    ensures Final(f, [call] + rest) == Final(Step(f, call).0, rest)
  {
    hide Step;
    assert ([call] + rest)[1..] == rest;
  }

  /** A read that reaches past the end replies what is left. */
  lemma ReadReply(f: FlatFile, k: int)
    requires 0 <= k && 0 <= f.pos <= |f.bytes|
    ensures f.pos + k <= |f.bytes| ==>
              Step(f, CallRead(k)) == (f.(pos := f.pos + k), Bytes(f.bytes[f.pos..f.pos + k]))
    ensures f.pos + k >= |f.bytes| ==>
              Step(f, CallRead(k)) == (f.(pos := |f.bytes|), Bytes(f.bytes[f.pos..]))
  {
    assert f.bytes[f.pos..|f.bytes|] == f.bytes[f.pos..];
  }

  /** Reading, seeking back from the position by what was read, and reading again gives the same bytes. */
  lemma ReadAgain(f: FlatFile, k: int)
    requires 0 <= k && 0 <= f.pos && f.pos + k <= |f.bytes|
    ensures var calls := [CallRead(k), CallSeek(-k, SeekCur), CallRead(k)];
            var b := f.bytes[f.pos..f.pos + k];
            && Admissible(f, calls)
            && Replies(f, calls) == [Bytes(b), Position(f.pos), Bytes(b)]
  {
    hide Step;
    var g := f.(pos := f.pos + k);
    var again := [CallSeek(-k, SeekCur)] + ([CallRead(k)] + []);
    ReadReply(f, k);
    CallsReply(g, k);
    RepliesCons(f, CallRead(k), []);
    RepliesCons(g, CallSeek(-k, SeekCur), [CallRead(k)] + []);
    RepliesCons(f, CallRead(k), again);
    assert [CallRead(k), CallSeek(-k, SeekCur), CallRead(k)] == [CallRead(k)] + again;
  }

  /** Seeking to k before the end and reading k bytes gives the last k. */
  lemma ReadTail(f: FlatFile, k: int)
    requires 0 <= k && 0 <= f.pos <= |f.bytes| && k <= |f.bytes|
    ensures var calls := [CallSeek(-k, SeekEnd), CallRead(k)];
            && Admissible(f, calls)
            && Replies(f, calls) == [Position(|f.bytes| - k), Bytes(f.bytes[|f.bytes| - k..])]
  {
    hide Step;
    var g := f.(pos := |f.bytes| - k);
    CallsReply(f, k);
    ReadReply(g, k);
    assert g.bytes[g.pos..g.pos + k] == f.bytes[|f.bytes| - k..];
    RepliesCons(g, CallRead(k), []);
    RepliesCons(f, CallSeek(-k, SeekEnd), [CallRead(k)] + []);
    assert [CallSeek(-k, SeekEnd), CallRead(k)] == [CallSeek(-k, SeekEnd)] + ([CallRead(k)] + []);
  }

  function ReadBack(pos: int, count: nat): seq<Call> {
    [CallSeek(pos, SeekSet), CallRead(count)]
  }

  lemma ReadBackReplies(f: FlatFile, pos: int, count: nat)
    requires 0 <= pos && pos + count <= |f.bytes|
    ensures Admissible(f, ReadBack(pos, count))
    ensures Replies(f, ReadBack(pos, count)) == [Position(pos), Bytes(f.bytes[pos..pos + count])]
  {
    var calls := ReadBack(pos, count);
    var g := f.(pos := pos);
    assert calls[1..] == [CallRead(count)] && calls[1..][1..] == [];
    assert Step(f, calls[0]) == (g, Position(pos));
    assert Step(g, CallRead(count)).1 == Bytes(f.bytes[pos..pos + count]);
    assert Admissible(g, calls[1..]) && Replies(g, calls[1..]) == [Bytes(f.bytes[pos..pos + count])];
  }

  /** What is written inside the file is read back, whatever flushes, reopens, seeks and reads
      come between. */
  lemma WriteReadBack(f: FlatFile, data: seq<u8>, between: seq<Call>)
    requires 0 <= f.pos && f.pos + |data| <= |f.bytes|
    requires Admissible(f, [CallWrite(data)] + between)
    requires forall i :: 0 <= i < |between| ==> !between[i].CallWrite?
    ensures var calls := [CallWrite(data)] + between + ReadBack(f.pos, |data|);
            && Admissible(f, calls) && |Replies(f, calls)| > 0
            && Replies(f, calls)[|Replies(f, calls)| - 1] == Bytes(data)
  {
    var first := [CallWrite(data)] + between;
    assert first[1..] == between;
    var written := Step(f, CallWrite(data)).0;
    QuietKeepsBytes(written, between);
    assert data[..|data|] == data;
    assert written.bytes[f.pos..f.pos + |data|] == data;
    ReadBackReplies(Final(f, first), f.pos, |data|);
    RepliesAppend(f, first, ReadBack(f.pos, |data|));
  }

  lemma Released(c: Chip, delay: nat)
    requires c.WellFormed()
    ensures Deselect(c, delay).main == Deselect(c, 0).main
    ensures !Pending(c) ==> Deselect(c, delay) == c.(selected := false)
  {
  }

  lemma PageBytes(dev: Device, page: nat)
    ensures PageStart(dev, page) == page * MemInfo(dev).pageSize
  {
  }

  /** The page part of an address is as wide as a page needs, and no wider. */
  lemma SpanFitsPage(dev: Device)
    ensures Span(dev) == Shl(1, MemInfo(dev).pageBits)
    ensures MemInfo(dev).pageSize <= Span(dev) < 2 * MemInfo(dev).pageSize
  {
    assert Shl(1, 3) == 8;
    assert Shl(1, 6) == 64;
    assert Shl(1, 9) == 512;
  }

  /** Bytes on each device. */
  lemma Capacities()
    ensures MemInfo(AT45DB041B).pageSize * MemInfo(AT45DB041B).pageCnt == 540672
    ensures MemInfo(AT45DB081D).pageSize * MemInfo(AT45DB081D).pageCnt == 1081344
    ensures MemInfo(AT45DB161D).pageSize * MemInfo(AT45DB161D).pageCnt == 2162688
    ensures MemInfo(AT45DB642D).pageSize * MemInfo(AT45DB642D).pageCnt == 8650752
  {
  }

  lemma DensityIsDevice(a: Device, b: Device)
    requires MemInfo(a).densityId == MemInfo(b).densityId
    ensures a == b
  {
  }

  lemma TakeDrop(f: seq<u8>, at: nat, n: nat)
    requires at + n <= |f|
    ensures f[at..][..n] == f[at..at + n]
  {
  }

  lemma OverlayNothing(m: seq<u8>, at: nat)
    requires at <= |m|
    ensures Overlay(m, at, []) == m
  {
  }

  /** The chip after the header of a buffer write and the bytes `b`. */
  ghost function Written(header: Chip, offset: nat, b: seq<u8>): Chip
    requires offset + |b| <= |header.buffer|
  {
    header.(frame := header.frame + b, buffer := Overlay(header.buffer, offset, b))
  }

  lemma WrittenNothing(header: Chip, offset: nat)
    requires offset <= |header.buffer|
    ensures Written(header, offset, []) == header
  {
    assert header.frame + [] == header.frame;
    OverlayNothing(header.buffer, offset);
  }

  lemma WrittenOneMore(header: Chip, offset: nat, b: seq<u8>, x: u8)
    requires header.WellFormed() && header.selected && header.busy == 0
    requires |header.frame| == 4 && header.frame[0] == WRITE_BUFF1 && FrameAddress(header).offset == offset
    requires offset + |b| < |header.buffer|
    ensures ShiftIn(Written(header, offset, b), x) == Written(header, offset, b + [x])
  {
    BufferWriteByte(Written(header, offset, b), offset, x);
    OverlayOneMore(header.buffer, offset, b, x);
    Associate(header.frame, b, [x]);
  }

  class DataFlash {
    var chip: Chip
    var dev: Device
    var currentPage: nat
    var pageDirty: bool
    var seekPos: int
    var size: nat

    ghost predicate Ready()
      reads this
    {
      chip.WellFormed() && chip.dev == dev && !chip.selected && chip.busy == 0
    }

    /** The select line may still be held after a status read, and the chip may be busy. */
    ghost predicate Quiet()
      reads this
    {
      chip.WellFormed() && chip.dev == dev && (chip.selected ==> |chip.frame| < 4)
    }

    /** Not dirty implies the buffer equals the page it caches. */
    ghost predicate Valid()
      reads this
    {
      && Ready()
      && size == |chip.main|
      && currentPage < MemInfo(dev).pageCnt
      && (!pageDirty ==> chip.buffer == PageOf(chip, currentPage))
    }

    ghost predicate InRange()
      reads this
    {
      0 <= seekPos <= size
    }

    ghost function Contents(): (f: seq<u8>)
      requires Valid()
      reads this
      ensures |f| == size
    {
      Overlaid(chip, currentPage)
    }

    constructor (c: Chip, d: Device)
      ensures chip == c && dev == d && currentPage == 0 && !pageDirty && seekPos == 0 && size == 0
    {
      chip := c;
      dev := d;
      currentPage, pageDirty, seekPos, size := 0, false, 0, 0;
    }

    // ---- channel ----

    method SetCS(on: bool)
      requires chip.WellFormed()
      modifies this`chip
      ensures on ==> chip == Select(old(chip))
      ensures !on ==> chip == Deselect(old(chip), chip.busy)
    {
      if on {
        chip := Select(chip);
      } else {
        var delay: nat := *;
        chip := Deselect(chip, delay);
      }
    }

    method SendCmd(page: nat, offset: nat, opcode: u8)
      requires Quiet()
      modifies this`chip
      ensures chip == old(chip).(selected := true, shifted := 0,
                frame := [opcode, AddressByte1(dev, page), AddressByte2(dev, page, offset), AddressByte3(offset)])
    {
      SetCS(false);
      SetCS(true);
      chip := ShiftIn(chip, opcode);
      chip := ShiftIn(chip, AddressByte1(dev, page));
      chip := ShiftIn(chip, AddressByte2(dev, page, offset));
      chip := ShiftIn(chip, AddressByte3(offset));
    }

    method Stat() returns (stat: u8)
      requires chip.WellFormed() && (chip.selected ==> |chip.frame| < 4)
      modifies this`chip
      ensures chip.WellFormed() && chip.selected && chip.frame == [READ_STATUS]
      ensures chip.dev == old(chip.dev) && chip.main == old(chip.main) && chip.buffer == old(chip.buffer)
      ensures chip.busy == if old(chip.busy) == 0 then 0 else old(chip.busy) - 1
      ensures stat == StatusByte(chip.dev, old(chip.busy))
    {
      SetCS(false);
      SetCS(true);
      chip := ShiftIn(chip, READ_STATUS);
      stat := OutByte(chip);
      chip := ShiftOut(chip);
    }

    /** Poll the status register until the chip reports it is idle. */
    method Await() returns (stat: u8)
      requires chip.WellFormed() && (chip.selected ==> |chip.frame| < 4)
      modifies this`chip
      ensures chip.WellFormed() && chip.selected && chip.frame == [READ_STATUS] && chip.busy == 0
      ensures chip.dev == old(chip.dev) && chip.main == old(chip.main) && chip.buffer == old(chip.buffer)
      ensures stat == StatusByte(chip.dev, 0)
    {
      ghost var left := chip.busy;
      stat := Stat();
      while !IsReady(stat)
        invariant chip.WellFormed() && chip.selected && chip.frame == [READ_STATUS]
        invariant chip.dev == old(chip.dev) && chip.main == old(chip.main) && chip.buffer == old(chip.buffer)
        invariant stat == StatusByte(chip.dev, left) && chip.busy == if left == 0 then 0 else left - 1
        decreases left
      {
        left := chip.busy;
        stat := Stat();
      }
      stat := Stat();
    }

    /** A transfer, and the wait for its end; a chip that is still busy ignores the transfer. */
    method Command(page: nat, offset: nat, opcode: u8) returns (stat: u8)
      requires Quiet()
      requires page < MemInfo(dev).pageCnt && offset < MemInfo(dev).pageSize
      requires opcode == MEM_TO_BUFF1 || opcode == BUFF1_TO_MEM_E
      modifies this`chip
      ensures Ready()
      ensures old(chip.busy) > 0 || opcode == MEM_TO_BUFF1 ==> chip.main == old(chip.main)
      ensures old(chip.busy) > 0 || opcode == BUFF1_TO_MEM_E ==> chip.buffer == old(chip.buffer)
      ensures old(chip.busy) == 0 && opcode == MEM_TO_BUFF1 ==> chip.buffer == old(PageOf(chip, page))
      ensures old(chip.busy) == 0 && opcode == BUFF1_TO_MEM_E ==> chip.main == old(Overlaid(chip, page))
      ensures stat == StatusByte(dev, 0)
    {
      SendCmd(page, offset, opcode);
      AddressRoundTrip(dev, page, offset);
      SetCS(false);
      SetCS(true);
      stat := Await();
      SetCS(false);
    }

    /** The command part of a block read; the data bytes follow. */
    method BeginRead(page: nat, offset: nat)
      requires Ready()
      modifies this`chip
      ensures chip.WellFormed() && Reading(chip) && chip.shifted == 0 && chip.frame[0] != WRITE_BUFF1
      ensures chip.dev == dev && chip.main == old(chip.main) && chip.buffer == old(chip.buffer)
      ensures page < MemInfo(dev).pageCnt && offset < MemInfo(dev).pageSize ==>
                FrameAddress(chip) == Address(page, offset)
    {
      var opcode := MemInfo(dev).readCmd;
      SendCmd(page, offset, opcode);
      if opcode == READ_BYTE_B {
        chip := ShiftIn(ShiftIn(ShiftIn(chip, 0), 0), 0);
      }
      chip := ShiftIn(chip, 0);
      if page < MemInfo(dev).pageCnt && offset < MemInfo(dev).pageSize {
        AddressRoundTrip(dev, page, offset);
      }
    }

    method ReadBlock(page: nat, offset: nat, block: array<u8>, len: nat)
      requires Ready()
      requires len <= block.Length
      requires len > 0 ==> page < MemInfo(dev).pageCnt && offset < MemInfo(dev).pageSize
                           && PageStart(dev, page) + offset + len <= |chip.main|
      modifies this`chip, block
      ensures Ready() && chip.main == old(chip.main) && chip.buffer == old(chip.buffer)
      ensures len > 0 ==> block[..len] == chip.main[PageStart(dev, page) + offset..][..len]
      ensures block[len..] == old(block[len..])
    {
      BeginRead(page, offset);
      ghost var header := chip;
      for k := 0 to len
        invariant chip == header.(shifted := k)
        invariant forall j :: 0 <= j < k ==> block[j] == header.main[PageStart(dev, page) + offset + j]
        invariant forall j :: k <= j < block.Length ==> block[j] == old(block[j])
      {
        ArrayReadByte(chip, page, offset);
        block[k] := OutByte(chip);
        chip := ShiftOut(chip);
      }
      EndRead(chip, chip.busy);
      SetCS(false);
    }

    method WriteBlock(offset: nat, data: array<u8>, from: nat, len: nat)
      requires Ready()
      requires offset < MemInfo(dev).pageSize && offset + len <= MemInfo(dev).pageSize
      requires from + len <= data.Length
      modifies this`chip
      ensures Ready() && chip.main == old(chip.main)
      ensures chip.buffer == Overlay(old(chip.buffer), offset, data[from..from + len])
    {
      SendCmd(0x00, offset, WRITE_BUFF1);
      AddressRoundTrip(dev, 0, offset);
      ghost var header := chip;
      assert data[from..from] == [];
      WrittenNothing(header, offset);
      for k := 0 to len
        invariant chip == Written(header, offset, data[from..from + k])
      {
        hide Written;
        WrittenOneMore(header, offset, data[from..from + k], data[from + k]);
        assert data[from..from + k + 1] == data[from..from + k] + [data[from + k]];
        chip := ShiftIn(chip, data[from + k]);
      }
      SetCS(false);
    }

    method LoadPage(page: nat)
      requires Quiet() && page < MemInfo(dev).pageCnt
      modifies this`chip
      ensures Ready() && chip.main == old(chip.main)
      ensures chip.buffer == if old(chip.busy) == 0 then old(PageOf(chip, page)) else old(chip.buffer)
    {
      var _ := Command(page, 0x00, MEM_TO_BUFF1);
    }

    // ---- file interface ----

    /** Fails, leaving an empty file, exactly when the chip is not the configured device. `pulse` says
        whether there is a reset line; `released` is the chip once the select line is let go, which may
        have started a transfer. Without a reset line, a chip that is then busy for longer than the status
        read takes ignores the load, and the driver is right only if the buffer is page 0 by chance. */
    method Init(pulse: bool) returns (ok: bool, ghost released: Chip)
      requires chip.WellFormed()
      modifies this
      ensures released == Deselect(old(chip), released.busy)
      ensures released.WellFormed() && released.dev == old(chip.dev)
      ensures !Pending(old(chip)) ==> released == old(chip).(selected := false)
      ensures dev == old(dev) && chip.main == released.main == old(Deselect(chip, 0)).main
      ensures ok <==> old(chip.dev) == dev
      ensures ok ==> Ready() && InRange() && size == |chip.main| && currentPage == 0 && !pageDirty && seekPos == 0
      ensures ok ==> (Valid() <==> pulse || released.busy <= 1 || released.buffer == PageOf(released, 0))
      ensures ok && Valid() ==> Contents() == chip.main
      ensures ok && !Valid() ==> chip.buffer == released.buffer
      ensures !ok ==> size == 0 && seekPos == 0
    {
      hide Deselect, Pending, PageStart, Overlaid;
      currentPage, pageDirty, seekPos, size := 0, false, 0, 0;
      released := ResetChip(pulse);
      ok := Probe();
      if !ok {
        return;
      }
      size := MemInfo(dev).pageSize * MemInfo(dev).pageCnt;
      LoadPage(currentPage);
      if Valid() { CachedPage(chip, currentPage); }
    }

    /** Lets go of the select line, and gives the reset pulse if there is a line for it. */
    method ResetChip(pulse: bool) returns (ghost released: Chip)
      requires chip.WellFormed()
      modifies this`chip
      ensures released == Deselect(old(chip), released.busy) && released.main == old(Deselect(chip, 0)).main
      ensures released.WellFormed() && released.dev == old(chip.dev) && !released.selected
      ensures !Pending(old(chip)) ==> released == old(chip).(selected := false)
      ensures chip == if pulse then Reset(released) else released
    {
      hide Deselect, Pending;
      SetCS(false);
      Released(old(chip), chip.busy);
      released := chip;
      if pulse {
        chip := Reset(chip);
      }
    }

    /** Is this the configured device? */
    method Probe() returns (ok: bool)
      requires chip.WellFormed() && !chip.selected
      modifies this`chip
      ensures ok <==> chip.dev == dev
      ensures chip.WellFormed() && chip.selected && |chip.frame| < 4
      ensures chip.dev == old(chip.dev) && chip.main == old(chip.main) && chip.buffer == old(chip.buffer)
      ensures chip.busy == if old(chip.busy) == 0 then 0 else old(chip.busy) - 1
    {
      var stat := Stat();
      ok := (stat as nat) / 4 % 16 == MemInfo(dev).densityId;
      if ok { DensityIsDevice(chip.dev, dev); }
    }

    /** Sets any position: it is the caller who keeps it inside the file. */
    method Seek(offset: int, whence: Whence) returns (pos: int)
      modifies this`seekPos
      ensures pos == seekPos
      ensures seekPos == offset + if whence == SeekSet then 0 else if whence == SeekCur then old(seekPos) else size
    {
      seekPos := SeekBase(whence, seekPos, size) + offset;
      pos := seekPos;
    }

    /** Afterwards main memory alone holds the file. */
    method Flush()
      requires Valid()
      modifies this`chip, this`pageDirty
      ensures Valid() && !pageDirty
      ensures Contents() == old(Contents()) && chip.main == Contents()
    {
      if pageDirty {
        var _ := Command(currentPage, 0x00, BUFF1_TO_MEM_E);
        pageDirty := false;
      }
    }

    method Close()
      requires Valid()
      modifies this`chip, this`pageDirty
      ensures Valid() && !pageDirty
      ensures Contents() == old(Contents()) && chip.main == Contents()
    {
      Flush();
    }

    method Reopen()
      requires Valid()
      modifies this`chip, this`pageDirty, this`currentPage, this`seekPos
      ensures Valid() && InRange() && !pageDirty && seekPos == 0
      ensures Contents() == old(Contents()) && chip.main == Contents()
    {
      hide PageStart, Overlaid;
      Close();
      currentPage := 0;
      seekPos := 0;
      LoadPage(currentPage);
      CachedPage(chip, currentPage);
    }

    method Locate(pos: nat) returns (page: nat, offset: nat)
      requires MemInfo(dev).pageSize > 0
      ensures pos == PageStart(dev, page) + offset
      ensures offset < MemInfo(dev).pageSize
      ensures pos < MemInfo(dev).pageSize * MemInfo(dev).pageCnt ==> page < MemInfo(dev).pageCnt
    {
      page := pos / MemInfo(dev).pageSize;
      offset := pos % MemInfo(dev).pageSize;
      match dev {
        case AT45DB041B =>
        case AT45DB081D =>
        case AT45DB161D =>
        case AT45DB642D =>
      }
    }

    method Read(buf: array<u8>, count: nat) returns (got: nat)
      requires Valid() && InRange()
      requires count <= buf.Length
      modifies this`chip, this`pageDirty, this`seekPos, buf
      ensures Valid() && InRange()
      ensures Contents() == old(Contents())
      ensures got == Min(count, size - old(seekPos)) && seekPos == old(seekPos) + got
      ensures buf[..got] == Contents()[old(seekPos)..old(seekPos) + got]
      ensures buf[got..] == old(buf[got..])
    {
      hide PageStart, Overlaid, PageOf;
      got := Min(count, size - seekPos);
      var page, offset := Locate(seekPos);
      Flush();
      ghost var file, before := Contents(), chip;
      TakeDrop(file, seekPos, got);
      ReadBlock(page, offset, buf, got);
      SamePage(before, chip, currentPage);
      CachedPage(chip, currentPage);
      assert Contents() == file && buf[..got] == file[seekPos..seekPos + got];
      seekPos := seekPos + got;
    }

    /** Make `newPage` the cached page, saving the one it replaces. */
    method SwitchPage(newPage: nat)
      requires Valid() && newPage < MemInfo(dev).pageCnt
      modifies this`chip, this`pageDirty, this`currentPage
      ensures Valid() && currentPage == newPage
      ensures Contents() == old(Contents())
    {
      if newPage != currentPage {
        Flush();
        LoadPage(newPage);
        currentPage := newPage;
      }
    }

    /** Write in the cached page. */
    method WriteCached(offset: nat, data: array<u8>, from: nat, len: nat)
      requires Valid() && offset < MemInfo(dev).pageSize && offset + len <= MemInfo(dev).pageSize
      requires from + len <= data.Length
      modifies this`chip, this`pageDirty
      ensures Valid() && PageStart(dev, currentPage) + offset + len <= size
      ensures Contents() == Overlay(old(Contents()), PageStart(dev, currentPage) + offset, data[from..from + len])
    {
      hide PageStart;
      ghost var page := chip.buffer;
      WriteBlock(offset, data, from, len);
      pageDirty := true;
      OverlayNested(chip.main, PageStart(dev, currentPage), page, offset, data[from..from + len]);
    }

    /** One pass of the write loop: bring in the page at `seekPos` and write up to its end. */
    method WriteInPage(data: array<u8>, from: nat, left: nat) returns (wrLen: nat)
      requires Valid() && 0 <= seekPos
      requires 0 < left <= size - seekPos && from + left <= data.Length
      modifies this`chip, this`pageDirty, this`currentPage, this`seekPos
      ensures Valid()
      ensures 0 < wrLen <= left && seekPos == old(seekPos) + wrLen
      ensures Contents() == Overlay(old(Contents()), old(seekPos), data[from..from + wrLen])
    {
      hide PageStart, Overlay, Overlaid, MemInfo;
      var newPage, offset := Locate(seekPos);
      wrLen := Min(left, MemInfo(dev).pageSize - offset);
      SwitchPage(newPage);
      WriteCached(offset, data, from, wrLen);
      seekPos := seekPos + wrLen;
    }

    method Write(data: array<u8>, count: nat) returns (total: nat)
      requires Valid() && InRange()
      requires count <= data.Length
      modifies this`chip, this`pageDirty, this`currentPage, this`seekPos
      ensures Valid() && InRange()
      ensures total == Min(count, size - old(seekPos)) && seekPos == old(seekPos) + total
      ensures Contents() == Overlay(old(Contents()), old(seekPos), data[..total])
    {
      hide Overlay, PageStart;
      total := 0;
      OverlayNothing(Contents(), seekPos);
      assert data[..0] == [];
      var left: nat := Min(count, size - seekPos);
      ghost var goal := left;
      while left > 0
        invariant Valid() && InRange()
        invariant total + left == goal && seekPos == old(seekPos) + total
        invariant Contents() == Overlay(old(Contents()), old(seekPos), data[..total])
      {
        var wrLen := WriteInPage(data, total, left);
        OverlayAdjacent(old(Contents()), old(seekPos), data[..total], data[total..total + wrLen]);
        assert data[..total] + data[total..total + wrLen] == data[..total + wrLen];
        left := left - wrLen;
        total := total + wrLen;
      }
    }

    /** Over every admissible sequence of calls the driver is indistinguishable from a flat file. */
    method Run(calls: seq<Call>) returns (replies: seq<Reply>)
      requires Valid() && Admissible(FlatFile(Contents(), seekPos), calls)
      modifies this`chip, this`pageDirty, this`currentPage, this`seekPos
      ensures Valid()
      ensures FlatFile(Contents(), seekPos) == Final(old(FlatFile(Contents(), seekPos)), calls)
      ensures replies == Replies(old(FlatFile(Contents(), seekPos)), calls)
    {
      hide Step;
      replies := [];
      ghost var start := FlatFile(Contents(), seekPos);
      for i := 0 to |calls|
        invariant Valid() && Admissible(FlatFile(Contents(), seekPos), calls[i..])
        invariant Final(FlatFile(Contents(), seekPos), calls[i..]) == Final(start, calls)
        invariant replies + Replies(FlatFile(Contents(), seekPos), calls[i..]) == Replies(start, calls)
      {
        assert calls[i..][0] == calls[i] && calls[i..][1..] == calls[i + 1..];
        var reply := Serve(calls[i]);
        replies := replies + [reply];
      }
    }

    /** Calls without a write, through the driver. */
    method RunQuiet(calls: seq<Call>) returns (replies: seq<Reply>)
      requires Valid() && Admissible(FlatFile(Contents(), seekPos), calls)
      requires forall i :: 0 <= i < |calls| ==> !calls[i].CallWrite?
      modifies this`chip, this`pageDirty, this`currentPage, this`seekPos
      ensures Valid() && Contents() == old(Contents())
    {
      QuietKeepsBytes(FlatFile(Contents(), seekPos), calls);
      replies := Run(calls);
    }

    /** A write, calls without one, and a read of the same range, through the driver. */
    method RunReadBack(data: seq<u8>, between: seq<Call>) returns (back: Reply)
      requires Valid() && InRange() && seekPos + |data| <= size
      requires Admissible(FlatFile(Contents(), seekPos), [CallWrite(data)] + between)
      requires forall i :: 0 <= i < |between| ==> !between[i].CallWrite?
      modifies this`chip, this`pageDirty, this`currentPage, this`seekPos
      ensures Valid() && back == Bytes(data)
    {
      WriteReadBack(FlatFile(Contents(), seekPos), data, between);
      var replies := Run([CallWrite(data)] + between + ReadBack(seekPos, |data|));
      back := replies[|replies| - 1];
    }

    method ServeRead(count: nat) returns (reply: Reply)
      requires Valid() && InRange()
      modifies this`chip, this`pageDirty, this`currentPage, this`seekPos
      ensures Valid()
      ensures (FlatFile(Contents(), seekPos), reply) == Step(old(FlatFile(Contents(), seekPos)), CallRead(count))
    {
      var buf := new u8[count];
      var got := Read(buf, count);
      reply := Bytes(buf[..got]);
    }

    method ServeWrite(data: seq<u8>) returns (reply: Reply)
      requires Valid() && InRange()
      modifies this`chip, this`pageDirty, this`currentPage, this`seekPos
      ensures Valid()
      ensures (FlatFile(Contents(), seekPos), reply) == Step(old(FlatFile(Contents(), seekPos)), CallWrite(data))
    {
      var buf := new u8[|data|](i requires 0 <= i < |data| => data[i]);
      assert buf[..] == data;
      var got := Write(buf, |data|);
      reply := Count(got);
    }

    method Serve(call: Call) returns (reply: Reply)
      requires Valid() && Allowed(FlatFile(Contents(), seekPos), call)
      modifies this`chip, this`pageDirty, this`currentPage, this`seekPos
      ensures Valid()
      ensures (FlatFile(Contents(), seekPos), reply) == Step(old(FlatFile(Contents(), seekPos)), call)
    {
      match call {
        case CallRead(count) =>
          reply := ServeRead(count);
        case CallWrite(data) =>
          reply := ServeWrite(data);
        case CallSeek(offset, whence) =>
          var pos := Seek(offset, whence);
          reply := Position(pos);
        case CallFlush =>
          Flush();
          reply := Done;
        case CallClose =>
          Close();
          reply := Done;
        case CallReopen =>
          Reopen();
          reply := Done;
      }
    }
  }
  /** A chip of the smallest device, its memory blank and its buffer not, still busy for two polls. */
  ghost function BusyChip(): (c: Chip)
    ensures c.WellFormed() && !Pending(c) && c.dev == AT45DB041B && c.busy == 2
  {
    Chip(AT45DB041B, seq(264 * 2048, _ => 0), seq(264, _ => 1), false, [], 0, 2)
  }

  lemma BusyChipIsStale(c: Chip)
    requires c == BusyChip().(selected := false)
    ensures c.buffer != PageOf(c, 0)
  {
    assert c.buffer[0] != PageOf(c, 0)[0];
  }

  /** Set-up of this chip without a reset line reports success and leaves a driver that is not right. */
  method SetUpBusy(fd: DataFlash) returns (ok: bool)
    requires fd.chip == BusyChip() && fd.dev == AT45DB041B
    modifies fd
    ensures ok && fd.Ready() && !fd.Valid()
    ensures fd.chip.buffer != PageOf(fd.chip, 0)
  {
    hide BusyChip, Deselect, Pending;
    ghost var released;
    ok, released := fd.Init(false);
    BusyChipIsStale(released);
  }
}
