/**
 The UF2 side of util/uf2conv.py: packing an image into 512-byte blocks and unpacking
 them again, laid out as in the UF2 file format specification (Microsoft), section
 "File format".

 `Decode` follows `convert_from_uf2` with its exceptions as errors.  The round trip is
 proved for any run of blocks with consecutive addresses, which covers both encoders.
 */
module Uf2 {
  import opened Bytes

  const MAGIC0: nat := 0x0A324655
  const MAGIC1: nat := 0x9E5D5157
  const MAGIC_END: nat := 0x0AB16F30
  const WORD: nat := 0x1_0000_0000
  const CHUNK: nat := 256
  const BLOCK: nat := 512
  const MAX_PAYLOAD: nat := 476
  const MAX_GAP: nat := 10 * 1024 * 1024

  datatype Option<T> = None | Some(value: T)
  datatype Result<T> = Ok(value: T) | Err(error: Error)

  /** The decoder's messages add a string and a number, so that each of its errors ends in a Python TypeError, as does
      a gap in the output list; Overflow is the exception of `struct.pack`. */
  datatype Error = BadMagic | BadSize | OutOfOrder | GapTooLarge | GapUnaligned | GapInOutput | Overflow

  // ---- little-endian words ----

  function Pack(v: nat): (w: seq<Byte>)
    requires v < WORD
    ensures |w| == 4
  {
    [v % 256, v / 256 % 256, v / 65536 % 256, v / 16777216]
  }

  function Unpack(w: seq<Byte>): nat
    requires |w| == 4
  {
    var a: nat, b: nat, c: nat, d: nat := w[0], w[1], w[2], w[3];
    a + 256 * b + 65536 * c + 16777216 * d
  }

  lemma UnpackPack(v: nat)
    requires v < WORD
    ensures Unpack(Pack(v)) == v
  {
    var b, c, d := v / 256, v / 65536, v / 16777216;
    assert v == 256 * b + v % 256;
    assert b == 256 * c + b % 256;
    assert c == 256 * d + c % 256;
  }

  function Zeros(n: nat): (z: seq<Byte>)
    ensures |z| == n
  {
    seq(n, _ => 0)
  }

  // ---- blocks ----

  function Flags(family: nat): nat {
    if family != 0 then 0x2000 else 0
  }

  datatype Header = Header(magic0: nat, magic1: nat, flags: nat, addr: nat, size: nat, number: nat, count: nat, family: nat) {
    predicate Fits() {
      magic0 < WORD && magic1 < WORD && flags < WORD && addr < WORD && size < WORD && number < WORD && count < WORD && family < WORD
    }
  }

  function PackHeader(h: Header): (s: seq<Byte>)
    requires h.Fits()
    ensures |s| == 32
  {
    Pack(h.magic0) + Pack(h.magic1) + Pack(h.flags) + Pack(h.addr) + Pack(h.size) + Pack(h.number) + Pack(h.count) + Pack(h.family)
  }

  function UnpackHeader(s: seq<Byte>): Header
    requires |s| >= 32
  {
    Header(Unpack(s[0..4]), Unpack(s[4..8]), Unpack(s[8..12]), Unpack(s[12..16]),
           Unpack(s[16..20]), Unpack(s[20..24]), Unpack(s[24..28]), Unpack(s[28..32]))
  }

  lemma UnpackPackHeader(h: Header, rest: seq<Byte>)
    requires h.Fits()
    ensures UnpackHeader(PackHeader(h) + rest) == h
  {
    var s := PackHeader(h) + rest;
    assert s[0..4] == Pack(h.magic0);
    assert s[4..8] == Pack(h.magic1);
    assert s[8..12] == Pack(h.flags);
    assert s[12..16] == Pack(h.addr);
    assert s[16..20] == Pack(h.size);
    assert s[20..24] == Pack(h.number);
    assert s[24..28] == Pack(h.count);
    assert s[28..32] == Pack(h.family);
    UnpackPack(h.magic0);
    UnpackPack(h.magic1);
    UnpackPack(h.flags);
    UnpackPack(h.addr);
    UnpackPack(h.size);
    UnpackPack(h.number);
    UnpackPack(h.count);
    UnpackPack(h.family);
  }

  function HeaderOf(addr: nat, number: nat, count: nat, family: nat): Header {
    Header(MAGIC0, MAGIC1, Flags(family), addr, CHUNK, number, count, family)
  }

  /** One 512-byte block with 256 bytes of payload. */
  function PackBlock(addr: nat, number: nat, count: nat, family: nat, payload: seq<Byte>): (b: seq<Byte>)
    requires addr < WORD && number < WORD && count < WORD && family < WORD && |payload| == CHUNK
    ensures |b| == BLOCK
  {
    PackHeader(HeaderOf(addr, number, count, family)) + payload + Zeros(220) + Pack(MAGIC_END)
  }

  /** A 256-byte page of the image and its address (class `Block`). */
  datatype Page = Page(addr: nat, bytes: seq<Byte>)

  predicate Packable(pages: seq<Page>, family: nat) {
    && family < WORD && |pages| < WORD
    && forall i :: 0 <= i < |pages| ==> pages[i].addr < WORD && |pages[i].bytes| == CHUNK
  }

  /** The block of each page. */
  function BlocksOf(pages: seq<Page>, family: nat): (bs: seq<seq<Byte>>)
    requires Packable(pages, family)
    ensures |bs| == |pages| && forall k :: 0 <= k < |bs| ==> |bs[k]| == BLOCK
  {
    seq(|pages|, k requires 0 <= k < |pages| => PackBlock(pages[k].addr, k, |pages|, family, pages[k].bytes))
  }

  function Flat(blocks: seq<seq<Byte>>, n: nat): (f: seq<Byte>)
    requires n <= |blocks| && forall k :: 0 <= k < |blocks| ==> |blocks[k]| == BLOCK
    ensures |f| == BLOCK * n
  {
    if n == 0 then [] else Flat(blocks, n - 1) + blocks[n - 1]
  }

  /** The first `n` blocks of the file for `pages`. */
  function PackPages(pages: seq<Page>, n: nat, family: nat): (f: seq<Byte>)
    requires Packable(pages, family) && n <= |pages|
    ensures |f| == BLOCK * n
  {
    Flat(BlocksOf(pages, family), n)
  }

  lemma {:induction false} BlockOfFlat(blocks: seq<seq<Byte>>, n: nat, k: nat)
    requires k < n <= |blocks| && forall i :: 0 <= i < |blocks| ==> |blocks[i]| == BLOCK
    ensures Flat(blocks, n)[BLOCK * k..BLOCK * k + BLOCK] == blocks[k]
  {
    if k < n - 1 {
      BlockOfFlat(blocks, n - 1, k);
    }
    SliceOfConcat(Flat(blocks, n - 1), blocks[n - 1], BLOCK * k, BLOCK);
  }

  lemma BlockOfFile(pages: seq<Page>, n: nat, family: nat, k: nat)
    requires Packable(pages, family) && k < n <= |pages|
    ensures PackPages(pages, n, family)[BLOCK * k..BLOCK * k + BLOCK] ==
            PackBlock(pages[k].addr, k, |pages|, family, pages[k].bytes)
  {
    BlockOfFlat(BlocksOf(pages, family), n, k);
  }

  lemma SliceOfConcat(a: seq<Byte>, b: seq<Byte>, i: nat, len: nat)
    ensures i + len <= |a| ==> (a + b)[i..i + len] == a[i..i + len]
    ensures i == |a| && len == |b| ==> (a + b)[i..i + len] == b
  {
  }

  // ---- decoding ----

  /** An element of the output list: a chunk of bytes, or a bare 0 that padding put there. */
  datatype Item = Chunk(bytes: seq<Byte>) | Zero

  /** The variables of `convert_from_uf2` between blocks; `start` is the global `appstartaddr`. */
  datatype Progress = Progress(addr: Option<nat>, family: Option<nat>, families: set<nat>, out: seq<Item>, start: nat)

  predicate HasFamily(flags: nat) {
    flags / 0x2000 % 2 == 1
  }

  /** A block as the decoder takes it apart. */
  datatype Block = Block(hd: Header, area: seq<Byte>) {
    /** The block is meant for the flash. */
    predicate Live() {
      hd.flags % 2 == 0
    }

    predicate NamesFamily() {
      Live() && HasFamily(hd.flags)
    }

    predicate Wanted(want: nat) {
      Live() && (want == 0 || (NamesFamily() && want == hd.family))
    }
  }

  function BlockOf(bytes: seq<Byte>): Block
    requires |bytes| == BLOCK
  {
    Block(UnpackHeader(bytes), bytes[32..])
  }

  predicate Sized(bs: seq<Block>) {
    forall k :: 0 <= k < |bs| ==> |bs[k].area| == BLOCK - 32
  }

  /** The blocks of a file; bytes behind the last whole block are ignored. */
  function BlocksIn(buf: seq<Byte>): (bs: seq<Block>)
    ensures |bs| == |buf| / BLOCK && Sized(bs)
  {
    seq(|buf| / BLOCK, k requires 0 <= k < |buf| / BLOCK => BlockOf(buf[BLOCK * k..BLOCK * k + BLOCK]))
  }

  /** One turn of the block loop; `want` is the global `familyid`. */
  function Absorb(want: nat, p: Progress, b: Block, last: bool): Result<Progress>
    requires |b.area| == BLOCK - 32
  {
    var hd := b.hd;
    if hd.magic0 != MAGIC0 || hd.magic1 != MAGIC1 then Err(BadMagic)
    else if hd.flags % 2 == 1 then Ok(p)
    else if hd.size > MAX_PAYLOAD then Err(BadSize)
    else
      var family := if HasFamily(hd.flags) && p.family.None? then Some(hd.family) else p.family;
      var fresh_ := p.addr.None? || (HasFamily(hd.flags) && Some(hd.family) != family);
      var from := if fresh_ then hd.addr else p.addr.value;
      if hd.addr < from then Err(OutOfOrder)
      else if hd.addr - from > MAX_GAP then Err(GapTooLarge)
      else if (hd.addr - from) % 4 != 0 then Err(GapUnaligned)
      else
        var wanted := want == 0 || (HasFamily(hd.flags) && want == hd.family);
        var padded := p.out + seq(hd.addr - from, _ => Zero);
        var p' := Progress(
          Some(hd.addr + hd.size),
          if fresh_ then Some(hd.family) else family,
          if HasFamily(hd.flags) then p.families + {hd.family} else p.families,
          if wanted then padded + [Chunk(b.area[..hd.size])] else padded,
          if fresh_ && (want == 0 || want == hd.family) then hd.addr else p.start);
        Ok(if last && |p'.families| > 1 && want == 0 then p'.(out := [], start := 0) else p')
  }

  function Next(want: nat, r: Result<Progress>, b: Block, last: bool): Result<Progress>
    requires |b.area| == BLOCK - 32
  {
    match r
    case Err(e) => Err(e)
    case Ok(p) => Absorb(want, p, b, last)
  }

  /** The block loop over the first `n` blocks. */
  function Absorbed(bs: seq<Block>, n: nat, want: nat, start: nat): Result<Progress>
    requires n <= |bs| && Sized(bs)
  {
    if n == 0 then Ok(Progress(None, None, {}, [], start))
    else Next(want, Absorbed(bs, n - 1, want, start), bs[n - 1], n == |bs|)
  }

  /** One turn. */
  lemma AbsorbedOne(bs: seq<Block>, n: nat, want: nat, start: nat)
    requires 0 < n <= |bs| && Sized(bs)
    ensures Absorbed(bs, n, want, start) == Next(want, Absorbed(bs, n - 1, want, start), bs[n - 1], n == |bs|)
  {
  }

  /** `b"".join(outp)`, which rejects bare integers. */
  function Join(out: seq<Item>): Result<seq<Byte>> {
    if out == [] then Ok([])
    else
      match Join(out[..|out| - 1])
      case Err(e) => Err(e)
      case Ok(bs) =>
        match out[|out| - 1]
        case Zero => Err(GapInOutput)
        case Chunk(c) => Ok(bs + c)
  }

  /** `convert_from_uf2`: the bytes, and the value left in `appstartaddr`. */
  function Decode(buf: seq<Byte>, want: nat, start: nat): Result<(seq<Byte>, nat)> {
    Finished(Absorbed(BlocksIn(buf), |buf| / BLOCK, want, start))
  }

  /** What the loop leaves is joined. */
  function Finished(r: Result<Progress>): Result<(seq<Byte>, nat)> {
    match r
    case Err(e) => Err(e)
    case Ok(p) =>
      match Join(p.out)
      case Err(e) => Err(e)
      case Ok(bytes) => Ok((bytes, p.start))
  }

  // ---- round trip ----

  /** The unused bytes before page `i`. */
  function Gap(pages: seq<Page>, i: nat): int
    requires i < |pages|
  {
    if i == 0 then 0 else pages[i].addr - pages[i - 1].addr - CHUNK
  }

  predicate GapAccepted(gap: int) {
    0 <= gap <= MAX_GAP && gap % 4 == 0
  }

  /** The decoder accepts the gaps before the first `n` pages. */
  predicate InOrder(pages: seq<Page>, n: nat)
    requires n <= |pages|
  {
    forall i :: 0 <= i < n ==> GapAccepted(Gap(pages, i))
  }

  predicate Consecutive(pages: seq<Page>) {
    forall i :: 0 <= i < |pages| ==> Gap(pages, i) == 0
  }

  /** What the decoder puts in its output list for the first `n` pages. */
  function Items(pages: seq<Page>, n: nat, wanted: bool): (items: seq<Item>)
    requires n <= |pages| && InOrder(pages, n)
  {
    if n == 0 then []
    else
      var padded := Items(pages, n - 1, wanted) + seq(Gap(pages, n - 1), _ => Zero);
      if wanted then padded + [Chunk(pages[n - 1].bytes)] else padded
  }

  function Payload(pages: seq<Page>, n: nat): seq<Byte>
    requires n <= |pages|
  {
    if n == 0 then [] else Payload(pages, n - 1) + pages[n - 1].bytes
  }

  lemma {:induction false} JoinFailsOnZero(out: seq<Item>, i: nat)
    requires i < |out| && out[i] == Zero
    ensures Join(out).Err?
  {
    if i < |out| - 1 {
      JoinFailsOnZero(out[..|out| - 1], i);
    }
  }

  lemma JoinChunk(out: seq<Item>, c: seq<Byte>)
    requires Join(out).Ok?
    ensures Join(out + [Chunk(c)]) == Ok(Join(out).value + c)
  {
    assert (out + [Chunk(c)])[..|out|] == out;
  }

  lemma NoPadding(out: seq<Item>)
    ensures out + seq(0, _ => Zero) == out
  {
  }

  lemma ItemsWithoutGap(pages: seq<Page>, n: nat, wanted: bool)
    requires 0 < n <= |pages| && InOrder(pages, n) && Gap(pages, n - 1) == 0
    ensures !wanted ==> Items(pages, n, wanted) == Items(pages, n - 1, wanted)
    ensures wanted ==> Items(pages, n, wanted) == Items(pages, n - 1, wanted) + [Chunk(pages[n - 1].bytes)]
  {
    NoPadding(Items(pages, n - 1, wanted));
  }

  lemma {:induction false} JoinItems(pages: seq<Page>, n: nat, wanted: bool)
    requires n <= |pages| && Consecutive(pages)
    ensures Join(Items(pages, n, wanted)) == Ok(if wanted then Payload(pages, n) else [])
  {
    if n > 0 {
      JoinItems(pages, n - 1, wanted);
      ItemsWithoutGap(pages, n, wanted);
      JoinChunk(Items(pages, n - 1, wanted), pages[n - 1].bytes);
    }
  }

  lemma {:induction false} GapLeavesZero(pages: seq<Page>, n: nat, wanted: bool, i: nat) returns (at: nat)
    requires i < n <= |pages| && InOrder(pages, n) && Gap(pages, i) > 0
    ensures at < |Items(pages, n, wanted)| && Items(pages, n, wanted)[at] == Zero
  {
    if i == n - 1 {
      at := |Items(pages, n - 1, wanted)|;
    } else {
      at := GapLeavesZero(pages, n - 1, wanted, i);
    }
  }

  lemma BlockFields(page: Page, number: nat, count: nat, family: nat)
    requires page.addr < WORD && number < WORD && count < WORD && family < WORD && |page.bytes| == CHUNK
    ensures var b := PackBlock(page.addr, number, count, family, page.bytes);
            && UnpackHeader(b) == HeaderOf(page.addr, number, count, family)
            && |b[32..]| == BLOCK - 32 && b[32..][..CHUNK] == page.bytes
  {
    var h := HeaderOf(page.addr, number, count, family);
    var rest := page.bytes + Zeros(220) + Pack(MAGIC_END);
    assert PackBlock(page.addr, number, count, family, page.bytes) == PackHeader(h) + rest;
    UnpackPackHeader(h, rest);
  }

  /** The four bytes at `o` are `v`, lowest first. */
  predicate WordAt(block: seq<Byte>, o: nat, v: nat)
    requires o + 4 <= |block|
  {
    var a: nat, b: nat, c: nat, d: nat := block[o], block[o + 1], block[o + 2], block[o + 3];
    v == a + 0x100 * b + 0x1_0000 * c + 0x100_0000 * d
  }

  /** A block byte by byte: the magic numbers, the header words, the payload, the padding, the end mark. */
  predicate LaidOut(block: seq<Byte>, flags: nat, addr: nat, size: nat, number: nat, count: nat, family: nat, bytes: seq<Byte>) {
    && |block| == 512 && |bytes| == 256
    && block[0..8] == [0x55, 0x46, 0x32, 0x0A, 0x57, 0x51, 0x5D, 0x9E]
    && WordAt(block, 8, flags) && WordAt(block, 12, addr) && WordAt(block, 16, size)
    && WordAt(block, 20, number) && WordAt(block, 24, count) && WordAt(block, 28, family)
    && block[32..288] == bytes
    && (forall i :: 288 <= i < 508 ==> block[i] == 0)
    && block[508..512] == [0x30, 0x6F, 0xB1, 0x0A]
  }

  lemma PackedWord(before: seq<Byte>, v: nat, after: seq<Byte>)
    requires v < WORD
    ensures WordAt(before + Pack(v) + after, |before|, v)
  {
    UnpackPack(v);
    var all, n := before + Pack(v) + after, |before|;
    assert all[n] == Pack(v)[0] && all[n + 1] == Pack(v)[1] && all[n + 2] == Pack(v)[2] && all[n + 3] == Pack(v)[3];
  }

  /** Block `k` of a packed file: its number comes before the number of blocks, and the family last. */
  lemma BlockLaidOut(pages: seq<Page>, family: nat, k: nat)
    requires Packable(pages, family) && k < |pages|
    ensures var block := PackPages(pages, |pages|, family)[BLOCK * k..BLOCK * k + BLOCK];
            LaidOut(block, if family != 0 then 0x2000 else 0, pages[k].addr, 256, k, |pages|, family, pages[k].bytes)
  {
    BlockOfFile(pages, |pages|, family, k);
    HeaderLaidOut(HeaderOf(pages[k].addr, k, |pages|, family));
    BytesLaidOut(pages[k].addr, k, |pages|, family, pages[k].bytes);
  }

  lemma HeaderLaidOut(h: Header)
    requires h.Fits()
    ensures var s := PackHeader(h);
            && WordAt(s, 8, h.flags) && WordAt(s, 12, h.addr) && WordAt(s, 16, h.size)
            && WordAt(s, 20, h.number) && WordAt(s, 24, h.count) && WordAt(s, 28, h.family)
            && s[0..8] == Pack(h.magic0) + Pack(h.magic1)
  {
    var s := PackHeader(h);
    var m := Pack(h.magic0) + Pack(h.magic1);
    PackedWord(m, h.flags, s[12..]);
    assert s == m + Pack(h.flags) + s[12..];
    PackedWord(s[..12], h.addr, s[16..]);
    assert s == s[..12] + Pack(h.addr) + s[16..];
    PackedWord(s[..16], h.size, s[20..]);
    assert s == s[..16] + Pack(h.size) + s[20..];
    PackedWord(s[..20], h.number, s[24..]);
    assert s == s[..20] + Pack(h.number) + s[24..];
    PackedWord(s[..24], h.count, s[28..]);
    assert s == s[..24] + Pack(h.count) + s[28..];
    PackedWord(s[..28], h.family, []);
    assert s == s[..28] + Pack(h.family) + [];
  }

  lemma BytesLaidOut(addr: nat, number: nat, count: nat, family: nat, bytes: seq<Byte>)
    requires addr < WORD && number < WORD && count < WORD && family < WORD && |bytes| == CHUNK
    ensures var block := PackBlock(addr, number, count, family, bytes);
            && block[..32] == PackHeader(HeaderOf(addr, number, count, family))
            && block[32..288] == bytes && (forall i :: 288 <= i < 508 ==> block[i] == 0)
            && block[508..512] == [0x30, 0x6F, 0xB1, 0x0A]
            && Pack(MAGIC0) + Pack(MAGIC1) == [0x55, 0x46, 0x32, 0x0A, 0x57, 0x51, 0x5D, 0x9E]
  {
    Marks();
    Regions(PackHeader(HeaderOf(addr, number, count, family)), bytes, Pack(MAGIC_END));
  }

  /** The magic numbers as bytes. */
  lemma Marks()
    ensures Pack(MAGIC0) + Pack(MAGIC1) == [0x55, 0x46, 0x32, 0x0A, 0x57, 0x51, 0x5D, 0x9E]
    ensures Pack(MAGIC_END) == [0x30, 0x6F, 0xB1, 0x0A]
  {
  }

  lemma Regions(header: seq<Byte>, bytes: seq<Byte>, end: seq<Byte>)
    requires |header| == 32 && |bytes| == 256 && |end| == 4
    ensures var block := header + bytes + Zeros(220) + end;
            && block[..32] == header && block[32..288] == bytes && (forall i :: 288 <= i < 508 ==> block[i] == 0)
            && block[508..512] == end
  {
  }

  /** What the decoder reads in block `k` of a packed file. */
  lemma FileFields(pages: seq<Page>, family: nat, k: nat)
    requires Packable(pages, family) && k < |pages|
    ensures var block := PackPages(pages, |pages|, family)[BLOCK * k..BLOCK * k + BLOCK];
            && UnpackHeader(block) == HeaderOf(pages[k].addr, k, |pages|, family)
            && |block[32..]| == BLOCK - 32 && block[32..][..CHUNK] == pages[k].bytes
  {
    BlockOfFile(pages, |pages|, family, k);
    BlockFields(pages[k], k, |pages|, family);
  }

  /** The block reads as page `k`. */
  ghost predicate ReadsAs(b: Block, pages: seq<Page>, family: nat, k: nat)
    requires k < |pages|
  {
    b.hd == HeaderOf(pages[k].addr, k, |pages|, family) && |b.area| == BLOCK - 32 && b.area[..CHUNK] == pages[k].bytes
  }

  /** The blocks read as those of `pages`. */
  ghost predicate Packed(bs: seq<Block>, pages: seq<Page>, family: nat) {
    |bs| == |pages| && Sized(bs) && forall k :: 0 <= k < |pages| ==> ReadsAs(bs[k], pages, family, k)
  }

  lemma FilePacked(pages: seq<Page>, family: nat)
    requires Packable(pages, family)
    ensures Packed(BlocksIn(PackPages(pages, |pages|, family)), pages, family)
  {
    var bs := BlocksIn(PackPages(pages, |pages|, family));
    forall k | 0 <= k < |pages|
      ensures ReadsAs(bs[k], pages, family, k)
    {
      FileFields(pages, family, k);
    }
  }

  /** The decoder after the first `k` blocks. */
  function After(pages: seq<Page>, k: nat, family: nat, want: nat, start: nat): Progress
    requires 0 < k <= |pages| && InOrder(pages, k)
  {
    var wanted := want == 0 || want == family;
    Progress(Some(pages[k - 1].addr + CHUNK), Some(family), if family != 0 then {family} else {},
             Items(pages, k, wanted), if wanted then pages[0].addr else start)
  }

  lemma {:induction false} AbsorbsPages(bs: seq<Block>, pages: seq<Page>, k: nat, family: nat, want: nat, start: nat)
    requires Packed(bs, pages, family) && 0 < k <= |pages| && InOrder(pages, k)
    ensures Absorbed(bs, k, want, start) == Ok(After(pages, k, family, want, start))
  {
    if k == 1 {
      AbsorbsFirst(bs, pages, family, want, start);
    } else {
      AbsorbsPages(bs, pages, k - 1, family, want, start);
      AbsorbsNext(bs, pages, k, family, want, start);
    }
  }

  lemma AbsorbsFirst(bs: seq<Block>, pages: seq<Page>, family: nat, want: nat, start: nat)
    requires Packed(bs, pages, family) && pages != [] && InOrder(pages, 1)
    ensures Absorbed(bs, 1, want, start) == Ok(After(pages, 1, family, want, start))
  {
    AbsorbedOne(bs, 1, want, start);
    assert ReadsAs(bs[0], pages, family, 0);
    FirstPage(pages, family, want, start, bs[0], |pages| == 1);
  }

  lemma AbsorbsNext(bs: seq<Block>, pages: seq<Page>, k: nat, family: nat, want: nat, start: nat)
    requires Packed(bs, pages, family) && 1 < k <= |pages| && InOrder(pages, k)
    requires Absorbed(bs, k - 1, want, start) == Ok(After(pages, k - 1, family, want, start))
    ensures Absorbed(bs, k, want, start) == Ok(After(pages, k, family, want, start))
  {
    AbsorbedOne(bs, k, want, start);
    assert ReadsAs(bs[k - 1], pages, family, k - 1);
    NextPage(pages, k, family, want, start, bs[k - 1], |pages| == k);
  }

  lemma FirstPage(pages: seq<Page>, family: nat, want: nat, start: nat, b: Block, last: bool)
    requires pages != [] && InOrder(pages, 1) && ReadsAs(b, pages, family, 0)
    ensures Absorb(want, Progress(None, None, {}, [], start), b, last) == Ok(After(pages, 1, family, want, start))
  {
    assert |{family}| == 1 && {} + {family} == {family};
    assert Items(pages, 0, want == 0 || want == family) == [];
  }

  lemma NextPage(pages: seq<Page>, k: nat, family: nat, want: nat, start: nat, b: Block, last: bool)
    requires 1 < k <= |pages| && InOrder(pages, k) && ReadsAs(b, pages, family, k - 1)
    ensures Absorb(want, After(pages, k - 1, family, want, start), b, last) == Ok(After(pages, k, family, want, start))
  {
    assert |{family}| == 1;
    assert {family} + {family} == {family};
    assert GapAccepted(Gap(pages, k - 1));
  }

  lemma DecodeAbsorbed(bs: seq<Block>, want: nat, start: nat, p: Progress)
    requires Sized(bs) && Absorbed(bs, |bs|, want, start) == Ok(p)
    ensures var r := Finished(Absorbed(bs, |bs|, want, start));
            && (r.Ok? <==> Join(p.out).Ok?)
            && (Join(p.out).Ok? ==> r == Ok((Join(p.out).value, p.start)))
  {
  }

  lemma JoinsIffConsecutive(pages: seq<Page>, wanted: bool)
    requires InOrder(pages, |pages|)
    ensures Join(Items(pages, |pages|, wanted)).Ok? <==> Consecutive(pages)
    ensures Consecutive(pages) ==> Join(Items(pages, |pages|, wanted)) == Ok(if wanted then Payload(pages, |pages|) else [])
  {
    var n := |pages|;
    if Consecutive(pages) {
      JoinItems(pages, n, wanted);
    } else {
      var i :| 0 <= i < n && Gap(pages, i) != 0;
      var at := GapLeavesZero(pages, n, wanted, i);
      JoinFailsOnZero(Items(pages, n, wanted), at);
    }
  }

  /** A gap the decoder does not accept stops it at that block. */
  lemma BadGapFails(bs: seq<Block>, pages: seq<Page>, k: nat, family: nat, want: nat, start: nat)
    requires Packed(bs, pages, family) && 0 < k < |pages| && InOrder(pages, k) && !GapAccepted(Gap(pages, k))
    ensures Absorbed(bs, |pages|, want, start).Err?
  {
    AbsorbsPages(bs, pages, k, family, want, start);
    AbsorbedOne(bs, k + 1, want, start);
    assert ReadsAs(bs[k], pages, family, k);
    BadGap(pages, k, family, want, start, bs[k], k + 1 == |pages|);
    AbsorbedFails(bs, k + 1, |pages|, want, start);
  }

  lemma BadGap(pages: seq<Page>, k: nat, family: nat, want: nat, start: nat, b: Block, last: bool)
    requires 0 < k < |pages| && InOrder(pages, k) && !GapAccepted(Gap(pages, k)) && ReadsAs(b, pages, family, k)
    ensures Absorb(want, After(pages, k, family, want, start), b, last).Err?
  {
  }

  lemma {:induction false} FirstBadGap(pages: seq<Page>, n: nat) returns (k: nat)
    requires n <= |pages| && !InOrder(pages, n)
    ensures 0 < k < n && InOrder(pages, k) && !GapAccepted(Gap(pages, k))
  {
    if InOrder(pages, n - 1) {
      k := n - 1;
    } else {
      k := FirstBadGap(pages, n - 1);
    }
  }

  /**
   Decoding the file of any pages: without gaps it gives back their bytes and address, if the family asked for is none
   or theirs.  With a gap anywhere it fails: one the decoder rejects is an error, and one it accepts puts bare integers
   into the output list.
   */
  lemma PagesRoundTrip(pages: seq<Page>, family: nat, want: nat, start: nat)
    requires Packable(pages, family) && pages != []
    ensures var r := Decode(PackPages(pages, |pages|, family), want, start);
            && (r.Ok? <==> Consecutive(pages))
            && (r.Ok? ==> r.value == if want == 0 || want == family then (Payload(pages, |pages|), pages[0].addr) else ([], start))
  {
    FilePacked(pages, family);
    PackedRoundTrip(BlocksIn(PackPages(pages, |pages|, family)), pages, family, want, start);
  }

  lemma PackedRoundTrip(bs: seq<Block>, pages: seq<Page>, family: nat, want: nat, start: nat)
    requires Packed(bs, pages, family) && pages != []
    ensures var r := Finished(Absorbed(bs, |bs|, want, start));
            && (r.Ok? <==> Consecutive(pages))
            && (r.Ok? ==> r.value == if want == 0 || want == family then (Payload(pages, |pages|), pages[0].addr) else ([], start))
  {
    if InOrder(pages, |pages|) {
      AbsorbsPages(bs, pages, |pages|, family, want, start);
      DecodeAbsorbed(bs, want, start, After(pages, |pages|, family, want, start));
      JoinsIffConsecutive(pages, want == 0 || want == family);
    } else {
      var k := FirstBadGap(pages, |pages|);
      BadGapFails(bs, pages, k, family, want, start);
    }
  }

  // ---- convert_to_uf2 ----

  function PageCount(len: nat): nat {
    (len + 255) / CHUNK
  }

  /** The file filled up with zeros to a whole number of pages. */
  function Padded(file: seq<Byte>): (p: seq<Byte>)
    ensures |p| == CHUNK * PageCount(|file|)
    ensures file <= p
    ensures forall i :: |file| <= i < |p| ==> p[i] == 0
  {
    file + Zeros(CHUNK * PageCount(|file|) - |file|)
  }

  function PagesOf(file: seq<Byte>, start: nat): (pages: seq<Page>)
    ensures |pages| == PageCount(|file|)
    ensures forall i :: 0 <= i < |pages| ==>
              pages[i].addr == start + CHUNK * i && pages[i].bytes == Padded(file)[CHUNK * i..CHUNK * i + CHUNK]
  {
    seq(PageCount(|file|), i requires 0 <= i < PageCount(|file|) =>
      Page(start + CHUNK * i, Padded(file)[CHUNK * i..CHUNK * i + CHUNK]))
  }

  lemma {:induction false} PayloadOfPages(file: seq<Byte>, start: nat, n: nat)
    requires n <= PageCount(|file|)
    ensures Payload(PagesOf(file, start), n) == Padded(file)[..CHUNK * n]
  {
    if n > 0 {
      PayloadOfPages(file, start, n - 1);
      assert Padded(file)[..CHUNK * n] == Padded(file)[..CHUNK * (n - 1)] + Padded(file)[CHUNK * (n - 1)..CHUNK * (n - 1) + CHUNK];
    }
  }

  /** All addresses of the file, and the family, fit their 32-bit header fields. */
  predicate AddressesFit(file: seq<Byte>, start: nat, family: nat) {
    file == [] || (family < WORD && start + CHUNK * (PageCount(|file|) - 1) < WORD)
  }

  lemma FilePackable(file: seq<Byte>, start: nat, family: nat)
    requires AddressesFit(file, start, family) && file != []
    ensures Packable(PagesOf(file, start), family) && Consecutive(PagesOf(file, start))
  {
    var pages := PagesOf(file, start);
    forall i | 0 <= i < |pages|
      ensures pages[i].addr < WORD && |pages[i].bytes| == CHUNK
    {
      assert CHUNK * i <= CHUNK * (PageCount(|file|) - 1);
    }
  }

  /** The UF2 file of an image. */
  function Encode(file: seq<Byte>, start: nat, family: nat): seq<Byte>
    requires AddressesFit(file, start, family)
  {
    if file == [] then []
    else
      FilePackable(file, start, family);
      PackPages(PagesOf(file, start), PageCount(|file|), family)
  }

  /** Decoding an encoded image gives the image padded to whole pages and recovers its start address, whatever
      `appstartaddr` was, when the family asked for is none or the image's own; of an empty image there is no block left
      to recover the address from. */
  lemma RoundTrip(file: seq<Byte>, start: nat, family: nat, want: nat, start0: nat)
    requires AddressesFit(file, start, family)
    ensures Decode(Encode(file, start, family), want, start0) ==
            if file != [] && (want == 0 || want == family) then Ok((Padded(file), start)) else Ok(([], start0))
  {
    if file == [] {
      NothingDecodes(want, start0);
    } else {
      FilePackable(file, start, family);
      PagesRoundTrip(PagesOf(file, start), family, want, start0);
      PayloadOfPages(file, start, PageCount(|file|));
      assert Padded(file)[..CHUNK * PageCount(|file|)] == Padded(file);
    }
  }

  lemma NothingDecodes(want: nat, start: nat)
    ensures Decode([], want, start) == Ok(([], start))
  {
    assert Join([]) == Ok([]);
  }

  /** The 220 zero bytes between payload and end marker. */
  method DataPadding() returns (padding: seq<Byte>)
    ensures padding == Zeros(220)
  {
    padding := [];
    while |padding| < 512 - 256 - 32 - 4
      invariant |padding| <= 220 && |padding| % 4 == 0 && padding == Zeros(|padding|)
    {
      padding := padding + [0, 0, 0, 0];
    }
  }

  /** Page `number` of the file, zero-filled. */
  method TakeChunk(file: seq<Byte>, number: nat) returns (chunk: seq<Byte>)
    requires number < PageCount(|file|)
    ensures chunk == Padded(file)[CHUNK * number..CHUNK * number + CHUNK]
  {
    var ptr := CHUNK * number;
    chunk := file[ptr..if ptr + CHUNK < |file| then ptr + CHUNK else |file|];
    while |chunk| < CHUNK
      invariant |chunk| <= CHUNK
      invariant chunk == Padded(file)[ptr..ptr + |chunk|]
    {
      chunk := chunk + [0];
    }
  }

  /** The body of the loop of `convert_to_uf2`: block `number` of the file. */
  method BuildBlock(file: seq<Byte>, start: nat, family: nat, number: nat, padding: seq<Byte>) returns (block: seq<Byte>)
    requires file != [] && AddressesFit(file, start, family) && number < PageCount(|file|) && padding == Zeros(220)
    ensures Packable(PagesOf(file, start), family) && block == BlocksOf(PagesOf(file, start), family)[number]
  {
    FilePackable(file, start, family);
    var chunk := TakeChunk(file, number);
    var addr := CHUNK * number + start;
    assert Page(addr, chunk) == PagesOf(file, start)[number];
    block := PackHeader(HeaderOf(addr, number, PageCount(|file|), family)) + chunk + padding + Pack(MAGIC_END);
  }

  lemma PackNext(pages: seq<Page>, n: nat, family: nat, block: seq<Byte>)
    requires Packable(pages, family) && n < |pages| && block == BlocksOf(pages, family)[n]
    ensures PackPages(pages, n + 1, family) == PackPages(pages, n, family) + block
  {
  }

  /** The loop of `convert_to_uf2`. */
  method BuildFile(file: seq<Byte>, start: nat, family: nat, padding: seq<Byte>) returns (out: seq<Byte>)
    requires file != [] && AddressesFit(file, start, family) && padding == Zeros(220)
    ensures Packable(PagesOf(file, start), family) && out == PackPages(PagesOf(file, start), PageCount(|file|), family)
  {
    FilePackable(file, start, family);
    ghost var pages := PagesOf(file, start);
    out := [];
    for number := 0 to PageCount(|file|)
      invariant out == PackPages(pages, number, family)
    {
      var block := BuildBlock(file, start, family, number, padding);
      PackNext(pages, number, family, block);
      out := out + block;
    }
  }

  /** `convert_to_uf2`; a header field out of range raises an exception. */
  method ConvertToUf2(file: seq<Byte>, start: nat, family: nat) returns (r: Result<seq<Byte>>)
    ensures r == if AddressesFit(file, start, family) then Ok(Encode(file, start, family)) else Err(Overflow)
  {
    var padding := DataPadding();
    var count := PageCount(|file|);
    if count > 0 && (family >= WORD || start + CHUNK * (count - 1) >= WORD) {
      // the first block whose header does not fit stops the conversion
      return Err(Overflow);
    }
    if file == [] {
      return Ok([]);
    }
    var out := BuildFile(file, start, family, padding);
    return Ok(out);
  }

  /** `outp += b"\\x00\\x00\\x00\\x00"` adds four integers to a list that should hold byte strings. */
  method PadGap(out: seq<Item>, gap: nat) returns (padded: seq<Item>)
    requires gap % 4 == 0
    ensures padded == out + seq(gap, _ => Zero)
  {
    padded := out;
    var padding := gap;
    while padding > 0
      invariant 0 <= padding <= gap && padding % 4 == 0
      invariant padded == out + seq(gap - padding, _ => Zero)
    {
      padding := padding - 4;
      padded := padded + [Zero, Zero, Zero, Zero];
    }
  }

  /** The body of the block loop of `convert_from_uf2`. */
  method ConvertBlock(want: nat, p: Progress, b: Block, last: bool) returns (r: Result<Progress>)
    requires |b.area| == BLOCK - 32
    ensures r == Absorb(want, p, b, last)
  {
    var hd := b.hd;
    if hd.magic0 != MAGIC0 || hd.magic1 != MAGIC1 {
      return Err(BadMagic);
    }
    if hd.flags % 2 == 1 {
      return Ok(p);
    }
    if hd.size > MAX_PAYLOAD {
      return Err(BadSize);
    }
    var addr, family, start := p.addr, p.family, p.start;
    if HasFamily(hd.flags) && family.None? {
      family := Some(hd.family);
    }
    if addr.None? || (HasFamily(hd.flags) && Some(hd.family) != family) {
      family := Some(hd.family);
      addr := Some(hd.addr);
      if want == 0 || want == hd.family {
        start := hd.addr;
      }
    }
    var padding := hd.addr - addr.value;
    if padding < 0 {
      return Err(OutOfOrder);
    }
    if padding > MAX_GAP {
      return Err(GapTooLarge);
    }
    if padding % 4 != 0 {
      return Err(GapUnaligned);
    }
    var out := PadGap(p.out, padding);
    if want == 0 || (HasFamily(hd.flags) && want == hd.family) {
      out := out + [Chunk(b.area[..hd.size])];
    }
    var families := p.families;
    if HasFamily(hd.flags) {
      families := families + {hd.family};
    }
    if last && |families| > 1 && want == 0 {
      out := [];
      start := 0;
    }
    return Ok(Progress(Some(hd.addr + hd.size), family, families, out, start));
  }

  /** `block = buf[ptr:ptr + 512]`, and its header. */
  method TakeBlock(buf: seq<Byte>, n: nat) returns (b: Block)
    requires n < |buf| / BLOCK
    ensures b == BlocksIn(buf)[n]
  {
    b := BlockOf(buf[BLOCK * n..BLOCK * n + BLOCK]);
  }

  method ConvertBlocks(buf: seq<Byte>, want: nat, start: nat) returns (r: Result<Progress>)
    ensures r == Absorbed(BlocksIn(buf), |buf| / BLOCK, want, start)
  {
    ghost var bs := BlocksIn(buf);
    var count := |buf| / BLOCK;
    r := Ok(Progress(None, None, {}, [], start));
    for n := 0 to count
      invariant r.Ok? && Absorbed(bs, n, want, start) == r
    {
      var b := TakeBlock(buf, n);
      AbsorbedOne(bs, n + 1, want, start);
      r := ConvertBlock(want, r.value, b, n + 1 == count);
      if r.Err? {
        AbsorbedFails(bs, n + 1, count, want, start);
        return;
      }
    }
  }

  /** `convert_from_uf2`. */
  method ConvertFromUf2(buf: seq<Byte>, want: nat, start: nat) returns (r: Result<(seq<Byte>, nat)>)
    ensures r == Decode(buf, want, start)
  {
    var done := ConvertBlocks(buf, want, start);
    match done
    case Err(e) => return Err(e);
    case Ok(p) =>
      match Join(p.out)
      case Err(e) => return Err(e);
      case Ok(bytes) => return Ok((bytes, p.start));
  }

  lemma {:induction false} AbsorbedFails(bs: seq<Block>, n: nat, m: nat, want: nat, start: nat)
    requires n <= m <= |bs| && Sized(bs) && Absorbed(bs, n, want, start).Err?
    ensures Absorbed(bs, m, want, start) == Absorbed(bs, n, want, start)
  {
    if n < m {
      AbsorbedFails(bs, n, m - 1, want, start);
      AbsorbedOne(bs, m, want, start);
    }
  }
}
