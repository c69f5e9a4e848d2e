/**
 Intel HEX to UF2 (util/uf2conv.py, `convert_from_hex_to_uf2`), on records as lists of
 bytes: count, two address bytes, type, data, checksum, as in the Intel Hexadecimal
 Object File Format Specification, sections "Data Record" and "Extended Linear Address
 Record".

 `Scan` reduces the records to the byte writes they ask for; `StoreAll` is the page list
 those writes build.  For ascending writes the pages are in order and hold exactly the
 image: every byte at its address, zero elsewhere.
 */
module HexToUf2 {
  import opened Bytes
  import opened Uf2

  datatype Write = Write(addr: nat, byte: Byte)

  /** The converter's variables between records: segment base, first address, and the writes so far. */
  datatype Scanned = Scanned(upper: nat, start: Option<nat>, writes: seq<Write>, ended: bool)

  function DataCount(rec: seq<Byte>): nat {
    if |rec| > 5 then |rec| - 5 else 0
  }

  /** The writes of a data record at `addr`: every byte but the four of the head and the checksum. */
  function DataWrites(addr: nat, rec: seq<Byte>, n: nat): (ws: seq<Write>)
    requires n <= DataCount(rec)
    ensures |ws| == n
    ensures forall i :: 0 <= i < n ==> ws[i] == Write(addr + i, rec[4 + i])
  {
    seq(n, i requires 0 <= i < n => Write(addr + i, rec[4 + i]))
  }

  function Word(a: Byte, b: Byte): nat {
    var hi: nat, lo: nat := a, b;
    hi * 256 + lo
  }

  /** One record; a list index out of range raises an exception. */
  function ScanRecord(s: Scanned, rec: seq<Byte>): Option<Scanned> {
    if s.ended then Some(s)
    else if |rec| < 4 then None
    else if rec[3] == 4 || rec[3] == 2 then
      if |rec| < 6 then None
      else Some(s.(upper := Word(rec[4], rec[5]) * (if rec[3] == 4 then 65536 else 16)))
    else if rec[3] == 1 then Some(s.(ended := true))
    else if rec[3] == 0 then
      var addr := s.upper + Word(rec[1], rec[2]);
      Some(s.(start := if s.start.None? then Some(addr) else s.start,
              writes := s.writes + DataWrites(addr, rec, DataCount(rec))))
    else Some(s)
  }

  function Scan(records: seq<seq<Byte>>, n: nat): Option<Scanned>
    requires n <= |records|
  {
    if n == 0 then Some(Scanned(0, None, [], false))
    else
      match Scan(records, n - 1)
      case None => None
      case Some(s) => ScanRecord(s, records[n - 1])
  }

  // ---- pages ----

  function PageAddr(a: nat): nat {
    a / 256 * 256
  }

  /** `currblock` is the last page; a byte of another page starts a new one. */
  function Store(pages: seq<Page>, w: Write): (r: seq<Page>)
    requires forall i :: 0 <= i < |pages| ==> |pages[i].bytes| == CHUNK
    ensures forall i :: 0 <= i < |r| ==> |r[i].bytes| == CHUNK
  {
    if pages == [] || PageAddr(pages[|pages| - 1].addr) != PageAddr(w.addr) then
      pages + [Page(PageAddr(w.addr), Zeros(CHUNK)[w.addr % 256 := w.byte])]
    else
      var last := pages[|pages| - 1];
      pages[|pages| - 1 := last.(bytes := last.bytes[w.addr % 256 := w.byte])]
  }

  function StoreAll(writes: seq<Write>): (pages: seq<Page>)
    ensures forall i :: 0 <= i < |pages| ==> |pages[i].bytes| == CHUNK
  {
    if writes == [] then [] else Store(StoreAll(writes[..|writes| - 1]), writes[|writes| - 1])
  }

  /** The page addresses of the writes never go down. */
  predicate PagesAscend(writes: seq<Write>) {
    forall i, j :: 0 <= i < j < |writes| ==> PageAddr(writes[i].addr) <= PageAddr(writes[j].addr)
  }

  /** No write goes back to a page that another page has followed. */
  predicate NeverReturns(writes: seq<Write>) {
    forall i, j, k :: 0 <= i < j < k < |writes| && PageAddr(writes[i].addr) == PageAddr(writes[k].addr) ==>
      PageAddr(writes[j].addr) == PageAddr(writes[i].addr)
  }

  /** The byte the records put at address `a`, or 0. */
  function ByteAt(writes: seq<Write>, a: nat): Byte {
    if writes == [] then 0
    else if writes[|writes| - 1].addr == a then writes[|writes| - 1].byte
    else ByteAt(writes[..|writes| - 1], a)
  }

  predicate Sorted(pages: seq<Page>) {
    forall i, j :: 0 <= i < j < |pages| ==> pages[i].addr < pages[j].addr
  }

  predicate Distinct(pages: seq<Page>) {
    forall i, j :: 0 <= i < j < |pages| ==> pages[i].addr != pages[j].addr
  }

  predicate Aligned(pages: seq<Page>) {
    forall i :: 0 <= i < |pages| ==> pages[i].addr % 256 == 0
  }

  /** Page `i` holds the image of its 256 addresses and was asked for by some write. */
  ghost predicate HoldsImage(writes: seq<Write>, page: Page) {
    && |page.bytes| == CHUNK
    && (forall o :: 0 <= o < CHUNK ==> page.bytes[o] == ByteAt(writes, page.addr + o))
    && (exists i :: 0 <= i < |writes| && PageAddr(writes[i].addr) == page.addr)
  }

  ghost predicate Covered(writes: seq<Write>, pages: seq<Page>) {
    forall i :: 0 <= i < |writes| ==> exists k :: 0 <= k < |pages| && pages[k].addr == PageAddr(writes[i].addr)
  }

  lemma {:induction false} NoByteAt(writes: seq<Write>, a: nat)
    requires forall i :: 0 <= i < |writes| ==> writes[i].addr != a
    ensures ByteAt(writes, a) == 0
  {
    if writes != [] {
      NoByteAt(writes[..|writes| - 1], a);
    }
  }

  /** A further write changes the image of its own page at one offset only. */
  lemma ImageOfOtherPage(writes: seq<Write>, w: Write, page: Page)
    requires HoldsImage(writes, page) && page.addr % 256 == 0 && PageAddr(w.addr) != page.addr
    ensures HoldsImage(writes + [w], page)
  {
    var all := writes + [w];
    assert all[..|writes|] == writes;
    forall o | 0 <= o < CHUNK
      ensures page.bytes[o] == ByteAt(all, page.addr + o)
    {
      assert PageAddr(page.addr + o) == page.addr;
    }
    var i :| 0 <= i < |writes| && PageAddr(writes[i].addr) == page.addr;
    assert all[i] == writes[i];
  }

  lemma ImageOfSamePage(writes: seq<Write>, w: Write, page: Page)
    requires HoldsImage(writes, page) && PageAddr(w.addr) == page.addr
    ensures HoldsImage(writes + [w], page.(bytes := page.bytes[w.addr % 256 := w.byte]))
  {
    var all := writes + [w];
    assert all[..|writes|] == writes;
    assert all[|writes|] == w;
    assert w.addr == page.addr + w.addr % 256;
  }

  lemma ImageOfNewPage(writes: seq<Write>, w: Write)
    requires forall i :: 0 <= i < |writes| ==> PageAddr(writes[i].addr) != PageAddr(w.addr)
    ensures HoldsImage(writes + [w], Page(PageAddr(w.addr), Zeros(CHUNK)[w.addr % 256 := w.byte]))
  {
    var all := writes + [w];
    assert all[..|writes|] == writes;
    assert all[|writes|] == w;
    var base := PageAddr(w.addr);
    assert w.addr == base + w.addr % 256;
    forall a | base <= a < base + CHUNK && a != w.addr
      ensures ByteAt(all, a) == 0
    {
      assert PageAddr(a) == base;
      NoByteAt(writes, a);
    }
    var page := Page(base, Zeros(CHUNK)[w.addr % 256 := w.byte]);
    forall o | 0 <= o < CHUNK
      ensures page.bytes[o] == ByteAt(all, page.addr + o)
    {
      if o != w.addr % 256 {
        assert ByteAt(all, base + o) == 0;
      }
    }
  }

  // ---- where the writes land ----

  lemma StoreExtends(pages: seq<Page>, w: Write)
    requires Aligned(pages) && forall i :: 0 <= i < |pages| ==> |pages[i].bytes| == CHUNK
    ensures var r := Store(pages, w);
            && Aligned(r) && |pages| <= |r| && (forall k :: 0 <= k < |pages| ==> r[k].addr == pages[k].addr)
            && r != [] && r[|r| - 1].addr == PageAddr(w.addr)
            && (|r| == |pages| <==> pages != [] && pages[|pages| - 1].addr == PageAddr(w.addr))
  {
  }

  lemma {:induction false} StoreAllAligned(writes: seq<Write>)
    ensures Aligned(StoreAll(writes)) && (writes == [] <==> StoreAll(writes) == [])
    ensures writes != [] ==> StoreAll(writes)[|StoreAll(writes)| - 1].addr == PageAddr(writes[|writes| - 1].addr)
  {
    if writes != [] {
      var n := |writes| - 1;
      StoreAllAligned(writes[..n]);
      StoreExtends(StoreAll(writes[..n]), writes[n]);
    }
  }

  /** The page that was open when write `i` was made. */
  function PageIndex(writes: seq<Write>, i: nat): int
    requires i < |writes|
  {
    |StoreAll(writes[..i + 1])| - 1
  }

  /** A write lands in the page of its address, and pages are opened in the order of the writes. */
  lemma {:induction false} Lands(writes: seq<Write>, i: nat)
    requires i < |writes|
    ensures 0 <= PageIndex(writes, i) < |StoreAll(writes)|
    ensures StoreAll(writes)[PageIndex(writes, i)].addr == PageAddr(writes[i].addr)
  {
    var n := |writes| - 1;
    StoreAllAligned(writes[..n]);
    StoreExtends(StoreAll(writes[..n]), writes[n]);
    if i < n {
      Lands(writes[..n], i);
      SameIndex(writes, n, i);
    } else {
      assert writes[..i + 1] == writes;
    }
  }

  lemma SameIndex(writes: seq<Write>, n: nat, i: nat)
    requires i < n <= |writes|
    ensures PageIndex(writes[..n], i) == PageIndex(writes, i)
  {
    assert writes[..n][..i + 1] == writes[..i + 1];
  }

  lemma {:induction false} PagesOpenInOrder(writes: seq<Write>, i: nat, j: nat)
    requires i <= j < |writes|
    ensures PageIndex(writes, i) <= PageIndex(writes, j)
  {
    if i < j {
      PagesOpenInOrder(writes, i, j - 1);
      assert writes[..j + 1][..j] == writes[..j];
      StoreAllAligned(writes[..j]);
      StoreExtends(StoreAll(writes[..j]), writes[j]);
    }
  }

  /** Every write has its page. */
  lemma AllCovered(writes: seq<Write>)
    ensures Covered(writes, StoreAll(writes))
  {
    var pages := StoreAll(writes);
    forall i | 0 <= i < |writes|
      ensures exists k :: 0 <= k < |pages| && pages[k].addr == PageAddr(writes[i].addr)
    {
      Lands(writes, i);
    }
  }

  // ---- ascending pages ----

  lemma {:induction false} AscendingIsSorted(writes: seq<Write>)
    requires PagesAscend(writes)
    ensures Sorted(StoreAll(writes))
  {
    if writes != [] {
      var n := |writes| - 1;
      AscendingIsSorted(writes[..n]);
      StoreAllAligned(writes[..n]);
      StoreExtends(StoreAll(writes[..n]), writes[n]);
    }
  }

  lemma SortedIsAscending(writes: seq<Write>, i: nat, j: nat)
    requires Sorted(StoreAll(writes)) && i < j < |writes|
    ensures PageAddr(writes[i].addr) <= PageAddr(writes[j].addr)
  {
    Lands(writes, i);
    Lands(writes, j);
    PagesOpenInOrder(writes, i, j);
  }

  /** The blocks come in strictly increasing address order exactly when the page addresses of the data never go down. */
  lemma SortedIff(writes: seq<Write>)
    ensures Sorted(StoreAll(writes)) <==> PagesAscend(writes)
  {
    if PagesAscend(writes) {
      AscendingIsSorted(writes);
    } else if Sorted(StoreAll(writes)) {
      forall i, j | 0 <= i < j < |writes|
        ensures PageAddr(writes[i].addr) <= PageAddr(writes[j].addr)
      {
        SortedIsAscending(writes, i, j);
      }
    }
  }

  // ---- the image ----

  /** Every page once, holding the image of its addresses. */
  ghost predicate Images(writes: seq<Write>, pages: seq<Page>) {
    Distinct(pages) && forall i :: 0 <= i < |pages| ==> HoldsImage(writes, pages[i])
  }

  lemma NeverReturnsBefore(before: seq<Write>, w: Write, i: nat)
    requires NeverReturns(before + [w]) && i < |before| && PageAddr(before[|before| - 1].addr) != PageAddr(w.addr)
    ensures PageAddr(before[i].addr) != PageAddr(w.addr)
  {
    var all := before + [w];
    assert all[i] == before[i] && all[|before| - 1] == before[|before| - 1] && all[|before|] == w;
  }

  lemma NeverReturnsPrefix(before: seq<Write>, w: Write)
    requires NeverReturns(before + [w])
    ensures NeverReturns(before)
  {
    var all := before + [w];
    assert forall i :: 0 <= i < |before| ==> all[i] == before[i];
  }

  lemma NewPageImages(before: seq<Write>, pages: seq<Page>, w: Write)
    requires Images(before, pages) && Aligned(pages)
    requires forall i :: 0 <= i < |before| ==> PageAddr(before[i].addr) != PageAddr(w.addr)
    requires pages == [] || pages[|pages| - 1].addr != PageAddr(w.addr)
    ensures Images(before + [w], Store(pages, w))
  {
    var r := Store(pages, w);
    var n := |pages|;
    ImageOfNewPage(before, w);
    forall i | 0 <= i < n
      ensures HoldsImage(before + [w], r[i]) && r[i].addr != r[n].addr
    {
      var k :| 0 <= k < |before| && PageAddr(before[k].addr) == pages[i].addr;
      ImageOfOtherPage(before, w, pages[i]);
    }
  }

  lemma SamePageImages(before: seq<Write>, pages: seq<Page>, w: Write)
    requires Images(before, pages) && Aligned(pages)
    requires pages != [] && pages[|pages| - 1].addr == PageAddr(w.addr)
    ensures Images(before + [w], Store(pages, w))
  {
    var r := Store(pages, w);
    var n := |pages| - 1;
    ImageOfSamePage(before, w, pages[n]);
    forall i | 0 <= i < n
      ensures HoldsImage(before + [w], r[i])
    {
      assert pages[i].addr != pages[n].addr;
      ImageOfOtherPage(before, w, pages[i]);
    }
  }

  lemma {:induction false} StoreAllImages(writes: seq<Write>)
    requires NeverReturns(writes)
    ensures Images(writes, StoreAll(writes))
  {
    if writes != [] {
      var n := |writes| - 1;
      var before, w := writes[..n], writes[n];
      var pages := StoreAll(before);
      assert writes == before + [w];
      NeverReturnsPrefix(before, w);
      StoreAllImages(before);
      StoreAllAligned(before);
      if before == [] || PageAddr(before[n - 1].addr) != PageAddr(w.addr) {
        forall i | 0 <= i < |before|
          ensures PageAddr(before[i].addr) != PageAddr(w.addr)
        {
          NeverReturnsBefore(before, w, i);
        }
        NewPageImages(before, pages, w);
      } else {
        SamePageImages(before, pages, w);
      }
    }
  }

  /** Going back to a page after another one opens a second block with the same address. */
  lemma ReturningSplitsPage(writes: seq<Write>, i: nat, j: nat, k: nat)
    requires i < j < k < |writes|
    requires PageAddr(writes[i].addr) == PageAddr(writes[k].addr) != PageAddr(writes[j].addr)
    ensures var pages := StoreAll(writes);
            && 0 <= PageIndex(writes, i) < PageIndex(writes, k) < |pages|
            && pages[PageIndex(writes, i)].addr == pages[PageIndex(writes, k)].addr == PageAddr(writes[i].addr)
  {
    Lands(writes, i);
    Lands(writes, j);
    Lands(writes, k);
    PagesOpenInOrder(writes, i, j);
    PagesOpenInOrder(writes, j, k);
  }

  /** Every touched page is one block that holds its image exactly when no write returns to a page already left. */
  lemma ImageIff(writes: seq<Write>)
    ensures Images(writes, StoreAll(writes)) <==> NeverReturns(writes)
    ensures Covered(writes, StoreAll(writes)) && Aligned(StoreAll(writes))
  {
    AllCovered(writes);
    StoreAllAligned(writes);
    if NeverReturns(writes) {
      StoreAllImages(writes);
    } else {
      var i, j, k :| 0 <= i < j < k < |writes| && PageAddr(writes[i].addr) == PageAddr(writes[k].addr) &&
        PageAddr(writes[j].addr) != PageAddr(writes[i].addr);
      ReturningSplitsPage(writes, i, j, k);
    }
  }

  lemma AscendingNeverReturns(writes: seq<Write>)
    requires PagesAscend(writes)
    ensures NeverReturns(writes)
  {
  }

  /** For data in ascending order: blocks strictly ascending and aligned, each holding its image and asked for, and every write in some block. */
  lemma AscendingImage(writes: seq<Write>)
    requires PagesAscend(writes)
    ensures var pages := StoreAll(writes);
            && Sorted(pages) && Aligned(pages) && Covered(writes, pages)
            && (forall i :: 0 <= i < |pages| ==> HoldsImage(writes, pages[i]))
  {
    AscendingNeverReturns(writes);
    ImageIff(writes);
    SortedIff(writes);
  }

  // ---- the converter ----

  predicate AllFit(pages: seq<Page>, family: nat) {
    pages == [] || Packable(pages, family)
  }

  /** The body of the loop over the bytes of a data record. */
  method StoreByte(pages: seq<Page>, addr: nat, byte: Byte) returns (r: seq<Page>)
    requires forall i :: 0 <= i < |pages| ==> |pages[i].bytes| == CHUNK
    ensures r == Store(pages, Write(addr, byte))
  {
    r := pages;
    if r == [] || PageAddr(r[|r| - 1].addr) != PageAddr(addr) {
      r := r + [Page(PageAddr(addr), Zeros(CHUNK))];
    }
    var last := |r| - 1;
    r := r[last := r[last].(bytes := r[last].bytes[addr % 256 := byte])];
  }

  method StoreRecord(pages: seq<Page>, addr: nat, rec: seq<Byte>, ghost writes: seq<Write>) returns (r: seq<Page>)
    requires pages == StoreAll(writes)
    ensures r == StoreAll(writes + DataWrites(addr, rec, DataCount(rec)))
  {
    r := pages;
    var a := addr;
    var i := 4;
    assert writes + DataWrites(addr, rec, 0) == writes;
    while i < |rec| - 1
      invariant 4 <= i && i - 4 <= DataCount(rec) && a == addr + i - 4
      invariant r == StoreAll(writes + DataWrites(addr, rec, i - 4))
    {
      ghost var so := writes + DataWrites(addr, rec, i - 4);
      r := StoreByte(r, a, rec[i]);
      assert writes + DataWrites(addr, rec, i - 3) == so + [Write(a, rec[i])];
      assert (so + [Write(a, rec[i])])[..|so|] == so;
      a := a + 1;
      i := i + 1;
    }
  }

  /** The loop over the records: the pages and the first data address. */
  method ScanRecords(records: seq<seq<Byte>>) returns (ok: bool, pages: seq<Page>, start: Option<nat>)
    ensures ok <==> Scan(records, |records|).Some?
    ensures ok ==> var s := Scan(records, |records|).value; pages == StoreAll(s.writes) && start == s.start
  {
    var upper := 0;
    pages, start := [], None;
    ghost var s := Scanned(0, None, [], false);
    for n := 0 to |records|
      invariant Scan(records, n) == Some(s)
      invariant s.upper == upper && s.start == start && !s.ended && pages == StoreAll(s.writes)
    {
      var rec := records[n];
      if |rec| < 4 || ((rec[3] == 4 || rec[3] == 2) && |rec| < 6) {
        ScanFails(records, n + 1, |records|);
        return false, pages, start;
      }
      if rec[3] == 4 {
        upper := Word(rec[4], rec[5]) * 65536;
      } else if rec[3] == 2 {
        upper := Word(rec[4], rec[5]) * 16;
      } else if rec[3] == 1 {
        ScanEnded(records, n + 1, |records|, s.(ended := true));
        return true, pages, start;
      } else if rec[3] == 0 {
        var addr := upper + Word(rec[1], rec[2]);
        if start.None? {
          start := Some(addr);
        }
        pages := StoreRecord(pages, addr, rec, s.writes);
      }
      s := ScanRecord(s, rec).value;
    }
    return true, pages, start;
  }

  lemma {:induction false} ScanFails(records: seq<seq<Byte>>, n: nat, m: nat)
    requires n <= m <= |records| && Scan(records, n).None?
    ensures Scan(records, m).None?
  {
    if n < m {
      ScanFails(records, n, m - 1);
    }
  }

  lemma {:induction false} ScanEnded(records: seq<seq<Byte>>, n: nat, m: nat, s: Scanned)
    requires n <= m <= |records| && Scan(records, n) == Some(s) && s.ended
    ensures Scan(records, m) == Some(s)
  {
    if n < m {
      ScanEnded(records, n, m - 1, s);
    }
  }

  /** `Block.encode` of every page. */
  method EncodePages(pages: seq<Page>, family: nat) returns (out: seq<Byte>)
    requires Packable(pages, family)
    ensures out == PackPages(pages, |pages|, family)
  {
    out := [];
    for i := 0 to |pages|
      invariant out == PackPages(pages, i, family)
    {
      var block := PackBlock(pages[i].addr, i, |pages|, family, pages[i].bytes);
      PackNext(pages, i, family, block);
      out := out + block;
    }
  }

  /** `convert_from_hex_to_uf2`: the encoded pages, or an exception for a short record or an address beyond 32 bits. */
  method ConvertHexToUf2(records: seq<seq<Byte>>, family: nat) returns (file: Option<seq<Byte>>)
    ensures file.Some? <==> Scan(records, |records|).Some? && AllFit(StoreAll(Scan(records, |records|).value.writes), family)
    ensures file.Some? ==>
              var pages := StoreAll(Scan(records, |records|).value.writes);
              file.value == if pages == [] then [] else PackPages(pages, |pages|, family)
  {
    var ok, pages, start := ScanRecords(records);
    if !ok {
      return None;
    }
    if pages == [] {
      return Some([]);
    }
    if !Packable(pages, family) {
      return None;
    }
    var out := EncodePages(pages, family);
    return Some(out);
  }

  /** The UF2 file of any HEX data decodes exactly when each page follows the last without a gap, and then to the pages' bytes. */
  lemma HexDecodes(writes: seq<Write>, family: nat, want: nat, start: nat)
    requires writes != [] && Packable(StoreAll(writes), family)
    ensures var pages := StoreAll(writes);
            var r := Decode(PackPages(pages, |pages|, family), want, start);
            && pages != []
            && (r.Ok? <==> Consecutive(pages))
            && (r.Ok? && (want == 0 || want == family) ==> r.value == (Payload(pages, |pages|), pages[0].addr))
  {
    StoreAllAligned(writes);
    PagesRoundTrip(StoreAll(writes), family, want, start);
  }

  /** What decodes is the image of the data: each byte decoded is the last one the data put at its address, or 0. */
  lemma DecodedByte(writes: seq<Write>, i: nat, o: nat)
    requires Consecutive(StoreAll(writes)) && i < |StoreAll(writes)| && o < CHUNK
    ensures var pages := StoreAll(writes);
            && |Payload(pages, |pages|)| == CHUNK * |pages|
            && Payload(pages, |pages|)[CHUNK * i + o] == ByteAt(writes, pages[0].addr + CHUNK * i + o)
  {
    ConsecutiveHoldImage(writes, i);
    PayloadHoldsImage(writes, StoreAll(writes), i, o);
  }

  lemma ConsecutiveHoldImage(writes: seq<Write>, i: nat)
    requires Consecutive(StoreAll(writes)) && i < |StoreAll(writes)|
    ensures HoldsImage(writes, StoreAll(writes)[i])
  {
    ConsecutiveSorted(StoreAll(writes));
    SortedIff(writes);
    AscendingImage(writes);
  }

  lemma PayloadHoldsImage(writes: seq<Write>, pages: seq<Page>, i: nat, o: nat)
    requires Consecutive(pages) && i < |pages| && o < CHUNK && forall k :: 0 <= k < |pages| ==> |pages[k].bytes| == CHUNK
    requires HoldsImage(writes, pages[i])
    ensures |Payload(pages, |pages|)| == CHUNK * |pages|
    ensures Payload(pages, |pages|)[CHUNK * i + o] == ByteAt(writes, pages[0].addr + CHUNK * i + o)
  {
    ConsecutiveAddr(pages, i);
    PayloadByte(pages, |pages|, i, o);
    assert pages[i].bytes[o] == ByteAt(writes, pages[i].addr + o);
  }

  lemma ConsecutiveSorted(pages: seq<Page>)
    requires Consecutive(pages)
    ensures Sorted(pages)
  {
    forall a, b | 0 <= a < b < |pages|
      ensures pages[a].addr < pages[b].addr
    {
      ConsecutiveAddr(pages, a);
      ConsecutiveAddr(pages, b);
    }
  }

  lemma {:induction false} ConsecutiveAddr(pages: seq<Page>, i: nat)
    requires Consecutive(pages) && i < |pages|
    ensures pages[i].addr == pages[0].addr + CHUNK * i
  {
    if i > 0 {
      ConsecutiveAddr(pages, i - 1);
      assert Gap(pages, i) == 0;
    }
  }

  lemma {:induction false} PayloadByte(pages: seq<Page>, n: nat, i: nat, o: nat)
    requires i < n <= |pages| && o < CHUNK && forall k :: 0 <= k < |pages| ==> |pages[k].bytes| == CHUNK
    ensures |Payload(pages, n)| == CHUNK * n && Payload(pages, n)[CHUNK * i + o] == pages[i].bytes[o]
  {
    if n > 1 {
      PayloadByte(pages, n - 1, if i < n - 1 then i else 0, o);
    }
  }
}
