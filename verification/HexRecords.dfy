/**
 From the records of an Intel HEX file to addresses: which bytes `convert_from_hex_to_uf2`
 (util/uf2conv.py) puts where, stated record by record, and what that makes of the blocks
 of the UF2 file.
 */
module HexRecords {
  import opened Bytes
  import opened Uf2
  import opened HexToUf2

  /** No end record comes before record `n`. */
  predicate Reached(records: seq<seq<Byte>>, n: nat)
    requires n <= |records|
  {
    n == 0 || (Reached(records, n - 1) && !Is(records[n - 1], 1))
  }

  predicate Is(rec: seq<Byte>, kind: nat) {
    |rec| >= 4 && rec[3] == kind
  }

  /** The record has the bytes the converter looks at. */
  predicate Readable(rec: seq<Byte>) {
    |rec| >= 4 && (Is(rec, 4) || Is(rec, 2) ==> |rec| >= 6)
  }

  /** Every record up to the end record is readable. */
  predicate AllReadable(records: seq<seq<Byte>>, n: nat)
    requires n <= |records|
  {
    n == 0 || (AllReadable(records, n - 1) && (Reached(records, n - 1) ==> Readable(records[n - 1])))
  }

  lemma ScanStep(before: Option<Scanned>, rec: seq<Byte>, after: Option<Scanned>, readable: bool, reached: bool)
    requires after == match before case None => None case Some(s) => ScanRecord(s, rec)
    requires (before.Some? <==> readable) && (before.Some? ==> (before.value.ended <==> !reached))
    ensures after.Some? <==> readable && (reached ==> Readable(rec))
    ensures after.Some? ==> (after.value.ended <==> !(reached && !Is(rec, 1)))
  {
  }

  lemma ScanOne(records: seq<seq<Byte>>, n: nat)
    requires n < |records|
    ensures Scan(records, n + 1) == match Scan(records, n) case None => None case Some(s) => ScanRecord(s, records[n])
  {
  }

  /** The conversion gets through exactly when every record up to the end record is readable. */
  lemma {:induction false} ScansIff(records: seq<seq<Byte>>, n: nat)
    requires n <= |records|
    ensures Scan(records, n).Some? <==> AllReadable(records, n)
    ensures Scan(records, n).Some? ==> (Scan(records, n).value.ended <==> !Reached(records, n))
  {
    if n > 0 {
      ScansIff(records, n - 1);
      ScanOne(records, n - 1);
      ScanStep(Scan(records, n - 1), records[n - 1], Scan(records, n), AllReadable(records, n - 1), Reached(records, n - 1));
    }
  }

  // ---- the base address ----

  /** Record `m` is the latest before record `n` that sets the base. */
  predicate LatestBase(records: seq<seq<Byte>>, m: nat, n: nat)
    requires n <= |records|
  {
    m < n && (Is(records[m], 4) || Is(records[m], 2)) && forall k :: m < k < n ==> !Is(records[k], 4) && !Is(records[k], 2)
  }

  predicate NoBase(records: seq<seq<Byte>>, n: nat)
    requires n <= |records|
  {
    forall k :: 0 <= k < n ==> !Is(records[k], 4) && !Is(records[k], 2)
  }

  /** One record more. */
  lemma ScanNext(records: seq<seq<Byte>>, n: nat)
    requires n < |records| && Scan(records, n + 1).Some?
    ensures Scan(records, n).Some? && ScanRecord(Scan(records, n).value, records[n]) == Scan(records, n + 1)
  {
  }

  lemma {:induction false} BaseStays(records: seq<seq<Byte>>, m: nat, n: nat)
    requires m <= n <= |records| && Scan(records, n).Some?
    requires forall k :: m <= k < n ==> !Is(records[k], 4) && !Is(records[k], 2)
    ensures Scan(records, m).Some? && Scan(records, n).value.upper == Scan(records, m).value.upper
  {
    if m < n {
      ScanNext(records, n - 1);
      BaseStays(records, m, n - 1);
    }
  }

  lemma {:induction false} ReachedBefore(records: seq<seq<Byte>>, m: nat, n: nat)
    requires m <= n <= |records| && Reached(records, n)
    ensures Reached(records, m)
  {
    if m < n {
      ReachedBefore(records, m, n - 1);
    }
  }

  lemma BaseSet(records: seq<seq<Byte>>, m: nat)
    requires m < |records| && Scan(records, m + 1).Some? && Reached(records, m) && (Is(records[m], 4) || Is(records[m], 2))
    ensures |records[m]| >= 6 &&
            (var hi: nat, lo: nat := records[m][4], records[m][5];
             Scan(records, m + 1).value.upper == (hi * 256 + lo) * (if Is(records[m], 4) then 65536 else 16))
  {
    ScanNext(records, m);
    ScansIff(records, m);
  }

  /** The base is 0 before the first record that sets it; a type 4 record gives the upper 16 address bits, a type 2 record a multiple of 16. */
  lemma BaseIs(records: seq<seq<Byte>>, m: nat, n: nat)
    requires n <= |records| && Scan(records, n).Some? && Reached(records, n)
    ensures NoBase(records, n) ==> Scan(records, n).value.upper == 0
    ensures LatestBase(records, m, n) ==>
              |records[m]| >= 6 &&
              (var hi: nat, lo: nat := records[m][4], records[m][5];
               Scan(records, n).value.upper == if Is(records[m], 4) then hi * 0x100_0000 + lo * 0x1_0000 else hi * 4096 + lo * 16)
  {
    if NoBase(records, n) {
      BaseStays(records, 0, n);
    } else if LatestBase(records, m, n) {
      BaseStays(records, m + 1, n);
      ReachedBefore(records, m, n);
      BaseSet(records, m);
    }
  }

  // ---- the bytes ----

  predicate LiveData(records: seq<seq<Byte>>, n: nat)
    requires n < |records|
  {
    Reached(records, n) && Is(records[n], 0)
  }

  /** How many bytes the data records among the first `n` hold. */
  function BytesBefore(records: seq<seq<Byte>>, n: nat): nat
    requires n <= |records|
  {
    if n == 0 then 0
    else BytesBefore(records, n - 1) + if LiveData(records, n - 1) then DataCount(records[n - 1]) else 0
  }

  /** What one more record writes. */
  lemma WritesOne(records: seq<seq<Byte>>, n: nat)
    requires n < |records| && Scan(records, n + 1).Some?
    ensures Scan(records, n).Some?
    ensures var s, rec := Scan(records, n).value, records[n];
            Scan(records, n + 1).value.writes ==
            if LiveData(records, n) then s.writes + DataWrites(s.upper + Word(rec[1], rec[2]), rec, DataCount(rec)) else s.writes
  {
    ScanNext(records, n);
    ScansIff(records, n);
  }

  lemma {:induction false} WritesCounted(records: seq<seq<Byte>>, n: nat)
    requires n <= |records| && Scan(records, n).Some?
    ensures |Scan(records, n).value.writes| == BytesBefore(records, n)
  {
    if n > 0 {
      WritesOne(records, n - 1);
      WritesCounted(records, n - 1);
    }
  }

  lemma {:induction false} WritesStay(records: seq<seq<Byte>>, m: nat, n: nat)
    requires m <= n <= |records| && Scan(records, n).Some?
    ensures Scan(records, m).Some? && Scan(records, m).value.writes <= Scan(records, n).value.writes
  {
    if m < n {
      WritesOne(records, n - 1);
      WritesStay(records, m, n - 1);
    }
  }

  /**
   Byte `i` of every data record before the end record is written at the record's own address, with the base before it,
   plus `i`; the bytes are written record by record in order, and nothing else is written.
   */
  lemma RecordsWrite(records: seq<seq<Byte>>, n: nat, i: nat)
    requires Scan(records, |records|).Some?
    ensures var writes := Scan(records, |records|).value.writes;
            && |writes| == BytesBefore(records, |records|)
            && (n < |records| && LiveData(records, n) && i + 5 < |records[n]| ==>
                  var rec := records[n];
                  var hi: nat, lo: nat := rec[1], rec[2];
                  && Scan(records, n).Some? && BytesBefore(records, n) + i < |writes|
                  && writes[BytesBefore(records, n) + i] == Write(Scan(records, n).value.upper + hi * 256 + lo + i, rec[4 + i]))
  {
    WritesCounted(records, |records|);
    if n < |records| && LiveData(records, n) && i + 5 < |records[n]| {
      WritesStay(records, n + 1, |records|);
      WritesOne(records, n);
      WritesCounted(records, n);
      ByteOfRecord(Scan(records, n).value, records[n], Scan(records, n + 1).value.writes, Scan(records, |records|).value.writes, i);
    }
  }

  lemma ByteOfRecord(s: Scanned, rec: seq<Byte>, now: seq<Write>, writes: seq<Write>, i: nat)
    requires |rec| >= 4 && i + 5 < |rec| && now <= writes
    requires now == s.writes + DataWrites(s.upper + Word(rec[1], rec[2]), rec, DataCount(rec))
    ensures |s.writes| + i < |writes|
    ensures var hi: nat, lo: nat := rec[1], rec[2];
            writes[|s.writes| + i] == Write(s.upper + hi * 256 + lo + i, rec[4 + i])
  {
    assert now[|s.writes| + i] == DataWrites(s.upper + Word(rec[1], rec[2]), rec, DataCount(rec))[i];
  }

  /** Data record `m` is the first. */
  predicate FirstData(records: seq<seq<Byte>>, m: nat)
    requires m < |records|
  {
    LiveData(records, m) && forall k :: 0 <= k < m ==> !LiveData(records, k)
  }

  lemma StartOne(records: seq<seq<Byte>>, n: nat)
    requires n < |records| && Scan(records, n + 1).Some?
    ensures Scan(records, n).Some?
    ensures var s, rec := Scan(records, n).value, records[n];
            Scan(records, n + 1).value.start ==
            if LiveData(records, n) && s.start.None? then Some(s.upper + Word(rec[1], rec[2])) else s.start
  {
    ScanNext(records, n);
    ScansIff(records, n);
  }

  lemma {:induction false} NoStart(records: seq<seq<Byte>>, n: nat)
    requires n <= |records| && Scan(records, n).Some? && forall k :: 0 <= k < n ==> !LiveData(records, k)
    ensures Scan(records, n).value.start == None
  {
    if n > 0 {
      StartOne(records, n - 1);
      NoStart(records, n - 1);
    }
  }

  /** `appstartaddr` becomes the address of the first data record (`NoStart`: it stays unset without one). */
  lemma {:induction false} StartIs(records: seq<seq<Byte>>, m: nat, n: nat)
    requires m < n <= |records| && Scan(records, n).Some? && FirstData(records, m)
    ensures Scan(records, m).Some? &&
            (var hi: nat, lo: nat := records[m][1], records[m][2];
             Scan(records, n).value.start == Some(Scan(records, m).value.upper + hi * 256 + lo))
  {
    StartOne(records, n - 1);
    if m == n - 1 {
      NoStart(records, m);
    } else {
      StartIs(records, m, n - 1);
    }
  }

  // ---- the file ----

  /** The address of byte `i` of data record `n`. */
  function AddressOf(records: seq<seq<Byte>>, n: nat, i: nat): nat
    requires n < |records| && Is(records[n], 0) && Scan(records, n).Some?
  {
    var hi: nat, lo: nat := records[n][1], records[n][2];
    Scan(records, n).value.upper + hi * 256 + lo + i
  }

  function NthBlock(file: seq<Byte>, k: nat): (block: seq<Byte>)
    requires BLOCK * k + BLOCK <= |file|
    ensures |block| == BLOCK
  {
    file[BLOCK * k..BLOCK * k + BLOCK]
  }

  /** A block of this address, with this byte at this offset of its payload. */
  predicate BlockHas(block: seq<Byte>, addr: nat, o: nat, byte: Byte)
    requires |block| == BLOCK
  {
    UnpackHeader(block).addr == addr && o < CHUNK && block[32 + o] == byte
  }

  /** Byte `i` of record `n` is data, and of the writes of all records none behind it goes to the same address. */
  predicate LastAt(records: seq<seq<Byte>>, writes: seq<Write>, n: nat, i: nat) {
    && n < |records| && LiveData(records, n) && i + 5 < |records[n]|
    && (var at := BytesBefore(records, n) + i; at < |writes| && forall j :: at < j < |writes| ==> writes[j].addr != writes[at].addr)
  }

  lemma {:induction false} LastByteAt(writes: seq<Write>, at: nat)
    requires at < |writes| && forall j :: at < j < |writes| ==> writes[j].addr != writes[at].addr
    ensures ByteAt(writes, writes[at].addr) == writes[at].byte
  {
    if at < |writes| - 1 {
      var front := writes[..|writes| - 1];
      assert front[at] == writes[at];
      LastByteAt(front, at);
    }
  }

  lemma ImageByte(writes: seq<Write>, at: nat) returns (k: nat)
    requires NeverReturns(writes)
    requires at < |writes| && forall j :: at < j < |writes| ==> writes[j].addr != writes[at].addr
    ensures var pages, w := StoreAll(writes), writes[at];
            k < |pages| && pages[k].addr == w.addr / 256 * 256 && pages[k].bytes[w.addr % 256] == w.byte
  {
    ImageIff(writes);
    LastByteAt(writes, at);
    k := PageOf(writes, StoreAll(writes), at);
    HeldByte(writes, StoreAll(writes)[k], writes[at].addr);
  }

  lemma PageOf(writes: seq<Write>, pages: seq<Page>, at: nat) returns (k: nat)
    requires Covered(writes, pages) && at < |writes|
    ensures k < |pages| && pages[k].addr == PageAddr(writes[at].addr)
  {
    var a := PageAddr(writes[at].addr);
    assert exists j :: 0 <= j < |pages| && pages[j].addr == a;
    k :| 0 <= k < |pages| && pages[k].addr == a;
  }

  lemma HeldByte(writes: seq<Write>, page: Page, a: nat)
    requires HoldsImage(writes, page) && page.addr == PageAddr(a)
    ensures page.bytes[a % 256] == ByteAt(writes, a)
  {
    assert page.bytes[a % 256] == ByteAt(writes, page.addr + a % 256);
    assert page.addr + a % 256 == a;
  }

  /**
   What `ConvertHexToUf2` makes of a data byte that no later one overwrites, when no page is returned to: there is a block
   whose address is the byte's page, and the byte is at its offset in the block's payload.
   */
  lemma RecordsToFile(records: seq<seq<Byte>>, s: Scanned, family: nat, n: nat, i: nat) returns (k: nat)
    requires Scan(records, |records|) == Some(s) && NeverReturns(s.writes) && Packable(StoreAll(s.writes), family)
    requires LastAt(records, s.writes, n, i)
    ensures var pages := StoreAll(s.writes);
            && k < |pages| && Scan(records, n).Some?
            && (var a := AddressOf(records, n, i);
                BlockHas(NthBlock(PackPages(pages, |pages|, family), k), a / 256 * 256, a % 256, records[n][4 + i]))
  {
    RecordsWrite(records, n, i);
    k := ByteInFile(s.writes, family, BytesBefore(records, n) + i, AddressOf(records, n, i), records[n][4 + i]);
  }

  /** The block of a write that none behind it overwrites. */
  lemma ByteInFile(writes: seq<Write>, family: nat, at: nat, a: nat, byte: Byte) returns (k: nat)
    requires NeverReturns(writes) && Packable(StoreAll(writes), family)
    requires at < |writes| && writes[at] == Write(a, byte) && forall j :: at < j < |writes| ==> writes[j].addr != a
    ensures var pages := StoreAll(writes);
            k < |pages| && BlockHas(NthBlock(PackPages(pages, |pages|, family), k), a / 256 * 256, a % 256, byte)
  {
    k := ImageByte(writes, at);
    var pages := StoreAll(writes);
    FileFields(pages, family, k);
    PayloadOffset(NthBlock(PackPages(pages, |pages|, family), k), pages[k].bytes, a % 256);
  }

  lemma PayloadOffset(block: seq<Byte>, bytes: seq<Byte>, o: nat)
    requires |block| == BLOCK && o < CHUNK && |bytes| == CHUNK && block[32..][..CHUNK] == bytes
    ensures block[32 + o] == bytes[o]
  {
    assert block[32..][..CHUNK][o] == block[32 + o];
  }
}
