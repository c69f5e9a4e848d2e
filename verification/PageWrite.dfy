/**
 Page-split EEPROM writes (drivers/eeprom/eeprom_i2c.c, drivers/eeprom/eeprom_spi.c).

 The chip programs one page at a time and wraps inside it: a write that runs over the end
 of a page continues at its beginning.  `I2cWritten` and `SpiWritten` say what the drivers
 leave in the memory of such a chip; the theorems compare that with a plain copy.

 The I2C driver takes the bank of a chip larger than its address bytes from the address
 the caller gave, for every page of the block (eeprom_i2c.c:127), so a block that crosses
 into another bank is not copied; and it fills its packet with a uint8_t index
 (eeprom_i2c.c:115), so a piece of 256 bytes or more is never sent.  `CopiesIff` gives the
 exact condition.
 */
module PageWrite {
  import opened Bytes

  datatype Chip = Chip(size: nat, page: nat, addressSize: nat) {

    /** The memory that the address bytes alone can reach. */
    function Bank(): (n: nat)
      ensures n > 0
    {
      Pow256(addressSize)
    }

    /** Banks and the memory are whole pages. */
    predicate Valid() {
      page > 0 && size % page == 0 && Bank() % page == 0
    }
  }

  function Pow256(n: nat): (p: nat)
    ensures p > 0
  {
    if n == 0 then 1 else 256 * Pow256(n - 1)
  }

  // ---- address bytes ----

  /** The last `n` bytes of `p`, most significant first. */
  function BigEndian(p: nat, n: nat): (s: seq<Byte>)
    ensures |s| == n
  {
    if n == 0 then [] else BigEndian(p / 256, n - 1) + [p % 256]
  }

  /** The address a chip reads from its address bytes. */
  function Address(s: seq<Byte>): nat {
    if s == [] then 0 else Address(s[..|s| - 1]) * 256 + s[|s| - 1]
  }

  lemma ModSplit(p: nat, m: nat)
    requires m > 0
    ensures p % (256 * m) == p / 256 % m * 256 + p % 256
  {
    var q, x := p / 256, p % 256;
    var k, y := q / m, q % m;
    assert q == m * k + y;
    assert p == 256 * q + x;
    assert p == 256 * m * k + (256 * y + x);
    ModUnique(p, 256 * m, k, 256 * y + x);
  }

  lemma ModUnique(p: nat, m: nat, k: nat, r: nat)
    requires p == m * k + r && r < m
    ensures p % m == r && p / m == k
  {
    var d := p / m - k;
    assert p == m * (p / m) + p % m;
    assert m * (p / m) == m * k + m * d;
    if d > 0 {
      Scale(m, d);
    } else if d < 0 {
      Scale(m, -d);
    }
  }

  lemma Scale(m: nat, d: int)
    requires d >= 1
    ensures m * d >= m && m * (-d) + m <= 0
  {
  }

  /** The chip reads back the address, up to what the bytes can hold. */
  lemma {:induction false} AddressRoundTrip(p: nat, n: nat)
    ensures Address(BigEndian(p, n)) == p % Pow256(n)
  {
    if n > 0 {
      AddressRoundTrip(p / 256, n - 1);
      ModSplit(p, Pow256(n - 1));
      assert BigEndian(p, n)[..n - 1] == BigEndian(p / 256, n - 1);
    }
  }

  // ---- the chip ----

  /** The largest multiple of `m` up to `x`: the page or the bank that holds it. */
  function Floor(x: nat, m: nat): (f: nat)
    requires m > 0
    ensures f <= x < f + m && x - f == x % m
  {
    x - x % m
  }

  lemma Grows(m: nat, x: nat, y: nat)
    requires x <= y
    ensures m * x <= m * y
  {
  }

  /** A multiple of `m` above `x` leaves room for the rest of the page or bank of `x`. */
  lemma FloorRoom(x: nat, m: nat, end: nat)
    requires m > 0 && end % m == 0 && x < end
    ensures Floor(x, m) + m <= end
  {
    var q, n := x / m, end / m;
    assert x == m * q + x % m && end == m * n;
    if q >= n {
      Grows(m, n, q);
    } else {
      Grows(m, q + 1, n);
    }
  }

  lemma FloorMultiple(x: nat, m: nat)
    requires m > 0
    ensures Floor(x, m) % m == 0 && (Floor(x, m) + m) % m == 0
  {
    var q := x / m;
    assert x == m * q + x % m;
    ModUnique(Floor(x, m), m, q, 0);
    assert Floor(x, m) + m == m * (q + 1);
    ModUnique(Floor(x, m) + m, m, q + 1, 0);
  }

  lemma FloorGrows(x: nat, y: nat, m: nat)
    requires m > 0 && x <= y
    ensures Floor(x, m) <= Floor(y, m)
    ensures Floor(x, m) < Floor(y, m) ==> Floor(x, m) + m <= Floor(y, m)
    ensures y < Floor(x, m) + m ==> Floor(y, m) == Floor(x, m)
  {
    FloorMultiple(x, m);
    FloorMultiple(y, m);
    FloorRoom(x, m, Floor(y, m) + m);
    if Floor(x, m) < Floor(y, m) {
      FloorRoom(Floor(x, m), m, Floor(y, m));
    }
  }

  lemma MultipleOfMultiple(x: nat, m: nat, d: nat)
    requires m > 0 && d > 0 && x % m == 0 && m % d == 0
    ensures x % d == 0
  {
    var a, b := x / m, m / d;
    assert x == m * a && m == d * b;
    assert x == d * (b * a);
    ModUnique(x, d, b * a, 0);
  }

  /** Where byte `k` of a write beginning at `at` lands. */
  function Slot(at: nat, k: nat, page: nat): (j: nat)
    requires page > 0
  {
    Floor(at, page) + (at % page + k) % page
  }

  /** The memory after the first `n` bytes of a page write. */
  function Program(mem: seq<Byte>, at: nat, data: seq<Byte>, n: nat, page: nat): (after: seq<Byte>)
    requires page > 0 && |mem| % page == 0 && at < |mem| && n <= |data|
    ensures |after| == |mem|
  {
    if n == 0 then mem
    else
      FloorRoom(at, page, |mem|);
      Program(mem, at, data, n - 1, page)[Slot(at, n - 1, page) := data[n - 1]]
  }

  /** The plain copy a caller asks for. */
  function Copy(mem: seq<Byte>, at: nat, data: seq<Byte>): (after: seq<Byte>)
    requires at + |data| <= |mem|
    ensures |after| == |mem|
    ensures forall j :: 0 <= j < |mem| ==> after[j] == if at <= j < at + |data| then data[j - at] else mem[j]
  {
    mem[..at] + data + mem[at + |data|..]
  }

  /** A write that stays inside the page is a copy. */
  lemma {:induction false} ProgramCopies(mem: seq<Byte>, at: nat, data: seq<Byte>, n: nat, page: nat)
    requires page > 0 && |mem| % page == 0 && at + |data| <= |mem| && at < |mem| && n <= |data| && at % page + |data| <= page
    ensures Program(mem, at, data, n, page) == Copy(mem, at, data[..n])
  {
    if n > 0 {
      ProgramCopies(mem, at, data, n - 1, page);
      ModUnique(at % page + (n - 1), page, 0, at % page + (n - 1));
      assert Slot(at, n - 1, page) == at + (n - 1);
    }
  }

  /** Copying a little more of the block. */
  lemma CopyMore(mem: seq<Byte>, at: nat, data: seq<Byte>, done: nat, n: nat)
    requires at + |data| <= |mem| && done + n <= |data|
    ensures Copy(Copy(mem, at, data[..done]), at + done, data[done..done + n]) == Copy(mem, at, data[..done + n])
  {
  }

  // ---- splitting ----

  /** The bytes of the next page write. */
  function Piece(at: nat, len: nat, page: nat): (n: nat)
    requires page > 0 && len > 0
    ensures 0 < n <= len && at % page + n <= page
  {
    var room := page - at % page;
    if room > len then len else room
  }

  datatype Chunk = Chunk(at: nat, data: seq<Byte>)

  /** The page writes the rest of a block becomes, once `done` bytes of it are written. */
  function SplitFrom(at: nat, data: seq<Byte>, done: nat, page: nat): (chunks: seq<Chunk>)
    requires page > 0 && done <= |data|
    decreases |data| - done
  {
    if done == |data| then []
    else
      var n := Piece(at + done, |data| - done, page);
      [Chunk(at + done, data[done..done + n])] + SplitFrom(at, data, done + n, page)
  }

  /** The page writes a block becomes. */
  function Split(at: nat, data: seq<Byte>, page: nat): (chunks: seq<Chunk>)
    requires page > 0
  {
    SplitFrom(at, data, 0, page)
  }

  function Joined(chunks: seq<Chunk>): seq<Byte> {
    if chunks == [] then [] else chunks[0].data + Joined(chunks[1..])
  }

  /** Chunk `i` is not empty, lies inside one page, begins where the last one ended, and begins a page unless it is the first. */
  predicate GoodChunk(at: nat, chunks: seq<Chunk>, i: nat, page: nat)
    requires page > 0 && i < |chunks|
  {
    && chunks[i].data != []
    && chunks[i].at % page + |chunks[i].data| <= page
    && chunks[i].at == (if i == 0 then at else chunks[i - 1].at + |chunks[i - 1].data|)
    && (i > 0 ==> chunks[i].at % page == 0)
  }

  /** With `sent` gone out and the bytes from `done` on left to write, `all` will have gone out. */
  predicate Continues(sent: seq<Chunk>, done: nat, at: nat, data: seq<Byte>, page: nat, all: seq<Chunk>)
    requires page > 0 && done <= |data|
  {
    sent + SplitFrom(at, data, done, page) == all
  }

  lemma Continued(sent: seq<Chunk>, done: nat, at: nat, data: seq<Byte>, page: nat, all: seq<Chunk>)
    requires page > 0 && done < |data| && Continues(sent, done, at, data, page, all)
    ensures var n := Piece(at + done, |data| - done, page);
            Continues(sent + [Chunk(at + done, data[done..done + n])], done + n, at, data, page, all)
  {
    var n := Piece(at + done, |data| - done, page);
    var chunk := Chunk(at + done, data[done..done + n]);
    assert sent + ([chunk] + SplitFrom(at, data, done + n, page)) == sent + [chunk] + SplitFrom(at, data, done + n, page);
  }

  lemma Begins(at: nat, data: seq<Byte>, page: nat)
    requires page > 0
    ensures Continues([], 0, at, data, page, Split(at, data, page))
  {
    assert [] + Split(at, data, page) == Split(at, data, page);
  }

  lemma Ends(sent: seq<Chunk>, done: nat, at: nat, data: seq<Byte>, page: nat, all: seq<Chunk>)
    requires page > 0 && done <= |data| && Continues(sent, done, at, data, page, all)
    ensures sent <= all && (done == |data| ==> sent == all)
  {
  }

  lemma {:induction false} SplitJoinsFrom(at: nat, data: seq<Byte>, done: nat, page: nat)
    requires page > 0 && done <= |data|
    ensures Joined(SplitFrom(at, data, done, page)) == data[done..]
    decreases |data| - done
  {
    if done < |data| {
      var n := Piece(at + done, |data| - done, page);
      SplitJoinsFrom(at, data, done + n, page);
      var rest := SplitFrom(at, data, done + n, page);
      assert ([Chunk(at + done, data[done..done + n])] + rest)[1..] == rest;
      assert data[done..] == data[done..done + n] + data[done + n..];
    }
  }

  /** Splitting loses nothing and keeps the order. */
  lemma SplitJoins(at: nat, data: seq<Byte>, page: nat)
    requires page > 0
    ensures Joined(Split(at, data, page)) == data
  {
    SplitJoinsFrom(at, data, 0, page);
    assert data[0..] == data;
  }

  lemma {:induction false} SplitsAtPagesFrom(at: nat, data: seq<Byte>, done: nat, page: nat, i: nat)
    requires page > 0 && done <= |data| && i < |SplitFrom(at, data, done, page)|
    ensures GoodChunk(at + done, SplitFrom(at, data, done, page), i, page)
    decreases |data| - done
  {
    var n := Piece(at + done, |data| - done, page);
    if i > 0 {
      SplitsAtPagesFrom(at, data, done + n, page, i - 1);
      if i == 1 {
        FloorMultiple(at + done, page);
      }
    }
  }

  /** Every chunk is good, for every block. */
  lemma SplitsAtPages(at: nat, data: seq<Byte>, page: nat, i: nat)
    requires page > 0 && i < |Split(at, data, page)|
    ensures GoodChunk(at, Split(at, data, page), i, page)
  {
    SplitsAtPagesFrom(at, data, 0, page, i);
  }

  // ---- I2C ----

  /** Where the chip looks for address `at` of a block whose caller gave `origin`. */
  function Location(c: Chip, origin: nat, at: nat): nat {
    Floor(origin, c.Bank()) + at % c.Bank()
  }

  /** The location is in the bank of the caller's address, and inside the memory. */
  lemma LocationFits(c: Chip, origin: nat, at: nat)
    requires origin <= at < c.size
    ensures Floor(origin, c.Bank()) <= Location(c, origin, at) < Floor(origin, c.Bank()) + c.Bank()
    ensures Location(c, origin, at) < c.size
    ensures Floor(at, c.Bank()) == Floor(origin, c.Bank()) ==> Location(c, origin, at) == at
  {
    FloorGrows(origin, at, c.Bank());
  }

  /** The uint8_t index of the loop that fills the packet, after `k` turns. */
  function PacketIndex(k: nat): (i: nat)
    ensures i < 256
  {
    if k == 0 then 0 else (PacketIndex(k - 1) + 1) % 256
  }

  lemma {:induction false} PacketIndexCounts(k: nat)
    requires k < 256
    ensures PacketIndex(k) == k
  {
    if k > 0 {
      PacketIndexCounts(k - 1);
    }
  }

  /** The loop that fills the packet ends, at some turn, exactly when the piece is shorter than 256 bytes. */
  lemma PacketLoopEndsIff(len: nat)
    ensures (exists k: nat :: PacketIndex(k) >= len) <==> len < 256
  {
    if len < 256 {
      PacketIndexCounts(len);
    }
  }

  /** Every piece of the block gets a packet. */
  predicate Sendable(at: nat, len: nat, page: nat)
    requires page > 0
    decreases len
  {
    len == 0 || (var n := Piece(at, len, page); n < 256 && Sendable(at + n, len - n, page))
  }

  lemma {:induction false} SmallPagesSendable(at: nat, len: nat, page: nat)
    requires 0 < page < 256
    ensures Sendable(at, len, page)
    decreases len
  {
    if len > 0 {
      var n := Piece(at, len, page);
      SmallPagesSendable(at + n, len - n, page);
    }
  }

  /** With pages below 256 bytes every block is; with larger ones its first piece and the rest must both be shorter. */
  lemma SendableIff(at: nat, len: nat, page: nat)
    requires page > 0 && len > 0
    ensures Sendable(at, len, page) <==> page < 256 || (Piece(at, len, page) < 256 && len - Piece(at, len, page) < 256)
  {
    if page < 256 {
      SmallPagesSendable(at, len, page);
    } else {
      var n := Piece(at, len, page);
      if n < len {
        FloorMultiple(at, page);
        var m := Piece(at + n, len - n, page);
        assert m == if page > len - n then len - n else page;
        assert Sendable(at + n, len - n, page) == (m < 256 && Sendable(at + n + m, len - n - m, page));
      }
    }
  }

  /** The bytes of the pieces before the first one of 256 bytes or more. */
  function StopAt(at: nat, len: nat, page: nat): (m: nat)
    requires page > 0
    ensures m <= len
    decreases len
  {
    if len == 0 || Piece(at, len, page) >= 256 then 0
    else
      var n := Piece(at, len, page);
      n + StopAt(at + n, len - n, page)
  }

  /** The driver stops before the end exactly on a block that is not sendable. */
  lemma {:induction false} StopsIff(at: nat, len: nat, page: nat)
    requires page > 0
    ensures StopAt(at, len, page) == len <==> Sendable(at, len, page)
    decreases len
  {
    if len > 0 && Piece(at, len, page) < 256 {
      var n := Piece(at, len, page);
      StopsIff(at + n, len - n, page);
    }
  }

  /** That is at the end, behind the first piece, or at the start. */
  lemma StopAtIs(at: nat, len: nat, page: nat)
    requires page > 0 && len > 0
    ensures var n := Piece(at, len, page);
            StopAt(at, len, page) == if page < 256 then len else if n >= 256 then 0 else if len - n >= 256 then n else len
  {
    StopsIff(at, len, page);
    SendableIff(at, len, page);
    var n := Piece(at, len, page);
    if page >= 256 && n < 256 && len - n >= 256 {
      FloorMultiple(at, page);
      assert Piece(at + n, len - n, page) >= 256;
    }
  }

  /** The next page write of a block of which `done` bytes are written. */
  function Next(c: Chip, at: nat, data: seq<Byte>, done: nat): (n: nat)
    requires c.Valid() && done < |data|
    ensures 0 < n <= |data| - done && (at + done) % c.page + n <= c.page
  {
    Piece(at + done, |data| - done, c.page)
  }

  /**
   The memory after the I2C driver has written the rest of the block `data` at `at`, of which `done` bytes are written;
   it never gets past a piece without a packet.
   */
  function I2cFrom(c: Chip, mem: seq<Byte>, at: nat, data: seq<Byte>, done: nat): (after: seq<Byte>)
    requires c.Valid() && |mem| == c.size && at + |data| <= c.size && done <= |data|
    ensures |after| == c.size
    decreases |data| - done
  {
    if done == |data| || Next(c, at, data, done) >= 256 then mem
    else
      var n := Next(c, at, data, done);
      LocationFits(c, at, at + done);
      I2cFrom(c, Program(mem, Location(c, at, at + done), data[done..done + n], n, c.page), at, data, done + n)
  }

  function I2cWritten(c: Chip, mem: seq<Byte>, at: nat, data: seq<Byte>): (after: seq<Byte>)
    requires c.Valid() && |mem| == c.size && at + |data| <= c.size
    ensures |after| == c.size
  {
    I2cFrom(c, mem, at, data, 0)
  }

  /** A page that begins in a bank ends in it. */
  lemma BankRoom(c: Chip, origin: nat, to: nat)
    requires c.Valid() && to < Floor(origin, c.Bank()) + c.Bank()
    ensures Floor(to, c.page) + c.page <= Floor(origin, c.Bank()) + c.Bank()
  {
    FloorMultiple(origin, c.Bank());
    MultipleOfMultiple(Floor(origin, c.Bank()) + c.Bank(), c.Bank(), c.page);
    FloorRoom(to, c.page, Floor(origin, c.Bank()) + c.Bank());
  }

  /** Nothing past the bank of the caller's address is ever written. */
  lemma {:induction false} StaysInBank(c: Chip, mem: seq<Byte>, at: nat, data: seq<Byte>, done: nat, j: nat)
    requires c.Valid() && |mem| == c.size && at + |data| <= c.size && done <= |data|
    requires Floor(at, c.Bank()) + c.Bank() <= j < c.size
    ensures I2cFrom(c, mem, at, data, done)[j] == mem[j]
    decreases |data| - done
  {
    if done < |data| && Next(c, at, data, done) < 256 {
      var n := Next(c, at, data, done);
      var to := Location(c, at, at + done);
      LocationFits(c, at, at + done);
      BankRoom(c, at, to);
      ProgramSpares(mem, to, data[done..done + n], n, c.page, j);
      StaysInBank(c, Program(mem, to, data[done..done + n], n, c.page), at, data, done + n, j);
    }
  }

  lemma {:induction false} ProgramSpares(mem: seq<Byte>, at: nat, data: seq<Byte>, n: nat, page: nat, j: nat)
    requires page > 0 && |mem| % page == 0 && at < |mem| && n <= |data| && Floor(at, page) + page <= j < |mem|
    ensures Program(mem, at, data, n, page)[j] == mem[j]
  {
    if n > 0 {
      ProgramSpares(mem, at, data, n - 1, page, j);
    }
  }

  /** One page write on top of what is copied. */
  lemma ProgramNext(c: Chip, mem: seq<Byte>, at: nat, data: seq<Byte>, done: nat)
    requires c.Valid() && |mem| == c.size && at + |data| <= c.size && done < |data|
    ensures var n := Next(c, at, data, done);
            Program(Copy(mem, at, data[..done]), at + done, data[done..done + n], n, c.page) == Copy(mem, at, data[..done + n])
  {
    var n := Next(c, at, data, done);
    var piece := data[done..done + n];
    ProgramCopies(Copy(mem, at, data[..done]), at + done, piece, n, c.page);
    assert piece[..n] == piece;
    CopyMore(mem, at, data, done, n);
  }

  lemma CopyAll(mem: seq<Byte>, at: nat, data: seq<Byte>)
    requires at + |data| <= |mem|
    ensures Copy(mem, at, data[..|data|]) == Copy(mem, at, data) && Copy(mem, at, data[..0]) == mem
  {
    assert data[..|data|] == data;
  }

  lemma SameBankLocation(c: Chip, at: nat, len: nat, done: nat)
    requires at + len <= c.size && done < len && Floor(at, c.Bank()) == Floor(at + len - 1, c.Bank())
    ensures Location(c, at, at + done) == at + done
  {
    FloorGrows(at, at + done, c.Bank());
    FloorGrows(at + done, at + len - 1, c.Bank());
    LocationFits(c, at, at + done);
  }

  /** One page write of the rest of a block inside one bank. */
  lemma I2cWritesNext(c: Chip, mem: seq<Byte>, at: nat, data: seq<Byte>, done: nat)
    requires c.Valid() && |mem| == c.size && at + |data| <= c.size && done < |data|
    requires Floor(at, c.Bank()) == Floor(at + |data| - 1, c.Bank()) && Next(c, at, data, done) < 256
    ensures var n := Next(c, at, data, done);
            I2cFrom(c, Copy(mem, at, data[..done]), at, data, done) == I2cFrom(c, Copy(mem, at, data[..done + n]), at, data, done + n)
  {
    var n := Next(c, at, data, done);
    SameBankLocation(c, at, |data|, done);
    ProgramNext(c, mem, at, data, done);
    I2cStep(c, Copy(mem, at, data[..done]), Copy(mem, at, data[..done + n]), at, data, done);
  }

  lemma StopNext(c: Chip, at: nat, data: seq<Byte>, done: nat)
    requires c.Valid() && done < |data|
    ensures var n, m := Next(c, at, data, done), StopAt(at + done, |data| - done, c.page);
            if n >= 256 then m == 0 else m == n + StopAt(at + (done + n), |data| - (done + n), c.page)
  {
  }

  lemma I2cStops(c: Chip, mem: seq<Byte>, at: nat, data: seq<Byte>, done: nat)
    requires c.Valid() && |mem| == c.size && at + |data| <= c.size && done <= |data|
    requires done == |data| || Next(c, at, data, done) >= 256
    ensures I2cFrom(c, mem, at, data, done) == mem
  {
  }

  /** The rest of a block inside one bank is copied up to the first piece of 256 bytes or more, at `m`, whatever pages it spans. */
  lemma {:induction false} I2cWritesRest(c: Chip, mem: seq<Byte>, at: nat, data: seq<Byte>, done: nat, m: nat)
    requires c.Valid() && |mem| == c.size && at + |data| <= c.size && done <= m <= |data|
    requires done < |data| ==> Floor(at, c.Bank()) == Floor(at + |data| - 1, c.Bank())
    requires StopAt(at + done, |data| - done, c.page) == m - done
    ensures I2cFrom(c, Copy(mem, at, data[..done]), at, data, done) == Copy(mem, at, data[..m])
    decreases |data| - done
  {
    if done == |data| || Next(c, at, data, done) >= 256 {
      I2cStops(c, Copy(mem, at, data[..done]), at, data, done);
      assert m == done;
    } else {
      var n := Next(c, at, data, done);
      StopNext(c, at, data, done);
      I2cWritesNext(c, mem, at, data, done);
      I2cWritesRest(c, mem, at, data, done + n, m);
    }
  }

  /**
   A block inside one bank is copied up to its first piece of 256 bytes or more, and nothing else changes: all of it on
   pages below 256 bytes; on larger pages nothing if the first piece is that long, the first piece alone if the rest is,
   else all of it.
   */
  lemma StopsShort(c: Chip, mem: seq<Byte>, at: nat, data: seq<Byte>)
    requires c.Valid() && |mem| == c.size && at + |data| <= c.size && data != []
    requires Floor(at, c.Bank()) == Floor(at + |data| - 1, c.Bank())
    ensures var n := Piece(at, |data|, c.page);
            var m := if c.page < 256 then |data| else if n >= 256 then 0 else if |data| - n >= 256 then n else |data|;
            && I2cWritten(c, mem, at, data) == Copy(mem, at, data[..m])
            && (m == |data| <==> Sendable(at, |data|, c.page))
  {
    CopyAll(mem, at, data);
    I2cWritesRest(c, mem, at, data, 0, StopAt(at, |data|, c.page));
    StopAtIs(at, |data|, c.page);
    StopsIff(at, |data|, c.page);
  }

  /** A sendable block inside one bank is copied, whatever pages it spans. */
  lemma I2cCopies(c: Chip, mem: seq<Byte>, at: nat, data: seq<Byte>)
    requires c.Valid() && |mem| == c.size && at + |data| <= c.size && Reaches(c, at, |data|)
    ensures I2cWritten(c, mem, at, data) == Copy(mem, at, data)
  {
    CopyAll(mem, at, data);
    if data != [] {
      StopsShort(c, mem, at, data);
    }
  }

  function Filled(n: nat, b: Byte): (s: seq<Byte>)
    ensures |s| == n && forall i :: 0 <= i < n ==> s[i] == b
  {
    seq(n, _ => b)
  }

  /** The block lies in one bank and every piece of it gets a packet. */
  predicate Reaches(c: Chip, at: nat, len: nat)
    requires c.Valid()
  {
    len == 0 || (Floor(at, c.Bank()) == Floor(at + len - 1, c.Bank()) && Sendable(at, len, c.page))
  }

  /** The I2C driver copies every block of this address and length, into whatever memory, exactly when the block does not cross into another bank and every piece of it gets a packet. */
  lemma CopiesIff(c: Chip, at: nat, len: nat)
    requires c.Valid() && at + len <= c.size
    ensures (forall mem: seq<Byte>, data: seq<Byte> :: |mem| == c.size && |data| == len ==>
               I2cWritten(c, mem, at, data) == Copy(mem, at, data))
            <==> Reaches(c, at, len)
  {
    if Reaches(c, at, len) {
      forall mem: seq<Byte>, data: seq<Byte> | |mem| == c.size && |data| == len
        ensures I2cWritten(c, mem, at, data) == Copy(mem, at, data)
      {
        I2cCopies(c, mem, at, data);
      }
    } else {
      var mem, data := Filled(c.size, 0), Filled(len, 255);
      var j := MissedByte(c, at, len);
      assert Copy(mem, at, data)[j] == 255;
    }
  }

  /** Otherwise some byte of the block is not written. */
  lemma MissedByte(c: Chip, at: nat, len: nat) returns (j: nat)
    requires c.Valid() && at + len <= c.size && !Reaches(c, at, len)
    ensures at <= j < at + len && I2cWritten(c, Filled(c.size, 0), at, Filled(len, 255))[j] == 0
  {
    var mem, data := Filled(c.size, 0), Filled(len, 255);
    if Floor(at, c.Bank()) == Floor(at + len - 1, c.Bank()) {
      StopsShort(c, mem, at, data);
      StopAtIs(at, len, c.page);
      j := at + StopAt(at, len, c.page);
    } else {
      j := Floor(at, c.Bank()) + c.Bank();
      FloorGrows(at, at + len - 1, c.Bank());
      StaysInBank(c, mem, at, data, 0, j);
    }
  }

  // ---- SPI ----

  /** Whether the chip became ready, took the write enable, and took the write, for each page in turn. */
  datatype Attempt = Attempt(ready: bool, enabled: bool, started: bool) {
    predicate Good() {
      ready && enabled && started
    }
  }

  /** The memory after the SPI driver has written the rest of the block, of which `done` bytes are written, with page `k` next. */
  function SpiFrom(c: Chip, mem: seq<Byte>, at: nat, data: seq<Byte>, done: nat, link: nat -> Attempt, k: nat): (after: seq<Byte>)
    requires c.Valid() && |mem| == c.size <= c.Bank() && at + |data| <= c.size && done <= |data|
    ensures |after| == c.size
    decreases |data| - done
  {
    if done == |data| || !link(k).Good() then mem
    else
      var n := Next(c, at, data, done);
      SpiFrom(c, Program(mem, at + done, data[done..done + n], n, c.page), at, data, done + n, link, k + 1)
  }

  function SpiWritten(c: Chip, mem: seq<Byte>, at: nat, data: seq<Byte>, link: nat -> Attempt): (after: seq<Byte>)
    requires c.Valid() && |mem| == c.size <= c.Bank() && at + |data| <= c.size
    ensures |after| == c.size
  {
    SpiFrom(c, mem, at, data, 0, link, 0)
  }

  /** Of `len` bytes, those before the end of `total` bytes of pages, if the first page is entered at `offset`. */
  function Reach(offset: nat, len: nat, total: nat): (n: nat)
    ensures n <= len
  {
    if offset <= total && total - offset <= len then total - offset else len
  }

  /** The bytes that `n` page writes cover, from the address alone. */
  function Covered(at: nat, len: nat, n: nat, page: nat): (m: nat)
    requires page > 0
    ensures m <= len
  {
    if n == 0 then 0 else Reach(at % page, len, n * page)
  }

  /** The first failing page is number `n`, counted from `k`. */
  predicate FailsFirstAt(link: nat -> Attempt, k: nat, n: nat) {
    !link(k + n).Good() && forall i :: k <= i < k + n ==> link(i).Good()
  }

  lemma CoveredStep(at: nat, len: nat, n: nat, page: nat)
    requires page > 0 && len > 0 && n > 0
    ensures var p := Piece(at, len, page); Covered(at, len, n, page) == p + Covered(at + p, len - p, n - 1, page)
  {
    var p := Piece(at, len, page);
    if p == page - at % page {
      FloorMultiple(at, page);
    }
    if n > 1 {
      Grows(page, 1, n - 1);
      assert n * page == (n - 1) * page + page;
      ReachStep(at % page, len, (n - 1) * page, page, p, (at + p) % page);
    }
  }

  lemma ReachStep(offset: nat, len: nat, total: nat, page: nat, p: nat, next: nat)
    requires offset < page <= total && next < page
    requires p == if page - offset > len then len else page - offset
    requires p == page - offset ==> next == 0
    ensures Reach(offset, len, total + page) == p + Reach(next, len - p, total)
  {
  }

  lemma FailsLater(link: nat -> Attempt, k: nat, n: nat)
    requires n > 0 && FailsFirstAt(link, k, n)
    ensures link(k).Good() && FailsFirstAt(link, k + 1, n - 1)
  {
  }

  /** The bytes of the first `n` pieces. */
  function FirstPieces(at: nat, len: nat, n: nat, page: nat): (m: nat)
    requires page > 0
    ensures m <= len
    decreases len
  {
    if len == 0 || n == 0 then 0
    else
      var p := Piece(at, len, page);
      p + FirstPieces(at + p, len - p, n - 1, page)
  }

  lemma {:induction false} FirstPiecesCovered(at: nat, len: nat, n: nat, page: nat)
    requires page > 0
    ensures FirstPieces(at, len, n, page) == Covered(at, len, n, page)
    decreases len
  {
    if len > 0 && n > 0 {
      var p := Piece(at, len, page);
      FirstPiecesCovered(at + p, len - p, n - 1, page);
      CoveredStep(at, len, n, page);
    }
  }

  /** How far `n` pages take the driver, with `done` bytes of the block written. */
  function After(c: Chip, at: nat, data: seq<Byte>, done: nat, n: nat): (m: nat)
    requires c.Valid() && done <= |data|
    ensures done <= m <= |data|
    decreases |data| - done
  {
    if done == |data| || n == 0 then done else After(c, at, data, done + Next(c, at, data, done), n - 1)
  }

  lemma {:induction false} AfterIsFirstPieces(c: Chip, at: nat, data: seq<Byte>, done: nat, n: nat)
    requires c.Valid() && done <= |data|
    ensures After(c, at, data, done, n) == done + FirstPieces(at + done, |data| - done, n, c.page)
    decreases |data| - done
  {
    if done < |data| && n > 0 {
      AfterIsFirstPieces(c, at, data, done + Next(c, at, data, done), n - 1);
    }
  }

  lemma {:induction false} SpiWritesPieces(c: Chip, mem: seq<Byte>, at: nat, data: seq<Byte>, done: nat, link: nat -> Attempt, k: nat, n: nat)
    requires c.Valid() && |mem| == c.size <= c.Bank() && at + |data| <= c.size && done <= |data|
    requires FailsFirstAt(link, k, n)
    ensures SpiFrom(c, Copy(mem, at, data[..done]), at, data, done, link, k) == Copy(mem, at, data[..After(c, at, data, done, n)])
    decreases |data| - done
  {
    if done < |data| && n > 0 {
      FailsLater(link, k, n);
      ProgramNext(c, mem, at, data, done);
      SpiWritesPieces(c, mem, at, data, done + Next(c, at, data, done), link, k + 1, n - 1);
    }
  }

  /** An early exit leaves exactly a prefix: the pages before the failing one. */
  lemma SpiWritesPrefix(c: Chip, mem: seq<Byte>, at: nat, data: seq<Byte>, link: nat -> Attempt, n: nat)
    requires c.Valid() && |mem| == c.size <= c.Bank() && at + |data| <= c.size
    requires FailsFirstAt(link, 0, n)
    ensures SpiWritten(c, mem, at, data, link) == Copy(mem, at, data[..Covered(at, |data|, n, c.page)])
  {
    CopyAll(mem, at, data);
    SpiWritesPieces(c, mem, at, data, 0, link, 0, n);
    AfterIsFirstPieces(c, at, data, 0, n);
    FirstPiecesCovered(at, |data|, n, c.page);
  }

  lemma {:induction false} SpiCopiesRest(c: Chip, mem: seq<Byte>, at: nat, data: seq<Byte>, done: nat, link: nat -> Attempt, k: nat)
    requires c.Valid() && |mem| == c.size <= c.Bank() && at + |data| <= c.size && done <= |data|
    requires forall i :: k <= i ==> link(i).Good()
    ensures SpiFrom(c, Copy(mem, at, data[..done]), at, data, done, link, k) == Copy(mem, at, data[..|data|])
    decreases |data| - done
  {
    if done < |data| {
      ProgramNext(c, mem, at, data, done);
      SpiCopiesRest(c, mem, at, data, done + Next(c, at, data, done), link, k + 1);
    }
  }

  /** Without a failure the SPI driver copies the block. */
  lemma SpiCopies(c: Chip, mem: seq<Byte>, at: nat, data: seq<Byte>, link: nat -> Attempt)
    requires c.Valid() && |mem| == c.size <= c.Bank() && at + |data| <= c.size
    requires forall i :: 0 <= i ==> link(i).Good()
    ensures SpiWritten(c, mem, at, data, link) == Copy(mem, at, data)
  {
    CopyAll(mem, at, data);
    SpiCopiesRest(c, mem, at, data, 0, link, 0);
  }

  // ---- in place ----

  /** `fill_target_address`: the bytes are stored from the last to the first. */
  method FillTargetAddress(addr: nat, n: nat) returns (buffer: seq<Byte>)
    ensures buffer == BigEndian(addr, n)
  {
    buffer := Filled(n, 0);
    var p := addr;
    for i := 0 to n
      invariant |buffer| == n
      invariant BigEndian(p, n - i) + buffer[n - i..] == BigEndian(addr, n)
    {
      assert buffer[n - i..] == buffer[n - i..n];
      var before := buffer;
      buffer := buffer[n - 1 - i := p % 256];
      assert buffer[n - 1 - i..] == [p % 256] + before[n - i..];
      p := p / 256;
    }
  }

  /** An EEPROM chip and its drivers. */
  class Eeprom {
    const c: Chip
    const memory: array<Byte>

    ghost predicate Valid() {
      c.Valid() && memory.Length == c.size
    }

    constructor (c: Chip)
      requires c.Valid()
      ensures Valid() && this.c == c && fresh(memory)
    {
      this.c := c;
      memory := new Byte[c.size](_ => 0);
    }

    /** The chip programs a page in place. */
    method ProgramPage(at: nat, data: seq<Byte>)
      requires Valid() && at < c.size
      modifies memory
      ensures memory[..] == Program(old(memory[..]), at, data, |data|, c.page)
    {
      FloorRoom(at, c.page, c.size);
      for k := 0 to |data|
        invariant memory[..] == Program(old(memory[..]), at, data, k, c.page)
      {
        memory[Slot(at, k, c.page)] := data[k];
      }
    }

    /** The chip takes a packet, address bytes and then data, for the bank that begins at `bank`. */
    method Receive(bank: nat, packet: seq<Byte>)
      requires Valid() && |packet| >= c.addressSize
      requires bank + Address(packet[..c.addressSize]) < c.size
      modifies memory
      ensures var data := packet[c.addressSize..];
              memory[..] == Program(old(memory[..]), bank + Address(packet[..c.addressSize]), data, |data|, c.page)
    {
      ProgramPage(bank + Address(packet[..c.addressSize]), packet[c.addressSize..]);
    }

    /** The packet for one page: the address, then the bytes copied with a uint8_t index.  With 256 bytes or more the loop goes round forever: `stuck`. */
    method BuildPacket(target: nat, data: seq<Byte>) returns (stuck: bool, packet: seq<Byte>)
      ensures stuck <==> |data| >= 256
      ensures !stuck ==> packet == BigEndian(target, c.addressSize) + data
    {
      packet := FillTargetAddress(target, c.addressSize);
      stuck := |data| >= 256;
      if stuck {
        return;
      }
      var i := 0;
      while i < |data|
        invariant 0 <= i <= |data| && packet == BigEndian(target, c.addressSize) + data[..i]
      {
        packet := packet + [data[i]];
        i := (i + 1) % 256;
      }
    }

    /** One page of the I2C driver. */
    method SendPage(origin: nat, target: nat, data: seq<Byte>) returns (stuck: bool)
      requires Valid() && origin <= target < c.size && Location(c, origin, target) < c.size
      modifies memory
      ensures stuck <==> |data| >= 256
      ensures stuck ==> memory[..] == old(memory[..])
      ensures !stuck ==> memory[..] == Program(old(memory[..]), Location(c, origin, target), data, |data|, c.page)
    {
      var packet;
      stuck, packet := BuildPacket(target, data);
      if stuck {
        return;
      }
      AddressRoundTrip(target, c.addressSize);
      LocationFits(c, origin, target);
      assert packet[..c.addressSize] == BigEndian(target, c.addressSize);
      assert packet[c.addressSize..] == data;
      Receive(Floor(origin, c.Bank()), packet);
    }

    /** The body of the loop of the I2C driver up to the advance. */
    method I2cPage(addr: nat, buf: seq<Byte>, done: nat) returns (stuck: bool, writeLength: nat)
      requires Valid() && done < |buf| && addr + |buf| <= c.size
      modifies memory
      ensures writeLength == Next(c, addr, buf, done) && (stuck <==> writeLength >= 256)
      ensures stuck ==> memory[..] == I2cFrom(c, old(memory[..]), addr, buf, done) && !Sendable(addr + done, |buf| - done, c.page)
      ensures !stuck ==>
                && I2cFrom(c, memory[..], addr, buf, done + writeLength) == I2cFrom(c, old(memory[..]), addr, buf, done)
                && Sendable(addr + (done + writeLength), |buf| - (done + writeLength), c.page) == Sendable(addr + done, |buf| - done, c.page)
    {
      var target := addr + done;
      writeLength := c.page - target % c.page;
      if writeLength > |buf| - done {
        writeLength := |buf| - done;
      }
      LocationFits(c, addr, target);
      stuck := SendPage(addr, target, buf[done..done + writeLength]);
      if !stuck {
        I2cStep(c, old(memory[..]), memory[..], addr, buf, done);
      }
    }

    /** Where the loop of the I2C driver is: what is sent, what the memory will be, and whether it will get there. */
    ghost predicate InFlight(done: nat, sent: seq<Chunk>, addr: nat, buf: seq<Byte>, goal: seq<Byte>, all: seq<Chunk>, sendable: bool)
      requires Valid() && done <= |buf| && addr + |buf| <= c.size
      reads this, memory
    {
      && Continues(sent, done, addr, buf, c.page, all)
      && I2cFrom(c, memory[..], addr, buf, done) == goal
      && Sendable(addr + done, |buf| - done, c.page) == sendable
    }

    /** One turn of the loop. */
    method I2cTurn(addr: nat, buf: seq<Byte>, done: nat, sent: seq<Chunk>, ghost goal: seq<Byte>, ghost all: seq<Chunk>, ghost sendable: bool)
      returns (stuck: bool, writeLength: nat, extended: seq<Chunk>)
      requires Valid() && done < |buf| && addr + |buf| <= c.size && InFlight(done, sent, addr, buf, goal, all, sendable)
      modifies memory
      ensures 0 < writeLength <= |buf| - done
      ensures stuck ==> extended <= all && memory[..] == goal && !sendable
      ensures !stuck ==> InFlight(done + writeLength, extended, addr, buf, goal, all, sendable)
    {
      Ends(sent, done, addr, buf, c.page, all);
      stuck, writeLength := I2cPage(addr, buf, done);
      if stuck {
        return stuck, writeLength, sent;
      }
      extended := AppendChunk(sent, done, writeLength, addr, buf, all);
    }

    /** The I2C `eeprom_write_block`, and the page writes it sent; `stuck` if it never returns. */
    method I2cWriteBlock(buf: seq<Byte>, addr: nat) returns (stuck: bool, sent: seq<Chunk>)
      requires Valid() && addr + |buf| <= c.size
      modifies memory
      ensures memory[..] == I2cWritten(c, old(memory[..]), addr, buf)
      ensures stuck <==> !Sendable(addr, |buf|, c.page)
      ensures if stuck then sent <= Split(addr, buf, c.page) else sent == Split(addr, buf, c.page)
    {
      stuck, sent := false, [];
      var done := 0;
      ghost var goal, all, sendable := I2cWritten(c, memory[..], addr, buf), Split(addr, buf, c.page), Sendable(addr, |buf|, c.page);
      Begins(addr, buf, c.page);
      while done < |buf|
        invariant done <= |buf| && !stuck && InFlight(done, sent, addr, buf, goal, all, sendable)
        decreases |buf| - done
      {
        var writeLength;
        stuck, writeLength, sent := I2cTurn(addr, buf, done, sent, goal, all, sendable);
        if stuck {
          return;
        }
        done := done + writeLength;
      }
      Ends(sent, done, addr, buf, c.page, all);
      I2cStops(c, memory[..], addr, buf, done);
    }

    /** Remember the page write that went out. */
    method AppendChunk(sent: seq<Chunk>, done: nat, n: nat, addr: nat, buf: seq<Byte>, ghost all: seq<Chunk>) returns (extended: seq<Chunk>)
      requires Valid() && done < |buf| && n == Next(c, addr, buf, done) && Continues(sent, done, addr, buf, c.page, all)
      ensures Continues(extended, done + n, addr, buf, c.page, all)
    {
      Continued(sent, done, addr, buf, c.page, all);
      extended := sent + [Chunk(addr + done, buf[done..done + n])];
    }

    /** One page of the SPI driver: address bytes, then data. */
    method TransmitPage(target: nat, data: seq<Byte>)
      requires Valid() && target < c.size <= c.Bank()
      modifies memory
      ensures memory[..] == Program(old(memory[..]), target, data, |data|, c.page)
    {
      var address := FillTargetAddress(target, c.addressSize);
      AddressRoundTrip(target, c.addressSize);
      ModUnique(target, c.Bank(), 0, target);
      var packet := address + data;
      assert packet[..c.addressSize] == address;
      assert packet[c.addressSize..] == data;
      Receive(0, packet);
    }

    /** The body of the loop of the SPI driver up to the advance: the next page, unless an attempt to reach the chip fails. */
    method SpiPage(addr: nat, buf: seq<Byte>, done: nat, link: nat -> Attempt, k: nat) returns (ok: bool, writeLength: nat)
      requires Valid() && done < |buf| && addr + |buf| <= c.size <= c.Bank()
      modifies memory
      ensures ok == link(k).Good() && writeLength == Next(c, addr, buf, done)
      ensures !ok ==> memory[..] == SpiFrom(c, old(memory[..]), addr, buf, done, link, k) == old(memory[..])
      ensures ok ==> SpiFrom(c, memory[..], addr, buf, done + writeLength, link, k + 1) == SpiFrom(c, old(memory[..]), addr, buf, done, link, k)
    {
      var attempt := link(k);
      var target := addr + done;
      writeLength := c.page - target % c.page;
      if writeLength > |buf| - done {
        writeLength := |buf| - done;
      }
      if !attempt.ready {
        return false, writeLength;
      }
      if !attempt.enabled {
        return false, writeLength;
      }
      if !attempt.started {
        return false, writeLength;
      }
      TransmitPage(target, buf[done..done + writeLength]);
      SpiStep(c, old(memory[..]), memory[..], addr, buf, done, link, k);
      ok := true;
    }

    /** The SPI `eeprom_write_block`; `link` says how each attempt to reach the chip ends. */
    method SpiWriteBlock(buf: seq<Byte>, addr: nat, link: nat -> Attempt) returns (sent: seq<Chunk>)
      requires Valid() && addr + |buf| <= c.size <= c.Bank()
      modifies memory
      ensures memory[..] == SpiWritten(c, old(memory[..]), addr, buf, link)
      ensures sent <= Split(addr, buf, c.page)
    {
      sent := [];
      var done, k := 0, 0;
      ghost var goal, all := SpiWritten(c, memory[..], addr, buf, link), Split(addr, buf, c.page);
      Begins(addr, buf, c.page);
      while done < |buf|
        invariant done <= |buf|
        invariant Continues(sent, done, addr, buf, c.page, all)
        invariant SpiFrom(c, memory[..], addr, buf, done, link, k) == goal
        decreases |buf| - done
      {
        Ends(sent, done, addr, buf, c.page, all);
        var ok, writeLength := SpiPage(addr, buf, done, link, k);
        if !ok {
          return;
        }
        sent := AppendChunk(sent, done, writeLength, addr, buf, all);
        done, k := done + writeLength, k + 1;
      }
      Ends(sent, done, addr, buf, c.page, all);
    }

    /** The I2C `eeprom_driver_erase`: page by page, so that banks do no harm; it gets stuck at once on pages of 256 bytes and more. */
    method Erase() returns (stuck: bool)
      requires Valid()
      modifies memory
      ensures stuck <==> c.page >= 256 && c.size > 0
      ensures memory[..] == if stuck then old(memory[..]) else Filled(c.size, 0)
    {
      stuck := false;
      var addr := 0;
      while addr < c.size
        invariant addr <= c.size && addr % c.page == 0 && !stuck
        invariant addr > 0 ==> c.page < 256
        invariant addr == 0 ==> memory[..] == old(memory[..])
        invariant memory[..addr] == Filled(addr, 0)
        decreases c.size - addr
      {
        FloorRoom(addr, c.page, c.size);
        SendableIff(addr, c.page, c.page);
        ghost var was := memory[..];
        var sent;
        stuck, sent := I2cWriteBlock(Filled(c.page, 0), addr);
        if stuck {
          return;
        }
        ErasedPage(c, was, addr);
        FloorMultiple(addr, c.page);
        addr := addr + c.page;
      }
      assert memory[..] == memory[..c.size];
    }
  }

  lemma I2cStep(c: Chip, mem: seq<Byte>, written: seq<Byte>, at: nat, data: seq<Byte>, done: nat)
    requires c.Valid() && |mem| == c.size && at + |data| <= c.size && done < |data| && Next(c, at, data, done) < 256
    requires Location(c, at, at + done) < c.size
    requires var n := Next(c, at, data, done); written == Program(mem, Location(c, at, at + done), data[done..done + n], n, c.page)
    ensures var n := Next(c, at, data, done);
            && I2cFrom(c, written, at, data, done + n) == I2cFrom(c, mem, at, data, done)
            && Sendable(at + (done + n), |data| - (done + n), c.page) == Sendable(at + done, |data| - done, c.page)
  {
  }

  lemma SpiStep(c: Chip, mem: seq<Byte>, written: seq<Byte>, at: nat, data: seq<Byte>, done: nat, link: nat -> Attempt, k: nat)
    requires c.Valid() && |mem| == c.size <= c.Bank() && at + |data| <= c.size && done < |data| && link(k).Good()
    requires var n := Next(c, at, data, done); written == Program(mem, at + done, data[done..done + n], n, c.page)
    ensures var n := Next(c, at, data, done);
            SpiFrom(c, written, at, data, done + n, link, k + 1) == SpiFrom(c, mem, at, data, done, link, k)
  {
  }

  lemma SamePageSameBank(c: Chip, at: nat)
    requires c.Valid() && at % c.page == 0
    ensures Floor(at + c.page - 1, c.Bank()) == Floor(at, c.Bank())
  {
    BankRoom(c, at, at);
    FloorGrows(at, at + c.page - 1, c.Bank());
  }

  lemma ErasedPage(c: Chip, mem: seq<Byte>, at: nat)
    requires c.Valid() && |mem| == c.size && at % c.page == 0 && at + c.page <= c.size && mem[..at] == Filled(at, 0)
    requires Sendable(at, c.page, c.page)
    ensures I2cWritten(c, mem, at, Filled(c.page, 0))[..at + c.page] == Filled(at + c.page, 0)
  {
    SamePageSameBank(c, at);
    I2cCopies(c, mem, at, Filled(c.page, 0));
    forall j | 0 <= j < at
      ensures mem[j] == 0
    {
      assert mem[j] == mem[..at][j];
    }
  }
}
