/**
 The keymap in EEPROM (quantum/dynamic_keymap.c).  One byte store is read and written by
 key position, by encoder, and as a raw byte buffer.  The three routes are functions on
 the store's bytes; class `Store` runs them in place with the source's loops.

 The theorems say that position and buffer are two views of the same bytes, and that no
 write disturbs another key, another encoder, or the macro area, for every number of
 layers, rows, columns and encoders that fits the EEPROM.
 */
module DynamicKeymap {
  import opened Bytes
  import opened Grid
  import MacroText

  const KC_NO: nat := 0
  const KC_TRANSPARENT: nat := 1

  /** Start of the keymap, its dimensions, and the size of the EEPROM. */
  datatype Layout = Layout(base: nat, layers: nat, rows: nat, cols: nat, encoders: nat, size: nat) {
    function KeyBytes(): nat {
      layers * rows * cols * 2
    }

    function EncoderAddr(): nat {
      base + KeyBytes()
    }

    function EncoderBytes(): nat {
      layers * encoders * 2 * 2
    }

    function MacroAddr(): nat {
      EncoderAddr() + EncoderBytes()
    }

    /** The build-time assertions: at least 100 bytes are left for macros, addresses fit 16 bits. */
    predicate Fits() {
      MacroAddr() + 100 < size <= 65536
    }

    predicate HasKey(k: Key) {
      k.layer < layers && k.row < rows && k.col < cols
    }

    predicate HasEncoder(e: Encoder) {
      e.layer < layers && e.id < encoders
    }
  }

  datatype Key = Key(layer: nat, row: nat, col: nat)

  datatype Encoder = Encoder(layer: nat, id: nat, clockwise: bool)

  // ---- addresses ----

  /** `dynamic_keymap_key_to_eeprom_address`. */
  function KeyAddr(l: Layout, k: Key): nat {
    l.base + k.layer * l.rows * l.cols * 2 + k.row * l.cols * 2 + k.col * 2
  }

  /** `dynamic_keymap_encoder_to_eeprom_address` with the offset of the direction. */
  function EncoderKeyAddr(l: Layout, e: Encoder): nat {
    l.EncoderAddr() + e.layer * l.encoders * 2 * 2 + e.id * 2 * 2 + (if e.clockwise then 0 else 2)
  }

  function KeyIndex(l: Layout, k: Key): nat {
    (k.layer * l.rows + k.row) * l.cols + k.col
  }

  /** Layers, then rows, then columns, two bytes each. */
  lemma KeyAddrIsIndex(l: Layout, k: Key)
    ensures KeyIndex(l, k) == (k.layer * l.rows + k.row) * l.cols + k.col
    ensures KeyAddr(l, k) == l.base + 2 * KeyIndex(l, k)
  {
    var a := k.layer * l.rows;
    assert (a + k.row) * l.cols == a * l.cols + k.row * l.cols;
  }

  lemma KeyInRange(l: Layout, k: Key)
    requires l.HasKey(k)
    ensures KeyIndex(l, k) < l.layers * l.rows * l.cols
    ensures l.base <= KeyAddr(l, k) && KeyAddr(l, k) + 2 <= l.EncoderAddr()
  {
    TableRange(k.layer, k.row, l.layers, l.rows);
    TableRange(k.layer * l.rows + k.row, k.col, l.layers * l.rows, l.cols);
    KeyAddrIsIndex(l, k);
  }

  lemma KeysApart(l: Layout, a: Key, b: Key)
    requires l.HasKey(a) && l.HasKey(b) && a != b
    ensures KeyAddr(l, a) + 2 <= KeyAddr(l, b) || KeyAddr(l, b) + 2 <= KeyAddr(l, a)
  {
    KeyAddrIsIndex(l, a);
    KeyAddrIsIndex(l, b);
    if KeyIndex(l, a) == KeyIndex(l, b) {
      TableUnique(a.layer * l.rows + a.row, a.col, b.layer * l.rows + b.row, b.col, l.cols);
      TableUnique(a.layer, a.row, b.layer, b.row, l.rows);
    }
  }

  function EncoderIndex(l: Layout, e: Encoder): nat {
    e.layer * l.encoders + e.id
  }

  lemma EncoderInRange(l: Layout, e: Encoder)
    requires l.HasEncoder(e)
    ensures EncoderIndex(l, e) == e.layer * l.encoders + e.id
    ensures EncoderKeyAddr(l, e) == l.EncoderAddr() + 4 * EncoderIndex(l, e) + (if e.clockwise then 0 else 2)
    ensures l.EncoderAddr() <= EncoderKeyAddr(l, e) && EncoderKeyAddr(l, e) + 2 <= l.MacroAddr()
  {
    TableRange(e.layer, e.id, l.layers, l.encoders);
  }

  lemma EncodersApart(l: Layout, a: Encoder, b: Encoder)
    requires l.HasEncoder(a) && l.HasEncoder(b) && a != b
    ensures EncoderKeyAddr(l, a) + 2 <= EncoderKeyAddr(l, b) || EncoderKeyAddr(l, b) + 2 <= EncoderKeyAddr(l, a)
  {
    EncoderInRange(l, a);
    EncoderInRange(l, b);
    if EncoderIndex(l, a) == EncoderIndex(l, b) {
      TableUnique(a.layer, a.id, b.layer, b.id, l.encoders);
    }
  }

  /** Keymap, encoder map and macros follow each other without a byte between. */
  lemma AreasAdjoin(l: Layout)
    ensures l.EncoderAddr() == l.base + 2 * (l.layers * l.rows * l.cols)
    ensures l.MacroAddr() == l.EncoderAddr() + 4 * (l.layers * l.encoders)
  {
  }

  // ---- reading and writing keycodes ----

  /** A big-endian keycode. */
  function ReadCode(mem: seq<Byte>, addr: nat): nat
    requires addr + 2 <= |mem|
  {
    var hi: nat, lo: nat := mem[addr], mem[addr + 1];
    hi * 256 + lo
  }

  /** The high byte comes first. */
  lemma HighByteFirst(mem: seq<Byte>, addr: nat)
    requires addr + 2 <= |mem|
    ensures var hi: nat, lo: nat := mem[addr], mem[addr + 1]; ReadCode(mem, addr) == hi * 256 + lo
  {
  }

  function WriteCode(mem: seq<Byte>, addr: nat, keycode: nat): (r: seq<Byte>)
    requires addr + 2 <= |mem| && keycode < 65536
    ensures |r| == |mem| && ReadCode(r, addr) == keycode
    ensures forall i :: 0 <= i < |mem| && i != addr && i != addr + 1 ==> r[i] == mem[i]
  {
    var hi: Byte, lo: Byte := keycode / 256, keycode % 256;
    mem[addr := hi][addr + 1 := lo]
  }

  function GetKeycode(l: Layout, mem: seq<Byte>, k: Key): nat
    requires l.Fits() && |mem| == l.size
  {
    if !l.HasKey(k) then KC_NO
    else
      KeyInRange(l, k);
      ReadCode(mem, KeyAddr(l, k))
  }

  function SetKeycode(l: Layout, mem: seq<Byte>, k: Key, keycode: nat): (r: seq<Byte>)
    requires l.Fits() && |mem| == l.size && keycode < 65536
    ensures |r| == l.size
  {
    if !l.HasKey(k) then mem
    else
      KeyInRange(l, k);
      WriteCode(mem, KeyAddr(l, k), keycode)
  }

  function GetEncoder(l: Layout, mem: seq<Byte>, e: Encoder): nat
    requires l.Fits() && |mem| == l.size
  {
    if !l.HasEncoder(e) then KC_NO
    else
      EncoderInRange(l, e);
      ReadCode(mem, EncoderKeyAddr(l, e))
  }

  function SetEncoder(l: Layout, mem: seq<Byte>, e: Encoder, keycode: nat): (r: seq<Byte>)
    requires l.Fits() && |mem| == l.size && keycode < 65536
    ensures |r| == l.size
  {
    if !l.HasEncoder(e) then mem
    else
      EncoderInRange(l, e);
      WriteCode(mem, EncoderKeyAddr(l, e), keycode)
  }

  /** `dynamic_keymap_get_buffer`: bytes beyond the keymap read as 0. */
  function GetBuffer(l: Layout, mem: seq<Byte>, offset: nat, size: nat): (data: seq<Byte>)
    requires l.Fits() && |mem| == l.size
    ensures |data| == size
    ensures forall i :: 0 <= i < size ==> data[i] == if offset + i < l.KeyBytes() then mem[l.base + offset + i] else 0
  {
    seq(size, i requires 0 <= i < size => if offset + i < l.KeyBytes() then mem[l.base + offset + i] else 0)
  }

  /** `dynamic_keymap_set_buffer`: bytes beyond the keymap are dropped. */
  function SetBuffer(l: Layout, mem: seq<Byte>, offset: nat, data: seq<Byte>): (r: seq<Byte>)
    requires l.Fits() && |mem| == l.size
    ensures |r| == l.size
    ensures forall a :: 0 <= a < l.size ==>
              r[a] == if InBuffer(l, offset, |data|, a) then data[a - l.base - offset] else mem[a]
  {
    seq(l.size, a requires 0 <= a < l.size =>
      if InBuffer(l, offset, |data|, a) then data[a - l.base - offset] else mem[a])
  }

  /** Address `a` is one of the `size` buffer bytes from `offset` on, and inside the keymap. */
  predicate InBuffer(l: Layout, offset: nat, size: nat, a: nat) {
    l.base + offset <= a < l.base + offset + size && a < l.EncoderAddr()
  }

  // ---- the theorems ----

  /** A position outside the keymap reads as KC_NO and is not written, and so does an encoder that does not exist. */
  lemma OutsideIsNothing(l: Layout, mem: seq<Byte>, k: Key, e: Encoder, keycode: nat)
    requires l.Fits() && |mem| == l.size && keycode < 65536
    ensures k.layer >= l.layers || k.row >= l.rows || k.col >= l.cols ==> GetKeycode(l, mem, k) == 0 && SetKeycode(l, mem, k, keycode) == mem
    ensures e.layer >= l.layers || e.id >= l.encoders ==> GetEncoder(l, mem, e) == 0 && SetEncoder(l, mem, e, keycode) == mem
  {
  }

  /** The bytes outside `[lo, hi)` are the same. */
  predicate SameOutside(a: seq<Byte>, b: seq<Byte>, lo: nat, hi: nat) {
    |a| == |b| && forall i :: 0 <= i < |a| && !(lo <= i < hi) ==> a[i] == b[i]
  }

  /** Writing one key: it reads back, every other key and every encoder is unchanged, and so is all outside the keymap. */
  lemma KeyWrite(l: Layout, mem: seq<Byte>, k: Key, keycode: nat)
    requires l.Fits() && |mem| == l.size && keycode < 65536 && l.HasKey(k)
    ensures var r := SetKeycode(l, mem, k, keycode);
            && GetKeycode(l, r, k) == keycode
            && (forall j: Key :: j != k ==> GetKeycode(l, r, j) == GetKeycode(l, mem, j))
            && (forall e: Encoder :: GetEncoder(l, r, e) == GetEncoder(l, mem, e))
            && SameOutside(mem, r, l.base, l.EncoderAddr())
  {
    var r := SetKeycode(l, mem, k, keycode);
    KeyInRange(l, k);
    forall j: Key | j != k
      ensures GetKeycode(l, r, j) == GetKeycode(l, mem, j)
    {
      if l.HasKey(j) {
        KeyInRange(l, j);
        KeysApart(l, j, k);
      }
    }
    forall e: Encoder
      ensures GetEncoder(l, r, e) == GetEncoder(l, mem, e)
    {
      if l.HasEncoder(e) {
        EncoderInRange(l, e);
      }
    }
  }

  /** Writing one encoder direction: it reads back, every other one and every key is unchanged, and so is all outside the encoder area. */
  lemma EncoderWrite(l: Layout, mem: seq<Byte>, e: Encoder, keycode: nat)
    requires l.Fits() && |mem| == l.size && keycode < 65536 && l.HasEncoder(e)
    ensures var r := SetEncoder(l, mem, e, keycode);
            && GetEncoder(l, r, e) == keycode
            && (forall j: Encoder :: j != e ==> GetEncoder(l, r, j) == GetEncoder(l, mem, j))
            && (forall k: Key :: GetKeycode(l, r, k) == GetKeycode(l, mem, k))
            && SameOutside(mem, r, l.EncoderAddr(), l.MacroAddr())
  {
    var r := SetEncoder(l, mem, e, keycode);
    EncoderInRange(l, e);
    forall j: Encoder | j != e
      ensures GetEncoder(l, r, j) == GetEncoder(l, mem, j)
    {
      if l.HasEncoder(j) {
        EncoderInRange(l, j);
        EncodersApart(l, j, e);
      }
    }
    forall k: Key
      ensures GetKeycode(l, r, k) == GetKeycode(l, mem, k)
    {
      if l.HasKey(k) {
        KeyInRange(l, k);
      }
    }
  }

  /** The two bytes of a key in the buffer are its keycode, and writing those two bytes is writing the key. */
  lemma BufferIsKeymap(l: Layout, mem: seq<Byte>, k: Key, keycode: nat)
    requires l.Fits() && |mem| == l.size && l.HasKey(k) && keycode < 65536
    ensures var offset := 2 * KeyIndex(l, k);
            && ReadCode(GetBuffer(l, mem, offset, 2), 0) == GetKeycode(l, mem, k)
            && SetBuffer(l, mem, offset, [keycode / 256, keycode % 256]) == SetKeycode(l, mem, k, keycode)
  {
    KeyInRange(l, k);
    KeyAddrIsIndex(l, k);
    var offset := 2 * KeyIndex(l, k);
    var a := SetBuffer(l, mem, offset, [keycode / 256, keycode % 256]);
    var b := SetKeycode(l, mem, k, keycode);
    assert forall i :: 0 <= i < l.size ==> a[i] == b[i];
  }

  /** Writing the buffer anywhere: it reads back as far as the keymap reaches, and nothing outside the keymap changes. */
  lemma BufferWrite(l: Layout, mem: seq<Byte>, offset: nat, data: seq<Byte>)
    requires l.Fits() && |mem| == l.size
    ensures var r := SetBuffer(l, mem, offset, data);
            && SameOutside(mem, r, l.base, l.EncoderAddr())
            && (forall i :: 0 <= i < |data| ==>
                  GetBuffer(l, r, offset, |data|)[i] == if offset + i < l.KeyBytes() then data[i] else 0)
            && (forall k: Key :: l.HasKey(k) && (2 * KeyIndex(l, k) + 2 <= offset || offset + |data| <= 2 * KeyIndex(l, k)) ==>
                  GetKeycode(l, r, k) == GetKeycode(l, mem, k))
  {
    var r := SetBuffer(l, mem, offset, data);
    forall k: Key | l.HasKey(k) && (2 * KeyIndex(l, k) + 2 <= offset || offset + |data| <= 2 * KeyIndex(l, k))
      ensures GetKeycode(l, r, k) == GetKeycode(l, mem, k)
    {
      KeyInRange(l, k);
      KeyAddrIsIndex(l, k);
    }
  }

  // ---- every sequence of writes ----

  datatype Op =
    | KeyOp(key: Key, code: nat)
    | EncoderOp(encoder: Encoder, code: nat)
    | BufferOp(offset: nat, data: seq<Byte>)
  {
    predicate Valid() {
      this.BufferOp? || code < 65536
    }
  }

  predicate AllValid(ops: seq<Op>) {
    forall i :: 0 <= i < |ops| ==> ops[i].Valid()
  }

  function Apply(l: Layout, mem: seq<Byte>, op: Op): (r: seq<Byte>)
    requires l.Fits() && |mem| == l.size && op.Valid()
    ensures |r| == l.size
  {
    match op
    case KeyOp(key, code) => SetKeycode(l, mem, key, code)
    case EncoderOp(encoder, code) => SetEncoder(l, mem, encoder, code)
    case BufferOp(offset, data) => SetBuffer(l, mem, offset, data)
  }

  function Run(l: Layout, mem: seq<Byte>, ops: seq<Op>): (r: seq<Byte>)
    requires l.Fits() && |mem| == l.size && AllValid(ops)
    ensures |r| == l.size
  {
    if ops == [] then mem else Apply(l, Run(l, mem, ops[..|ops| - 1]), ops[|ops| - 1])
  }

  /** A keycode after the bytes `data` were written at `offset` of a table in which it has index `i`. */
  function Patched(code: nat, i: nat, offset: nat, data: seq<Byte>): nat
    requires code < 65536
  {
    var hi: nat := if offset <= 2 * i < offset + |data| then data[2 * i - offset] else code / 256;
    var lo: nat := if offset <= 2 * i + 1 < offset + |data| then data[2 * i + 1 - offset] else code % 256;
    hi * 256 + lo
  }

  /** What key `k` should read after the writes: its last write, by position or through the buffer. */
  function KeyAfter(l: Layout, code: nat, ops: seq<Op>, k: Key): (r: nat)
    requires code < 65536 && AllValid(ops)
    ensures r < 65536
  {
    if ops == [] then code
    else
      var before := KeyAfter(l, code, ops[..|ops| - 1], k);
      match ops[|ops| - 1]
      case KeyOp(key, c) => if key == k then c else before
      case EncoderOp(_, _) => before
      case BufferOp(offset, data) => Patched(before, KeyIndex(l, k), offset, data)
  }

  /** What encoder direction `e` should read after the writes. */
  function EncoderAfter(code: nat, ops: seq<Op>, e: Encoder): nat {
    if ops == [] then code
    else
      var before := EncoderAfter(code, ops[..|ops| - 1], e);
      match ops[|ops| - 1]
      case KeyOp(_, _) => before
      case EncoderOp(encoder, c) => if encoder == e then c else before
      case BufferOp(_, _) => before
  }

  lemma BufferPatchesKey(l: Layout, mem: seq<Byte>, offset: nat, data: seq<Byte>, k: Key)
    requires l.Fits() && |mem| == l.size && l.HasKey(k)
    ensures GetKeycode(l, mem, k) < 65536
    ensures GetKeycode(l, SetBuffer(l, mem, offset, data), k) == Patched(GetKeycode(l, mem, k), KeyIndex(l, k), offset, data)
  {
    KeyInRange(l, k);
    KeyAddrIsIndex(l, k);
    BufferPatches(l, mem, offset, data, KeyIndex(l, k));
  }

  lemma CodeBytes(mem: seq<Byte>, a: nat)
    requires a + 2 <= |mem|
    ensures ReadCode(mem, a) / 256 == mem[a] && ReadCode(mem, a) % 256 == mem[a + 1] && ReadCode(mem, a) < 65536
  {
  }

  lemma BufferPatches(l: Layout, mem: seq<Byte>, offset: nat, data: seq<Byte>, i: nat)
    requires l.Fits() && |mem| == l.size && l.base + 2 * i + 2 <= l.EncoderAddr()
    ensures ReadCode(mem, l.base + 2 * i) < 65536
    ensures ReadCode(SetBuffer(l, mem, offset, data), l.base + 2 * i) == Patched(ReadCode(mem, l.base + 2 * i), i, offset, data)
  {
    var r := SetBuffer(l, mem, offset, data);
    var a := l.base + 2 * i;
    CodeBytes(mem, a);
    assert r[a] == if InBuffer(l, offset, |data|, a) then data[a - l.base - offset] else mem[a];
    assert r[a + 1] == if InBuffer(l, offset, |data|, a + 1) then data[a + 1 - l.base - offset] else mem[a + 1];
  }

  lemma BufferSparesEncoder(l: Layout, mem: seq<Byte>, offset: nat, data: seq<Byte>, e: Encoder)
    requires l.Fits() && |mem| == l.size && l.HasEncoder(e)
    ensures GetEncoder(l, SetBuffer(l, mem, offset, data), e) == GetEncoder(l, mem, e)
  {
    EncoderInRange(l, e);
    var r := SetBuffer(l, mem, offset, data);
    var a := EncoderKeyAddr(l, e);
    assert r[a] == mem[a] && r[a + 1] == mem[a + 1];
  }

  /** Over every sequence of writes each key reads its last write, by position and through the buffer. */
  lemma {:induction false} RunReadsKeys(l: Layout, mem: seq<Byte>, ops: seq<Op>, k: Key)
    requires l.Fits() && |mem| == l.size && AllValid(ops) && l.HasKey(k)
    ensures GetKeycode(l, mem, k) < 65536
    ensures GetKeycode(l, Run(l, mem, ops), k) == KeyAfter(l, GetKeycode(l, mem, k), ops, k)
    ensures ReadCode(GetBuffer(l, Run(l, mem, ops), 2 * KeyIndex(l, k), 2), 0) == KeyAfter(l, GetKeycode(l, mem, k), ops, k)
  {
    BufferPatchesKey(l, mem, 0, [], k);
    BufferIsKeymap(l, Run(l, mem, ops), k, 0);
    if ops != [] {
      var n := |ops| - 1;
      RunReadsKeys(l, mem, ops[..n], k);
      ApplyReadsKey(l, Run(l, mem, ops[..n]), ops[n], k);
    }
  }

  lemma ApplyReadsKey(l: Layout, mem: seq<Byte>, op: Op, k: Key)
    requires l.Fits() && |mem| == l.size && op.Valid() && l.HasKey(k)
    ensures GetKeycode(l, mem, k) < 65536
    ensures GetKeycode(l, Apply(l, mem, op), k) ==
            match op
            case KeyOp(key, c) => (if key == k then c else GetKeycode(l, mem, k))
            case EncoderOp(_, _) => GetKeycode(l, mem, k)
            case BufferOp(offset, data) => Patched(GetKeycode(l, mem, k), KeyIndex(l, k), offset, data)
  {
    BufferPatchesKey(l, mem, 0, [], k);
    match op
    case KeyOp(key, c) =>
      if l.HasKey(key) {
        KeyWrite(l, mem, key, c);
      }
    case EncoderOp(e, c) =>
      if l.HasEncoder(e) {
        EncoderWrite(l, mem, e, c);
      }
    case BufferOp(offset, data) => BufferPatchesKey(l, mem, offset, data, k);
  }

  lemma ApplyReadsEncoder(l: Layout, mem: seq<Byte>, op: Op, e: Encoder)
    requires l.Fits() && |mem| == l.size && op.Valid() && l.HasEncoder(e)
    ensures GetEncoder(l, Apply(l, mem, op), e) == if op.EncoderOp? && op.encoder == e then op.code else GetEncoder(l, mem, e)
  {
    match op
    case KeyOp(key, c) =>
      if l.HasKey(key) {
        KeyWrite(l, mem, key, c);
      }
    case EncoderOp(j, c) =>
      if l.HasEncoder(j) {
        EncoderWrite(l, mem, j, c);
      }
    case BufferOp(offset, data) => BufferSparesEncoder(l, mem, offset, data, e);
  }

  /** Over every sequence of writes each encoder direction reads its last write. */
  lemma {:induction false} RunReadsEncoders(l: Layout, mem: seq<Byte>, ops: seq<Op>, e: Encoder)
    requires l.Fits() && |mem| == l.size && AllValid(ops) && l.HasEncoder(e)
    ensures GetEncoder(l, Run(l, mem, ops), e) == EncoderAfter(GetEncoder(l, mem, e), ops, e)
  {
    if ops != [] {
      var n := |ops| - 1;
      RunReadsEncoders(l, mem, ops[..n], e);
      ApplyReadsEncoder(l, Run(l, mem, ops[..n]), ops[n], e);
    }
  }

  lemma ApplyStaysInside(l: Layout, mem: seq<Byte>, op: Op)
    requires l.Fits() && |mem| == l.size && op.Valid()
    ensures SameOutside(mem, Apply(l, mem, op), l.base, l.MacroAddr())
  {
    match op
    case KeyOp(key, c) =>
      if l.HasKey(key) {
        KeyWrite(l, mem, key, c);
      }
    case EncoderOp(e, c) =>
      if l.HasEncoder(e) {
        EncoderWrite(l, mem, e, c);
      }
    case BufferOp(offset, data) => BufferWrite(l, mem, offset, data);
  }

  lemma {:induction false} RunStaysInside(l: Layout, mem: seq<Byte>, ops: seq<Op>)
    requires l.Fits() && |mem| == l.size && AllValid(ops)
    ensures SameOutside(mem, Run(l, mem, ops), l.base, l.MacroAddr())
  {
    if ops != [] {
      var n := |ops| - 1;
      RunStaysInside(l, mem, ops[..n]);
      ApplyStaysInside(l, Run(l, mem, ops[..n]), ops[n]);
    }
  }

  /** Whatever is written to keys, encoders and the buffer, the macro area is untouched and every macro sends what it sent before. */
  lemma RunKeepsMacros(l: Layout, mem: seq<Byte>, ops: seq<Op>)
    requires l.Fits() && |mem| == l.size && AllValid(ops)
    ensures var r := Run(l, mem, ops);
            && r[..l.base] == mem[..l.base]
            && r[l.MacroAddr()..] == mem[l.MacroAddr()..]
            && forall id: nat, count: nat ::
                 MacroText.Send(r[l.MacroAddr()..], id, count) == MacroText.Send(mem[l.MacroAddr()..], id, count)
  {
    RunStaysInside(l, mem, ops);
    var r := Run(l, mem, ops);
    assert r[..l.base] == mem[..l.base];
    assert r[l.MacroAddr()..] == mem[l.MacroAddr()..];
  }

  // ---- in place ----

  /** The keymap and encoder map in flash, and how many layers each has. */
  datatype Flash = Flash(keymap: Key -> nat, keymapLayers: nat, encoders: Encoder -> nat, encoderLayers: nat) {
    ghost predicate Valid() {
      (forall k: Key :: keymap(k) < 65536) && (forall e: Encoder :: encoders(e) < 65536)
    }

    function KeyDefault(k: Key): nat {
      if k.layer < keymapLayers then keymap(k) else KC_TRANSPARENT
    }

    function EncoderDefault(e: Encoder): nat {
      if e.layer < encoderLayers then encoders(e) else KC_TRANSPARENT
    }
  }

  class Store {
    const l: Layout
    const mem: array<Byte>

    ghost predicate Valid() {
      l.Fits() && mem.Length == l.size
    }

    constructor (l: Layout)
      requires l.Fits()
      ensures Valid() && this.l == l && fresh(mem)
    {
      this.l := l;
      mem := new Byte[l.size](_ => 0);
    }

    method Get(k: Key) returns (keycode: nat)
      requires Valid()
      ensures keycode == GetKeycode(l, mem[..], k)
    {
      if k.layer >= l.layers || k.row >= l.rows || k.col >= l.cols {
        return KC_NO;
      }
      KeyInRange(l, k);
      var addr := KeyAddr(l, k);
      var hi: nat, lo: nat := mem[addr], mem[addr + 1];
      return hi * 256 + lo;
    }

    method Set(k: Key, keycode: nat)
      requires Valid() && keycode < 65536
      modifies mem
      ensures mem[..] == SetKeycode(l, old(mem[..]), k, keycode)
    {
      if k.layer >= l.layers || k.row >= l.rows || k.col >= l.cols {
        return;
      }
      KeyInRange(l, k);
      var addr := KeyAddr(l, k);
      mem[addr] := keycode / 256;
      mem[addr + 1] := keycode % 256;
    }

    method GetEncoderCode(e: Encoder) returns (keycode: nat)
      requires Valid()
      ensures keycode == GetEncoder(l, mem[..], e)
    {
      if e.layer >= l.layers || e.id >= l.encoders {
        return KC_NO;
      }
      EncoderInRange(l, e);
      var addr := EncoderKeyAddr(l, e);
      var hi: nat, lo: nat := mem[addr], mem[addr + 1];
      return hi * 256 + lo;
    }

    method SetEncoderCode(e: Encoder, keycode: nat)
      requires Valid() && keycode < 65536
      modifies mem
      ensures mem[..] == SetEncoder(l, old(mem[..]), e, keycode)
    {
      if e.layer >= l.layers || e.id >= l.encoders {
        return;
      }
      EncoderInRange(l, e);
      var addr := EncoderKeyAddr(l, e);
      mem[addr] := keycode / 256;
      mem[addr + 1] := keycode % 256;
    }

    method ReadBuffer(offset: nat, size: nat) returns (data: seq<Byte>)
      requires Valid()
      ensures data == GetBuffer(l, mem[..], offset, size)
    {
      data := [];
      for i := 0 to size
        invariant |data| == i
        invariant forall j :: 0 <= j < i ==> data[j] == if offset + j < l.KeyBytes() then mem[l.base + offset + j] else 0
      {
        data := data + [if offset + i < l.KeyBytes() then mem[l.base + offset + i] else 0];
      }
    }

    method WriteBuffer(offset: nat, data: seq<Byte>)
      requires Valid()
      modifies mem
      ensures mem[..] == SetBuffer(l, old(mem[..]), offset, data)
    {
      for i := 0 to |data|
        invariant forall a :: 0 <= a < l.size ==>
          mem[a] == if InBuffer(l, offset, i, a) then data[a - l.base - offset] else old(mem[..])[a]
      {
        if offset + i < l.KeyBytes() {
          mem[l.base + offset + i] := data[i];
        }
      }
    }

    /** All keys with an index below `n` have their default. */
    ghost predicate KeysReset(flash: Flash, n: nat)
      requires Valid()
      reads mem
    {
      forall k: Key :: l.HasKey(k) && KeyIndex(l, k) < n ==> GetKeycode(l, mem[..], k) == flash.KeyDefault(k)
    }

    /** All encoder directions of layers below `n`, and on layer `n` those of encoders below `m`, have their default. */
    ghost predicate EncodersReset(flash: Flash, n: nat, m: nat)
      requires Valid()
      reads mem
    {
      forall e: Encoder :: l.HasEncoder(e) && (e.layer < n || (e.layer == n && e.id < m)) ==>
        GetEncoder(l, mem[..], e) == flash.EncoderDefault(e)
    }

    method ResetKey(flash: Flash, k: Key)
      requires Valid() && flash.Valid() && l.HasKey(k)
      requires KeysReset(flash, KeyIndex(l, k))
      modifies mem
      ensures KeysReset(flash, KeyIndex(l, k) + 1)
      ensures forall n, m :: old(EncodersReset(flash, n, m)) ==> EncodersReset(flash, n, m)
      ensures SameOutside(old(mem[..]), mem[..], l.base, l.EncoderAddr())
    {
      ghost var before := mem[..];
      KeyWrite(l, before, k, flash.KeyDefault(k));
      Set(k, flash.KeyDefault(k));
      forall j: Key | l.HasKey(j) && KeyIndex(l, j) < KeyIndex(l, k) + 1
        ensures GetKeycode(l, mem[..], j) == flash.KeyDefault(j)
      {
        if j != k {
          KeysApart(l, j, k);
          KeyAddrIsIndex(l, j);
          KeyAddrIsIndex(l, k);
        }
      }
    }

    method ResetEncoder(flash: Flash, layer: nat, id: nat)
      requires Valid() && flash.Valid() && layer < l.layers && id < l.encoders
      requires EncodersReset(flash, layer, id)
      modifies mem
      ensures EncodersReset(flash, layer, id + 1)
      ensures forall n :: old(KeysReset(flash, n)) ==> KeysReset(flash, n)
      ensures SameOutside(old(mem[..]), mem[..], l.EncoderAddr(), l.MacroAddr())
    {
      var cw, ccw := Encoder(layer, id, true), Encoder(layer, id, false);
      EncoderWrite(l, mem[..], cw, flash.EncoderDefault(cw));
      SetEncoderCode(cw, flash.EncoderDefault(cw));
      EncoderWrite(l, mem[..], ccw, flash.EncoderDefault(ccw));
      SetEncoderCode(ccw, flash.EncoderDefault(ccw));
    }

    method ResetLayer(flash: Flash, layer: nat)
      requires Valid() && flash.Valid() && layer < l.layers
      requires KeysReset(flash, layer * l.rows * l.cols) && EncodersReset(flash, layer, 0)
      modifies mem
      ensures KeysReset(flash, (layer + 1) * l.rows * l.cols) && EncodersReset(flash, layer + 1, 0)
      ensures SameOutside(old(mem[..]), mem[..], l.base, l.MacroAddr())
    {
      assert (layer * l.rows + 0) * l.cols == layer * l.rows * l.cols;
      for row := 0 to l.rows
        invariant KeysReset(flash, (layer * l.rows + row) * l.cols) && EncodersReset(flash, layer, 0)
        invariant SameOutside(old(mem[..]), mem[..], l.base, l.MacroAddr())
      {
        for col := 0 to l.cols
          invariant KeysReset(flash, (layer * l.rows + row) * l.cols + col) && EncodersReset(flash, layer, 0)
          invariant SameOutside(old(mem[..]), mem[..], l.base, l.MacroAddr())
        {
          ResetKey(flash, Key(layer, row, col));
        }
        assert (layer * l.rows + row) * l.cols + l.cols == (layer * l.rows + row + 1) * l.cols;
      }
      assert (layer * l.rows + l.rows) * l.cols == (layer + 1) * l.rows * l.cols;
      for id := 0 to l.encoders
        invariant KeysReset(flash, (layer + 1) * l.rows * l.cols) && EncodersReset(flash, layer, id)
        invariant SameOutside(old(mem[..]), mem[..], l.base, l.MacroAddr())
      {
        ResetEncoder(flash, layer, id);
      }
    }

    /** `dynamic_keymap_reset`: every key and encoder gets its default, and nothing else changes. */
    method Reset(flash: Flash)
      requires Valid() && flash.Valid()
      modifies mem
      ensures forall k: Key :: l.HasKey(k) ==>
                GetKeycode(l, mem[..], k) == if k.layer < flash.keymapLayers then flash.keymap(k) else 1
      ensures forall e: Encoder :: l.HasEncoder(e) ==>
                GetEncoder(l, mem[..], e) == if e.layer < flash.encoderLayers then flash.encoders(e) else 1
      ensures SameOutside(old(mem[..]), mem[..], l.base, l.MacroAddr())
    {
      for layer := 0 to l.layers
        invariant KeysReset(flash, layer * l.rows * l.cols) && EncodersReset(flash, layer, 0)
        invariant SameOutside(old(mem[..]), mem[..], l.base, l.MacroAddr())
      {
        ResetLayer(flash, layer);
      }
      forall k: Key | l.HasKey(k)
        ensures GetKeycode(l, mem[..], k) == flash.KeyDefault(k)
      {
        KeyInRange(l, k);
      }
    }

    /** `dynamic_keymap_macro_send`, on the bytes behind the keymap and encoder areas. */
    method SendMacro(id: nat, count: nat) returns (sent: MacroText.Sent)
      requires Valid()
      ensures sent == MacroText.Send(mem[l.MacroAddr()..], id, count)
    {
      sent := MacroText.MacroSend(mem[l.MacroAddr()..], id, count);
    }
  }
}
