/**
 The source-layer cache of quantum/action_layer.c.  For every key the firmware remembers
 the layer its press was resolved on, so that the release runs the same action whatever
 happens to the layers in between.  The layers are stored bit-sliced: byte
 (entry / 8, b) holds bit b of the layers of eight entries.

 `SlicedCache` is proved to behave as a plain sequence of layers for every matrix size;
 `ReleaseMatchesPress` is the promise made for `store_or_get_action`.
 */
module LayerCache {

  import opened Bytes

  /** The byte with bit `k` replaced by `b`, by the xor trick of `update_source_layers_cache_impl`. */
  function Replaced(x: bv8, k: nat, b: bool): bv8
    requires k < 8
  {
    x ^ (((if b then 0xFF else 0) ^ x) & Mask(k))
  }

  lemma ReplacedBit(x: bv8, k: nat, b: bool, j: nat)
    requires k < 8 && j < 8
    ensures Bit(Replaced(x, k, b), j) == if j == k then b else Bit(x, j)
  {
  }

  // ---- bits of a layer number ----

  /** (layer & (1 << b)) != 0. */
  predicate LayerBit(layer: nat, b: nat) {
    if b == 0 then layer % 2 == 1 else LayerBit(layer / 2, b - 1)
  }

  /** The number formed by the lowest `b` bits. */
  function Low(layer: nat, b: nat): nat {
    if b == 0 then 0 else 2 * Low(layer / 2, b - 1) + layer % 2
  }

  /** Or-ing in the bits from the lowest up rebuilds the number. */
  lemma {:induction false} OneMoreBit(layer: nat, b: nat)
    ensures Low(layer, b + 1) == Low(layer, b) + (if LayerBit(layer, b) then Pow2(b) else 0)
  {
    if b > 0 {
      OneMoreBit(layer / 2, b - 1);
    }
  }

  lemma {:induction false} LowBit(layer: nat, bits: nat, b: nat)
    requires b < bits
    ensures LayerBit(Low(layer, bits), b) == LayerBit(layer, b)
  {
    if b > 0 {
      LowBit(layer / 2, bits - 1, b - 1);
    }
  }

  /** A layer that fits its bits is stored exactly. */
  lemma {:induction false} LowExact(layer: nat, b: nat)
    ensures layer < Pow2(b) ==> Low(layer, b) == layer
    ensures Low(Low(layer, b), b) == Low(layer, b)
  {
    if b > 0 {
      LowExact(layer / 2, b - 1);
    }
  }

  lemma {:induction false} ZeroLayer(b: nat)
    ensures Low(0, b) == 0 && !LayerBit(0, b)
  {
    if b > 0 {
      ZeroLayer(b - 1);
    }
  }

  lemma NoBit(k: nat)
    requires k < 8
    ensures !Bit(0, k)
  {
  }

  // ---- the bit-sliced cache ----

  class SlicedCache {
    const entries: nat
    const layerBits: nat
    const cache: array2<bv8>
    /** The plain sequence of layers that the slices stand for. */
    ghost var layers: seq<nat>

    ghost predicate Slice(n: nat, b: nat)
      requires n < entries && b < layerBits && b < 8
      requires cache.Length0 == (entries + 7) / 8 && cache.Length1 == layerBits
      reads cache
    {
      Bit(cache[n / 8, b], n % 8)
    }

    ghost predicate Valid()
      reads this, cache
    {
      && Shaped()
      && |layers| == entries
      && (forall n :: 0 <= n < entries ==> layers[n] == Low(layers[n], layerBits))
      && (forall n, b :: 0 <= n < entries && 0 <= b < layerBits ==> Slice(n, b) == LayerBit(layers[n], b))
    }

    constructor (entries: nat, layerBits: nat)
      requires 0 < layerBits <= 8
      ensures Valid() && this.entries == entries && this.layerBits == layerBits && fresh(cache)
      ensures layers == seq(entries, _ => 0)
    {
      this.entries := entries;
      this.layerBits := layerBits;
      cache := new bv8[(entries + 7) / 8, layerBits]((_, _) => 0);
      layers := seq(entries, _ => 0);
      new;
      ZeroLayer(layerBits);
      forall n, b | 0 <= n < entries && 0 <= b < layerBits
        ensures Slice(n, b) == LayerBit(layers[n], b)
      {
        ZeroLayer(b);
        NoBit(n % 8);
      }
    }

    ghost predicate Shaped()
      reads this
    {
      0 < layerBits <= 8 && cache.Length0 == (entries + 7) / 8 && cache.Length1 == layerBits
    }

    /** The assignment in the loop body below: one bit of one slice changes. */
    method WriteBit(n: nat, b: nat, value: bool)
      requires Shaped() && n < entries && b < layerBits
      modifies cache
      ensures forall m, c :: 0 <= m < entries && 0 <= c < layerBits ==>
        Slice(m, c) == if m == n && c == b then value else old(Slice(m, c))
    {
      var idx, bit := n / 8, n % 8;
      ghost var was := cache[idx, b];
      cache[idx, b] := Replaced(cache[idx, b], bit, value);
      forall m, c | 0 <= m < entries && 0 <= c < layerBits
        ensures Slice(m, c) == if m == n && c == b then value else old(Slice(m, c))
      {
        ReplacedBit(was, bit, value, m % 8);
      }
    }

    /** `update_source_layers_cache_impl`. */
    method Update(n: nat, layer: nat)
      requires Valid() && n < entries
      modifies this`layers, cache
      ensures Valid()
      ensures layers == old(layers)[n := Low(layer, layerBits)]
    {
      for b := 0 to layerBits
        invariant layers == old(layers)
        invariant forall m, c :: 0 <= m < entries && 0 <= c < layerBits ==>
          Slice(m, c) == LayerBit(if m == n && c < b then layer else layers[m], c)
      {
        WriteBit(n, b, LayerBit(layer, b));
      }
      layers := layers[n := Low(layer, layerBits)];
      LowExact(layer, layerBits);
      forall c | 0 <= c < layerBits
        ensures LayerBit(layers[n], c) == LayerBit(layer, c)
      {
        LowBit(layer, layerBits, c);
      }
    }

    /** `read_source_layers_cache_impl`. */
    method Read(n: nat) returns (layer: nat)
      requires Valid() && n < entries
      ensures layer == layers[n]
    {
      var idx, bit := n / 8, n % 8;
      layer := 0;
      for b := 0 to layerBits
        invariant layer == Low(layers[n], b)
      {
        OneMoreBit(layers[n], b);
        assert Slice(n, b) == LayerBit(layers[n], b);
        if Bit(cache[idx, b], bit) {
          layer := layer + Pow2(b);
        }
      }
    }
  }
}
