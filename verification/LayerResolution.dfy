/**
 Layer resolution and the press/release agreement of quantum/action_layer.c
 (`layer_switch_get_layer`, `update/read_source_layers_cache`, `store_or_get_action`).

 `Apply` is the keyboard with the cache as a plain map from matrix position to layer;
 class `Resolver` uses the bit-sliced cache and is proved equal to it.  The layer states
 are the sequences of their bits, the keymap a function from layer and key to action code.
 */
module LayerResolution {
  import opened Bytes
  import opened Grid
  import opened LayerCache

  const TRANSPARENT: nat := 1

  type Keymap = (nat, KeyPos) -> nat

  datatype Matrix = Matrix(rows: nat, cols: nat, layerBits: nat) {
    predicate Has(key: KeyPos) {
      key.row < rows && key.col < cols
    }
  }

  /** The search below layer `i`, from the top down; falls back to layer 0. */
  function Resolve(active: seq<bool>, keymap: Keymap, key: KeyPos, i: nat): (layer: nat)
    requires i <= |active|
    ensures layer == 0 || layer < i
  {
    if i == 0 then 0
    else if active[i - 1] && keymap(i - 1, key) != TRANSPARENT then i - 1
    else Resolve(active, keymap, key, i - 1)
  }

  predicate Offers(active: seq<bool>, keymap: Keymap, key: KeyPos, layer: nat) {
    layer < |active| && active[layer] && keymap(layer, key) != TRANSPARENT
  }

  /** The layer found is the highest active one where the key is not transparent, or 0 if there is none. */
  lemma {:induction false} ResolveIsHighest(active: seq<bool>, keymap: Keymap, key: KeyPos, i: nat)
    requires i <= |active|
    ensures var layer := Resolve(active, keymap, key, i);
            if exists k :: 0 <= k < i && Offers(active, keymap, key, k)
            then layer < i && Offers(active, keymap, key, layer) && forall k :: layer < k < i ==> !Offers(active, keymap, key, k)
            else layer == 0
  {
    if i > 0 {
      ResolveIsHighest(active, keymap, key, i - 1);
      if Offers(active, keymap, key, i - 1) {
        assert 0 <= i - 1 < i && Offers(active, keymap, key, i - 1);
      } else if k :| 0 <= k < i && Offers(active, keymap, key, k) {
        assert 0 <= k < i - 1 && Offers(active, keymap, key, k);
      }
    }
  }

  /** The layers that are on in either state. */
  function Either(state: seq<bool>, dflt: seq<bool>): (active: seq<bool>)
    ensures |active| == if |state| > |dflt| then |state| else |dflt|
    ensures forall k :: 0 <= k < |active| ==> (active[k] <==> (k < |state| && state[k]) || (k < |dflt| && dflt[k]))
  {
    seq(if |state| > |dflt| then |state| else |dflt|, k => (0 <= k < |state| && state[k]) || (0 <= k < |dflt| && dflt[k]))
  }

  /** The layer is the highest one where `layer` is on in either state and the key is not transparent, or 0 if there is none. */
  ghost predicate RunsOn(state: seq<bool>, dflt: seq<bool>, keymap: Keymap, key: KeyPos, layer: nat) {
    if exists k :: OnAndOpaque(state, dflt, keymap, key, k)
    then OnAndOpaque(state, dflt, keymap, key, layer) && forall k :: k > layer ==> !OnAndOpaque(state, dflt, keymap, key, k)
    else layer == 0
  }

  predicate OnAndOpaque(state: seq<bool>, dflt: seq<bool>, keymap: Keymap, key: KeyPos, k: int) {
    k >= 0 && ((k < |state| && state[k]) || (k < |dflt| && dflt[k])) && keymap(k, key) != TRANSPARENT
  }

  lemma ResolveRunsOn(state: seq<bool>, dflt: seq<bool>, keymap: Keymap, key: KeyPos)
    ensures var active := Either(state, dflt); RunsOn(state, dflt, keymap, key, Resolve(active, keymap, key, |active|))
  {
    var active := Either(state, dflt);
    var layer := Resolve(active, keymap, key, |active|);
    ResolveIsHighest(active, keymap, key, |active|);
    forall k
      ensures OnAndOpaque(state, dflt, keymap, key, k) <==> 0 <= k && Offers(active, keymap, key, k)
    {
    }
    if k :| OnAndOpaque(state, dflt, keymap, key, k) {
      assert 0 <= k < |active| && Offers(active, keymap, key, k);
    }
  }

  method LayerSwitchGetLayer(state: seq<bool>, dflt: seq<bool>, keymap: Keymap, key: KeyPos) returns (layer: nat)
    ensures layer == Resolve(Either(state, dflt), keymap, key, |Either(state, dflt)|)
    ensures RunsOn(state, dflt, keymap, key, layer)
  {
    ResolveRunsOn(state, dflt, keymap, key);
    var active := Either(state, dflt);
    var i := |active|;
    while i > 0
      invariant 0 <= i <= |active|
      invariant Resolve(active, keymap, key, |active|) == Resolve(active, keymap, key, i)
    {
      i := i - 1;
      if active[i] && keymap(i, key) != TRANSPARENT {
        return i;
      }
    }
    return 0;
  }

  // ---- the keyboard on a plain map ----

  /** `layer_state`, `default_layer_state`, and the layers keys were pressed on. */
  datatype Board = Board(state: seq<bool>, dflt: seq<bool>, cache: map<KeyPos, nat>) {
    function Active(): seq<bool> {
      Either(state, dflt)
    }
  }

  datatype Op = SetLayers(state: seq<bool>) | SetDefault(dflt: seq<bool>) | Down(key: KeyPos) | Up(key: KeyPos)

  function Cached(m: Matrix, b: Board, key: KeyPos): nat {
    if m.Has(key) && key in b.cache then b.cache[key] else 0
  }

  /** The board after the event and the layer whose action the event runs (0 for a layer change). */
  function Apply(m: Matrix, keymap: Keymap, b: Board, op: Op): (Board, nat) {
    match op
    case SetLayers(state) => (b.(state := state), 0)
    case SetDefault(dflt) => (b.(dflt := dflt), 0)
    case Down(key) =>
      var layer := Resolve(b.Active(), keymap, key, |b.Active()|);
      (if m.Has(key) then b.(cache := b.cache[key := Low(layer, m.layerBits)]) else b, layer)
    case Up(key) => (b, Cached(m, b, key))
  }

  function Run(m: Matrix, keymap: Keymap, b: Board, ops: seq<Op>): Board {
    if ops == [] then b
    else Apply(m, keymap, Run(m, keymap, b, ops[..|ops| - 1]), ops[|ops| - 1]).0
  }

  lemma {:induction false} CacheKept(m: Matrix, keymap: Keymap, b: Board, ops: seq<Op>, key: KeyPos)
    requires forall i :: 0 <= i < |ops| ==> ops[i] != Down(key)
    ensures Cached(m, Run(m, keymap, b, ops), key) == Cached(m, b, key)
  {
    if ops != [] {
      CacheKept(m, keymap, b, ops[..|ops| - 1], key);
      assert ops[|ops| - 1] != Down(key);
    }
  }

  /**
   Press a key, then let anything happen but another press of it: layer changes, other keys, even its own releases.
   Its release runs on the layer its press ran on exactly when the key is in the matrix or that layer was 0.
   */
  lemma ReleaseMatchesPress(m: Matrix, keymap: Keymap, b: Board, key: KeyPos, ops: seq<Op>)
    requires |b.Active()| <= Pow2(m.layerBits)
    requires forall i :: 0 <= i < |ops| ==> ops[i] != Down(key)
    ensures var (pressed, layer) := Apply(m, keymap, b, Down(key));
            Apply(m, keymap, Run(m, keymap, pressed, ops), Up(key)).1 == layer <==> m.Has(key) || layer == 0
  {
    var (pressed, layer) := Apply(m, keymap, b, Down(key));
    CacheKept(m, keymap, pressed, ops, key);
    LowExact(layer, m.layerBits);
  }

  /** The layers last set, or `state`. */
  function LastState(state: seq<bool>, ops: seq<Op>): seq<bool> {
    if ops == [] then state
    else if ops[|ops| - 1].SetLayers? then ops[|ops| - 1].state
    else LastState(state, ops[..|ops| - 1])
  }

  function LastDefault(dflt: seq<bool>, ops: seq<Op>): seq<bool> {
    if ops == [] then dflt
    else if ops[|ops| - 1].SetDefault? then ops[|ops| - 1].dflt
    else LastDefault(dflt, ops[..|ops| - 1])
  }

  lemma {:induction false} LayersInForce(m: Matrix, keymap: Keymap, b: Board, ops: seq<Op>)
    ensures Run(m, keymap, b, ops).state == LastState(b.state, ops) && Run(m, keymap, b, ops).dflt == LastDefault(b.dflt, ops)
  {
    if ops != [] {
      LayersInForce(m, keymap, b, ops[..|ops| - 1]);
    }
  }

  /**
   After any run, a press runs on the highest layer where the key is not transparent that is on in the layer state last
   set or the default state last set, or on layer 0 if there is none.
   */
  lemma PressRunsOn(m: Matrix, keymap: Keymap, b: Board, ops: seq<Op>, key: KeyPos)
    ensures RunsOn(LastState(b.state, ops), LastDefault(b.dflt, ops), keymap, key,
                   Apply(m, keymap, Run(m, keymap, b, ops), Down(key)).1)
  {
    LayersInForce(m, keymap, b, ops);
    ResolveRunsOn(LastState(b.state, ops), LastDefault(b.dflt, ops), keymap, key);
  }

  // ---- the keyboard on the bit-sliced cache ----

  function Entry(m: Matrix, key: KeyPos): nat {
    key.row * m.cols + key.col
  }

  lemma EntryInRange(m: Matrix, key: KeyPos)
    requires m.Has(key)
    ensures Entry(m, key) < m.rows * m.cols
  {
    TableRange(key.row, key.col, m.rows, m.cols);
  }

  lemma EntryUnique(m: Matrix, a: KeyPos, c: KeyPos)
    requires m.Has(a) && m.Has(c) && a != c
    ensures Entry(m, a) != Entry(m, c)
  {
    if Entry(m, a) == Entry(m, c) {
      TableUnique(a.row, a.col, c.row, c.col, m.cols);
    }
  }

  class Resolver {
    const m: Matrix
    const keymap: Keymap
    const sliced: SlicedCache
    var state: seq<bool>
    var dflt: seq<bool>
    /** The plain map the slices stand for. */
    ghost var cache: map<KeyPos, nat>

    ghost predicate Valid()
      reads this, sliced, sliced.cache
    {
      && sliced.Valid()
      && sliced.entries == m.rows * m.cols && sliced.layerBits == m.layerBits
      && (forall key :: m.Has(key) ==> Entry(m, key) < sliced.entries && Cached(m, Abs(), key) == sliced.layers[Entry(m, key)])
    }

    ghost function Abs(): Board
      reads this
    {
      Board(state, dflt, cache)
    }

    constructor (m: Matrix, keymap: Keymap, state: seq<bool>, dflt: seq<bool>)
      requires 0 < m.layerBits <= 8
      ensures Valid() && fresh(sliced) && fresh(sliced.cache)
      ensures this.m == m && this.keymap == keymap && Abs() == Board(state, dflt, map[])
    {
      this.m := m;
      this.keymap := keymap;
      this.state := state;
      this.dflt := dflt;
      cache := map[];
      sliced := new SlicedCache(m.rows * m.cols, m.layerBits);
      new;
      forall key | m.Has(key)
        ensures Entry(m, key) < sliced.entries
      {
        EntryInRange(m, key);
      }
    }

    /** `update_source_layers_cache`. */
    method UpdateCache(key: KeyPos, layer: nat)
      requires Valid()
      modifies this`cache, sliced, sliced.cache
      ensures Valid()
      ensures cache == if m.Has(key) then old(cache)[key := Low(layer, m.layerBits)] else old(cache)
    {
      if key.row < m.rows && key.col < m.cols {
        EntryInRange(m, key);
        sliced.Update(Entry(m, key), layer);
        cache := cache[key := Low(layer, m.layerBits)];
        forall k | m.Has(k)
          ensures Entry(m, k) < sliced.entries && Cached(m, Abs(), k) == sliced.layers[Entry(m, k)]
        {
          EntryInRange(m, k);
          if k != key {
            EntryUnique(m, k, key);
          }
        }
      }
    }

    /** `read_source_layers_cache`. */
    method ReadCache(key: KeyPos) returns (layer: nat)
      requires Valid()
      ensures layer == Cached(m, Abs(), key)
    {
      if key.row < m.rows && key.col < m.cols {
        EntryInRange(m, key);
        layer := sliced.Read(Entry(m, key));
      } else {
        layer := 0;
      }
    }

    /** `store_or_get_action`: the action run is that of the layer returned. */
    method StoreOrGet(pressed: bool, key: KeyPos) returns (layer: nat, action: nat)
      requires Valid()
      modifies this`cache, sliced, sliced.cache
      ensures Valid()
      ensures (Abs(), layer) == Apply(m, keymap, old(Abs()), if pressed then Down(key) else Up(key))
      ensures action == keymap(layer, key)
      ensures pressed ==> RunsOn(state, dflt, keymap, key, layer)
    {
      if pressed {
        layer := LayerSwitchGetLayer(state, dflt, keymap, key);
        UpdateCache(key, layer);
      } else {
        layer := ReadCache(key);
      }
      action := keymap(layer, key);
    }
  }
}
