/**
 Layer keycodes from end to end: the keycode is compiled to a 16-bit action code
 (quantum/keymap_common.c, quantum/action_code.h) and the code is taken apart again by
 bit fields and executed on the layer state (quantum/action.c).  The theorems say what
 the round trip does to the layers, for every layer the state type can hold and every
 layer state.

 A layer state is a bv32 cut to the bits `w` of the state type (0xFF, 0xFFFF or all ones).
 */
module LayerActions {

  // ---- encoders of action_code.h ----

  const ACT_LAYER: bv16 := 0x8
  const ACT_LAYER_MODS: bv16 := 0x9
  const ACT_LAYER_TAP: bv16 := 0xA
  const ACT_LAYER_TAP_EXT: bv16 := 0xB
  const ON_PRESS: bv16 := 1
  const ON_RELEASE: bv16 := 2
  const OP_BIT_AND: bv16 := 0
  const OP_BIT_OR: bv16 := 1
  const OP_BIT_XOR: bv16 := 2
  const OP_BIT_SET: bv16 := 3
  const OP_TAP_TOGGLE: bv16 := 0xF0
  const OP_ON_OFF: bv16 := 0xF1
  const OP_OFF_ON: bv16 := 0xF2
  const OP_SET_CLEAR: bv16 := 0xF3
  const TAPPING_TOGGLE: nat := 5

  function Action(kind: bv16, param: bv16): bv16 {
    (kind << 12) | param
  }

  function BitOp(op: bv16, part: bv16, bits: bv16, on: bv16): bv16 {
    Action(ACT_LAYER, (op << 10) | (on << 8) | (part << 5) | (bits & 0x1f))
  }

  function LayerTap(layer: bv16, key: bv16): bv16 {
    Action(ACT_LAYER_TAP, (layer << 8) | key)
  }

  /** 1 << (layer % 4) and layer / 4. */
  function BitInPart(layer: bv16): bv16 {
    1 << (layer & 3)
  }

  function PartOf(layer: bv16): bv16 {
    layer >> 2
  }

  // ---- keycodes ----

  function TO(layer: bv16): bv16 { 0x5200 | (layer & 0x1F) }
  function MO(layer: bv16): bv16 { 0x5220 | (layer & 0x1F) }
  function DF(layer: bv16): bv16 { 0x5240 | (layer & 0x1F) }
  function TG(layer: bv16): bv16 { 0x5260 | (layer & 0x1F) }
  function TT(layer: bv16): bv16 { 0x52C0 | (layer & 0x1F) }
  function LM(layer: bv16, mod: bv16): bv16 { 0x5000 | ((layer & 0xF) << 5) | (mod & 0x1F) }

  datatype Compiled = Code(code: bv16) | NotALayerKey

  /** The layer cases of `action_for_keycode`; `keycode_config` leaves these keycodes alone, `mod_config` is taken as the identity. */
  function Compile(kc: bv16): Compiled {
    var layer := kc & 0x1F;
    if 0x5200 <= kc <= 0x521F then Code(BitOp(OP_BIT_SET, PartOf(layer), BitInPart(layer), ON_PRESS))
    else if 0x5220 <= kc <= 0x523F then Code(LayerTap(layer, OP_ON_OFF))
    else if 0x5240 <= kc <= 0x525F then Code(BitOp(OP_BIT_SET, PartOf(layer), BitInPart(layer), 0))
    else if 0x5260 <= kc <= 0x527F then Code(BitOp(OP_BIT_XOR, PartOf(layer), BitInPart(layer), ON_RELEASE))
    else if 0x52C0 <= kc <= 0x52DF then Code(LayerTap(layer, OP_TAP_TOGGLE))
    else if 0x5000 <= kc <= 0x51FF then
      var mod := kc & 0x1F;
      Code(Action(ACT_LAYER_MODS, (((kc >> 5) & 0xF) << 8) | (if mod & 0x10 != 0 then mod << 4 else mod)))
    else NotALayerKey
  }

  // ---- the interpreter of action.c ----

  /** `layer_state`, `default_layer_state`, and the modifiers registered by layer-mod keys. */
  datatype Layers = Layers(state: bv32, dflt: bv32, mods: bv16)

  /** The state with only `layer` on. */
  function One(layer: bv16): bv32
    requires layer < 32
  {
    (1 as bv32) << layer
  }

  /** Setting, clearing and flipping the bits `b` of a state. */
  function SetBits(w: bv32, x: bv32, b: bv32): bv32 { (x | b) & w }
  function ClearBits(w: bv32, x: bv32, b: bv32): bv32 { (x & !b) & w }
  function FlipBits(w: bv32, x: bv32, b: bv32): bv32 { (x ^ b) & w }

  function SetLayers(w: bv32, l: Layers, b: bv32): Layers { l.(state := SetBits(w, l.state, b)) }
  function ClearLayers(w: bv32, l: Layers, b: bv32): Layers { l.(state := ClearBits(w, l.state, b)) }
  function FlipLayers(w: bv32, l: Layers, b: bv32): Layers { l.(state := FlipBits(w, l.state, b)) }
  function MoveLayers(w: bv32, l: Layers, b: bv32): Layers { l.(state := b & w) }
  function SetDefault(w: bv32, l: Layers, b: bv32): Layers { l.(dflt := b & w) }

  function LayerOn(w: bv32, l: Layers, layer: bv16): Layers
    requires layer < 32
  {
    SetLayers(w, l, One(layer))
  }

  function LayerMove(w: bv32, l: Layers, layer: bv16): Layers
    requires layer < 32
  {
    MoveLayers(w, l, One(layer))
  }

  function DefaultSet(w: bv32, l: Layers, layer: bv16): Layers
    requires layer < 32
  {
    SetDefault(w, l, One(layer))
  }

  function LayerOff(w: bv32, l: Layers, layer: bv16): Layers
    requires layer < 32
  {
    ClearLayers(w, l, One(layer))
  }

  function LayerInvert(w: bv32, l: Layers, layer: bv16): Layers
    requires layer < 32
  {
    FlipLayers(w, l, One(layer))
  }

  /** `layer_and`, `layer_or`, `layer_xor`, `layer_state_set`. */
  function Combine(op: bv16, old_: bv32, operand: bv32): (r: bv32)
    ensures op == 0 ==> r == old_ & operand
    ensures op == 1 ==> r == old_ | operand
    ensures op == 2 ==> r == old_ ^ operand
    ensures op > 2 ==> r == operand
  {
    if op == OP_BIT_AND then old_ & operand
    else if op == OP_BIT_OR then old_ | operand
    else if op == OP_BIT_XOR then old_ ^ operand
    else operand
  }

  /** The operand of a bitwise layer operation: four bits in one part, the rest filled by the extra bit. */
  function Operand(code: bv16): bv32 {
    var shift := ((code >> 5) & 7) * 4;
    var bits := ((code & 0xF) as bv32) << shift;
    var mask := if (code >> 4) & 1 != 0 then !((0xF as bv32) << shift) else 0;
    bits | mask
  }

  /** Case ACT_LAYER with an empty event field: a bitwise operation on the default layers, on release. */
  function DoDefaultOp(w: bv32, op: bv16, operand: bv32, pressed: bool, l: Layers): Layers {
    if pressed then l else l.(dflt := Combine(op, l.dflt, operand) & w)
  }

  /** Case ACT_LAYER otherwise: a bitwise operation on the layers, on the events asked for. */
  function DoLayerOp(w: bv32, asked: bool, op: bv16, operand: bv32, l: Layers): Layers {
    if asked then l.(state := Combine(op, l.state, operand) & w) else l
  }

  predicate Asked(on: bv16, pressed: bool) {
    (if pressed then on & ON_PRESS else on & ON_RELEASE) != 0
  }

  /** Case ACT_LAYER_MODS. */
  function DoLayerMods(w: bv32, code: bv16, pressed: bool, l: Layers): Layers {
    HoldLayerMods(w, (code >> 8) & 0xF, code & 0xFF, pressed, l)
  }

  /** A layer and modifiers, held together. */
  function HoldLayerMods(w: bv32, layer: bv16, mods: bv16, pressed: bool, l: Layers): (r: Layers)
    requires layer < 32
    ensures r.state == if pressed then LayerOn(w, l, layer).state else LayerOff(w, l, layer).state
    ensures r.mods == (if pressed then l.mods | mods else l.mods & !mods) && r.dflt == l.dflt
  {
    if pressed then LayerOn(w, l, layer).(mods := l.mods | mods)
    else LayerOff(w, l, layer).(mods := l.mods & !mods)
  }

  /** Cases ACT_LAYER_TAP and ACT_LAYER_TAP_EXT. */
  function DoLayerTap(w: bv32, code: bv16, pressed: bool, tapCount: nat, l: Layers): Layers {
    var layer := (code >> 8) & 0x1F;
    var op := code & 0xFF;
    if op == OP_ON_OFF then
      if pressed then LayerOn(w, l, layer) else LayerOff(w, l, layer)
    else if op == OP_OFF_ON then
      if pressed then LayerOff(w, l, layer) else LayerOn(w, l, layer)
    else if op == OP_SET_CLEAR then
      if pressed then LayerMove(w, l, layer) else l.(state := 0)
    else if op == OP_TAP_TOGGLE then
      if (if pressed then tapCount < TAPPING_TOGGLE else tapCount <= TAPPING_TOGGLE) then LayerInvert(w, l, layer) else l
    else l
  }

  /** The layer cases of `process_action`. */
  function Interpret(w: bv32, code: bv16, pressed: bool, tapCount: nat, l: Layers): Layers {
    var kind := code >> 12;
    if kind == ACT_LAYER then
      if (code >> 8) & 3 == 0 then DoDefaultOp(w, (code >> 10) & 3, Operand(code), pressed, l)
      else DoLayerOp(w, Asked((code >> 8) & 3, pressed), (code >> 10) & 3, Operand(code), l)
    else if kind == ACT_LAYER_MODS then DoLayerMods(w, code, pressed, l)
    else if kind == ACT_LAYER_TAP || kind == ACT_LAYER_TAP_EXT then DoLayerTap(w, code, pressed, tapCount, l)
    else l
  }

  /** One key event on the key with keycode `kc`. */
  function Strike(w: bv32, kc: bv16, pressed: bool, tapCount: nat, l: Layers): Layers {
    match Compile(kc)
    case Code(code) => Interpret(w, code, pressed, tapCount, l)
    case NotALayerKey => l
  }

  // ---- what the keys mean ----

  datatype LayerKey = GoTo(layer: bv16) | Momentary(layer: bv16) | Default(layer: bv16) | Toggle(layer: bv16) | TapToggle(layer: bv16) {
    function Keycode(): bv16 {
      match this
      case GoTo(l) => TO(l)
      case Momentary(l) => MO(l)
      case Default(l) => DF(l)
      case Toggle(l) => TG(l)
      case TapToggle(l) => TT(l)
    }
  }

  /** The documented effect of each layer key, in the layer operations of action_layer.c. */
  function Meaning(w: bv32, k: LayerKey, pressed: bool, tapCount: nat, l: Layers): Layers
    requires k.layer < 32
  {
    match k
    case GoTo(layer) => if pressed then LayerMove(w, l, layer) else l
    case Momentary(layer) => if pressed then LayerOn(w, l, layer) else LayerOff(w, l, layer)
    case Default(layer) => if pressed then l else DefaultSet(w, l, layer)
    case Toggle(layer) => if pressed then l else LayerInvert(w, l, layer)
    case TapToggle(layer) =>
      // up to the fourth tap momentary; the fifth release flips the layer for good
      if tapCount < TAPPING_TOGGLE || (tapCount == TAPPING_TOGGLE && !pressed) then LayerInvert(w, l, layer) else l
  }

  // ---- the code of each key ----

  lemma ToCode(layer: bv16, w: bv32, pressed: bool, n: nat, l: Layers)
    requires layer < 32
    ensures Strike(w, TO(layer), pressed, n, l) == if pressed then LayerMove(w, l, layer) else l
    ensures LayerMove(w, l, layer) == Layers(((1 as bv32) << layer) & w, l.dflt, l.mods)
  {
  }

  lemma DfCode(layer: bv16, w: bv32, pressed: bool, n: nat, l: Layers)
    requires layer < 32
    ensures Strike(w, DF(layer), pressed, n, l) == if pressed then l else DefaultSet(w, l, layer)
    ensures DefaultSet(w, l, layer) == Layers(l.state, ((1 as bv32) << layer) & w, l.mods)
  {
  }

  lemma TgCode(layer: bv16, w: bv32, pressed: bool, n: nat, l: Layers)
    requires layer < 32
    ensures Strike(w, TG(layer), pressed, n, l) == if pressed then l else LayerInvert(w, l, layer)
  {
  }

  /** Layers 16 to 31 spill their top bit into the kind field, which the interpreter allows for. */
  lemma MoCode(layer: bv16, w: bv32, pressed: bool, n: nat, l: Layers)
    requires layer < 32
    ensures Strike(w, MO(layer), pressed, n, l) == if pressed then LayerOn(w, l, layer) else LayerOff(w, l, layer)
  {
  }

  lemma TtCode(layer: bv16, w: bv32, pressed: bool, n: nat, l: Layers)
    requires layer < 32
    ensures Strike(w, TT(layer), pressed, n, l) ==
            if (if pressed then n < TAPPING_TOGGLE else n <= TAPPING_TOGGLE) then LayerInvert(w, l, layer) else l
  {
  }

  // ---- codes that no keycode compiles to, but a keymap of actions may hold ----

  /** The operation codes of layer-tap actions besides the two that keycodes use. */
  lemma LayerTapCodes(layer: bv16, w: bv32, pressed: bool, n: nat, l: Layers)
    requires layer < 32
    ensures Interpret(w, LayerTap(layer, OP_OFF_ON), pressed, n, l) == if pressed then LayerOff(w, l, layer) else LayerOn(w, l, layer)
    ensures Interpret(w, LayerTap(layer, OP_SET_CLEAR), pressed, n, l) == if pressed then LayerMove(w, l, layer) else l.(state := 0)
  {
  }

  /** The operand of a bitwise action: its four bits in their part, and its fifth bit everywhere else. */
  lemma OperandOf(op: bv16, part: bv16, bits: bv16, on: bv16)
    requires op < 4 && part < 8 && bits < 32 && on < 4
    ensures var o := Operand(BitOp(op, part, bits, on));
            && (o >> (part * 4)) & 0xF == (bits & 0xF) as bv32
            && o & !((0xF as bv32) << (part * 4)) == if bits & 0x10 != 0 then !((0xF as bv32) << (part * 4)) else 0
  {
  }

  lemma IsLayerOp(code: bv16, w: bv32, pressed: bool, n: nat, l: Layers)
    requires code >> 12 == ACT_LAYER
    ensures Interpret(w, code, pressed, n, l) ==
            if (code >> 8) & 3 == 0 then DoDefaultOp(w, (code >> 10) & 3, Operand(code), pressed, l)
            else DoLayerOp(w, Asked((code >> 8) & 3, pressed), (code >> 10) & 3, Operand(code), l)
  {
  }

  lemma AskedIs(on: bv16, pressed: bool)
    requires on < 4
    ensures Asked(on, pressed) <==> on == 3 || (on == 1 && pressed) || (on == 2 && !pressed)
  {
  }

  /** A bitwise action without events asked for works on the default layers, on release, cut to the width. */
  lemma DefaultOpDoes(w: bv32, op: bv16, operand: bv32, pressed: bool, l: Layers)
    ensures DoDefaultOp(w, op, operand, pressed, l) == if pressed then l else l.(dflt := Combine(op, l.dflt, operand) & w)
  {
  }

  /** Otherwise it works on the layers, on the events asked for. */
  lemma LayerOpDoes(w: bv32, asked: bool, op: bv16, operand: bv32, l: Layers)
    ensures DoLayerOp(w, asked, op, operand, l) == if asked then l.(state := Combine(op, l.state, operand) & w) else l
  {
  }

  /** A bitwise action, through its code. */
  lemma BitwiseCodes(op: bv16, part: bv16, bits: bv16, on: bv16, w: bv32, pressed: bool, n: nat, l: Layers)
    requires op < 4 && part < 8 && bits < 32 && on < 4
    ensures var o := Operand(BitOp(op, part, bits, on));
            Interpret(w, BitOp(op, part, bits, on), pressed, n, l) ==
            if on == 0 then DoDefaultOp(w, op, o, pressed, l) else DoLayerOp(w, Asked(on, pressed), op, o, l)
  {
    BitOpFields(op, part, bits, on);
    IsLayerOp(BitOp(op, part, bits, on), w, pressed, n, l);
  }

  lemma BitOpFields(op: bv16, part: bv16, bits: bv16, on: bv16)
    requires op < 4 && part < 8 && bits < 32 && on < 4
    ensures var code := BitOp(op, part, bits, on);
            code >> 12 == ACT_LAYER && (code >> 8) & 3 == on && (code >> 10) & 3 == op
  {
  }

  // ---- runs ----

  datatype KeyEvent = KeyEvent(key: LayerKey, pressed: bool, tapCount: nat)

  function RunCodes(w: bv32, l: Layers, es: seq<KeyEvent>): Layers {
    if es == [] then l
    else
      var e := es[|es| - 1];
      Strike(w, e.key.Keycode(), e.pressed, e.tapCount, RunCodes(w, l, es[..|es| - 1]))
  }

  function RunMeaning(w: bv32, l: Layers, es: seq<KeyEvent>): Layers
    requires forall i :: 0 <= i < |es| ==> es[i].key.layer < 32
  {
    if es == [] then l
    else
      var e := es[|es| - 1];
      Meaning(w, e.key, e.pressed, e.tapCount, RunMeaning(w, l, es[..|es| - 1]))
  }

  lemma StrikeMeans(w: bv32, k: LayerKey, pressed: bool, n: nat, l: Layers)
    requires k.layer < 32
    ensures Strike(w, k.Keycode(), pressed, n, l) == Meaning(w, k, pressed, n, l)
  {
    match k
    case GoTo(layer) => ToCode(layer, w, pressed, n, l);
    case Momentary(layer) => MoCode(layer, w, pressed, n, l);
    case Default(layer) => DfCode(layer, w, pressed, n, l);
    case Toggle(layer) => TgCode(layer, w, pressed, n, l);
    case TapToggle(layer) => TtCode(layer, w, pressed, n, l);
  }

  /** Over every run of layer keys, in every state width, the compiled codes do what the keys mean. */
  lemma {:induction false} RunCodesMean(w: bv32, l: Layers, es: seq<KeyEvent>)
    requires forall i :: 0 <= i < |es| ==> es[i].key.layer < 32
    ensures RunCodes(w, l, es) == RunMeaning(w, l, es)
  {
    if es != [] {
      var n := |es| - 1;
      RunCodesMean(w, l, es[..n]);
      StrikeMeans(w, es[n].key, es[n].pressed, es[n].tapCount, RunMeaning(w, l, es[..n]));
    }
  }

  // ---- what the operations do, layer by layer ----

  predicate OneHot(b: bv32) {
    b != 0 && b & (b - 1) == 0
  }

  /** Different layers are different single bits. */
  lemma LayersAreSingleBits(layer: bv16, k: bv16)
    requires layer < 32 && k < 32
    ensures OneHot(One(layer))
    ensures layer != k ==> One(layer) & One(k) == 0
  {
  }

  /** Setting, clearing and flipping one layer changes that layer and no other inside the width. */
  lemma OwnBit(w: bv32, x: bv32, b: bv32)
    requires OneHot(b) && b & w == b
    ensures SetBits(w, x, b) & b == b
    ensures ClearBits(w, x, b) & b == 0
    ensures FlipBits(w, x, b) & b != 0 <==> x & b == 0
  {
  }

  /** Holding and releasing MO gives the state back exactly when the layer was off before. */
  lemma MomentaryUndoneIff(w: bv32, x: bv32, b: bv32)
    requires OneHot(b) && b & w == b && x & w == x
    ensures ClearBits(w, SetBits(w, x, b), b) == x <==> x & b == 0
  {
  }

  /** Toggling twice gives the state back. */
  lemma ToggleTwice(w: bv32, x: bv32, b: bv32)
    requires x & w == x
    ensures FlipBits(w, FlipBits(w, x, b), b) == x
  {
  }

  // ---- LM: a layer key that can reach the wrong layer ----

  /** The layer and modifier fields of the code of an LM key: the right-hand flag spills into the lowest layer bit. */
  lemma LayerModFields(layer: bv16, mod: bv16)
    requires layer < 16 && mod < 32
    ensures Compile(LM(layer, mod)).Code?
    ensures var code := Compile(LM(layer, mod)).code;
            && code >> 12 == ACT_LAYER_MODS
            && (code >> 8) & 0xF == (if mod & 0x10 != 0 then layer | 1 else layer)
            && code & 0xFF == (if mod & 0x10 != 0 then (mod & 0xF) << 4 else mod)
  {
  }

  /** The layer field of an LM key holds the layer it names exactly when its modifiers are left-hand ones or the layer is odd. */
  lemma LayerModNamesItsLayerIff(layer: bv16, mod: bv16)
    requires layer < 16 && mod < 32
    ensures Compile(LM(layer, mod)).Code?
    ensures (Compile(LM(layer, mod)).code >> 8) & 0xF == layer <==> mod & 0x10 == 0 || layer & 1 == 1
  {
    LayerModFields(layer, mod);
  }

  lemma IsLayerMods(code: bv16, w: bv32, pressed: bool, n: nat, l: Layers)
    requires code >> 12 == ACT_LAYER_MODS
    ensures Interpret(w, code, pressed, n, l) == DoLayerMods(w, code, pressed, l)
  {
  }

  lemma LayerModsDo(code: bv16, layer: bv16, mods: bv16, w: bv32, pressed: bool, l: Layers)
    requires (code >> 8) & 0xF == layer && code & 0xFF == mods && layer < 32
    ensures DoLayerMods(w, code, pressed, l) == HoldLayerMods(w, layer, mods, pressed, l)
  {
  }

  /** The layer an LM key reaches: the one it names, with the lowest bit set for right-hand modifiers. */
  function Reached(layer: bv16, mod: bv16): (r: bv16)
    requires layer < 16
    ensures r < 32
  {
    if mod & 0x10 != 0 then layer | 1 else layer
  }

  /** What an LM key does: its layer on and its modifiers registered while it is held, the right-hand ones in the upper half of the byte. */
  lemma LayerModStrike(layer: bv16, mod: bv16, w: bv32, pressed: bool, n: nat, l: Layers)
    requires layer < 16 && mod < 32
    ensures var mods := if mod & 0x10 != 0 then (mod & 0xF) << 4 else mod;
            Strike(w, LM(layer, mod), pressed, n, l) == HoldLayerMods(w, Reached(layer, mod), mods, pressed, l)
  {
    LayerModFields(layer, mod);
    var code := Compile(LM(layer, mod)).code;
    IsLayerMods(code, w, pressed, n, l);
    LayerModsDo(code, Reached(layer, mod), if mod & 0x10 != 0 then (mod & 0xF) << 4 else mod, w, pressed, l);
  }

  /** From no layer at all, turning on `reached` is turning on `layer` only if they are the same. */
  lemma OnFromNothing(layer: bv16, reached: bv16)
    requires layer < 32 && reached < 32 && reached != layer
    ensures LayerOn(0xFFFF_FFFF, Layers(0, 0, 0), reached).state != LayerOn(0xFFFF_FFFF, Layers(0, 0, 0), layer).state
  {
    LayersAreSingleBits(layer, reached);
  }

  /** In every state and width, pressing an LM key turns on the layer it names iff its modifiers are left-hand ones or that layer is odd. */
  lemma LayerModReachesIff(layer: bv16, mod: bv16)
    requires layer < 16 && mod < 32
    ensures (forall w: bv32, n: nat, l: Layers :: Strike(w, LM(layer, mod), true, n, l).state == LayerOn(w, l, layer).state)
            <==> mod & 0x10 == 0 || layer & 1 == 1
  {
    if mod & 0x10 == 0 || layer & 1 == 1 {
      forall w: bv32, n: nat, l: Layers
        ensures Strike(w, LM(layer, mod), true, n, l).state == LayerOn(w, l, layer).state
      {
        LayerModStrike(layer, mod, w, true, n, l);
      }
    } else {
      LayerModStrike(layer, mod, 0xFFFF_FFFF, true, 0, Layers(0, 0, 0));
      OnFromNothing(layer, layer | 1);
    }
  }

  /** LM(2, right control) switches layer 3 and leaves layer 2 off. */
  lemma LayerModSpills(n: nat)
    ensures Strike(0xFFFF, LM(2, 0x11), true, n, Layers(0, 0, 0)).state == One(3)
    ensures One(3) & One(2) == 0
  {
  }

  // ---- a momentary layer around other layer keys ----

  /** What one key event does to the layers, with the bits it does it to. */
  datatype Change = On(bits: bv32) | Off(bits: bv32) | Invert(bits: bv32) | Move(bits: bv32) | DefaultTo(bits: bv32) | Keep

  function ChangeOf(k: LayerKey, pressed: bool, tapCount: nat): Change
    requires k.layer < 32
  {
    match k
    case GoTo(layer) => if pressed then Move(One(layer)) else Keep
    case Momentary(layer) => if pressed then On(One(layer)) else Off(One(layer))
    case Default(layer) => if pressed then Keep else DefaultTo(One(layer))
    case Toggle(layer) => if pressed then Keep else Invert(One(layer))
    case TapToggle(layer) =>
      if tapCount < TAPPING_TOGGLE || (tapCount == TAPPING_TOGGLE && !pressed) then Invert(One(layer)) else Keep
  }

  /** What a change does to the layer state. */
  function Changed(w: bv32, c: Change, x: bv32): bv32 {
    match c
    case On(bits) => SetBits(w, x, bits)
    case Off(bits) => ClearBits(w, x, bits)
    case Invert(bits) => FlipBits(w, x, bits)
    case Move(bits) => bits & w
    case DefaultTo(bits) => x
    case Keep => x
  }

  /** What a change does to the default layers. */
  function ChangedDefault(w: bv32, c: Change, d: bv32): bv32 {
    if c.DefaultTo? then c.bits & w else d
  }

  function Do(w: bv32, c: Change, l: Layers): Layers {
    Layers(Changed(w, c, l.state), ChangedDefault(w, c, l.dflt), l.mods)
  }

  lemma MeaningIsChange(w: bv32, k: LayerKey, pressed: bool, n: nat, l: Layers)
    requires k.layer < 32
    ensures Meaning(w, k, pressed, n, l) == Do(w, ChangeOf(k, pressed, n), l)
  {
    var c := ChangeOf(k, pressed, n);
    if k.GoTo? {
      assert Meaning(w, k, pressed, n, l) == Do(w, c, l);
    } else if k.Momentary? {
      assert Meaning(w, k, pressed, n, l) == Do(w, c, l);
    } else if k.Default? {
      assert Meaning(w, k, pressed, n, l) == Do(w, c, l);
    } else if k.Toggle? {
      assert Meaning(w, k, pressed, n, l) == Do(w, c, l);
    } else {
      assert Meaning(w, k, pressed, n, l) == Do(w, c, l);
    }
  }

  predicate AllLayers(es: seq<KeyEvent>) {
    forall i :: 0 <= i < |es| ==> es[i].key.layer < 32
  }

  function ChangesOf(es: seq<KeyEvent>): (cs: seq<Change>)
    requires AllLayers(es)
    ensures |cs| == |es|
  {
    seq(|es|, i requires 0 <= i < |es| => ChangeOf(es[i].key, es[i].pressed, es[i].tapCount))
  }

  function RunState(w: bv32, x: bv32, cs: seq<Change>): bv32 {
    if cs == [] then x else Changed(w, cs[|cs| - 1], RunState(w, x, cs[..|cs| - 1]))
  }

  function RunDefault(w: bv32, d: bv32, cs: seq<Change>): bv32 {
    if cs == [] then d else ChangedDefault(w, cs[|cs| - 1], RunDefault(w, d, cs[..|cs| - 1]))
  }

  lemma {:induction false} RunMeaningIsChanges(w: bv32, l: Layers, es: seq<KeyEvent>)
    requires AllLayers(es)
    ensures RunMeaning(w, l, es) == Layers(RunState(w, l.state, ChangesOf(es)), RunDefault(w, l.dflt, ChangesOf(es)), l.mods)
  {
    if es != [] {
      var n := |es| - 1;
      RunMeaningIsChanges(w, l, es[..n]);
      MeaningIsChange(w, es[n].key, es[n].pressed, es[n].tapCount, RunMeaning(w, l, es[..n]));
      assert ChangesOf(es)[..n] == ChangesOf(es[..n]);
    }
  }

  /** The same outside the bits `b`. */
  predicate SameOutside(b: bv32, x: bv32, y: bv32) {
    x & !b == y & !b
  }

  lemma SetOutside(w: bv32, b: bv32, x: bv32, y: bv32, c: bv32)
    requires SameOutside(b, x, y)
    ensures SameOutside(b, SetBits(w, x, c), SetBits(w, y, c))
  {
  }

  lemma ClearOutside(w: bv32, b: bv32, x: bv32, y: bv32, c: bv32)
    requires SameOutside(b, x, y)
    ensures SameOutside(b, ClearBits(w, x, c), ClearBits(w, y, c))
  {
  }

  lemma FlipOutside(w: bv32, b: bv32, x: bv32, y: bv32, c: bv32)
    requires SameOutside(b, x, y)
    ensures SameOutside(b, FlipBits(w, x, c), FlipBits(w, y, c))
  {
  }

  /** A change made to two states that are the same outside `b` keeps them so. */
  lemma ChangeOutside(w: bv32, b: bv32, c: Change, x: bv32, y: bv32)
    requires SameOutside(b, x, y)
    ensures SameOutside(b, Changed(w, c, x), Changed(w, c, y))
  {
    if c.On? {
      SetOutside(w, b, x, y, c.bits);
      assert SameOutside(b, Changed(w, c, x), Changed(w, c, y));
    } else if c.Off? {
      ClearOutside(w, b, x, y, c.bits);
      assert SameOutside(b, Changed(w, c, x), Changed(w, c, y));
    } else if c.Invert? {
      FlipOutside(w, b, x, y, c.bits);
      assert SameOutside(b, Changed(w, c, x), Changed(w, c, y));
    } else {
      assert SameOutside(b, Changed(w, c, x), Changed(w, c, y));
    }
  }

  lemma {:induction false} RunOutside(w: bv32, b: bv32, x: bv32, y: bv32, cs: seq<Change>)
    requires SameOutside(b, x, y)
    ensures SameOutside(b, RunState(w, x, cs), RunState(w, y, cs))
  {
    if cs != [] {
      var n := |cs| - 1;
      RunOutside(w, b, x, y, cs[..n]);
      ChangeOutside(w, b, cs[n], RunState(w, x, cs[..n]), RunState(w, y, cs[..n]));
    }
  }

  /** No bit outside the width. */
  predicate InWidth(w: bv32, x: bv32) {
    x & w == x
  }

  lemma SetInWidth(w: bv32, x: bv32, c: bv32)
    ensures InWidth(w, SetBits(w, x, c))
  {
  }

  lemma ClearInWidth(w: bv32, x: bv32, c: bv32)
    ensures InWidth(w, ClearBits(w, x, c))
  {
  }

  lemma FlipInWidth(w: bv32, x: bv32, c: bv32)
    ensures InWidth(w, FlipBits(w, x, c))
  {
  }

  lemma MoveInWidth(w: bv32, c: bv32)
    ensures InWidth(w, c & w)
  {
  }

  lemma ChangeInWidth(w: bv32, c: Change, x: bv32)
    requires InWidth(w, x)
    ensures InWidth(w, Changed(w, c, x))
  {
    if c.On? {
      SetInWidth(w, x, c.bits);
      assert InWidth(w, Changed(w, c, x));
    } else if c.Off? {
      ClearInWidth(w, x, c.bits);
      assert InWidth(w, Changed(w, c, x));
    } else if c.Invert? {
      FlipInWidth(w, x, c.bits);
      assert InWidth(w, Changed(w, c, x));
    } else if c.Move? {
      MoveInWidth(w, c.bits);
      assert InWidth(w, Changed(w, c, x));
    } else {
      assert InWidth(w, Changed(w, c, x));
    }
  }

  lemma {:induction false} RunInWidth(w: bv32, x: bv32, cs: seq<Change>)
    requires InWidth(w, x)
    ensures InWidth(w, RunState(w, x, cs))
  {
    if cs != [] {
      var n := |cs| - 1;
      RunInWidth(w, x, cs[..n]);
      ChangeInWidth(w, cs[n], RunState(w, x, cs[..n]));
    }
  }

  lemma PressLeaves(w: bv32, b: bv32, x: bv32)
    requires InWidth(w, x)
    ensures SameOutside(b, SetBits(w, x, b), x)
  {
  }

  lemma RestInWidth(w: bv32, b: bv32, y: bv32)
    requires InWidth(w, y)
    ensures (y & !b) & w == y & !b
  {
  }

  lemma CutEqual(w: bv32, x: bv32, y: bv32)
    requires x == y
    ensures x & w == y & w
  {
  }

  lemma ReleaseLeaves(w: bv32, b: bv32, x: bv32, y: bv32)
    requires SameOutside(b, x, y) && InWidth(w, y)
    ensures ClearBits(w, x, b) == y & !b
  {
    RestInWidth(w, b, y);
    CutEqual(w, x & !b, y & !b);
  }

  /** Bits set before any changes and cleared after them leave no trace but themselves. */
  lemma NoTrace(w: bv32, x: bv32, b: bv32, cs: seq<Change>)
    requires InWidth(w, x)
    ensures ClearBits(w, RunState(w, SetBits(w, x, b), cs), b) == RunState(w, x, cs) & !b
  {
    PressLeaves(w, b, x);
    RunOutside(w, b, SetBits(w, x, b), x, cs);
    RunInWidth(w, x, cs);
    ReleaseLeaves(w, b, RunState(w, SetBits(w, x, b), cs), RunState(w, x, cs));
  }

  /** The run of codes as changes. */
  lemma RunCodesAreChanges(w: bv32, l: Layers, es: seq<KeyEvent>)
    requires AllLayers(es)
    ensures RunCodes(w, l, es) == Layers(RunState(w, l.state, ChangesOf(es)), RunDefault(w, l.dflt, ChangesOf(es)), l.mods)
  {
    RunCodesMean(w, l, es);
    RunMeaningIsChanges(w, l, es);
  }

  lemma MoSets(layer: bv16, w: bv32, n: nat, l: Layers)
    requires layer < 32
    ensures Strike(w, MO(layer), true, n, l) == l.(state := SetBits(w, l.state, One(layer)))
    ensures Strike(w, MO(layer), false, n, l) == l.(state := ClearBits(w, l.state, One(layer)))
  {
    MoCode(layer, w, true, n, l);
    MoCode(layer, w, false, n, l);
  }

  /** The state after MO(k) is pressed, the codes of `es` are run, and MO(k) is released. */
  function Held(w: bv32, l: Layers, layer: bv16, es: seq<KeyEvent>, n: nat, n': nat): Layers {
    Strike(w, MO(layer), false, n', RunCodes(w, Strike(w, MO(layer), true, n, l), es))
  }

  lemma HeldChanges(w: bv32, l: Layers, layer: bv16, es: seq<KeyEvent>, n: nat, n': nat)
    requires layer < 32 && AllLayers(es)
    ensures Held(w, l, layer, es, n, n') ==
            Layers(ClearBits(w, RunState(w, SetBits(w, l.state, One(layer)), ChangesOf(es)), One(layer)),
                   RunDefault(w, l.dflt, ChangesOf(es)), l.mods)
  {
    MoSets(layer, w, n, l);
    var pressed := l.(state := SetBits(w, l.state, One(layer)));
    RunCodesAreChanges(w, pressed, es);
    MoSets(layer, w, n', RunCodes(w, pressed, es));
  }

  /** The state without the bits `b`. */
  function Without(b: bv32, l: Layers): Layers {
    l.(state := l.state & !b)
  }

  /**
   Press MO(k), let any layer keys do anything in between, release MO(k), all through the compiled codes.  Layer k is
   off, and every other layer, the default layers and the modifiers are what the keys in between alone would have made
   of the state before: holding a momentary layer leaves no trace.
   */
  lemma MomentaryLeavesNoTrace(w: bv32, l: Layers, layer: bv16, es: seq<KeyEvent>, n: nat, n': nat)
    requires layer < 32 && AllLayers(es) && InWidth(w, l.state)
    ensures Held(w, l, layer, es, n, n') == Without(One(layer), RunCodes(w, l, es))
  {
    HeldChanges(w, l, layer, es, n, n');
    RunCodesAreChanges(w, l, es);
    NoTrace(w, l.state, One(layer), ChangesOf(es));
  }
}
