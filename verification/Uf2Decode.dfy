/**
 What `convert_from_uf2` (util/uf2conv.py) makes of an arbitrary file, stated block by
 block from the headers alone: which files decode, and to which bytes and address.  The
 decoder itself is `Uf2.Decode`, whose loop carries its own variables; here nothing
 depends on them.
 */
module Uf2Decode {
  import opened Bytes
  import opened Uf2

  // ---- what the headers say ----

  /** The end of the last live block, and its family or the last one named. */
  datatype Cursor = Nowhere | At(end: nat, family: nat)

  function CursorAfter(c: Cursor, b: Block): Cursor {
    if !b.Live() then c else At(b.hd.addr + b.hd.size, if c.Nowhere? || b.NamesFamily() then b.hd.family else c.family)
  }

  /** The cursor behind the first `n` blocks. */
  function CursorAt(bs: seq<Block>, n: nat): Cursor
    requires n <= |bs|
  {
    if n == 0 then Nowhere else CursorAfter(CursorAt(bs, n - 1), bs[n - 1])
  }

  /** The block is the first live one, or names another family. */
  predicate Begins(c: Cursor, b: Block) {
    b.Live() && (c.Nowhere? || (b.NamesFamily() && b.hd.family != c.family))
  }

  /** The bytes between the last live block and this one. */
  function GapBefore(c: Cursor, b: Block): int {
    if c.Nowhere? || !b.Live() || Begins(c, b) then 0 else b.hd.addr - c.end
  }

  /** The decoder goes on behind this block. */
  predicate Accepts(c: Cursor, b: Block) {
    && b.hd.magic0 == MAGIC0 && b.hd.magic1 == MAGIC1
    && (b.Live() ==> b.hd.size <= MAX_PAYLOAD && GapAccepted(GapBefore(c, b)))
  }

  /** It goes on behind each of the first `n` blocks. */
  predicate Accepted(bs: seq<Block>, n: nat)
    requires n <= |bs|
  {
    n == 0 || (Accepted(bs, n - 1) && Accepts(CursorAt(bs, n - 1), bs[n - 1]))
  }

  /** None of them leaves a gap. */
  predicate GapFree(bs: seq<Block>, n: nat)
    requires n <= |bs|
  {
    n == 0 || (GapFree(bs, n - 1) && GapBefore(CursorAt(bs, n - 1), bs[n - 1]) == 0)
  }

  /** The families the live blocks name. */
  function Families(bs: seq<Block>, n: nat): set<nat>
    requires n <= |bs|
  {
    if n == 0 then {} else Families(bs, n - 1) + if bs[n - 1].NamesFamily() then {bs[n - 1].hd.family} else {}
  }

  function Payload(b: Block, want: nat): seq<Byte> {
    if b.Wanted(want) && b.hd.size <= |b.area| then b.area[..b.hd.size] else []
  }

  /** The payload of the wanted blocks. */
  function Collected(bs: seq<Block>, n: nat, want: nat): seq<Byte>
    requires n <= |bs|
  {
    if n == 0 then [] else Collected(bs, n - 1, want) + Payload(bs[n - 1], want)
  }

  /** The address where the last family asked for begins. */
  function StartAt(bs: seq<Block>, n: nat, want: nat, start: nat): nat
    requires n <= |bs|
  {
    if n == 0 then start
    else if Begins(CursorAt(bs, n - 1), bs[n - 1]) && (want == 0 || want == bs[n - 1].hd.family) then bs[n - 1].hd.addr
    else StartAt(bs, n - 1, want, start)
  }

  /** With no family asked for, a file of several families is emptied at its last block, unless that is not a live one. */
  predicate Emptied(bs: seq<Block>, want: nat) {
    want == 0 && bs != [] && bs[|bs| - 1].Live() && |Families(bs, |bs|)| > 1
  }

  // ---- one block ----

  /** The decoder's variables are where the headers say. */
  predicate Tracks(p: Progress, c: Cursor) {
    match c
    case Nowhere => p.addr == None && p.family == None
    case At(end, family) => p.addr == Some(end) && p.family == Some(family)
  }

  /** The decoder is still going exactly if `accepted`, with its variables at `c` and `families`. */
  predicate AtHeaders(r: Result<Progress>, accepted: bool, c: Cursor, families: set<nat>) {
    (r.Ok? <==> accepted) && (r.Ok? ==> Tracks(r.value, c) && r.value.families == families)
  }

  lemma NextAtHeaders(want: nat, r: Result<Progress>, accepted: bool, c: Cursor, families: set<nat>, b: Block, last: bool)
    requires |b.area| == BLOCK - 32 && AtHeaders(r, accepted, c, families)
    ensures AtHeaders(Next(want, r, b, last), accepted && Accepts(c, b), CursorAfter(c, b),
                      families + if b.NamesFamily() then {b.hd.family} else {})
  {
  }

  /** The output list and the address behind a block, unless the list is emptied there. */
  lemma AbsorbAdds(want: nat, p: Progress, c: Cursor, b: Block, last: bool)
    requires |b.area| == BLOCK - 32 && Tracks(p, c) && Accepts(c, b)
    ensures var r := Absorb(want, p, b, last);
            && r.Ok?
            && if last && want == 0 && b.Live() && |r.value.families| > 1 then r.value.out == [] && r.value.start == 0
               else
                 && r.value.out == p.out + seq(GapBefore(c, b), _ => Zero) + (if b.Wanted(want) then [Chunk(Payload(b, want))] else [])
                 && r.value.start == if Begins(c, b) && (want == 0 || want == b.hd.family) then b.hd.addr else p.start
  {
    var padded := p.out + seq(GapBefore(c, b), _ => Zero);
    assert padded + [] == padded;
    assert !b.Live() ==> padded == p.out;
  }

  lemma JoinSnoc(out: seq<Item>, x: Item)
    ensures Join(out + [x]).Ok? <==> Join(out).Ok? && x.Chunk?
    ensures Join(out + [x]).Ok? ==> Join(out + [x]).value == Join(out).value + x.bytes
  {
    assert (out + [x])[..|out|] == out;
  }

  lemma JoinZeros(out: seq<Item>, n: nat)
    ensures Join(out + seq(n, _ => Zero)).Ok? <==> Join(out).Ok? && n == 0
    ensures n == 0 ==> out + seq(n, _ => Zero) == out
  {
    if n > 0 {
      JoinSnoc(out + seq(n - 1, _ => Zero), Zero);
      assert out + seq(n, _ => Zero) == out + seq(n - 1, _ => Zero) + [Zero];
    } else {
      assert out + seq(n, _ => Zero) == out;
    }
  }

  lemma JoinAdds(out: seq<Item>, gap: nat, wanted: bool, bytes: seq<Byte>)
    ensures var next := out + seq(gap, _ => Zero) + (if wanted then [Chunk(bytes)] else []);
            && (Join(next).Ok? <==> Join(out).Ok? && gap == 0)
            && (Join(next).Ok? ==> Join(next).value == if wanted then Join(out).value + bytes else Join(out).value)
  {
    var padded := out + seq(gap, _ => Zero);
    JoinZeros(out, gap);
    JoinSnoc(padded, Chunk(bytes));
    assert padded + [] == padded;
  }

  /** The output list joins exactly if `gapFree`, and then to `bytes`; the address is `start`. */
  predicate Gathers(r: Result<Progress>, gapFree: bool, bytes: seq<Byte>, start: nat) {
    && r.Ok?
    && (Join(r.value.out).Ok? <==> gapFree)
    && (gapFree ==> Join(r.value.out).value == bytes)
    && r.value.start == start
  }

  lemma NextGathers(want: nat, r: Result<Progress>, gapFree: bool, bytes: seq<Byte>, start: nat, c: Cursor, b: Block, last: bool)
    requires |b.area| == BLOCK - 32 && Gathers(r, gapFree, bytes, start) && Tracks(r.value, c) && Accepts(c, b)
    requires var r' := Next(want, r, b, last); r'.Ok? ==> !(last && want == 0 && b.Live() && |r'.value.families| > 1)
    ensures Gathers(Next(want, r, b, last), gapFree && GapBefore(c, b) == 0, bytes + Payload(b, want),
                    if Begins(c, b) && (want == 0 || want == b.hd.family) then b.hd.addr else start)
  {
    AbsorbAdds(want, r.value, c, b, last);
    JoinAdds(r.value.out, GapBefore(c, b), b.Wanted(want), Payload(b, want));
    assert !b.Wanted(want) ==> bytes + Payload(b, want) == bytes;
  }

  // ---- the loop over the blocks ----

  /** The loop gets behind block `n` exactly when every block so far is accepted, with its variables where the headers say. */
  lemma {:induction false} LoopAccepts(want: nat, start: nat, bs: seq<Block>, n: nat)
    requires n <= |bs| && Sized(bs)
    ensures AtHeaders(Absorbed(bs, n, want, start), Accepted(bs, n), CursorAt(bs, n), Families(bs, n))
  {
    if n > 0 {
      LoopAccepts(want, start, bs, n - 1);
      NextAtHeaders(want, Absorbed(bs, n - 1, want, start), Accepted(bs, n - 1), CursorAt(bs, n - 1), Families(bs, n - 1), bs[n - 1], n == |bs|);
    }
  }

  lemma StepGathers(want: nat, start: nat, bs: seq<Block>, n: nat, r: Result<Progress>)
    requires 0 < n <= |bs| && Sized(bs) && Accepted(bs, n) && (n == |bs| ==> !Emptied(bs, want))
    requires AtHeaders(r, true, CursorAt(bs, n - 1), Families(bs, n - 1))
    requires Gathers(r, GapFree(bs, n - 1), Collected(bs, n - 1, want), StartAt(bs, n - 1, want, start))
    ensures Gathers(Next(want, r, bs[n - 1], n == |bs|), GapFree(bs, n), Collected(bs, n, want), StartAt(bs, n, want, start))
  {
    NextAtHeaders(want, r, true, CursorAt(bs, n - 1), Families(bs, n - 1), bs[n - 1], n == |bs|);
    NextGathers(want, r, GapFree(bs, n - 1), Collected(bs, n - 1, want), StartAt(bs, n - 1, want, start),
                CursorAt(bs, n - 1), bs[n - 1], n == |bs|);
  }

  /** While the list is not emptied it joins exactly when there was no gap, and then to the payload of the wanted blocks. */
  lemma {:induction false} LoopGathers(want: nat, start: nat, bs: seq<Block>, n: nat)
    requires n <= |bs| && Sized(bs) && Accepted(bs, n) && (n == |bs| ==> !Emptied(bs, want))
    ensures Gathers(Absorbed(bs, n, want, start), GapFree(bs, n), Collected(bs, n, want), StartAt(bs, n, want, start))
  {
    if n > 0 {
      LoopGathers(want, start, bs, n - 1);
      LoopAccepts(want, start, bs, n - 1);
      StepGathers(want, start, bs, n, Absorbed(bs, n - 1, want, start));
      AbsorbedOne(bs, n, want, start);
    }
  }

  /** A file emptied at its last block gives no bytes and address 0, gaps or not. */
  lemma LoopEmpties(start: nat, bs: seq<Block>)
    requires Sized(bs) && Accepted(bs, |bs|) && Emptied(bs, 0)
    ensures var r := Absorbed(bs, |bs|, 0, start); r.Ok? && r.value.out == [] && r.value.start == 0
  {
    var n := |bs|;
    LoopAccepts(0, start, bs, n - 1);
    LoopAccepts(0, start, bs, n);
    AbsorbAdds(0, Absorbed(bs, n - 1, 0, start).value, CursorAt(bs, n - 1), bs[n - 1], true);
  }

  // ---- any file ----

  /**
   Any file decodes exactly when every block is accepted and either no live block leaves a gap or the list is emptied
   at the end; then to nothing at address 0 if it is emptied, else to the payload of the wanted blocks at the address
   where the last family asked for begins.
   */
  lemma DecodesIff(buf: seq<Byte>, want: nat, start: nat)
    ensures var bs, r := BlocksIn(buf), Decode(buf, want, start);
            && (r.Ok? <==> Accepted(bs, |bs|) && (Emptied(bs, want) || GapFree(bs, |bs|)))
            && (r.Ok? ==> r.value == if Emptied(bs, want) then ([], 0) else (Collected(bs, |bs|, want), StartAt(bs, |bs|, want, start)))
  {
    var bs := BlocksIn(buf);
    LoopAccepts(want, start, bs, |bs|);
    if Accepted(bs, |bs|) {
      if Emptied(bs, want) {
        LoopEmpties(start, bs);
      } else {
        LoopGathers(want, start, bs, |bs|);
      }
    }
  }

  lemma {:induction false} OneFamily(bs: seq<Block>, n: nat, family: nat)
    requires n <= |bs| && forall k :: 0 <= k < n && bs[k].NamesFamily() ==> bs[k].hd.family == family
    ensures Families(bs, n) <= {family}
  {
    if n > 0 {
      OneFamily(bs, n - 1, family);
    }
  }

  lemma AtMostOne(s: set<nat>, x: nat)
    requires s <= {x}
    ensures |s| <= 1
  {
    if x in s {
      assert s == {x};
    } else {
      assert s == {};
    }
  }

  /** A file whose live blocks name no two families cannot be decoded at all with a gap in it. */
  lemma OneFamilyDecodesIff(buf: seq<Byte>, family: nat, want: nat, start: nat)
    requires forall b :: b in BlocksIn(buf) && b.NamesFamily() ==> b.hd.family == family
    ensures var bs := BlocksIn(buf); Decode(buf, want, start).Ok? <==> Accepted(bs, |bs|) && GapFree(bs, |bs|)
  {
    var bs := BlocksIn(buf);
    OneFamily(bs, |bs|, family);
    AtMostOne(Families(bs, |bs|), family);
    DecodesIff(buf, want, start);
  }
}
