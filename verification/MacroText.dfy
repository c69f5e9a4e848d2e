/**
 The macro area of quantum/dynamic_keymap.c: null-separated strings in EEPROM, found by
 counting nulls and sent piece by piece through an 8-byte scratch string
 (`dynamic_keymap_macro_send`).

 `Send` is the whole operation; method `MacroSend` is the source's loops.  A read beyond
 the area is an outcome of its own, so the theorems can say exactly when it happens.
 */
module MacroText {
  import opened Bytes

  const PREFIX: nat := 1
  const TAP: nat := 1
  const DOWN: nat := 2
  const UP: nat := 3
  const DELAY: nat := 4
  const BAR: nat := 0x7C

  /** How sending ended: at the terminator, at something malformed, or by reading past the area. */
  datatype End = Finished | Aborted | Overrun

  datatype Sent = Sent(pieces: seq<seq<Byte>>, end: End)

  const NOTHING: Sent := Sent([], Finished)

  // ---- finding the string ----

  function Nulls(s: seq<Byte>): nat {
    if s == [] then 0 else Nulls(s[..|s| - 1]) + (if s[|s| - 1] == 0 then 1 else 0)
  }

  /** The scan from `p` over `id` more nulls: where it stops, or nothing if the area ends first. */
  function Skip(area: seq<Byte>, p: nat, id: nat): (r: int)
    requires p <= |area|
    ensures r == -1 || p <= r <= |area|
    decreases |area| - p
  {
    if id == 0 then p
    else if p == |area| then -1
    else Skip(area, p + 1, if area[p] == 0 then id - 1 else id)
  }

  lemma NullsNext(area: seq<Byte>, p: nat)
    requires p < |area|
    ensures Nulls(area[..p + 1]) == Nulls(area[..p]) + (if area[p] == 0 then 1 else 0)
  {
    assert area[..p + 1][..p] == area[..p];
  }

  lemma {:induction false} NullsMonotone(area: seq<Byte>, p: nat)
    requires p <= |area|
    ensures Nulls(area[..p]) <= Nulls(area)
    decreases |area| - p
  {
    if p == |area| {
      assert area[..p] == area;
    } else {
      NullsNext(area, p);
      NullsMonotone(area, p + 1);
    }
  }

  /** The scan stops right behind the `id`-th null, or fails exactly when the area holds fewer. */
  lemma {:induction false} SkipLands(area: seq<Byte>, p: nat, id: nat)
    requires p <= |area|
    ensures var r := Skip(area, p, id);
            && (r == -1 <==> Nulls(area) < Nulls(area[..p]) + id)
            && (r != -1 ==> Nulls(area[..r]) == Nulls(area[..p]) + id && (id > 0 ==> r > 0 && area[r - 1] == 0))
    decreases |area| - p
  {
    if id == 0 {
      NullsMonotone(area, p);
    } else if p == |area| {
      assert area[..p] == area;
    } else {
      NullsNext(area, p);
      SkipLands(area, p + 1, if area[p] == 0 then id - 1 else id);
    }
  }

  // ---- sending it ----

  /** The C string in the scratch buffer: the bytes before its first null. */
  function CString(data: seq<Byte>): seq<Byte> {
    if data == [] || data[0] == 0 then [] else [data[0]] + CString(data[1..])
  }

  function Prepend(piece: seq<Byte>, s: Sent): Sent {
    s.(pieces := [piece] + s.pieces)
  }

  /** The loop that collects a delay: `data[i]` is filled from position `p` until a bar; null, end of area or a sixth byte stop it. */
  datatype Collected = Collected(data: seq<Byte>, p: nat) | Stopped(end: End)

  function Collect(area: seq<Byte>, p: nat, data: seq<Byte>, i: nat): (c: Collected)
    requires p <= |area| && |data| == 8 && 2 <= i <= 6
    ensures c.Collected? ==> p < c.p <= |area| && |c.data| == 8
    decreases 6 - i
  {
    if p == |area| then Stopped(Overrun)
    else
      var d := data[i := area[p]];
      if area[p] == 0 then Stopped(Aborted)
      else if area[p] == BAR then Collected(d[i + 1 := 0], p + 1)
      else if i == 6 then Stopped(Aborted)
      else Collect(area, p + 1, d, i + 1)
  }

  /** The sending loop from position `p`, with whatever the scratch buffer holds. */
  function Play(area: seq<Byte>, p: nat, data: seq<Byte>): Sent
    requires p <= |area| && |data| == 8
    decreases |area| - p
  {
    if p == |area| then Sent([], Overrun)
    else
      var d := data[0 := area[p]][1 := 0];
      if area[p] == 0 then Sent([], Finished)
      else if area[p] != PREFIX then Prepend(CString(d), Play(area, p + 1, d))
      else if p + 1 == |area| then Sent([], Overrun)
      else
        var d1 := d[1 := area[p + 1]];
        if area[p + 1] == 0 then Sent([], Aborted)
        else if area[p + 1] == TAP || area[p + 1] == DOWN || area[p + 1] == UP then
          if p + 2 == |area| then Sent([], Overrun)
          else if area[p + 2] == 0 then Sent([], Aborted)
          else
            var d2 := d1[2 := area[p + 2]][3 := 0];
            Prepend(CString(d2), Play(area, p + 3, d2))
        else if area[p + 1] == DELAY then
          match Collect(area, p + 2, d1, 2)
          case Stopped(end) => Sent([], end)
          case Collected(d2, q) => Prepend(CString(d2), Play(area, q, d2))
        else
          // an unknown code is sent with what is left in the scratch buffer
          Prepend(CString(d1), Play(area, p + 2, d1))
  }

  const BLANK: seq<Byte> := [0, 0, 0, 0, 0, 0, 0, 0]

  /** `dynamic_keymap_macro_send`. */
  function Send(area: seq<Byte>, id: nat, count: nat): Sent
    requires area != []
  {
    if id >= count || area[|area| - 1] != 0 then NOTHING
    else
      var p := Skip(area, 0, id);
      if p == -1 then NOTHING else Play(area, p, BLANK)
  }

  /** From a position with a null ahead, no read goes past the area. */
  lemma {:induction false} PlayStopsAtNull(area: seq<Byte>, p: nat, q: nat, data: seq<Byte>)
    requires p <= q < |area| && area[q] == 0 && |data| == 8
    ensures Play(area, p, data).end != Overrun
    decreases q - p
  {
    var d := data[0 := area[p]][1 := 0];
    if area[p] == 0 {
    } else if area[p] != PREFIX {
      PlayStopsAtNull(area, p + 1, q, d);
    } else if area[p + 1] == 0 {
    } else {
      var d1 := d[1 := area[p + 1]];
      if area[p + 1] == TAP || area[p + 1] == DOWN || area[p + 1] == UP {
        if area[p + 2] != 0 {
          PlayStopsAtNull(area, p + 3, q, d1[2 := area[p + 2]][3 := 0]);
        }
      } else if area[p + 1] == DELAY {
        CollectStopsAtNull(area, p + 2, q, d1, 2);
        var c := Collect(area, p + 2, d1, 2);
        if c.Collected? {
          PlayStopsAtNull(area, c.p, q, c.data);
        }
      } else {
        PlayStopsAtNull(area, p + 2, q, d1);
      }
    }
  }

  lemma {:induction false} CollectStopsAtNull(area: seq<Byte>, p: nat, q: nat, data: seq<Byte>, i: nat)
    requires p <= q < |area| && area[q] == 0 && |data| == 8 && 2 <= i <= 6
    ensures var c := Collect(area, p, data, i); if c.Collected? then c.p <= q else c.end == Aborted
    decreases 6 - i
  {
    if area[p] != 0 && area[p] != BAR && i < 6 {
      CollectStopsAtNull(area, p + 1, q, data[i := area[p]], i + 1);
    }
  }

  /** Reading stops at a null ahead: what is collected does not depend on anything behind it. */
  lemma {:induction false} CollectIsLocal(area: seq<Byte>, p: nat, q: nat, data: seq<Byte>, i: nat)
    requires p <= q < |area| && area[q] == 0 && |data| == 8 && 2 <= i <= 6
    ensures Collect(area[..q + 1], p, data, i) == Collect(area, p, data, i)
    decreases 6 - i
  {
    assert area[..q + 1][p] == area[p];
    if area[p] != 0 && area[p] != BAR && i < 6 {
      CollectIsLocal(area, p + 1, q, data[i := area[p]], i + 1);
    }
  }

  /** No read goes past a null ahead: what is sent from `p` is the same whatever follows that null. */
  lemma {:induction false} PlayIsLocal(area: seq<Byte>, p: nat, q: nat, data: seq<Byte>)
    requires p <= q < |area| && area[q] == 0 && |data| == 8
    ensures Play(area[..q + 1], p, data) == Play(area, p, data)
    decreases q - p
  {
    var near := area[..q + 1];
    assert near[p] == area[p];
    var d := data[0 := area[p]][1 := 0];
    if area[p] == 0 {
    } else if area[p] != PREFIX {
      PlayIsLocal(area, p + 1, q, d);
    } else if area[p + 1] == 0 {
      assert near[p + 1] == area[p + 1];
    } else {
      assert near[p + 1] == area[p + 1];
      var d1 := d[1 := area[p + 1]];
      if area[p + 1] == TAP || area[p + 1] == DOWN || area[p + 1] == UP {
        assert near[p + 2] == area[p + 2];
        if area[p + 2] != 0 {
          PlayIsLocal(area, p + 3, q, d1[2 := area[p + 2]][3 := 0]);
        }
      } else if area[p + 1] == DELAY {
        CollectIsLocal(area, p + 2, q, d1, 2);
        CollectStopsAtNull(area, p + 2, q, d1, 2);
        var c := Collect(area, p + 2, d1, 2);
        if c.Collected? {
          PlayIsLocal(area, c.p, q, c.data);
        }
      } else {
        PlayIsLocal(area, p + 2, q, d1);
      }
    }
  }

  lemma NullAhead(area: seq<Byte>, p: nat)
    requires p < |area| && area[|area| - 1] == 0
    ensures Nulls(area[..p]) < Nulls(area)
  {
    NullsNext(area, |area| - 1);
    NullsMonotone(area[..|area| - 1], p);
    assert area[..|area| - 1][..p] == area[..p];
    assert area[..|area| - 1 + 1] == area;
  }

  /** Sending reads past the area exactly when the area ends in a null and holds exactly `id` of them. */
  lemma OverrunsIff(area: seq<Byte>, id: nat, count: nat)
    requires area != []
    ensures Send(area, id, count).end == Overrun <==> id < count && area[|area| - 1] == 0 && Nulls(area) == id
  {
    if id < count && area[|area| - 1] == 0 {
      SkipLands(area, 0, id);
      var p := Skip(area, 0, id);
      if p != -1 {
        NullsMonotone(area, p);
        if p < |area| {
          PlayStopsAtNull(area, p, |area| - 1, BLANK);
          NullAhead(area, p);
        } else {
          assert area[..p] == area;
        }
      }
    }
  }

  // ---- legal strings are sent whole ----

  function Concat(pieces: seq<seq<Byte>>): seq<Byte> {
    if pieces == [] then [] else pieces[0] + Concat(pieces[1..])
  }

  /** The number of bytes before the bar of a delay, or -1 if there is none among the first five. */
  function BarAt(text: seq<Byte>, k: nat): (n: int)
    requires k <= 5
    ensures n == -1 || (k <= n < |text| && n < 5 && text[n] == BAR && forall j :: k <= j < n ==> text[j] != BAR)
    decreases 5 - k
  {
    if k == 5 || k >= |text| then -1 else if text[k] == BAR then k else BarAt(text, k + 1)
  }

  /** Plain characters, tap/down/up escapes with their keycode, and delays of at most four characters before the bar. */
  predicate LegalText(text: seq<Byte>)
    decreases |text|
  {
    if text == [] then true
    else if text[0] == 0 then false
    else if text[0] != PREFIX then LegalText(text[1..])
    else if |text| < 3 then false
    else if text[1] == TAP || text[1] == DOWN || text[1] == UP then text[2] != 0 && LegalText(text[3..])
    else if text[1] == DELAY then
      var n := BarAt(text[2..], 0);
      n != -1 && 0 !in text[2..2 + n] && LegalText(text[2 + n + 1..])
    else false
  }

  lemma {:induction false} CStringUpTo(data: seq<Byte>, k: nat)
    requires k < |data| && data[k] == 0 && 0 !in data[..k]
    ensures CString(data) == data[..k]
  {
    if k > 0 {
      assert data[0] in data[..k];
      assert data[1..][..k - 1] == data[..k][1..];
      CStringUpTo(data[1..], k - 1);
    }
  }

  lemma OneByteMore(area: seq<Byte>, p: nat, q: nat, data: seq<Byte>, i: nat)
    requires p < q <= |area| && i < |data|
    ensures data[i := area[p]][..i + 1] + area[p + 1..q] == data[..i] + area[p..q]
  {
    assert data[i := area[p]][..i + 1] == data[..i] + [area[p]];
    assert area[p..q] == [area[p]] + area[p + 1..q];
  }

  /** A delay whose bar comes after `n` bytes is collected whole. */
  lemma {:induction false} CollectsDelay(area: seq<Byte>, p: nat, data: seq<Byte>, i: nat, n: nat)
    requires p + n < |area| && |data| == 8 && 2 <= i && i + n <= 6
    requires area[p + n] == BAR && 0 !in area[p..p + n] && BAR !in area[p..p + n]
    ensures var c := Collect(area, p, data, i);
            c.Collected? && c.p == p + n + 1 && c.data[..i + n + 1] == data[..i] + area[p..p + n + 1] && c.data[i + n + 1] == 0
    decreases n
  {
    if n > 0 {
      assert area[p] in area[p..p + n];
      assert area[p + 1..p + n] == area[p..p + n][1..];
      CollectsDelay(area, p + 1, data[i := area[p]], i + 1, n - 1);
      OneByteMore(area, p, p + n + 1, data, i);
    }
  }

  /** What is sent at once: a plain character, a whole escape with its keycode, or a whole delay with its bar. */
  predicate Token(piece: seq<Byte>) {
    || (|piece| == 1 && piece[0] != 0 && piece[0] != 1)
    || (|piece| == 3 && piece[0] == 1 && 1 <= piece[1] <= 3 && piece[2] != 0)
    || (3 <= |piece| <= 7 && piece[0] == 1 && piece[1] == 4 && piece[|piece| - 1] == 0x7C
        && forall j :: 2 <= j < |piece| - 1 ==> piece[j] != 0 && piece[j] != 0x7C)
  }

  predicate AllTokens(pieces: seq<seq<Byte>>) {
    forall i :: 0 <= i < |pieces| ==> Token(pieces[i])
  }

  /** Sending from `p` ends at the null `q`; the pieces make up the text between, and each is one token of it. */
  predicate SentWhole(area: seq<Byte>, p: nat, q: nat, data: seq<Byte>)
    requires p <= q < |area| && |data| == 8
  {
    var s := Play(area, p, data);
    s.end == Finished && Concat(s.pieces) == area[p..q] && AllTokens(s.pieces)
  }

  lemma OnePieceMore(area: seq<Byte>, p: nat, r: nat, q: nat, data: seq<Byte>, d: seq<Byte>)
    requires p <= r <= q < |area| && |data| == 8 && |d| == 8
    requires Play(area, p, data) == Prepend(area[p..r], Play(area, r, d)) && SentWhole(area, r, q, d) && Token(area[p..r])
    ensures SentWhole(area, p, q, data)
  {
    MorePieces(area[p..r], Play(area, r, d), area[r..q], area[p..q]);
  }

  lemma MorePieces(piece: seq<Byte>, rest: Sent, text: seq<Byte>, all: seq<Byte>)
    requires Token(piece) && AllTokens(rest.pieces) && Concat(rest.pieces) == text && piece + text == all
    ensures Concat(Prepend(piece, rest).pieces) == all && AllTokens(Prepend(piece, rest).pieces)
  {
    ConcatMore(piece, rest.pieces);
  }

  lemma ConcatMore(piece: seq<Byte>, rest: seq<seq<Byte>>)
    ensures Concat([piece] + rest) == piece + Concat(rest)
    ensures Token(piece) && AllTokens(rest) ==> AllTokens([piece] + rest)
  {
    assert ([piece] + rest)[1..] == rest;
  }

  /** A legal string is sent to its end, and the pieces sent are its tokens in order. */
  lemma {:induction false} LegalIsSentWhole(area: seq<Byte>, p: nat, q: nat, data: seq<Byte>)
    requires p <= q < |area| && area[q] == 0 && |data| == 8 && LegalText(area[p..q])
    ensures SentWhole(area, p, q, data)
    decreases q - p
  {
    if p < q {
      var d: seq<Byte> := data[0 := area[p]][1 := 0];
      if area[p] != PREFIX {
        PlainPiece(area, p, q, d);
        LegalIsSentWhole(area, p + 1, q, d);
        OnePieceMore(area, p, p + 1, q, data, d);
      } else if area[p + 1] == DELAY {
        var d1: seq<Byte> := d[1 := area[p + 1]];
        DelayPiece(area, p, q, d1);
        var c := Collect(area, p + 2, d1, 2);
        LegalIsSentWhole(area, c.p, q, c.data);
        OnePieceMore(area, p, c.p, q, data, c.data);
      } else {
        var d2: seq<Byte> := d[1 := area[p + 1]][2 := area[p + 2]][3 := 0];
        TapPiece(area, p, q, d2);
        LegalIsSentWhole(area, p + 3, q, d2);
        OnePieceMore(area, p, p + 3, q, data, d2);
      }
    }
  }

  lemma PlainPiece(area: seq<Byte>, p: nat, q: nat, d: seq<Byte>)
    requires p < q < |area| && |d| == 8 && d[0] == area[p] && d[1] == 0
    requires LegalText(area[p..q]) && area[p] != PREFIX
    ensures CString(d) == area[p..p + 1] && LegalText(area[p + 1..q]) && area[p] != 0 && Token(area[p..p + 1])
  {
    assert area[p..q][1..] == area[p + 1..q];
    assert d[..1] == [d[0]];
    CStringUpTo(d, 1);
  }

  lemma TapPiece(area: seq<Byte>, p: nat, q: nat, d: seq<Byte>)
    requires p < q < |area| && LegalText(area[p..q]) && area[p] == PREFIX && area[p + 1] != DELAY
    requires |d| == 8 && p + 2 < |area| && d[0] == area[p] && d[1] == area[p + 1] && d[2] == area[p + 2] && d[3] == 0
    ensures p + 3 <= q && CString(d) == area[p..p + 3] && LegalText(area[p + 3..q]) && Token(area[p..p + 3])
    ensures (area[p + 1] == TAP || area[p + 1] == DOWN || area[p + 1] == UP) && area[p + 2] != 0
  {
    var text := area[p..q];
    assert |text| >= 3 && text[1] == area[p + 1] && text[2] == area[p + 2];
    assert text[3..] == area[p + 3..q];
    assert d[..3] == area[p..p + 3];
    CStringUpTo(d, 3);
  }

  /** Where the bar of a legal delay is. */
  lemma DelayShape(area: seq<Byte>, p: nat, q: nat) returns (n: nat)
    requires p < q < |area| && LegalText(area[p..q]) && area[p] == PREFIX && area[p + 1] == DELAY
    ensures n <= 4 && p + 2 + n < q && area[p + 2 + n] == BAR
    ensures 0 !in area[p + 2..p + 2 + n] && BAR !in area[p + 2..p + 2 + n]
    ensures LegalText(area[p + n + 3..q])
  {
    var text := area[p..q];
    assert |text| >= 3 && text[1] == area[p + 1];
    n := BarAt(text[2..], 0);
    SliceOfSlice(area, p, q, 2, 2 + n);
    SliceOfSlice(area, p, q, 2 + n + 1, |text|);
    assert text[2 + n + 1..|text|] == text[2 + n + 1..];
    assert text[2..][n] == area[p + 2 + n];
    NotAmong(text[2..], n, BAR);
    assert text[2..][..n] == text[2..2 + n];
  }

  lemma NotAmong(s: seq<Byte>, n: nat, x: Byte)
    requires n <= |s| && forall j :: 0 <= j < n ==> s[j] != x
    ensures x !in s[..n]
  {
  }

  lemma SliceOfSlice(s: seq<Byte>, a: nat, b: nat, i: nat, j: nat)
    requires a <= b <= |s| && i <= j <= b - a
    ensures s[a..b][i..j] == s[a + i..a + j]
  {
    forall k | 0 <= k < j - i
      ensures s[a..b][i..j][k] == s[a + i..a + j][k]
    {
      assert s[a..b][i + k] == s[a + i + k];
    }
  }

  lemma DelayPiece(area: seq<Byte>, p: nat, q: nat, d: seq<Byte>)
    requires p < q < |area| && LegalText(area[p..q]) && area[p] == PREFIX && area[p + 1] == DELAY
    requires |d| == 8 && d[0] == PREFIX && d[1] == DELAY
    ensures var c := Collect(area, p + 2, d, 2);
            && c.Collected? && p + 2 < c.p <= q && CString(c.data) == area[p..c.p] && LegalText(area[c.p..q]) && Token(area[p..c.p])
  {
    var n := DelayShape(area, p, q);
    DelayCollected(area, p, n, d);
  }

  lemma DelayCollected(area: seq<Byte>, p: nat, n: nat, d: seq<Byte>)
    requires p + n + 3 <= |area| && n <= 4 && area[p] == PREFIX && area[p + 1] == DELAY && area[p + 2 + n] == BAR
    requires 0 !in area[p + 2..p + 2 + n] && BAR !in area[p + 2..p + 2 + n]
    requires |d| == 8 && d[0] == PREFIX && d[1] == DELAY
    ensures var c := Collect(area, p + 2, d, 2);
            c.Collected? && c.p == p + n + 3 && CString(c.data) == area[p..c.p] && Token(area[p..c.p])
  {
    DelayToken(area, p, n);
    CollectsDelay(area, p + 2, d, 2, n);
    DelayText(area, p, n, d, Collect(area, p + 2, d, 2).data);
  }

  lemma DelayToken(area: seq<Byte>, p: nat, n: nat)
    requires p + n + 3 <= |area| && n <= 4 && area[p] == PREFIX && area[p + 1] == DELAY && area[p + 2 + n] == BAR
    requires 0 !in area[p + 2..p + 2 + n] && BAR !in area[p + 2..p + 2 + n]
    ensures Token(area[p..p + n + 3])
  {
    var piece := area[p..p + n + 3];
    forall j | 2 <= j < |piece| - 1
      ensures piece[j] != 0 && piece[j] != 0x7C
    {
      assert piece[j] == area[p + 2..p + 2 + n][j - 2];
    }
  }

  lemma DelayText(area: seq<Byte>, p: nat, n: nat, d: seq<Byte>, data: seq<Byte>)
    requires p + n + 3 <= |area| && |d| == 8 == |data| && n <= 4 && area[p] == PREFIX && area[p + 1] == DELAY
    requires d[0] == PREFIX && d[1] == DELAY && data[..2 + n + 1] == d[..2] + area[p + 2..p + 2 + n + 1] && data[2 + n + 1] == 0
    requires 0 !in area[p + 2..p + 2 + n] && area[p + 2 + n] == BAR
    ensures CString(data) == area[p..p + 2 + n + 1]
  {
    PieceOfDelay(area, p, n, d[..2], data[..n + 3]);
    CStringUpTo(data, n + 3);
  }

  lemma PieceOfDelay(area: seq<Byte>, p: nat, n: nat, head: seq<Byte>, piece: seq<Byte>)
    requires p + n + 3 <= |area| && head == [area[p], area[p + 1]] && 0 !in head
    requires piece == head + area[p + 2..p + 2 + n + 1]
    requires 0 !in area[p + 2..p + 2 + n] && area[p + 2 + n] != 0
    ensures piece == area[p..p + n + 3] && 0 !in piece
  {
    forall k | 0 <= k < |piece|
      ensures piece[k] != 0
    {
      if k < 2 {
        assert piece[k] in head;
      } else if k < n + 2 {
        assert piece[k] == area[p + 2..p + 2 + n][k - 2];
      }
    }
  }

  function FirstNull(area: seq<Byte>, p: nat): (q: nat)
    requires p < |area| && area[|area| - 1] == 0
    ensures p <= q < |area| && area[q] == 0 && 0 !in area[p..q]
    decreases |area| - p
  {
    if area[p] == 0 then p
    else
      var q := FirstNull(area, p + 1);
      assert area[p..q] == [area[p]] + area[p + 1..q];
      q
  }

  /**
   With more than `id` nulls in an area that ends in one: the text found is the one behind the `id`-th null, nothing
   behind its own terminator has any influence on what is sent, and a legal text is sent whole, one token at a time.
   */
  lemma SendsNthMacro(area: seq<Byte>, id: nat, count: nat)
    requires area != [] && area[|area| - 1] == 0 && id < count && Nulls(area) > id
    ensures var p := Skip(area, 0, id);
            && 0 <= p < |area| && Nulls(area[..p]) == id && (id > 0 ==> p > 0 && area[p - 1] == 0)
            && Send(area, id, count).end != Overrun
            && Send(area, id, count) == Play(area[..FirstNull(area, p) + 1], p, BLANK)
            && (LegalText(area[p..FirstNull(area, p)]) ==>
                  var s := Send(area, id, count);
                  s.end == Finished && Concat(s.pieces) == area[p..FirstNull(area, p)] && AllTokens(s.pieces))
  {
    SkipLands(area, 0, id);
    OverrunsIff(area, id, count);
    var p := Skip(area, 0, id);
    assert area[..|area|] == area;
    var q := FirstNull(area, p);
    PlayIsLocal(area, p, q, BLANK);
    if LegalText(area[p..q]) {
      LegalIsSentWhole(area, p, q, BLANK);
    }
  }

  // ---- what is not legal ----

  /** An escape with an unknown code is sent with whatever the scratch string still holds behind it. */
  lemma UnknownCode(area: seq<Byte>, p: nat, data: seq<Byte>)
    requires p + 1 < |area| && |data| == 8 && area[p] == 1 && area[p + 1] > 4
    ensures var pieces := Play(area, p, data).pieces;
            pieces != [] && pieces[0] == [1, area[p + 1]] + CString(data[2..])
  {
    var d: seq<Byte> := data[0 := area[p]][1 := 0][1 := area[p + 1]];
    assert d[1..][1..] == data[2..];
    assert CString(d) == [d[0]] + CString(d[1..]);
    assert CString(d[1..]) == [area[p + 1]] + CString(data[2..]);
  }

  lemma {:induction false} CollectWithoutBar(area: seq<Byte>, p: nat, data: seq<Byte>, i: nat)
    requires |data| == 8 && 2 <= i <= 6 && p + (7 - i) <= |area|
    requires forall j :: p <= j < p + (7 - i) ==> area[j] != BAR
    ensures Collect(area, p, data, i) == Stopped(Aborted)
    decreases 6 - i
  {
    if area[p] != 0 && i < 6 {
      CollectWithoutBar(area, p + 1, data[i := area[p]], i + 1);
    }
  }

  /** A null inside an escape, or a delay without a bar among its next five bytes, stops the sending there. */
  lemma MalformedStops(area: seq<Byte>, p: nat, data: seq<Byte>)
    requires p + 1 < |area| && |data| == 8 && area[p] == 1
    requires || area[p + 1] == 0
             || (1 <= area[p + 1] <= 3 && p + 2 < |area| && area[p + 2] == 0)
             || (area[p + 1] == 4 && p + 7 <= |area| && forall j :: p + 2 <= j < p + 7 ==> area[j] != 0x7C)
    ensures Play(area, p, data) == Sent([], Aborted)
  {
    if area[p + 1] == 4 {
      CollectWithoutBar(area, p + 2, data[0 := area[p]][1 := 0][1 := area[p + 1]], 2);
    }
  }

  /** Nothing is sent for a macro that does not exist, of an area with fewer nulls, or while a buffer write leaves the last byte set. */
  lemma SendsNothing(area: seq<Byte>, id: nat, count: nat)
    requires area != [] && (id >= count || area[|area| - 1] != 0 || Nulls(area) < id)
    ensures Send(area, id, count) == Sent([], Finished)
  {
    SkipLands(area, 0, id);
  }

  // ---- the loops ----

  /** The delay loop, filling the scratch string in place; `ok` is false if sending must stop with `end`. */
  method CollectDelay(area: seq<Byte>, p: nat, data: array<Byte>) returns (ok: bool, q: nat, end: End)
    requires p <= |area| && data.Length == 8
    modifies data
    ensures var c := Collect(area, p, old(data[..]), 2);
            && ok == c.Collected?
            && (ok ==> q == c.p && data[..] == c.data)
            && (!ok ==> end == c.end)
  {
    q := p;
    end := Finished;
    ok := true;
    var i := 2;
    while true
      invariant 2 <= i <= 6 && p <= q <= |area| && ok
      invariant Collect(area, p, old(data[..]), 2) == Collect(area, q, data[..], i)
      decreases 6 - i
    {
      if q == |area| {
        return false, q, Overrun;
      }
      ghost var before := data[..];
      data[i] := area[q];
      assert data[..] == before[i := area[q]];
      q := q + 1;
      if data[i] == 0 {
        return false, q, Aborted;
      }
      if data[i] == BAR {
        data[i + 1] := 0;
        return;
      }
      if i == 6 {
        return false, q, Aborted;
      }
      i := i + 1;
    }
  }

  /** What has been sent so far, followed by what the rest sends. */
  function Joined(pieces: seq<seq<Byte>>, rest: Sent): Sent {
    rest.(pieces := pieces + rest.pieces)
  }

  lemma JoinedPrepend(pieces: seq<seq<Byte>>, piece: seq<Byte>, rest: Sent)
    ensures Joined(pieces, Prepend(piece, rest)) == Joined(pieces + [piece], rest)
  {
    assert pieces + ([piece] + rest.pieces) == pieces + [piece] + rest.pieces;
  }

  /** One turn of the sending loop: fill the scratch string from `p`, or stop. */
  method NextPiece(area: seq<Byte>, p: nat, data: array<Byte>) returns (more: bool, q: nat, end: End)
    requires p <= |area| && data.Length == 8
    modifies data
    ensures var s := Play(area, p, old(data[..]));
            if more then p < q <= |area| && s == Prepend(CString(data[..]), Play(area, q, data[..]))
            else s == Sent([], end)
  {
    q := p;
    if q == |area| {
      return false, q, Overrun;
    }
    ghost var start := data[..];
    data[0] := area[q];
    data[1] := 0;
    q := q + 1;
    ghost var d: seq<Byte> := start[0 := area[p]][1 := 0];
    assert data[..] == d;
    if data[0] == 0 {
      return false, q, Finished;
    }
    if data[0] != PREFIX {
      return true, q, Finished;
    }
    if q == |area| {
      return false, q, Overrun;
    }
    data[1] := area[q];
    q := q + 1;
    ghost var d1: seq<Byte> := d[1 := area[p + 1]];
    assert data[..] == d1;
    if data[1] == 0 {
      return false, q, Aborted;
    }
    if data[1] == TAP || data[1] == DOWN || data[1] == UP {
      if q == |area| {
        return false, q, Overrun;
      }
      data[2] := area[q];
      q := q + 1;
      if data[2] == 0 {
        return false, q, Aborted;
      }
      data[3] := 0;
      ghost var d2: seq<Byte> := d1[2 := area[p + 2]][3 := 0];
      assert data[..] == d2;
    } else if data[1] == DELAY {
      var ok;
      ok, q, end := CollectDelay(area, q, data);
      if !ok {
        return false, q, end;
      }
    }
    return true, q, Finished;
  }

  method PlayFrom(area: seq<Byte>, p: nat) returns (sent: Sent)
    requires p <= |area|
    ensures sent == Play(area, p, BLANK)
  {
    var data := new Byte[8](_ => 0);
    assert data[..] == BLANK;
    var pieces: seq<seq<Byte>> := [];
    var q := p;
    assert Joined([], Play(area, p, BLANK)) == Play(area, p, BLANK);
    while true
      invariant p <= q <= |area| && data.Length == 8
      invariant Joined(pieces, Play(area, q, data[..])) == Play(area, p, BLANK)
      decreases |area| - q
    {
      var more, r, end := NextPiece(area, q, data);
      if !more {
        assert Joined(pieces, Sent([], end)).pieces == pieces;
        return Sent(pieces, end);
      }
      JoinedPrepend(pieces, CString(data[..]), Play(area, r, data[..]));
      pieces := pieces + [CString(data[..])];
      q := r;
    }
  }

  /** `dynamic_keymap_macro_send` on the bytes of the macro area. */
  method MacroSend(area: seq<Byte>, id: nat, count: nat) returns (sent: Sent)
    requires area != []
    ensures sent == Send(area, id, count)
  {
    if id >= count {
      return NOTHING;
    }
    // a non-zero last byte means a buffer write is in progress
    if area[|area| - 1] != 0 {
      return NOTHING;
    }
    var p, left := 0, id;
    while left > 0
      invariant 0 <= p <= |area| && 0 <= left
      invariant Skip(area, 0, id) == Skip(area, p, left)
      decreases |area| - p
    {
      if p == |area| {
        return NOTHING;
      }
      if area[p] == 0 {
        left := left - 1;
      }
      p := p + 1;
    }
    sent := PlayFrom(area, p);
  }
}
