/** `Unpack` inverts `Pack` on every bit-clean type. */
module PackRoundTrip {
  import opened Wire
  import opened PackSpec
  import opened Sequences
  import opened Streams
  import opened PackShape

  /** The byte that will carry the pending bits is the next one written. */
  ghost predicate Promise(p: PackState, out: seq<byte>)
    requires p.bitpos < 8
  {
    p.bitpos > 0 ==> |out| > 0 && Low(out[0], p.bitpos) == Low(p.bitpack, p.bitpos)
  }

  /**
   `Pack` in state `p` is about to write `out`, `Unpack` in state `u` is about to read `r`, and
   they are at the same place: with bits pending, `Unpack` has already taken the shared byte.
   */
  ghost predicate Synced(p: PackState, out: seq<byte>, u: UnpackState, r: seq<byte>, rest: seq<byte>)
    requires p.bitpos < 8
  {
    u.lastA == p.lastA && u.bitpos == p.bitpos && Promise(p, out) &&
    if p.bitpos == 0 then u.n == p.pos && r == out + rest
    else u.n == p.pos + 1 && u.bitpack == out[0] && r == out[1..] + rest
  }

  ghost predicate Inv(p: PackState) {
    p.bitpos < 8 && p.bitpack < Pow2(p.bitpos) && p.lastA >= 1 && (p.bitpos > 0 ==> p.lastA == 1)
  }

  /// Packed bits

  lemma {:induction false} BitForward(
      p: PackState, b: bool, out: seq<byte>, u: UnpackState, r: seq<byte>, rest: seq<byte>)
    requires Inv(p) && Promise(PackBit(p, b).0, out)
    requires Synced(p, PackBit(p, b).1 + out, u, r, rest)
    ensures var res := UnpackBit(u, r);
      res.Ok? && res.value.1 == b && Synced(PackBit(p, b).0, out, res.value.0, res.value.2, rest)
  {
    OrBitLow(p.bitpack, p.bitpos, b);
    var (p1, hb) := PackBit(p, b);
    LowStep((hb + out)[0], p.bitpos);
    LowStep(OrBit(p.bitpack, p.bitpos, b), p.bitpos);
  }

  lemma {:induction false} BitPromise(p: PackState, b: bool, out: seq<byte>)
    requires Inv(p) && p.lastA == 1 && Promise(PackBit(p, b).0, out)
    ensures Promise(p, PackBit(p, b).1 + out)
    ensures Inv(PackBit(p, b).0)
  {
    OrBitLow(p.bitpack, p.bitpos, b);
    var (p1, hb) := PackBit(p, b);
    LowStep((hb + out)[0], p.bitpos);
    LowStep(OrBit(p.bitpack, p.bitpos, b), p.bitpos);
  }

  lemma {:induction false} BitsPromise(p: PackState, bs: seq<bool>, out: seq<byte>)
    requires Inv(p) && p.lastA == 1 && Promise(PackBits(p, bs).0, out)
    ensures Promise(p, PackBits(p, bs).1 + out)
    decreases |bs|
  {
    if bs == [] {
      assert [] + out == out;
    } else {
      var (p1, hb) := PackBit(p, bs[0]);
      var tb := PackBits(p1, bs[1..]).1;
      assert (hb + tb) + out == hb + (tb + out);
      BitInv(p, bs[0]);
      BitsPromise(p1, bs[1..], out);
      BitPromise(p, bs[0], tb + out);
    }
  }

  lemma {:induction false} SyncedHere(p: PackState, out: seq<byte>, u: UnpackState, r: seq<byte>, rest: seq<byte>)
    requires p.bitpos < 8 && Synced(p, out, u, r, rest)
    ensures u.bitpos == p.bitpos
  {
  }

  lemma {:induction false} BitsForward(p: PackState, bs: seq<bool>, out: seq<byte>,
                                       u: UnpackState, r: seq<byte>, rest: seq<byte>)
    requires Inv(p) && p.lastA == 1 && Promise(PackBits(p, bs).0, out)
    requires Synced(p, PackBits(p, bs).1 + out, u, r, rest)
    ensures var res := UnpackBits(u, |bs|, r);
      res.Ok? && res.value.1 == bs && Synced(PackBits(p, bs).0, out, res.value.0, res.value.2, rest)
    decreases |bs|
  {
    hide Synced, Promise, PackBit, UnpackBit, Pow2;
    if bs == [] {
      assert [] + out == out;
    } else {
      var (p1, hb) := PackBit(p, bs[0]);
      BitInv(p, bs[0]);
      var tb := PackBits(p1, bs[1..]).1;
      Associate(hb, tb, out);
      BitsPromise(p1, bs[1..], out);
      BitForward(p, bs[0], tb + out, u, r, rest);
      SyncedHere(p, PackBits(p, bs).1 + out, u, r, rest);
      var (u1, _, r1) := UnpackBit(u, r).value;
      BitsForward(p1, bs[1..], out, u1, r1, rest);
    }
  }

  lemma {:induction false} BitInv(p: PackState, b: bool)
    requires Inv(p) && p.lastA == 1
    ensures Inv(PackBit(p, b).0) && PackBit(p, b).0.lastA == 1
  {
    OrBitLow(p.bitpack, p.bitpos, b);
  }

  lemma {:induction false} BitsInv(p: PackState, bs: seq<bool>)
    requires Inv(p) && p.lastA == 1
    ensures Inv(PackBits(p, bs).0) && PackBits(p, bs).0.lastA == 1
    decreases |bs|
  {
    if bs != [] {
      BitInv(p, bs[0]);
      BitsInv(PackBit(p, bs[0]).0, bs[1..]);
    }
  }

  /// Whole-byte fields

  lemma {:induction false} PadRead(k: nat, x: seq<byte>)
    ensures ReadPad(Zeros(k) + x, k) == Ok(x)
  {
    assert (Zeros(k) + x)[k..] == x;
  }

  /** The padding after a struct. */
  function PostPad(q: PackState, a: Alignment, size: nat, isStruct: bool): nat {
    var at := if q.bitpos > 0 then q.pos + 1 else q.pos;
    if isStruct then Rem(at + Rem(at, a) + size, a) else 0
  }

  /** The state in which an aligned piece is written. */
  function Poised(p: PackState, a: Alignment, piece: Piece): PackState
    requires piece.AlignedPiece?
  {
    var p1 := PackPre(p, a).0;
    if piece.forgets then p1.(bitpos := 0) else p1
  }

  /** What follows the body of a field in the stream. */
  function After(p: PackState, a: Alignment, piece: Piece): seq<byte>
    requires !piece.BitPiece?
  {
    if piece.RawPiece? then []
    else Zeros(PostPad(Poised(p, a, piece), a, |piece.body|, piece.isStruct))
  }

  ghost predicate ReadyPiece(p: PackState, a: Alignment, piece: Piece) {
    !piece.BitPiece? &&
    (p.bitpos > 0 ==> piece.AlignedPiece? && !piece.forgets && Divides(a, p.pos))
  }

  /** `Unpack` reaches the first byte of the body, whatever padding `Pack` put in front. */
  ghost predicate Reached(p: PackState, a: Alignment, piece: Piece, out: seq<byte>,
                          u: UnpackState, r: seq<byte>, rest: seq<byte>)
    requires p.bitpos < 8 && !piece.BitPiece?
  {
    var post := After(p, a, piece);
    var n := PackPiece(p, a, piece).0.pos - |post| - |piece.body|;
    n >= 0 && Approach(u, a, piece.RawPiece?, r) == Ok((n, piece.body + (post + (out + rest))))
  }

  lemma {:induction false} ReachRaw(p: PackState, a: Alignment, piece: Piece, out: seq<byte>,
                                    u: UnpackState, r: seq<byte>, rest: seq<byte>)
    requires p.bitpos == 0 && piece.RawPiece?
    requires Synced(p, PackPiece(p, a, piece).1 + out, u, r, rest)
    ensures Reached(p, a, piece, out, u, r, rest)
  {
    var (p1, pre) := PackPre(p, a);
    var tail := piece.body + ([] + (out + rest));
    assert r == pre + tail;
    PadRead(|pre|, tail);
  }

  lemma {:induction false} AlignedParts(q: PackState, a: Alignment, body: seq<byte>, isStruct: bool)
    ensures var flush := if q.bitpos > 0 then [q.bitpack] else [];
      var pad, post := Rem(q.pos + |flush|, a), PostPad(q, a, |body|, isStruct);
      var (q1, out) := PackAligned(q, a, body, isStruct);
      out == flush + Zeros(pad) + body + Zeros(post) &&
      q1.pos == q.pos + |flush| + pad + |body| + post
  {
  }

  /** The bytes of an aligned piece, one part after the other, and the position after it. */
  lemma {:induction false} PieceParts(p: PackState, a: Alignment, piece: Piece)
    requires p.bitpos < 8 && piece.AlignedPiece?
    ensures var q, pre, post := Poised(p, a, piece), PackPre(p, a).1, After(p, a, piece);
      var flush := if q.bitpos > 0 then [q.bitpack] else [];
      var pad := Rem(q.pos + |flush|, a);
      PackPiece(p, a, piece).1 == pre + (flush + Zeros(pad) + piece.body + post) &&
      PackPiece(p, a, piece).0.pos == q.pos + |flush| + pad + |piece.body| + |post|
  {
    var q := Poised(p, a, piece);
    AlignedParts(q, a, piece.body, piece.isStruct);
    var (p2, out) := PackAligned(q, a, piece.body, piece.isStruct);
    assert PackPiece(p, a, piece) == (p2, PackPre(p, a).1 + out);
  }

  lemma {:induction false} Regroup(
      pre: seq<byte>, pad: seq<byte>, body: seq<byte>, post: seq<byte>, out: seq<byte>, rest: seq<byte>)
    ensures pre + ([] + pad + body + post) + out + rest == pre + (pad + (body + (post + (out + rest))))
    ensures forall b: byte :: ([] + ([b] + pad + body + post) + out)[1..] + rest == pad + (body + (post + (out + rest)))
  {
    forall b: byte
      ensures ([] + ([b] + pad + body + post) + out)[1..] + rest == pad + (body + (post + (out + rest)))
    {
      assert [] + ([b] + pad + body + post) + out == [b] + (pad + body + post + out);
    }
  }

  lemma {:induction false} ReachAligned(p: PackState, a: Alignment, piece: Piece, out: seq<byte>,
                                        u: UnpackState, r: seq<byte>, rest: seq<byte>)
    requires p.bitpos == 0 && piece.AlignedPiece?
    requires Synced(p, PackPiece(p, a, piece).1 + out, u, r, rest)
    ensures Reached(p, a, piece, out, u, r, rest)
  {
    hide PackPiece, Rem, ReadPad, After;
    var (p1, pre) := PackPre(p, a);
    var pad := Zeros(Rem(p1.pos, a));
    var post := After(p, a, piece);
    var tail := piece.body + (post + (out + rest));
    PieceParts(p, a, piece);
    Regroup(pre, pad, piece.body, post, out, rest);
    assert r == pre + (pad + tail);
    PadRead(|pre|, pad + tail);
    PadRead(|pad|, tail);
    assert Approach(u, a, false, r) == Ok((p1.pos + |pad|, tail));
  }

  /** The shared byte has been read: what is left is padding, the body and what follows. */
  lemma {:induction false} PendingStream(p: PackState, a: Alignment, piece: Piece, out: seq<byte>,
                                         u: UnpackState, r: seq<byte>, rest: seq<byte>)
    returns (tail: seq<byte>)
    requires Inv(p) && p.bitpos > 0 && ReadyPiece(p, a, piece)
    requires Synced(p, PackPiece(p, a, piece).1 + out, u, r, rest)
    ensures tail == piece.body + (After(p, a, piece) + (out + rest))
    ensures r == Zeros(Rem(u.n, a)) + tail && u.n == p.pos + 1 && u.lastA == 1
    ensures PackPiece(p, a, piece).0.pos == u.n + Rem(u.n, a) + |piece.body| + |After(p, a, piece)|
  {
    hide PackPiece, Rem, After;
    RemAligns(p.pos, a);
    var post := After(p, a, piece);
    tail := piece.body + (post + (out + rest));
    PieceParts(p, a, piece);
    Regroup([], Zeros(Rem(p.pos + 1, a)), piece.body, post, out, rest);
  }

  lemma {:induction false} ApproachZeros(u: UnpackState, a: Alignment, tail: seq<byte>)
    requires u.lastA == 1
    ensures Approach(u, a, false, Zeros(Rem(u.n, a)) + tail) == Ok((u.n + Rem(u.n, a), tail))
  {
    hide Rem;
    var pad := Rem(u.n, a);
    RemAligns(u.n, a);
    RemAligns(u.n + pad, a);
    PadRead(pad, tail);
    PadRead(0, tail);
    assert Zeros(0) + tail == tail;
  }

  lemma {:induction false} ReachPending(p: PackState, a: Alignment, piece: Piece, out: seq<byte>,
                                        u: UnpackState, r: seq<byte>, rest: seq<byte>)
    requires Inv(p) && p.bitpos > 0 && ReadyPiece(p, a, piece)
    requires Synced(p, PackPiece(p, a, piece).1 + out, u, r, rest)
    ensures Reached(p, a, piece, out, u, r, rest)
  {
    hide PackPiece, Rem, After, Synced, Inv, Approach;
    var tail := PendingStream(p, a, piece, out, u, r, rest);
    ApproachZeros(u, a, tail);
  }

  lemma {:induction false} Reach(p: PackState, a: Alignment, piece: Piece, out: seq<byte>,
                                 u: UnpackState, r: seq<byte>, rest: seq<byte>)
    requires Inv(p) && ReadyPiece(p, a, piece)
    requires Synced(p, PackPiece(p, a, piece).1 + out, u, r, rest)
    ensures Reached(p, a, piece, out, u, r, rest)
  {
    if p.bitpos > 0 {
      ReachPending(p, a, piece, out, u, r, rest);
    } else if piece.RawPiece? {
      ReachRaw(p, a, piece, out, u, r, rest);
    } else {
      ReachAligned(p, a, piece, out, u, r, rest);
    }
  }

  /// Field bodies

  lemma {:induction false} WordsForward(ws: seq<nat>, width: nat)
    requires forall i :: 0 <= i < |ws| ==> ws[i] < Pow256(width)
    ensures |WordBytes(ws, width)| == |ws| * width && UnWords(WordBytes(ws, width), width, |ws|) == ws
  {
    if ws != [] {
      WordsForward(ws[1..], width);
      LERoundTrip(ws[0], width);
      var tail := WordBytes(ws[1..], width);
      assert (LE(ws[0], width) + tail)[..width] == LE(ws[0], width);
      assert (LE(ws[0], width) + tail)[width..] == tail;
    }
  }

  lemma {:induction false} SlotForward(t: seq<byte>, x: seq<byte>)
    requires |t| <= STRING_DATA
    ensures ReadSlot(Slot(t) + x) == Ok((t, x))
  {
    var r := Slot(t) + x;
    assert t[..|t|] == t;
    assert r[4..|t| + 4] == t;
    assert r[86..] == x;
    assert FromU32(r) == |t|;
  }

  lemma {:induction false} SlotsForward(ts: seq<seq<byte>>, x: seq<byte>)
    requires forall i :: 0 <= i < |ts| ==> |ts[i]| <= STRING_DATA
    ensures ReadSlots(Slots(ts) + x, |ts|) == Ok((ts, x))
  {
    if ts == [] {
      assert Slots(ts) + x == x;
    } else {
      assert Slots(ts) + x == Slot(ts[0]) + (Slots(ts[1..]) + x);
      SlotForward(ts[0], Slots(ts[1..]) + x);
      SlotsForward(ts[1..], x);
      assert ts == [ts[0]] + ts[1..];
    }
  }

  lemma {:induction false} BodyForward(t: FieldType, v: Value, x: seq<byte>)
    requires HasType(v, t) && Fits(v) && CleanInside(t)
    ensures UnpackBody(t, Body(t, v) + x) == Ok((v, |Body(t, v)|, x))
    decreases t, 0
  {
    FullRead(Body(t, v), x);
    match t
    case Scalar(width) => LERoundTrip(v.w, width.Bytes());
    case Bool(_) =>
    case BoolArray(_, _) => assert UnFlags(FlagBytes(v.bs)) == v.bs;
    case ScalarArray(width, len, _) => WordsForward(v.ws, width.Bytes());
    case Struct(fields) => StructForward(fields, v.vs, x);
    case StructArray(elem, _) => ElemsForward(elem, v.rs, x);
    case Str => SlotForward(v.t, x);
    case StrArray(_) => SlotsForward(v.ts, x);
  }

  lemma {:induction false} ElemsForward(elem: seq<FieldType>, rs: seq<Value>, x: seq<byte>)
    requires AreRecords(rs, elem)
    requires AllFit(rs) && (|rs| == 0 || CleanStruct(elem))
    ensures UnpackElems(elem, |rs|, PackElems(elem, rs) + x) == Ok((rs, |PackElems(elem, rs)|, x))
    decreases elem, 5, |rs|
  {
    if rs == [] {
      assert PackElems(elem, rs) + x == x;
    } else {
      var tail := PackElems(elem, rs[1..]);
      assert PackElems(elem, rs) + x == PackStruct(elem, rs[0].vs) + (tail + x);
      assert Fits(rs[0]);
      StructForward(elem, rs[0].vs, tail + x);
      ElemsForward(elem, rs[1..], x);
      assert rs == [rs[0]] + rs[1..];
    }
  }

  lemma {:induction false} StructForward(fs: seq<FieldType>, vs: seq<Value>, x: seq<byte>)
    requires HasTypes(vs, fs) && AllFit(vs) && CleanStruct(fs)
    ensures UnpackStruct(fs, PackStruct(fs, vs) + x) == Ok(GotAll(vs, |PackStruct(fs, vs)|, x))
    decreases fs, 4
  {
    FieldsForward(PACK_START, fs, vs, |PackStruct(fs, vs)|, UNPACK_START, PackStruct(fs, vs) + x, x);
  }

  /// Fields

  ghost predicate ReadyField(p: PackState, t: FieldType, v: Value)
    requires HasType(v, t)
  {
    var piece := PieceOf(t, v);
    piece.BitPiece? || ReadyPiece(p, Align(t), piece)
  }

  lemma {:induction false} ReadyMeans(p: PackState, t: FieldType, v: Value)
    requires HasType(v, t)
    ensures ReadyField(p, t, v) <==> Ready(ShapeOf(p), t)
  {
  }

  lemma {:induction false} FieldInv(p: PackState, t: FieldType, v: Value)
    requires Inv(p) && HasType(v, t) && ReadyField(p, t, v)
    ensures Inv(PackField(p, t, v).0)
  {
    if IsPacked(t) {
      BitsInv(PackPre(p, 1).0, Bits(v));
    }
  }

  lemma {:induction false} FieldPromise(p: PackState, t: FieldType, v: Value, out: seq<byte>)
    requires Inv(p) && HasType(v, t) && ReadyField(p, t, v)
    requires Promise(PackField(p, t, v).0, out)
    ensures Promise(p, PackField(p, t, v).1 + out)
  {
    var (p1, pre) := PackPre(p, Align(t));
    if IsPacked(t) {
      BitsPromise(p1, Bits(v), out);
      var hb := PackBits(p1, Bits(v)).1;
      assert pre == [] && [] + hb == hb;
    } else if p.bitpos > 0 {
      RemAligns(p.pos, Align(t));
      PieceParts(p, Align(t), PieceOf(t, v));
    }
  }

  lemma {:induction false} FieldsPromise(p: PackState, fs: seq<FieldType>, vs: seq<Value>)
    requires Inv(p) && HasTypes(vs, fs) && CleanFields(ShapeOf(p), fs)
    ensures Promise(p, PackFields(p, fs, vs))
    decreases |fs|
  {
    if fs != [] {
      var (p1, hb) := PackField(p, fs[0], vs[0]);
      ReadyMeans(p, fs[0], vs[0]);
      FieldNext(p, fs[0], vs[0]);
      FieldsPromise(p1, fs[1..], vs[1..]);
      FieldPromise(p, fs[0], vs[0], PackFields(p1, fs[1..], vs[1..]));
    }
  }

  ghost predicate Reads(p: PackState, t: FieldType, v: Value, out: seq<byte>,
                        u: UnpackState, r: seq<byte>, rest: seq<byte>)
    requires HasType(v, t) && p.bitpos < 8 && u.bitpos < 8
  {
    var res := UnpackField(u, t, r);
    res.Ok? && res.value.v == v && Synced(PackField(p, t, v).0, out, res.value.u, res.value.rest, rest)
  }

  lemma {:induction false} BitFieldForward(p: PackState, t: FieldType, v: Value, out: seq<byte>,
                                           u: UnpackState, r: seq<byte>, rest: seq<byte>)
    requires Inv(p) && HasType(v, t) && IsPacked(t)
    requires Promise(PackField(p, t, v).0, out)
    requires Synced(p, PackField(p, t, v).1 + out, u, r, rest)
    ensures Reads(p, t, v, out, u, r, rest)
  {
    var (p1, pre) := PackPre(p, 1);
    var hb := PackBits(p1, Bits(v)).1;
    assert pre == [] && [] + hb == hb;
    assert PackField(p, t, v) == (PackBits(p1, Bits(v)).0, hb);
    assert Approach(u, 1, true, r) == Ok((u.n, r));
    BitsForward(p1, Bits(v), out, UnpackState(u.n, u.bitpos, u.bitpack, 1), r, rest);
  }

  lemma {:induction false} WholeField(u: UnpackState, t: FieldType, v: Value, r: seq<byte>,
                                      n: nat, body: seq<byte>, post: seq<byte>, x: seq<byte>)
    requires u.bitpos < 8 && !IsPacked(t)
    requires Approach(u, Align(t), IsRaw(t), r) == Ok((n, body + (post + x)))
    requires UnpackBody(t, body + (post + x)) == Ok((v, |body|, post + x))
    requires post == Zeros(if t.Struct? then Rem(n + |body|, Align(t)) else 0)
    ensures UnpackField(u, t, r) ==
      Ok(Got(UnpackState(n + |body| + |post|, 0, u.bitpack, Align(t)), v, x))
  {
    hide UnpackBody, Approach, Rem, Align;
    PadRead(|post|, x);
  }

  lemma {:induction false} AfterMeans(p: PackState, t: FieldType, v: Value)
    requires p.bitpos < 8 && HasType(v, t) && !IsPacked(t)
    ensures var a, piece := Align(t), PieceOf(t, v);
      var post := After(p, a, piece);
      PackPiece(p, a, piece).0.pos >= |post| + |piece.body| &&
      post == Zeros(if t.Struct? then Rem(PackPiece(p, a, piece).0.pos - |post|, a) else 0)
  {
    hide Rem, Body, HasType, Align;
    var piece := PieceOf(t, v);
    if piece.AlignedPiece? {
      PieceParts(p, Align(t), piece);
    }
  }

  lemma {:induction false} PieceState(p: PackState, a: Alignment, piece: Piece)
    requires p.bitpos < 8 && !piece.BitPiece?
    ensures PackPiece(p, a, piece).0.bitpos == 0 && PackPiece(p, a, piece).0.lastA == a
  {
  }

  lemma {:induction false} WholeFieldForward(p: PackState, t: FieldType, v: Value, out: seq<byte>,
                                             u: UnpackState, r: seq<byte>, rest: seq<byte>)
    requires Inv(p) && HasType(v, t) && Fits(v) && !IsPacked(t)
    requires ReadyField(p, t, v) && CleanInside(t)
    requires Synced(p, PackField(p, t, v).1 + out, u, r, rest)
    ensures Reads(p, t, v, out, u, r, rest)
    decreases t, 1
  {
    hide UnpackField, UnpackBody, Approach, After, Align, Fits, CleanInside, PackPiece, Body, Pow2;
    var a, piece := Align(t), PieceOf(t, v);
    var p1, post := PackPiece(p, a, piece).0, After(p, a, piece);
    Reach(p, a, piece, out, u, r, rest);
    BodyForward(t, v, post + (out + rest));
    AfterMeans(p, t, v);
    PieceState(p, a, piece);
    WholeField(u, t, v, r, p1.pos - |post| - |piece.body|, piece.body, post, out + rest);
  }

  lemma {:induction false} FieldForward(p: PackState, t: FieldType, v: Value, out: seq<byte>,
                                        u: UnpackState, r: seq<byte>, rest: seq<byte>)
    requires Inv(p) && HasType(v, t) && Fits(v)
    requires Ready(ShapeOf(p), t) && CleanInside(t)
    requires Promise(PackField(p, t, v).0, out)
    requires Synced(p, PackField(p, t, v).1 + out, u, r, rest)
    ensures Reads(p, t, v, out, u, r, rest)
    decreases t, 2
  {
    ReadyMeans(p, t, v);
    if IsPacked(t) {
      BitFieldForward(p, t, v, out, u, r, rest);
    } else {
      WholeFieldForward(p, t, v, out, u, r, rest);
    }
  }

  lemma {:induction false} FieldNext(p: PackState, t: FieldType, v: Value)
    requires Inv(p) && HasType(v, t) && Ready(ShapeOf(p), t)
    ensures var (p1, hb) := PackField(p, t, v);
      Inv(p1) && ShapeOf(p1) == Next(ShapeOf(p), t) && p1.pos == p.pos + |hb|
  {
    ReadyMeans(p, t, v);
    FieldInv(p, t, v);
    FieldShape(p, t, v);
  }

  lemma {:induction false} UnpackCons(u: UnpackState, fs: seq<FieldType>, r: seq<byte>, got: Got,
                                      vs: seq<Value>, n: nat, rest: seq<byte>)
    requires u.bitpos < 8 && fs != [] && |vs| == |fs|
    requires UnpackField(u, fs[0], r) == Ok(got) && got.v == vs[0] && got.u.bitpos < 8
    ensures UnpackFields(u, fs, r) == Ok(GotAll(vs, n, rest)) <==>
      UnpackFields(got.u, fs[1..], got.rest) == Ok(GotAll(vs[1..], n, rest))
  {
    ConsMeans(got, UnpackFields(got.u, fs[1..], got.rest), vs, n, rest);
  }

  /** The two sides are in step, with fields `fs` still to go, and will end at `end`. */
  ghost predicate InStep(p: PackState, fs: seq<FieldType>, vs: seq<Value>, end: nat,
                         u: UnpackState, r: seq<byte>, rest: seq<byte>)
  {
    Inv(p) && HasTypes(vs, fs) && AllFit(vs) && CleanFields(ShapeOf(p), fs) &&
    end == p.pos + |PackFields(p, fs, vs)| &&
    Synced(p, PackFields(p, fs, vs), u, r, rest)
  }

  lemma {:induction false} StepForward(p: PackState, fs: seq<FieldType>, vs: seq<Value>, end: nat,
                                       u: UnpackState, r: seq<byte>, rest: seq<byte>)
    requires InStep(p, fs, vs, end, u, r, rest) && fs != []
    ensures var res := UnpackField(u, fs[0], r);
      res.Ok? && res.value.v == vs[0] &&
      InStep(PackField(p, fs[0], vs[0]).0, fs[1..], vs[1..], end, res.value.u, res.value.rest, rest)
    decreases fs, 2
  {
    var (p1, hb) := PackField(p, fs[0], vs[0]);
    var out := PackFields(p1, fs[1..], vs[1..]);
    assert PackFields(p, fs, vs) == hb + out;
    FieldNext(p, fs[0], vs[0]);
    FieldsPromise(p1, fs[1..], vs[1..]);
    FieldForward(p, fs[0], vs[0], out, u, r, rest);
  }

  lemma {:induction false} FieldsForward(p: PackState, fs: seq<FieldType>, vs: seq<Value>, end: nat,
                                         u: UnpackState, r: seq<byte>, rest: seq<byte>)
    requires InStep(p, fs, vs, end, u, r, rest)
    ensures UnpackFields(u, fs, r) == Ok(GotAll(vs, end, rest))
    decreases fs, 3
  {
    if fs == [] {
      assert vs == [] && r == rest;
    } else {
      StepForward(p, fs, vs, end, u, r, rest);
      var got := UnpackField(u, fs[0], r).value;
      FieldsForward(PackField(p, fs[0], vs[0]).0, fs[1..], vs[1..], end, got.u, got.rest, rest);
      UnpackCons(u, fs, r, got, vs, end, rest);
    }
  }
}
