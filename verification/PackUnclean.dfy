/** On every type that is not bit-clean, some value is changed by `Pack` followed by `Unpack`. */
module PackUnclean {
  import opened Wire
  import opened Sequences
  import opened PackSpec
  import opened PackShape
  import opened PackRoundTrip

  /// The values the counterexamples are made of: no text, no numbers, every bit equal to `b`

  function Plain(t: FieldType, b: bool): (v: Value)
    ensures HasType(v, t) && Fits(v)
    decreases t, 0
  {
    match t
    case Scalar(_) => Word(0)
    case Bool(_) => Flag(b)
    case BoolArray(len, _) => Flags(seq(len, i => b))
    case ScalarArray(_, len, _) => Words(seq(len, i => 0))
    case Struct(fields) => Record(PlainAll(fields, b))
    case StructArray(elem, len) => Records(PlainElems(elem, len, b))
    case Str => Text([])
    case StrArray(len) => Texts(Blanks(len))
  }

  function PlainAll(fs: seq<FieldType>, b: bool): (vs: seq<Value>)
    ensures HasTypes(vs, fs) && AllFit(vs)
    decreases fs, 1
  {
    if fs == [] then [] else [Plain(fs[0], b)] + PlainAll(fs[1..], b)
  }

  function PlainElems(elem: seq<FieldType>, len: nat, b: bool): (rs: seq<Value>)
    ensures |rs| == len && AreRecords(rs, elem) && AllFit(rs)
    decreases elem, 2, len
  {
    if len == 0 then [] else [Record(PlainAll(elem, b))] + PlainElems(elem, len - 1, b)
  }

  function Blanks(n: nat): (ts: seq<seq<byte>>)
    ensures |ts| == n && forall i :: 0 <= i < n ==> ts[i] == []
  {
    seq(n, i => [])
  }

  ghost predicate AllZero(x: seq<byte>) {
    forall i :: 0 <= i < |x| ==> x[i] == 0
  }

  lemma {:induction false} ZeroWords(n: nat, width: nat)
    ensures AllZero(LE(0, width)) && AllZero(WordBytes(seq(n, i => 0), width))
    decreases n, width
  {
    if width > 0 {
      ZeroWords(0, width - 1);
    }
    if n > 0 {
      ZeroWords(n - 1, width);
      assert seq(n, i => 0)[1..] == seq(n - 1, i => 0);
    }
  }

  lemma {:induction false} ZeroSlots(n: nat)
    ensures AllZero(Slot([])) && AllZero(Slots(Blanks(n)))
  {
    if n > 0 {
      ZeroSlots(n - 1);
      assert Blanks(n)[1..] == Blanks(n - 1);
    }
  }

  lemma {:induction false} ZeroBody(t: FieldType)
    ensures AllZero(Body(t, Plain(t, false)))
    decreases t, 0
  {
    match t
    case Scalar(width) => ZeroWords(0, width.Bytes());
    case Bool(_) =>
    case BoolArray(_, _) =>
    case ScalarArray(width, len, _) => ZeroWords(len, width.Bytes());
    case Struct(fields) => ZeroFields(PACK_START, fields);
    case StructArray(elem, len) => ZeroElems(elem, len);
    case Str => ZeroSlots(0);
    case StrArray(len) => ZeroSlots(len);
  }

  lemma {:induction false} ZeroElems(elem: seq<FieldType>, len: nat)
    ensures AllZero(PackElems(elem, PlainElems(elem, len, false)))
    decreases elem, 5, len
  {
    if len > 0 {
      ZeroFields(PACK_START, elem);
      ZeroElems(elem, len - 1);
      assert PlainElems(elem, len, false)[1..] == PlainElems(elem, len - 1, false);
    }
  }

  lemma {:induction false} ZeroBits(p: PackState, n: nat)
    requires p.bitpos < 8 && p.bitpack == 0
    ensures var (p1, out) := PackBits(p, seq(n, i => false)); AllZero(out) && p1.bitpack == 0
    decreases n
  {
    if n > 0 {
      ZeroBits(PackBit(p, false).0, n - 1);
      assert seq(n, i => false)[1..] == seq(n - 1, i => false);
    }
  }

  lemma {:induction false} ZeroAligned(p: PackState, a: Alignment, piece: Piece)
    requires p.bitpos < 8 && p.bitpack == 0 && piece.AlignedPiece? && AllZero(piece.body)
    ensures AllZero(PackPiece(p, a, piece).1)
  {
    PieceParts(p, a, piece);
  }

  lemma {:induction false} ZeroPiece(p: PackState, a: Alignment, piece: Piece)
    requires p.bitpos < 8 && p.bitpack == 0
    requires if piece.BitPiece? then piece.bits == seq(|piece.bits|, i => false) else AllZero(piece.body)
    ensures var (p1, out) := PackPiece(p, a, piece); AllZero(out) && p1.bitpack == 0
  {
    match piece
    case BitPiece(bits) => ZeroBits(PackPre(p, a).0, |bits|);
    case RawPiece(_) =>
    case AlignedPiece(_, _, _) => ZeroAligned(p, a, piece);
  }

  lemma {:induction false} ZeroField(p: PackState, t: FieldType)
    requires p.bitpos < 8 && p.bitpack == 0
    ensures var (p1, out) := PackField(p, t, Plain(t, false)); AllZero(out) && p1.bitpack == 0
    decreases t, 1
  {
    ZeroBody(t);
    ZeroPiece(p, Align(t), PieceOf(t, Plain(t, false)));
  }

  lemma {:induction false} ZeroFields(p: PackState, fs: seq<FieldType>)
    requires p.bitpos < 8 && p.bitpack == 0
    ensures AllZero(PackFields(p, fs, PlainAll(fs, false)))
    decreases fs, 3
  {
    if fs != [] {
      ZeroField(p, fs[0]);
      ZeroFields(PackField(p, fs[0], Plain(fs[0], false)).0, fs[1..]);
      assert PlainAll(fs, false)[1..] == PlainAll(fs[1..], false);
    }
  }

  /// Forgotten bits

  lemma {:induction false} SamePiece(p1: PackState, p2: PackState, a: Alignment, piece: Piece)
    requires p1.bitpos < 8 && p2 == p1.(bitpack := p2.bitpack)
    requires piece.RawPiece? || (piece.AlignedPiece? && (piece.forgets || p1.bitpos == 0))
    ensures var (q1, out1), (q2, out2) := PackPiece(p1, a, piece), PackPiece(p2, a, piece);
      out1 == out2 && q1.bitpos == 0 && q1.bitpack == p1.bitpack && q2 == q1.(bitpack := p2.bitpack)
  {
  }

  lemma {:induction false} SameBits(p1: PackState, p2: PackState, bs: seq<bool>)
    requires p1.bitpos == 0 && p2 == p1.(bitpack := p2.bitpack)
    requires OrBit(p1.bitpack, 0, true) == OrBit(p2.bitpack, 0, true)
    requires bs != [] && bs[0]
    ensures PackBits(p1, bs) == PackBits(p2, bs)
  {
    assert PackBit(p1, bs[0]) == PackBit(p2, bs[0]);
  }

  ghost predicate Hidden(p1: PackState, p2: PackState) {
    p1.bitpos == 0 && p2 == p1.(bitpack := p2.bitpack) &&
    OrBit(p1.bitpack, 0, true) == OrBit(p2.bitpack, 0, true)
  }

  lemma {:induction false} SameField(p1: PackState, p2: PackState, t: FieldType)
    requires Hidden(p1, p2)
    ensures var (q1, out1), (q2, out2) :=
        PackField(p1, t, Plain(t, true)), PackField(p2, t, Plain(t, true));
      out1 == out2 && (q1 == q2 || Hidden(q1, q2))
  {
    var piece := PieceOf(t, Plain(t, true));
    if !IsPacked(t) {
      SamePiece(p1, p2, Align(t), piece);
    } else if piece.bits != [] {
      SameBits(PackPre(p1, 1).0, PackPre(p2, 1).0, piece.bits);
    }
  }

  /** Nothing is pending, but two different left-over bits hide below a later `true`. */
  lemma {:induction false} SameOut(p1: PackState, p2: PackState, fs: seq<FieldType>)
    requires Hidden(p1, p2)
    ensures PackFields(p1, fs, PlainAll(fs, true)) == PackFields(p2, fs, PlainAll(fs, true))
    decreases |fs|
  {
    if fs != [] {
      var vs := PlainAll(fs, true);
      assert vs[1..] == PlainAll(fs[1..], true);
      SameField(p1, p2, fs[0]);
      var q1, q2 := PackField(p1, fs[0], vs[0]).0, PackField(p2, fs[0], vs[0]).0;
      if q1 != q2 {
        SameOut(q1, q2, fs[1..]);
      }
      PackUnfold(p1, fs, vs);
      PackUnfold(p2, fs, vs);
    }
  }

  /// Reading bits back: what a successful read says about the bits that were to be written

  /** If nothing is going to be written any more, the first pending bit is set. */
  ghost predicate Marked(p: PackState, out: seq<byte>)
    requires p.bitpos < 8
  {
    out == [] && p.bitpos > 0 ==> Bit(p.bitpack, 0)
  }

  lemma {:induction false} BitMarked(p: PackState, b: bool, out: seq<byte>)
    requires Inv(p) && p.lastA == 1 && Marked(PackBit(p, b).0, out)
    ensures Marked(p, PackBit(p, b).1 + out)
  {
    if p.bitpos > 0 && p.bitpos < 7 && out == [] {
      BitKept(p.bitpack, p.bitpos, b);
    }
  }

  lemma {:induction false} BitKept(x: byte, k: nat, b: bool)
    requires 0 < k < 8 && x < Pow2(k)
    ensures Bit(OrBit(x, k, b), 0) == Bit(x, 0)
  {
    OrBitLow(x, k, b);
  }

  lemma {:induction false} BitBack(p: PackState, b: bool, out: seq<byte>, u: UnpackState, r: seq<byte>, x: seq<byte>)
    requires Inv(p) && p.lastA == 1 && AllZero(x) && Marked(PackBit(p, b).0, out)
    requires Synced(p, PackBit(p, b).1 + out, u, r, x)
    requires UnpackBit(u, r).Ok? && UnpackBit(u, r).value.1 == b
    ensures Synced(PackBit(p, b).0, out, UnpackBit(u, r).value.0, UnpackBit(u, r).value.2, x)
  {
    OrBitLow(p.bitpack, p.bitpos, b);
    var (p1, hb) := PackBit(p, b);
    if p.bitpos == 7 {
      assert (hb + out)[1..] == out;
    } else {
      assert hb + out == out;
      if out != [] {
        LowStep(out[0], p.bitpos);
        LowStep(OrBit(p.bitpack, p.bitpos, b), p.bitpos);
        assert p.bitpos == 0 ==> r[1..] == out[1..] + x;
      }
    }
  }

  lemma {:induction false} BitsMarked(p: PackState, bs: seq<bool>, out: seq<byte>)
    requires Inv(p) && p.lastA == 1 && Marked(PackBits(p, bs).0, out)
    ensures Marked(p, PackBits(p, bs).1 + out)
    decreases |bs|
  {
    if bs == [] {
      assert [] + out == out;
    } else {
      var (p1, hb) := PackBit(p, bs[0]);
      var tb := PackBits(p1, bs[1..]).1;
      assert (hb + tb) + out == hb + (tb + out);
      BitInv(p, bs[0]);
      BitsMarked(p1, bs[1..], out);
      BitMarked(p, bs[0], tb + out);
    }
  }

  lemma {:induction false} BitsBack(p: PackState, bs: seq<bool>, out: seq<byte>,
                                    u: UnpackState, r: seq<byte>, x: seq<byte>)
    requires Inv(p) && p.lastA == 1 && AllZero(x) && Marked(PackBits(p, bs).0, out)
    requires Synced(p, PackBits(p, bs).1 + out, u, r, x)
    requires UnpackBits(u, |bs|, r).Ok? && UnpackBits(u, |bs|, r).value.1 == bs
    ensures Synced(PackBits(p, bs).0, out, UnpackBits(u, |bs|, r).value.0,
                   UnpackBits(u, |bs|, r).value.2, x)
    decreases |bs|
  {
    if bs == [] {
      assert [] + out == out;
    } else {
      var (p1, hb) := PackBit(p, bs[0]);
      var tb := PackBits(p1, bs[1..]).1;
      assert (hb + tb) + out == hb + (tb + out);
      BitInv(p, bs[0]);
      BitsMarked(p1, bs[1..], out);
      var (u1, b, r1) := UnpackBit(u, r).value;
      var (u2, more, r2) := UnpackBits(u1, |bs| - 1, r1).value;
      assert bs[0] == ([b] + more)[0] && bs[1..] == ([b] + more)[1..] == more;
      BitBack(p, bs[0], tb + out, u, r, x);
      BitsBack(p1, bs[1..], out, u1, r1, x);
    }
  }

  lemma {:induction false} ChooseBit(p: PackState, goal: byte) returns (bp: byte, b: bool)
    requires p.bitpos < 8 && goal < Pow2((p.bitpos + 1) % 8)
    ensures bp < Pow2(p.bitpos) && PackBit(p.(bitpack := bp), b).0.bitpack == goal
  {
    if p.bitpos == 7 {
      bp, b := 0, false;
    } else {
      bp, b := Low(goal, p.bitpos), Bit(goal, p.bitpos);
      LowStep(goal, p.bitpos);
      LowLess(goal, p.bitpos + 1);
      LowLess(goal, p.bitpos);
      OrBitLow(bp, p.bitpos, b);
    }
  }

  lemma {:induction false} LowLess(x: byte, k: nat)
    requires k <= 8
    ensures Low(x, k) < Pow2(k) && (x < Pow2(k) ==> Low(x, k) == x)
  {
  }

  /** Bits and a starting byte that leave `goal` pending after `n` bits. */
  lemma {:induction false} Choose(p: PackState, n: nat, goal: byte) returns (bp: byte, bs: seq<bool>)
    requires p.bitpos < 8 && goal < Pow2((p.bitpos + n) % 8)
    ensures |bs| == n && bp < Pow2(p.bitpos)
    ensures PackBits(p.(bitpack := bp), bs).0.bitpack == goal
    decreases n
  {
    if n == 0 {
      bp, bs := goal, [];
    } else {
      var next := PackBit(p, false).0;
      assert (next.bitpos + (n - 1)) % 8 == (p.bitpos + n) % 8;
      var bp1, bs1 := Choose(next, n - 1, goal);
      var b;
      bp, b := ChooseBit(p, bp1);
      bs := [b] + bs1;
      assert bs[1..] == bs1;
      assert PackBit(p.(bitpack := bp), b).0 == next.(bitpack := bp1);
    }
  }

  /// The counterexample

  ghost predicate Fails(p: PackState, fs: seq<FieldType>, vs: seq<Value>)
    requires p.bitpos < 8 && HasTypes(vs, fs)
  {
    forall u, r, x :: AllZero(x) && Synced(p, PackFields(p, fs, vs), u, r, x) ==>
      UnpackFields(u, fs, r).Err? || UnpackFields(u, fs, r).value.vs != vs
  }

  /** With the pending bits `bp`, the values `vs` do not come back. */
  ghost predicate Refutes(p: PackState, bp: byte, fs: seq<FieldType>, vs: seq<Value>)
    requires p.bitpos < 8
  {
    bp < Pow2(p.bitpos) && HasTypes(vs, fs) && AllFit(vs) &&
    var q := p.(bitpack := bp);
    Marked(q, PackFields(q, fs, vs)) && Fails(q, fs, vs)
  }

  ghost predicate Sane(p: PackState) {
    p.bitpos < 8 && p.lastA >= 1 && (p.bitpos > 0 ==> p.lastA == 1)
  }

  ghost predicate Forgets(t: FieldType) {
    IsRaw(t) || (t.ScalarArray? && !t.nopack)
  }

  /** Pending bits that are never written as such: two choices of them give the same output. */
  lemma {:induction false} RefuteForgotten(p: PackState, fs: seq<FieldType>) returns (bp: byte, vs: seq<Value>)
    requires Sane(p) && p.bitpos > 0 && fs != [] && Forgets(fs[0])
    ensures Refutes(p, bp, fs, vs)
  {
    var k := p.bitpos;
    vs := PlainAll(fs, true);
    var p1, p2 := p.(bitpack := Pow2(k) - 1), p.(bitpack := Pow2(k) - 2);
    assert vs[1..] == PlainAll(fs[1..], true);
    SamePiece(p1, p2, Align(fs[0]), PieceOf(fs[0], vs[0]));
    var q1, q2 := PackField(p1, fs[0], vs[0]).0, PackField(p2, fs[0], vs[0]).0;
    OddEven(k);
    SameOut(q1, q2, fs[1..]);
    PackUnfold(p1, fs, vs);
    PackUnfold(p2, fs, vs);
    bp := if Promise(p1, PackFields(p1, fs, vs)) then Pow2(k) - 2 else Pow2(k) - 1;
  }

  lemma {:induction false} OddEven(k: nat)
    requires 0 < k < 8
    ensures OrBit(Pow2(k) - 1, 0, true) == OrBit(Pow2(k) - 2, 0, true)
    ensures Bit(Pow2(k) - 1, 0)
    ensures Low(Pow2(k) - 1, k) != Low(Pow2(k) - 2, k)
  {
  }

  /** Padding written before the pending bits takes their place. */
  lemma {:induction false} RefuteMisplaced(p: PackState, fs: seq<FieldType>) returns (bp: byte, vs: seq<Value>)
    requires Sane(p) && p.bitpos > 0 && fs != [] && !IsPacked(fs[0]) && !Divides(Align(fs[0]), p.pos)
    ensures Refutes(p, bp, fs, vs)
  {
    bp, vs := 1, PlainAll(fs, false);
    var q := p.(bitpack := bp);
    RemAligns(p.pos, Align(fs[0]));
    PackUnfold(q, fs, vs);
    var pre := PackPre(q, Align(fs[0])).1;
    assert PackFields(q, fs, vs)[0] == pre[0] == 0;
    LowOne(p.bitpos);
  }

  lemma {:induction false} LowOne(k: nat)
    requires 0 < k < 8
    ensures Low(0, k) == 0 && Low(1, k) == 1
  {
  }

  lemma {:induction false} PieceFlushed(p: PackState, a: Alignment, piece: Piece)
    requires p.bitpos < 8 && !piece.BitPiece?
    ensures PackPiece(p, a, piece).0.bitpos == 0
  {
  }

  lemma {:induction false} UnpackHead(u: UnpackState, fs: seq<FieldType>, r: seq<byte>, vs: seq<Value>)
    requires u.bitpos < 8 && fs != [] && |vs| > 0
    requires UnpackFields(u, fs, r).Ok? && UnpackFields(u, fs, r).value.vs == vs
    ensures UnpackField(u, fs[0], r).Ok?
    ensures var got := UnpackField(u, fs[0], r).value;
      got.v == vs[0] && UnpackFields(got.u, fs[1..], got.rest).Ok? &&
      UnpackFields(got.u, fs[1..], got.rest).value.vs == vs[1..]
  {
    var got := UnpackField(u, fs[0], r).value;
    var all := UnpackFields(got.u, fs[1..], got.rest).value;
    assert vs == [got.v] + all.vs;
    assert vs[1..] == all.vs;
  }

  /** The first field is fine and the fields after it are not. */
  lemma {:induction false} RefuteLater(p: PackState, fs: seq<FieldType>, v: Value, bp: byte,
                                       bp1: byte, vs1: seq<Value>)
    requires Sane(p) && fs != [] && HasType(v, fs[0]) && Fits(v)
    requires Ready(ShapeOf(p), fs[0]) && CleanInside(fs[0]) && bp < Pow2(p.bitpos)
    requires var p1 := PackField(p.(bitpack := bp), fs[0], v).0;
      p1.bitpack == bp1 && Refutes(p1, bp1, fs[1..], vs1)
    ensures Refutes(p, bp, fs, [v] + vs1)
  {
    var q, vs, t := p.(bitpack := bp), [v] + vs1, fs[0];
    assert vs[1..] == vs1;
    var (p1, hb) := PackField(q, t, v);
    var out := PackFields(p1, fs[1..], vs1);
    PackUnfold(q, fs, vs);
    if IsPacked(t) {
      LaterBits(q, t, v, out);
    } else if q.bitpos > 0 {
      PieceParts(q, Align(t), PieceOf(t, v));
    }
    forall u, r, x | AllZero(x) && Synced(q, PackFields(q, fs, vs), u, r, x)
      ensures UnpackFields(u, fs, r).Err? || UnpackFields(u, fs, r).value.vs != vs
    {
      if UnpackFields(u, fs, r).Ok? && UnpackFields(u, fs, r).value.vs == vs {
        UnpackHead(u, fs, r, vs);
        LaterSynced(q, t, v, out, u, r, x);
      }
    }
  }

  lemma {:induction false} LaterBits(q: PackState, t: FieldType, v: Value, out: seq<byte>)
    requires Inv(q) && IsPacked(t) && HasType(v, t) && Marked(PackField(q, t, v).0, out)
    ensures Marked(q, PackField(q, t, v).1 + out)
  {
    var (p1, pre) := PackPre(q, 1);
    var hb := PackBits(p1, Bits(v)).1;
    assert pre == [] && [] + hb == hb;
    assert PackField(q, t, v) == (PackBits(p1, Bits(v)).0, hb);
    BitsMarked(p1, Bits(v), out);
  }

  lemma {:induction false} LaterSynced(q: PackState, t: FieldType, v: Value, out: seq<byte>,
                                       u: UnpackState, r: seq<byte>, x: seq<byte>)
    requires Inv(q) && HasType(v, t) && Fits(v) && Ready(ShapeOf(q), t) && CleanInside(t)
    requires Marked(PackField(q, t, v).0, out) && AllZero(x)
    requires Synced(q, PackField(q, t, v).1 + out, u, r, x)
    requires UnpackField(u, t, r).Ok? && UnpackField(u, t, r).value.v == v
    ensures var got := UnpackField(u, t, r).value;
      Synced(PackField(q, t, v).0, out, got.u, got.rest, x)
  {
    if IsPacked(t) {
      var (p1, pre) := PackPre(q, 1);
      var hb := PackBits(p1, Bits(v)).1;
      assert pre == [] && [] + hb == hb;
      assert PackField(q, t, v) == (PackBits(p1, Bits(v)).0, hb);
      assert Approach(u, 1, true, r) == Ok((u.n, r));
      var u1 := UnpackState(u.n, u.bitpos, u.bitpack, 1);
      assert UnpackBits(u1, BitCount(t), r).value.1 == Bits(v);
      BitsBack(p1, Bits(v), out, u1, r, x);
    } else {
      PieceFlushed(q, Align(t), PieceOf(t, v));
      FieldForward(q, t, v, out, u, r, x);
    }
  }

  /** The value does not come back from its own bytes, with zeros behind them. */
  ghost predicate BodyFails(t: FieldType, v: Value)
    requires HasType(v, t)
  {
    forall x :: AllZero(x) ==> UnpackBody(t, Body(t, v) + x).Err? || UnpackBody(t, Body(t, v) + x).value.0 != v
  }

  lemma {:induction false} RefutedStruct(fs: seq<FieldType>, bp: byte, vs: seq<Value>)
    requires Refutes(PACK_START, bp, fs, vs)
    ensures HasTypes(vs, fs) && AllFit(vs) && PACK_START.(bitpack := bp) == PACK_START
  {
  }

  lemma {:induction false} StructFails(fs: seq<FieldType>, bp: byte, vs: seq<Value>, x: seq<byte>)
    requires Refutes(PACK_START, bp, fs, vs) && AllZero(x)
    ensures HasTypes(vs, fs)
    ensures UnpackStruct(fs, PackStruct(fs, vs) + x).Err? || UnpackStruct(fs, PackStruct(fs, vs) + x).value.vs != vs
  {
    hide PackFields, UnpackFields;
    RefutedStruct(fs, bp, vs);
    var out := PackStruct(fs, vs);
    assert Synced(PACK_START, out, UNPACK_START, out + x, x);
  }

  /** Inside a struct, and inside the first element of a struct array. */
  lemma {:induction false} RefuteBody(t: FieldType) returns (v: Value)
    requires !CleanInside(t)
    ensures HasType(v, t) && Fits(v) && BodyFails(t, v)
    decreases t, 0
  {
    hide Refutes, CleanFields;
    var fs := if t.Struct? then t.fields else t.elem;
    var bp, vs := Refute(PACK_START, fs);
    if t.Struct? {
      v := RecordFails(fs, bp, vs);
    } else {
      v := RecordsFail(fs, t.len, bp, vs);
    }
  }

  lemma {:induction false} RecordFails(fs: seq<FieldType>, bp: byte, vs: seq<Value>) returns (v: Value)
    requires Refutes(PACK_START, bp, fs, vs)
    ensures HasType(v, Struct(fs)) && Fits(v) && BodyFails(Struct(fs), v)
  {
    hide UnpackFields, PackFields, Refutes;
    RefutedStruct(fs, bp, vs);
    var t := Struct(fs);
    v := Record(vs);
    forall x | AllZero(x) ensures UnpackBody(t, Body(t, v) + x).Err? || UnpackBody(t, Body(t, v) + x).value.0 != v {
      StructFails(fs, bp, vs, x);
    }
  }

  lemma {:induction false} RecordsFail(fs: seq<FieldType>, len: nat, bp: byte, vs: seq<Value>) returns (v: Value)
    requires Refutes(PACK_START, bp, fs, vs) && len > 0
    ensures HasType(v, StructArray(fs, len)) && Fits(v) && BodyFails(StructArray(fs, len), v)
  {
    hide UnpackStruct, PackStruct, Refutes;
    RefutedStruct(fs, bp, vs);
    var t := StructArray(fs, len);
    var rs := PlainElems(fs, len - 1, false);
    v := Records([Record(vs)] + rs);
    assert ([Record(vs)] + rs)[1..] == rs;
    assert Fits(Record(vs)) && AllFit(v.rs);
    ZeroElems(fs, len - 1);
    forall x | AllZero(x) ensures UnpackBody(t, Body(t, v) + x).Err? || UnpackBody(t, Body(t, v) + x).value.0 != v {
      Associate(PackStruct(fs, vs), PackElems(fs, rs), x);
      StructFails(fs, bp, vs, PackElems(fs, rs) + x);
    }
  }

  lemma {:induction false} RefuteInside(p: PackState, fs: seq<FieldType>) returns (bp: byte, vs: seq<Value>)
    requires Sane(p) && fs != [] && Ready(ShapeOf(p), fs[0]) && !CleanInside(fs[0])
    ensures Refutes(p, bp, fs, vs)
    decreases fs, 0
  {
    hide PackField, PackFields, UnpackFields, BodyFails, CleanStruct, HasType, Marked;
    var t := fs[0];
    var v := RefuteBody(t);
    var vs1 := PlainAll(fs[1..], false);
    bp, vs := 0, [v] + vs1;
    assert vs[1..] == vs1;
    var q := p.(bitpack := 0);
    forall u, r, x | AllZero(x) && Synced(q, PackFields(q, fs, vs), u, r, x)
      ensures UnpackFields(u, fs, r).Err? || UnpackFields(u, fs, r).value.vs != vs
    {
      InsideFails(q, fs, v, vs, u, r, x);
    }
    InsideMarked(q, fs, vs);
  }

  /** Behind the body of the first field there are only zeros, so what fails there fails here. */
  lemma {:induction false} InsideFails(
      q: PackState, fs: seq<FieldType>, v: Value, vs: seq<Value>, u: UnpackState, r: seq<byte>, x: seq<byte>)
    requires Sane(q) && q.bitpack == 0 && fs != [] && Ready(ShapeOf(q), fs[0]) && !IsPacked(fs[0])
    requires HasTypes(vs, fs) && vs[0] == v && vs[1..] == PlainAll(fs[1..], false) && BodyFails(fs[0], v)
    requires AllZero(x) && Synced(q, PackFields(q, fs, vs), u, r, x)
    ensures UnpackFields(u, fs, r).Err? || UnpackFields(u, fs, r).value.vs != vs
  {
    hide PackPiece, PackFields, UnpackFields, Body, UnpackBody, After, Approach, AllZero;
    var t := fs[0];
    var a, piece := Align(t), PieceOf(t, v);
    var (p1, hb) := PackField(q, t, v);
    var out := PackFields(p1, fs[1..], vs[1..]);
    PackUnfold(q, fs, vs);
    ReadyMeans(q, t, v);
    PieceCleared(q, a, piece);
    ZeroFields(p1, fs[1..]);
    Reach(q, a, piece, out, u, r, x);
    ZeroAfter(q, a, piece, out, x);
    if UnpackFields(u, fs, r).Ok? && UnpackFields(u, fs, r).value.vs == vs {
      UnpackHead(u, fs, r, vs);
    }
  }

  lemma {:induction false} ZeroAfter(q: PackState, a: Alignment, piece: Piece, out: seq<byte>, x: seq<byte>)
    requires !piece.BitPiece? && AllZero(out) && AllZero(x)
    ensures AllZero(After(q, a, piece) + (out + x))
  {
  }

  lemma {:induction false} InsideMarked(q: PackState, fs: seq<FieldType>, vs: seq<Value>)
    requires Sane(q) && q.bitpack == 0 && fs != [] && HasTypes(vs, fs) && !IsPacked(fs[0]) && Ready(ShapeOf(q), fs[0])
    ensures Marked(q, PackFields(q, fs, vs))
  {
    hide PackPiece, PackFields, Body;
    PackUnfold(q, fs, vs);
    ReadyMeans(q, fs[0], vs[0]);
    PieceCleared(q, Align(fs[0]), PieceOf(fs[0], vs[0]));
  }

  lemma {:induction false} PieceCleared(p: PackState, a: Alignment, piece: Piece)
    requires p.bitpos < 8 && p.bitpack == 0 && !piece.BitPiece?
    requires p.bitpos > 0 ==> piece.AlignedPiece? && !piece.forgets
    ensures var (p1, out) := PackPiece(p, a, piece);
      p1.bitpack == 0 && (p.bitpos > 0 ==> out != [])
  {
  }

  lemma {:induction false} Refute(p: PackState, fs: seq<FieldType>) returns (bp: byte, vs: seq<Value>)
    requires Sane(p) && !CleanFields(ShapeOf(p), fs)
    ensures Refutes(p, bp, fs, vs)
    decreases fs, 1
  {
    var t := fs[0];
    if !Ready(ShapeOf(p), t) {
      if Forgets(t) {
        bp, vs := RefuteForgotten(p, fs);
      } else {
        bp, vs := RefuteMisplaced(p, fs);
      }
    } else if !CleanInside(t) {
      bp, vs := RefuteInside(p, fs);
    } else {
      var v0 := Plain(t, false);
      var next := PackField(p.(bitpack := 0), t, v0).0;
      FieldShape(p.(bitpack := 0), t, v0);
      NextSane(p, t, v0);
      var bp1, vs1 := Refute(next, fs[1..]);
      var v;
      bp, v := ChooseField(p, t, bp1);
      FieldShape(p.(bitpack := bp), t, v);
      assert PackField(p.(bitpack := bp), t, v).0 == next.(bitpack := bp1);
      RefuteLater(p, fs, v, bp, bp1, vs1);
      vs := [v] + vs1;
    }
  }

  lemma {:induction false} NextSane(p: PackState, t: FieldType, v: Value)
    requires Sane(p) && HasType(v, t) && Ready(ShapeOf(p), t)
    ensures Sane(PackField(p.(bitpack := 0), t, v).0)
  {
    ReadyMeans(p.(bitpack := 0), t, v);
    FieldInv(p.(bitpack := 0), t, v);
  }

  /** A value and pending bits that leave `goal` pending after the field. */
  lemma {:induction false} ChooseField(p: PackState, t: FieldType, goal: byte) returns (bp: byte, v: Value)
    requires Sane(p) && Ready(ShapeOf(p), t)
    requires goal < Pow2(Next(ShapeOf(p), t).bitpos)
    ensures bp < Pow2(p.bitpos) && HasType(v, t) && Fits(v)
    ensures PackField(p.(bitpack := bp), t, v).0.bitpack == goal
  {
    if IsPacked(t) {
      var bs;
      bp, bs := Choose(PackPre(p, 1).0, BitCount(t), goal);
      v := if t.Bool? then Flag(bs[0]) else Flags(bs);
      assert Bits(v) == bs;
    } else {
      bp, v := 0, Plain(t, false);
      ReadyMeans(p.(bitpack := 0), t, v);
      PieceCleared(p.(bitpack := 0), Align(t), PieceOf(t, v));
      FieldShape(p.(bitpack := 0), t, v);
      PieceFlushed(p.(bitpack := 0), Align(t), PieceOf(t, v));
    }
  }
}
