/** Where the numbers of a packed struct stand in its encoding, and when each is aligned. */
module PackPlaces {
  import opened Wire
  import opened PackSpec
  import opened PackShape
  import opened PackRoundTrip
  import opened PackUnclean

  /// Places

  /** `words`, each `width` bytes wide, written one after the other from offset `off` on. */
  datatype Place = Place(off: nat, width: Alignment, words: seq<nat>)

  /** Where the field's own bytes start, behind a flush and padding. */
  function BodyStart(s: Shape, t: FieldType): nat {
    var a := Align(t);
    var pre := if a > s.lastA then s.pos + Rem(s.pos, a) else s.pos;
    if IsRaw(t) || IsPacked(t) then pre
    else
      var flushed := if s.bitpos > 0 && !(t.ScalarArray? && !t.nopack) then pre + 1 else pre;
      flushed + Rem(flushed, a)
  }

  function PlacesIn(base: nat, s: Shape, t: FieldType, v: Value): seq<Place>
    requires HasType(v, t)
    decreases t, 0
  {
    match t
    case Scalar(width) => [Place(base + BodyStart(s, t), width.Bytes(), [v.w])]
    case ScalarArray(width, _, _) => [Place(base + BodyStart(s, t), width.Bytes(), v.ws)]
    case Struct(fields) => Places(base + BodyStart(s, t), START_SHAPE, fields, v.vs)
    case StructArray(elem, _) => ElemPlaces(base + BodyStart(s, t), elem, v.rs)
    case _ => []
  }

  /** All scalars and scalar arrays, those of nested structs and of struct arrays included. */
  function Places(base: nat, s: Shape, fs: seq<FieldType>, vs: seq<Value>): seq<Place>
    requires HasTypes(vs, fs)
    decreases fs, 1
  {
    if fs == [] then []
    else PlacesIn(base, s, fs[0], vs[0]) + Places(base, Next(s, fs[0]), fs[1..], vs[1..])
  }

  /** Elements follow one another without padding. */
  function ElemPlaces(base: nat, elem: seq<FieldType>, rs: seq<Value>): seq<Place>
    requires AreRecords(rs, elem)
    decreases elem, 2, |rs|
  {
    if rs == [] then []
    else Places(base, START_SHAPE, elem, rs[0].vs) + ElemPlaces(base + StructSize(elem), elem, rs[1..])
  }

  /// The words are in the encoding where the places say

  ghost predicate At(whole: seq<byte>, off: nat, part: seq<byte>) {
    off + |part| <= |whole| && whole[off..off + |part|] == part
  }

  ghost predicate Holds(whole: seq<byte>, pl: Place) {
    At(whole, pl.off, WordBytes(pl.words, pl.width))
  }

  ghost predicate AllHold(whole: seq<byte>, pls: seq<Place>) {
    forall i :: 0 <= i < |pls| ==> Holds(whole, pls[i])
  }

  lemma {:induction false} AtSplit(whole: seq<byte>, off: nat, a: seq<byte>, b: seq<byte>)
    requires At(whole, off, a + b)
    ensures At(whole, off, a) && At(whole, off + |a|, b)
  {
    assert whole[off..off + |a + b|][..|a|] == a;
    assert whole[off..off + |a + b|][|a|..] == b;
  }

  lemma {:induction false} WordBytesOne(w: nat, width: nat)
    ensures WordBytes([w], width) == LE(w, width)
  {
    assert WordBytes([w], width) == LE(w, width) + [];
  }

  lemma {:induction false} Regrouped(pre: seq<byte>, flush: seq<byte>, pad: seq<byte>, body: seq<byte>, post: seq<byte>)
    ensures pre + (flush + pad + body + post) == (pre + flush + pad) + (body + post)
  {
  }

  lemma {:induction false} BodyPlaced(
      p: PackState, a: Alignment, piece: Piece)
    returns (front: seq<byte>, back: seq<byte>)
    requires p.bitpos < 8 && piece.AlignedPiece?
    ensures PackPiece(p, a, piece).1 == front + (piece.body + back)
    ensures var q := Poised(p, a, piece);
      var flushed := if q.bitpos > 0 then q.pos + 1 else q.pos;
      p.pos + |front| == flushed + Rem(flushed, a)
  {
    hide PackPiece, Rem, After;
    var pre := PackPre(p, a).1;
    var q := Poised(p, a, piece);
    var flush := if q.bitpos > 0 then [q.bitpack] else [];
    var pad := Zeros(Rem(q.pos + |flush|, a));
    PieceParts(p, a, piece);
    back := After(p, a, piece);
    Regrouped(pre, flush, pad, piece.body, back);
    front := pre + flush + pad;
    assert |front| == q.pos - p.pos + |flush| + |pad|;
  }

  lemma {:induction false} BodyFound(p: PackState, t: FieldType, v: Value) returns (front: seq<byte>, back: seq<byte>)
    requires p.bitpos < 8 && HasType(v, t) && !IsPacked(t)
    ensures PackField(p, t, v).1 == front + (Body(t, v) + back)
    ensures p.pos + |front| == BodyStart(ShapeOf(p), t)
  {
    hide Body, Rem, HasType;
    var a, piece := Align(t), PieceOf(t, v);
    if IsRaw(t) {
      front, back := PackPre(p, a).1, [];
      assert Body(t, v) + [] == Body(t, v);
    } else {
      front, back := BodyPlaced(p, a, piece);
    }
  }

  lemma {:induction false} HeadFound(base: nat, p: PackState, t: FieldType, v: Value, whole: seq<byte>)
    requires p.bitpos < 8 && HasType(v, t) && !IsPacked(t)
    requires At(whole, base + p.pos, PackField(p, t, v).1)
    ensures At(whole, base + BodyStart(ShapeOf(p), t), Body(t, v))
  {
    hide Body, PackField, BodyStart, HasType, At;
    var front, back := BodyFound(p, t, v);
    AtSplit(whole, base + p.pos, front, Body(t, v) + back);
    AtSplit(whole, base + p.pos + |front|, Body(t, v), back);
  }

  lemma {:induction false} HeadHolds(base: nat, p: PackState, t: FieldType, v: Value, whole: seq<byte>)
    requires p.bitpos < 8 && HasType(v, t)
    requires At(whole, base + p.pos, PackField(p, t, v).1)
    ensures AllHold(whole, PlacesIn(base, ShapeOf(p), t, v))
    decreases t, 1
  {
    if t.Scalar? || t.ScalarArray? || t.Struct? || t.StructArray? {
      HeadFound(base, p, t, v, whole);
      BodyHolds(base + BodyStart(ShapeOf(p), t), base, ShapeOf(p), t, v, whole);
    }
  }

  lemma {:induction false} BodyHolds(at: nat, base: nat, s: Shape, t: FieldType, v: Value, whole: seq<byte>)
    requires HasType(v, t) && at == base + BodyStart(s, t) && At(whole, at, Body(t, v))
    ensures AllHold(whole, PlacesIn(base, s, t, v))
    decreases t, 0
  {
    hide BodyStart, At;
    match t
    case Scalar(width) => WordBytesOne(v.w, width.Bytes());
    case ScalarArray(_, _, _) =>
    case Struct(fields) => PlacesHold(at, PACK_START, fields, v.vs, whole);
    case StructArray(elem, _) => ElemsHold(at, elem, v.rs, whole);
    case _ =>
  }

  lemma {:induction false} PlacesHold(base: nat, p: PackState, fs: seq<FieldType>, vs: seq<Value>,
                                      whole: seq<byte>)
    requires p.bitpos < 8 && HasTypes(vs, fs) && At(whole, base + p.pos, PackFields(p, fs, vs))
    ensures AllHold(whole, Places(base, ShapeOf(p), fs, vs))
    decreases fs, 1
  {
    if fs != [] {
      hide At, Holds, PackField, PlacesIn, Next, ShapeOf, HasType;
      PackUnfold(p, fs, vs);
      FieldShape(p, fs[0], vs[0]);
      var (p1, hb) := PackField(p, fs[0], vs[0]);
      AtSplit(whole, base + p.pos, hb, PackFields(p1, fs[1..], vs[1..]));
      HeadHolds(base, p, fs[0], vs[0], whole);
      PlacesHold(base, p1, fs[1..], vs[1..], whole);
    }
  }

  lemma {:induction false} ElemsHold(base: nat, elem: seq<FieldType>, rs: seq<Value>, whole: seq<byte>)
    requires AreRecords(rs, elem) && At(whole, base, PackElems(elem, rs))
    ensures AllHold(whole, ElemPlaces(base, elem, rs))
    decreases elem, 2, |rs|
  {
    if rs != [] {
      hide At, Holds, Places, StructSize;
      var first := PackStruct(elem, rs[0].vs);
      AtSplit(whole, base, first, PackElems(elem, rs[1..]));
      StructShape(elem, rs[0].vs);
      assert base + PACK_START.pos == base && ShapeOf(PACK_START) == START_SHAPE;
      PlacesHold(base, PACK_START, elem, rs[0].vs, whole);
      ElemsHold(base + StructSize(elem), elem, rs[1..], whole);
    }
  }

  /// Alignment

  /** The widest number in a struct, struct arrays left out. */
  function WidestIn(t: FieldType): Alignment
    decreases t, 0
  {
    match t
    case Scalar(width) => width.Bytes()
    case ScalarArray(width, _, _) => width.Bytes()
    case Struct(fields) => Widest(fields)
    case _ => 1
  }

  function Widest(fs: seq<FieldType>): Alignment
    decreases fs, 1
  {
    if fs == [] then 1 else Max(WidestIn(fs[0]), Widest(fs[1..]))
  }

  /**
   A struct that starts at `at` in the encoding: `at` must suit its widest number, and its struct
   arrays must be in order themselves.
   */
  predicate StraightStruct(at: nat, fs: seq<FieldType>)
    decreases fs, 3
  {
    Divides(Widest(fs), at) && StraightArrays(at, START_SHAPE, fs)
  }

  predicate StraightArraysIn(at: nat, t: FieldType)
    decreases t, 0
  {
    match t
    case Struct(fields) => StraightArrays(at, START_SHAPE, fields)
    case StructArray(elem, len) => StraightElems(at, elem, len)
    case _ => true
  }

  /** Every element of every struct array starts where it has to. */
  predicate StraightArrays(base: nat, s: Shape, fs: seq<FieldType>)
    decreases fs, 1
  {
    fs == [] ||
    (StraightArraysIn(base + BodyStart(s, fs[0]), fs[0]) && StraightArrays(base, Next(s, fs[0]), fs[1..]))
  }

  predicate StraightElems(at: nat, elem: seq<FieldType>, len: nat)
    decreases elem, 4, len
  {
    len == 0 || (StraightStruct(at, elem) && StraightElems(at + StructSize(elem), elem, len - 1))
  }

  predicate AllStraight(pls: seq<Place>) {
    forall i :: 0 <= i < |pls| ==> Divides(pls[i].width, pls[i].off)
  }

  lemma {:induction false} StraightBoth(a: seq<Place>, b: seq<Place>)
    ensures AllStraight(a + b) <==> AllStraight(a) && AllStraight(b)
  {
    if AllStraight(a + b) {
      assert forall i :: 0 <= i < |a| ==> a[i] == (a + b)[i];
      assert forall i :: 0 <= i < |b| ==> b[i] == (a + b)[|a| + i];
    }
  }

  lemma {:induction false} NoneStraight()
    ensures AllStraight([])
  {
  }

  lemma {:induction false} OneStraight(pl: Place)
    ensures AllStraight([pl]) <==> Divides(pl.width, pl.off)
  {
    assert [pl][0] == pl;
  }

  lemma {:induction false} DividesBoth(a: Alignment, b: Alignment, x: nat)
    ensures Divides(Max(a, b), x) <==> Divides(a, x) && Divides(b, x)
  {
  }

  lemma {:induction false} DividesDown(a: Alignment, b: Alignment, y: nat)
    requires a <= b && Divides(b, y)
    ensures Divides(a, y)
  {
  }

  lemma {:induction false} SumModulo(x: nat, y: nat, m: nat)
    requires m > 0 && y % m == 0
    ensures (x + y) % m == x % m
  {
    var q, k := x / m, y / m;
    assert x == m * q + x % m && y == m * k;
    assert m * (q + k) == m * q + m * k;
    Remainder(x + y, m, q + k, x % m);
  }

  lemma {:induction false} DividesSum(a: Alignment, x: nat, y: nat)
    requires Divides(a, y)
    ensures Divides(a, x + y) <==> Divides(a, x)
  {
    SumModulo(x, y, a);
  }

  lemma {:induction false} DividesShift(a: Alignment, b: Alignment, x: nat, y: nat)
    requires a <= b && Divides(b, y)
    ensures Divides(a, x + y) <==> Divides(a, x)
  {
    hide Divides;
    DividesDown(a, b, y);
    DividesSum(a, x, y);
  }

  lemma {:induction false} WidestIsBelow(fs: seq<FieldType>)
    ensures Widest(fs) <= MaxAlign(fs)
    decreases fs
  {
    if fs != [] {
      WidestIsBelow(fs[1..]);
      if fs[0].Struct? {
        WidestIsBelow(fs[0].fields);
      }
    }
  }

  /** Alone, an aligned field starts on a multiple of its alignment. */
  lemma {:induction false} BodyAligned(s: Shape, t: FieldType)
    requires !IsRaw(t) && !IsPacked(t)
    ensures Divides(Align(t), BodyStart(s, t))
  {
    hide Rem, Divides, Align;
    var a := Align(t);
    var pre := if a > s.lastA then s.pos + Rem(s.pos, a) else s.pos;
    RemAligns(if s.bitpos > 0 && !(t.ScalarArray? && !t.nopack) then pre + 1 else pre, a);
  }

  lemma {:induction false} NumberStraight(base: nat, s: Shape, t: FieldType, words: seq<nat>)
    requires t.Scalar? || t.ScalarArray?
    ensures AllStraight([Place(base + BodyStart(s, t), Align(t), words)]) <==> Divides(Align(t), base)
  {
    hide BodyStart, Divides, AllStraight;
    BodyAligned(s, t);
    DividesShift(Align(t), Align(t), base, BodyStart(s, t));
    OneStraight(Place(base + BodyStart(s, t), Align(t), words));
  }

  lemma {:induction false} StraightIn(base: nat, s: Shape, t: FieldType, v: Value)
    requires HasType(v, t)
    ensures AllStraight(PlacesIn(base, s, t, v)) <==>
      Divides(WidestIn(t), base) && StraightArraysIn(base + BodyStart(s, t), t)
    decreases t, 0
  {
    hide BodyStart, Divides, StructSize, StraightElems, StraightArrays, AllStraight, Places, ElemPlaces;
    match t
    case Scalar(_) => NumberStraight(base, s, t, [v.w]);
    case ScalarArray(_, _, _) => NumberStraight(base, s, t, v.ws);
    case Struct(fields) =>
      BodyAligned(s, t);
      WidestIsBelow(fields);
      DividesShift(Widest(fields), Align(t), base, BodyStart(s, t));
      StraightPlaces(base + BodyStart(s, t), START_SHAPE, fields, v.vs);
    case StructArray(elem, _) =>
      AlwaysDivides(base);
      StraightElements(base + BodyStart(s, t), elem, v.rs);
    case _ =>
      AlwaysDivides(base);
      NoneStraight();
  }

  lemma {:induction false} AlwaysDivides(x: nat)
    ensures Divides(1, x)
  {
  }

  lemma {:induction false} StraightPlaces(base: nat, s: Shape, fs: seq<FieldType>, vs: seq<Value>)
    requires HasTypes(vs, fs)
    ensures AllStraight(Places(base, s, fs, vs)) <==>
      Divides(Widest(fs), base) && StraightArrays(base, s, fs)
    decreases fs, 1
  {
    hide AllStraight, PlacesIn, StraightArraysIn, Divides, BodyStart, Next, HasType, WidestIn;
    if fs == [] {
      AlwaysDivides(base);
      NoneStraight();
    } else {
      var s1, more := Next(s, fs[0]), fs[1..];
      StraightIn(base, s, fs[0], vs[0]);
      StraightPlaces(base, s1, more, vs[1..]);
      PlacesCons(base, s, fs, vs);
      hide Places, Widest, StraightArrays, HasTypes;
      StraightBoth(PlacesIn(base, s, fs[0], vs[0]), Places(base, s1, more, vs[1..]));
      DividesBoth(WidestIn(fs[0]), Widest(more), base);
    }
  }

  lemma {:induction false} PlacesCons(base: nat, s: Shape, fs: seq<FieldType>, vs: seq<Value>)
    requires HasTypes(vs, fs) && fs != []
    ensures Places(base, s, fs, vs) ==
      PlacesIn(base, s, fs[0], vs[0]) + Places(base, Next(s, fs[0]), fs[1..], vs[1..])
    ensures Widest(fs) == Max(WidestIn(fs[0]), Widest(fs[1..]))
    ensures StraightArrays(base, s, fs) <==>
      StraightArraysIn(base + BodyStart(s, fs[0]), fs[0]) && StraightArrays(base, Next(s, fs[0]), fs[1..])
  {
  }

  lemma {:induction false} StraightElements(at: nat, elem: seq<FieldType>, rs: seq<Value>)
    requires AreRecords(rs, elem)
    ensures AllStraight(ElemPlaces(at, elem, rs)) <==> StraightElems(at, elem, |rs|)
    decreases elem, 2, |rs|
  {
    if rs != [] {
      hide AllStraight, Places, StraightArrays, Divides, StructSize, Widest;
      StraightPlaces(at, START_SHAPE, elem, rs[0].vs);
      StraightElements(at + StructSize(elem), elem, rs[1..]);
      StraightBoth(Places(at, START_SHAPE, elem, rs[0].vs), ElemPlaces(at + StructSize(elem), elem, rs[1..]));
    }
  }

  /** Every number of the value is in the encoding, at an offset that is a multiple of its width. */
  ghost predicate IsAligned(fs: seq<FieldType>, vs: seq<Value>)
    requires HasTypes(vs, fs)
  {
    AllHold(PackStruct(fs, vs), Places(0, START_SHAPE, fs, vs)) && AllStraight(Places(0, START_SHAPE, fs, vs))
  }

  /** Whether numbers are aligned depends on the struct arrays of the type alone. */
  lemma {:induction false} AlignmentForValue(fs: seq<FieldType>, vs: seq<Value>)
    requires HasTypes(vs, fs)
    ensures AllHold(PackStruct(fs, vs), Places(0, START_SHAPE, fs, vs))
    ensures IsAligned(fs, vs) <==> StraightArrays(0, START_SHAPE, fs)
  {
    hide Places, PackFields, AllStraight, AllHold, StraightArrays;
    var whole := PackStruct(fs, vs);
    assert whole[0..|whole|] == whole && ShapeOf(PACK_START) == START_SHAPE;
    PlacesHold(0, PACK_START, fs, vs, whole);
    StraightPlaces(0, START_SHAPE, fs, vs);
  }

  lemma {:induction false} AlignmentForType(fs: seq<FieldType>)
    ensures (forall vs :: HasTypes(vs, fs) ==> IsAligned(fs, vs)) <==> StraightArrays(0, START_SHAPE, fs)
  {
    hide IsAligned, StraightArrays;
    var plain := PlainAll(fs, false);
    AlignmentForValue(fs, plain);
    forall vs | HasTypes(vs, fs)
      ensures IsAligned(fs, vs) <==> StraightArrays(0, START_SHAPE, fs)
    {
      AlignmentForValue(fs, vs);
    }
  }

  /// Struct arrays

  predicate NoArraysIn(t: FieldType)
    decreases t, 0
  {
    !t.StructArray? && (t.Struct? ==> NoArrays(t.fields))
  }

  predicate NoArrays(fs: seq<FieldType>)
    decreases fs, 1
  {
    fs == [] || (NoArraysIn(fs[0]) && NoArrays(fs[1..]))
  }

  /** Without struct arrays every number is aligned. */
  lemma {:induction false} StraightWithoutArrays(base: nat, s: Shape, fs: seq<FieldType>)
    requires NoArrays(fs)
    ensures StraightArrays(base, s, fs)
    decreases fs
  {
    if fs != [] {
      hide BodyStart, Next;
      if fs[0].Struct? {
        StraightWithoutArrays(base + BodyStart(s, fs[0]), START_SHAPE, fs[0].fields);
      }
      StraightWithoutArrays(base, Next(s, fs[0]), fs[1..]);
    }
  }

  /** An array of plain structs needs a good start and, from two elements on, a good element size. */
  lemma {:induction false} StraightPlainElements(at: nat, elem: seq<FieldType>, len: nat)
    requires NoArrays(elem)
    ensures StraightElems(at, elem, len) <==>
      (len > 0 ==> Divides(Widest(elem), at)) && (len > 1 ==> Divides(Widest(elem), StructSize(elem)))
    decreases len
  {
    if len > 0 {
      hide StructSize, Divides, StraightArrays, Widest, NoArrays;
      var size, widest := StructSize(elem), Widest(elem);
      StraightWithoutArrays(at, START_SHAPE, elem);
      StraightPlainElements(at + size, elem, len - 1);
      if len > 1 && Divides(widest, at) {
        DividesShift(widest, widest, size, at);
      }
    }
  }

  lemma {:induction false} ScalarStart(width: Width)
    ensures BodyStart(START_SHAPE, Scalar(width)) == 0
  {
  }

  lemma {:induction false} FirstPlace(base: nat, fs: seq<FieldType>, vs: seq<Value>)
    requires HasTypes(vs, fs) && fs != [] && fs[0].Scalar?
    ensures |Places(base, START_SHAPE, fs, vs)| > 0 && vs[0].Word?
    ensures Places(base, START_SHAPE, fs, vs)[0] == Place(base, fs[0].width.Bytes(), [vs[0].w])
  {
    hide BodyStart;
    assert HasType(vs[0], fs[0]);
    ScalarStart(fs[0].width);
  }

  lemma {:induction false} HoldsBoth(whole: seq<byte>, a: seq<Place>, b: seq<Place>)
    requires AllHold(whole, a + b)
    ensures AllHold(whole, a) && AllHold(whole, b)
  {
    assert forall i :: 0 <= i < |a| ==> a[i] == (a + b)[i];
    assert forall i :: 0 <= i < |b| ==> b[i] == (a + b)[|a| + i];
  }

  /** The first number of the first element stands where the array starts; the others follow. */
  lemma {:induction false} FirstWord(base: nat, elem: seq<FieldType>, rs: seq<Value>, whole: seq<byte>)
    requires AreRecords(rs, elem) && rs != [] && elem != [] && elem[0].Scalar?
    requires AllHold(whole, ElemPlaces(base, elem, rs))
    ensures HasTypes(rs[0].vs, elem) && rs[0].vs[0].Word?
    ensures At(whole, base, LE(rs[0].vs[0].w, elem[0].width.Bytes()))
    ensures AllHold(whole, ElemPlaces(base + StructSize(elem), elem, rs[1..]))
  {
    hide Places, At, StructSize;
    var vs := rs[0].vs;
    FirstPlace(base, elem, vs);
    HoldsBoth(whole, Places(base, START_SHAPE, elem, vs), ElemPlaces(base + StructSize(elem), elem, rs[1..]));
    assert Holds(whole, Places(base, START_SHAPE, elem, vs)[0]);
    WordBytesOne(vs[0].w, elem[0].width.Bytes());
  }

  /** A 32-bit number and a byte take five bytes. */
  const ODD_ELEMENT := [Scalar(Four), Scalar(One)]

  lemma {:induction false} OddElementSize()
    ensures StructSize(ODD_ELEMENT) == 5 && Align(StructArray(ODD_ELEMENT, 2)) == 4
  {
    var elem := ODD_ELEMENT;
    RemFormula(4, 1);
    assert Next(START_SHAPE, elem[0]) == Shape(4, 0, 4);
    assert Next(Shape(4, 0, 4), elem[1]) == Shape(5, 0, 1);
    assert elem[1..] == [Scalar(One)] && elem[1..][1..] == [];
    assert EndOf(Shape(5, 0, 1), []) == 5;
    assert EndOf(Shape(4, 0, 4), elem[1..]) == 5;
    assert MaxAlign([]) == 1 && MaxAlign(elem[1..]) == 1;
  }

  lemma {:induction false} OneField(t: FieldType, v: Value)
    requires HasType(v, t) && t.StructArray?
    ensures HasTypes([v], [t])
    ensures AllHold(PackStruct([t], [v]), ElemPlaces(0, t.elem, v.rs))
  {
    hide ElemPlaces, PackFields;
    var fs, vs := [t], [v];
    assert fs[1..] == [] && vs[1..] == [] && fs[0] == t && vs[0] == v;
    AlignmentForValue(fs, vs);
    assert BodyStart(START_SHAPE, t) == 0;
    var places := ElemPlaces(0, t.elem, v.rs);
    assert Places(0, START_SHAPE, fs, vs) == places + [];
    assert places + [] == places;
  }

  lemma {:induction false} TwoRecords(a: seq<Value>, b: seq<Value>, elem: seq<FieldType>)
    requires HasTypes(a, elem) && HasTypes(b, elem)
    ensures AreRecords([Record(a), Record(b)], elem)
    ensures HasType(Records([Record(a), Record(b)]), StructArray(elem, 2))
  {
    hide HasTypes;
    var rs := [Record(a), Record(b)];
    assert rs[1..] == [Record(b)] && rs[1..][1..] == [];
    assert AreRecords(rs[1..][1..], elem);
    assert AreRecords(rs[1..], elem);
  }

  /** Two such elements: the number of the second stands at offset 5. */
  lemma {:induction false} LaterElementUnaligned(first: seq<Value>, second: seq<Value>)
    requires HasTypes(first, ODD_ELEMENT) && HasTypes(second, ODD_ELEMENT)
    ensures var fs, vs := [StructArray(ODD_ELEMENT, 2)], [Records([Record(first), Record(second)])];
      HasTypes(vs, fs) && second[0].Word? && At(PackStruct(fs, vs), 5, LE(second[0].w, 4)) && !IsAligned(fs, vs)
  {
    hide HasTypes, PackStruct, StructSize, At, HasType, ElemPlaces, StraightArrays, AllHold;
    var t := StructArray(ODD_ELEMENT, 2);
    var rs := [Record(first), Record(second)];
    assert rs[1..] == [Record(second)];
    TwoRecords(first, second, ODD_ELEMENT);
    OneField(t, Records(rs));
    var whole := PackStruct([t], [Records(rs)]);
    FirstWord(0, ODD_ELEMENT, rs, whole);
    OddElementSize();
    FirstWord(5, ODD_ELEMENT, rs[1..], whole);
    AlignmentForValue([t], [Records(rs)]);
    OddIsNotStraight();
  }

  lemma {:induction false} OddIsNotStraight()
    ensures !StraightArrays(0, START_SHAPE, [StructArray(ODD_ELEMENT, 2)])
  {
    OddElementSize();
    var elem := ODD_ELEMENT;
    assert elem[1..] == [Scalar(One)] && elem[1..][1..] == [];
    assert NoArrays(elem[1..]);
    assert Widest(elem[1..]) == 1 && Widest(elem) == 4;
    assert BodyStart(START_SHAPE, StructArray(elem, 2)) == 0;
    StraightPlainElements(0, elem, 2);
  }

  const NUMBER := [Scalar(Four)]

  /** A string, then a struct array: no padding is written between them. */
  const TEXT_THEN_ARRAY := [Str, StructArray(NUMBER, 1)]

  lemma {:induction false} ArrayAfterText(t: seq<byte>, rs: seq<Value>)
    requires AreRecords(rs, NUMBER) && |rs| == 1
    ensures HasTypes([Text(t), Records(rs)], TEXT_THEN_ARRAY)
    ensures Places(0, START_SHAPE, TEXT_THEN_ARRAY, [Text(t), Records(rs)]) == ElemPlaces(86, NUMBER, rs)
  {
    hide ElemPlaces, AreRecords;
    var fs, vs := TEXT_THEN_ARRAY, [Text(t), Records(rs)];
    assert fs[1..] == [StructArray(NUMBER, 1)] && fs[1..][1..] == [];
    assert vs[1..] == [Records(rs)] && vs[1..][1..] == [];
    assert HasTypes(vs[1..], fs[1..]);
    var s := Shape(86, 0, 4);
    assert Next(START_SHAPE, Str) == s;
    assert NUMBER[1..] == [] && MaxAlign(NUMBER) == 4;
    assert BodyStart(s, fs[1]) == 86;
    var places := ElemPlaces(86, NUMBER, rs);
    assert Places(0, s, fs[1..], vs[1..]) == places + [];
    assert [] + (places + []) == places;
  }

  /** Its 32-bit number stands at offset 86. */
  lemma {:induction false} ArrayStartUnaligned(t: seq<byte>, number: seq<Value>)
    requires HasTypes(number, NUMBER)
    ensures var vs := [Text(t), Records([Record(number)])];
      HasTypes(vs, TEXT_THEN_ARRAY) && number[0].Word? &&
      At(PackStruct(TEXT_THEN_ARRAY, vs), 86, LE(number[0].w, 4)) && !IsAligned(TEXT_THEN_ARRAY, vs)
  {
    hide HasTypes, PackStruct, StructSize, At, Places;
    var rs := [Record(number)];
    var vs := [Text(t), Records(rs)];
    assert rs[1..] == [];
    ArrayAfterText(t, rs);
    AlignmentForValue(TEXT_THEN_ARRAY, vs);
    FirstWord(86, NUMBER, rs, PackStruct(TEXT_THEN_ARRAY, vs));
    FirstPlace(86, NUMBER, number);
    var places := ElemPlaces(86, NUMBER, rs);
    assert places == Places(86, START_SHAPE, NUMBER, number) + ElemPlaces(86 + StructSize(NUMBER), NUMBER, rs[1..]);
    assert !Divides(places[0].width, places[0].off);
  }

  /// Structures and strings

  /** A number of 64 bits somewhere inside. */
  predicate IsLong(t: FieldType)
    decreases t, 0
  {
    match t
    case Scalar(width) => width == Eight
    case ScalarArray(width, _, _) => width == Eight
    case Struct(fields) => HoldsLong(fields)
    case StructArray(elem, _) => HoldsLong(elem)
    case _ => false
  }

  predicate HoldsLong(fs: seq<FieldType>)
    decreases fs, 1
  {
    fs != [] && (IsLong(fs[0]) || HoldsLong(fs[1..]))
  }

  /** `at` is the first multiple of `unit` from `pos` on. */
  predicate IsNextMultiple(at: nat, pos: nat, unit: nat)
    requires unit > 0
  {
    pos <= at < pos + unit && at % unit == 0
  }

  lemma {:induction false} LongAlign(t: FieldType)
    ensures IsLong(t) <==> Align(t) == 8
    decreases t, 0
  {
    match t
    case Struct(fields) => LongAligns(fields);
    case StructArray(elem, _) => LongAligns(elem);
    case _ =>
  }

  lemma {:induction false} LongAligns(fs: seq<FieldType>)
    ensures HoldsLong(fs) <==> MaxAlign(fs) == 8
    decreases fs, 1
  {
    if fs != [] {
      LongAlign(fs[0]);
      LongAligns(fs[1..]);
    }
  }

  lemma {:induction false} RemIsNext(pos: nat, a: Alignment)
    ensures IsNextMultiple(pos + Rem(pos, a), pos, a)
  {
    RemAligns(pos, a);
  }

  lemma {:induction false} NextOfBody(s: Shape, t: FieldType)
    requires !IsPacked(t)
    ensures var end := BodyStart(s, t) + BodySize(t);
      Next(s, t) == Shape(if t.Struct? then end + Rem(end, Align(t)) else end, 0, Align(t))
  {
    hide Rem, BodySize;
  }

  lemma {:induction false} NextOfStruct(s: Shape, fields: seq<FieldType>)
    ensures var end := BodyStart(s, Struct(fields)) + StructSize(fields);
      Next(s, Struct(fields)).pos == end + Rem(end, Align(Struct(fields)))
  {
    hide Rem, StructSize, Align, BodyStart, Next;
    NextOfBody(s, Struct(fields));
  }

  /**
   A nested struct starts and ends on a multiple of 4, or of 8 if it holds a 64-bit number, with as
   little padding as that takes.
   */
  lemma {:induction false} StructBoundaries(s: Shape, fields: seq<FieldType>)
    requires s.bitpos == 0
    ensures var unit := if HoldsLong(fields) then 8 else 4;
      && IsNextMultiple(BodyStart(s, Struct(fields)), s.pos, unit)
      && IsNextMultiple(Next(s, Struct(fields)).pos, BodyStart(s, Struct(fields)) + StructSize(fields), unit)
  {
    hide Rem, StructSize, HoldsLong, MaxAlign;
    var a := Align(Struct(fields));
    LongAligns(fields);
    RemAligns(s.pos, a);
    RemIsNext(s.pos, a);
    RemAligns(s.pos + Rem(s.pos, a), a);
    NextOfStruct(s, fields);
    RemIsNext(BodyStart(s, Struct(fields)) + StructSize(fields), a);
  }

  /** A string starts on a multiple of 4 unless the field before it was aligned to 4 or 8: then it follows at once. */
  lemma {:induction false} StringStart(s: Shape)
    ensures if s.lastA >= 4 then BodyStart(s, Str) == s.pos else IsNextMultiple(BodyStart(s, Str), s.pos, 4)
  {
    hide Rem;
    RemIsNext(s.pos, 4);
  }
}
