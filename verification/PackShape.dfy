/** Where `Pack` puts things, computed from the type alone. */
module PackShape {
  import opened Wire
  import opened PackSpec

  /** A `PackState` without its pending bits. */
  datatype Shape = Shape(pos: nat, bitpos: nat, lastA: nat)

  function ShapeOf(p: PackState): Shape {
    Shape(p.pos, p.bitpos, p.lastA)
  }

  const START_SHAPE := Shape(0, 0, 1)

  /** The bytes of a field's own data. */
  function BodySize(t: FieldType): nat
    decreases t, 0
  {
    match t
    case Scalar(width) => width.Bytes()
    case Bool(_) => 1
    case BoolArray(len, _) => len
    case ScalarArray(width, len, _) => len * width.Bytes()
    case Struct(fields) => StructSize(fields)
    case StructArray(elem, len) => len * StructSize(elem)
    case Str => 86
    case StrArray(len) => 86 * len
  }

  datatype Extent =
    | BitExtent(count: nat)
    | RawExtent(size: nat)
    | AlignedExtent(size: nat, forgets: bool, isStruct: bool)

  function ExtentOf(t: FieldType): Extent
    decreases t, 1
  {
    if IsPacked(t) then BitExtent(BitCount(t))
    else if IsRaw(t) then RawExtent(BodySize(t))
    else AlignedExtent(BodySize(t), t.ScalarArray? && !t.nopack, t.Struct?)
  }

  function NextAligned(s: Shape, a: Alignment, size: nat, isStruct: bool): Shape {
    var flushed := if s.bitpos > 0 then s.pos + 1 else s.pos;
    var end := flushed + Rem(flushed, a) + size;
    Shape(if isStruct then end + Rem(end, a) else end, 0, s.lastA)
  }

  function NextPiece(s: Shape, a: Alignment, e: Extent): Shape {
    var s1 := Shape(if a > s.lastA then s.pos + Rem(s.pos, a) else s.pos, s.bitpos, a);
    match e
    case BitExtent(count) => Shape(s1.pos + (s.bitpos + count) / 8, (s.bitpos + count) % 8, a)
    case RawExtent(size) => Shape(s1.pos + size, 0, a)
    case AlignedExtent(size, forgets, isStruct) =>
      NextAligned(if forgets then s1.(bitpos := 0) else s1, a, size, isStruct)
  }

  function Next(s: Shape, t: FieldType): (r: Shape)
    decreases t, 2
  {
    NextPiece(s, Align(t), ExtentOf(t))
  }

  function EndOf(s: Shape, fs: seq<FieldType>): nat
    decreases fs, 3
  {
    if fs == [] then (if s.bitpos > 0 then s.pos + 1 else s.pos)
    else EndOf(Next(s, fs[0]), fs[1..])
  }

  function StructSize(fs: seq<FieldType>): nat
    decreases fs, 4
  {
    EndOf(START_SHAPE, fs)
  }

  lemma {:induction false} PackBitsShape(p: PackState, bs: seq<bool>)
    requires p.bitpos < 8
    ensures var (p1, out) := PackBits(p, bs);
      p1.pos == p.pos + |out| &&
      ShapeOf(p1) == Shape(p.pos + (p.bitpos + |bs|) / 8, (p.bitpos + |bs|) % 8, p.lastA)
    decreases |bs|
  {
    if bs != [] {
      PackBitsShape(PackBit(p, bs[0]).0, bs[1..]);
    }
  }

  lemma {:induction false} BodyShape(t: FieldType, v: Value)
    requires HasType(v, t)
    ensures |Body(t, v)| == BodySize(t)
    decreases t, 0
  {
    match t
    case Struct(fields) => StructShape(fields, v.vs);
    case StructArray(elem, _) => ElemsShape(elem, v.rs);
    case _ =>
  }

  function ExtentOfPiece(piece: Piece): Extent {
    match piece
    case BitPiece(bits) => BitExtent(|bits|)
    case RawPiece(body) => RawExtent(|body|)
    case AlignedPiece(body, forgets, isStruct) => AlignedExtent(|body|, forgets, isStruct)
  }

  lemma {:induction false} AlignedShape(p: PackState, a: Alignment, body: seq<byte>, isStruct: bool)
    ensures var (p1, out) := PackAligned(p, a, body, isStruct);
      ShapeOf(p1) == NextAligned(ShapeOf(p), a, |body|, isStruct) && p1.pos == p.pos + |out|
  {
  }

  ghost predicate HasShape(p: PackState, a: Alignment, piece: Piece)
    requires p.bitpos < 8
  {
    var (p1, out) := PackPiece(p, a, piece);
    ShapeOf(p1) == NextPiece(ShapeOf(p), a, ExtentOfPiece(piece)) && p1.pos == p.pos + |out|
  }

  lemma {:induction false} AlignedPieceShape(p: PackState, a: Alignment, piece: Piece)
    requires p.bitpos < 8 && piece.AlignedPiece?
    ensures HasShape(p, a, piece)
  {
    hide PackAligned, Rem;
    var (p1, pre) := PackPre(p, a);
    var q := if piece.forgets then p1.(bitpos := 0) else p1;
    AlignedShape(q, a, piece.body, piece.isStruct);
    var (p2, out) := PackAligned(q, a, piece.body, piece.isStruct);
    assert PackPiece(p, a, piece) == (p2, pre + out);
  }

  lemma {:induction false} PieceShape(p: PackState, a: Alignment, piece: Piece)
    requires p.bitpos < 8
    ensures HasShape(p, a, piece)
  {
    match piece
    case BitPiece(bits) => PackBitsShape(PackPre(p, a).0, bits);
    case RawPiece(body) =>
    case AlignedPiece(_, _, _) => AlignedPieceShape(p, a, piece);
  }

  /** Every byte written is counted, and how far a field reaches does not depend on its value. */
  lemma {:induction false} FieldShape(p: PackState, t: FieldType, v: Value)
    requires p.bitpos < 8 && HasType(v, t)
    ensures var (p1, out) := PackField(p, t, v);
      ShapeOf(p1) == Next(ShapeOf(p), t) && p1.pos == p.pos + |out|
    decreases t, 2
  {
    BodyShape(t, v);
    PieceShape(p, Align(t), PieceOf(t, v));
  }

  lemma {:induction false} FieldsShape(p: PackState, fs: seq<FieldType>, vs: seq<Value>)
    requires p.bitpos < 8 && HasTypes(vs, fs)
    ensures p.pos + |PackFields(p, fs, vs)| == EndOf(ShapeOf(p), fs)
    decreases fs, 3
  {
    if fs != [] {
      FieldShape(p, fs[0], vs[0]);
      FieldsShape(PackField(p, fs[0], vs[0]).0, fs[1..], vs[1..]);
    }
  }

  lemma {:induction false} StructShape(fs: seq<FieldType>, vs: seq<Value>)
    requires HasTypes(vs, fs)
    ensures |PackStruct(fs, vs)| == StructSize(fs)
    decreases fs, 4
  {
    FieldsShape(PACK_START, fs, vs);
  }

  lemma {:induction false} ElemsShape(elem: seq<FieldType>, rs: seq<Value>)
    requires AreRecords(rs, elem)
    ensures |PackElems(elem, rs)| == |rs| * StructSize(elem)
    decreases elem, 5, |rs|
  {
    if rs != [] {
      StructShape(elem, rs[0].vs);
      ElemsShape(elem, rs[1..]);
    }
  }

  /// Bit-clean types

  /**
   With bits pending, the next field must share their byte, or flush them: a scalar, a `nopack`
   field or a struct, on an offset that is already a multiple of its alignment.
   */
  predicate Ready(s: Shape, t: FieldType) {
    s.bitpos > 0 ==>
      IsPacked(t) ||
      (!IsRaw(t) && !(t.ScalarArray? && !t.nopack) && Divides(Align(t), s.pos))
  }

  predicate CleanInside(t: FieldType)
    decreases t, 0
  {
    match t
    case Struct(fields) => CleanStruct(fields)
    case StructArray(elem, len) => len == 0 || CleanStruct(elem)
    case _ => true
  }

  predicate CleanFields(s: Shape, fs: seq<FieldType>)
    decreases fs, 1
  {
    fs == [] || (Ready(s, fs[0]) && CleanInside(fs[0]) && CleanFields(Next(s, fs[0]), fs[1..]))
  }

  predicate CleanStruct(fs: seq<FieldType>)
    decreases fs, 2
  {
    CleanFields(START_SHAPE, fs)
  }
}
