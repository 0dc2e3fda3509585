/**
 The struct packer of pack.go as functions: the shape of a packable struct, the bytes `Pack`
 writes for a value of that shape and what `Unpack` makes of a byte stream.
 */
module PackSpec {
  import opened Wire
  import opened Streams

  /** The widths of Go's fixed-size numbers; on a 64-bit target each is also its alignment. */
  datatype Width = One | Two | Four | Eight {
    function Bytes(): nat {
      match this
      case One => 1
      case Two => 2
      case Four => 4
      case Eight => 8
    }
  }

  /** `nopack` is the `pack:"nopack"` field tag; it is kept only where it changes what happens. */
  datatype FieldType =
    | Scalar(width: Width)
    | Bool(nopack: bool)
    | BoolArray(len: nat, nopack: bool)
    | ScalarArray(width: Width, len: nat, nopack: bool)
    | Struct(fields: seq<FieldType>)
    | StructArray(elem: seq<FieldType>, len: nat)
    | Str
    | StrArray(len: nat)

  datatype Value =
    | Word(w: nat)
    | Flag(b: bool)
    | Flags(bs: seq<bool>)
    | Words(ws: seq<nat>)
    | Record(vs: seq<Value>)
    | Records(rs: seq<Value>)
    | Text(t: seq<byte>)
    | Texts(ts: seq<seq<byte>>)

  predicate HasType(v: Value, t: FieldType)
    decreases t, 0
  {
    match t
    case Scalar(width) => v.Word? && v.w < Pow256(width.Bytes())
    case Bool(_) => v.Flag?
    case BoolArray(len, _) => v.Flags? && |v.bs| == len
    case ScalarArray(width, len, _) =>
      v.Words? && |v.ws| == len && forall i :: 0 <= i < len ==> v.ws[i] < Pow256(width.Bytes())
    case Struct(fields) => v.Record? && HasTypes(v.vs, fields)
    case StructArray(elem, len) =>
      v.Records? && |v.rs| == len && AreRecords(v.rs, elem)
    case Str => v.Text?
    case StrArray(len) => v.Texts? && |v.ts| == len
  }

  predicate HasTypes(vs: seq<Value>, fs: seq<FieldType>)
    decreases fs, 1
  {
    |vs| == |fs| && (fs == [] || (HasType(vs[0], fs[0]) && HasTypes(vs[1..], fs[1..])))
  }

  predicate AreRecords(rs: seq<Value>, elem: seq<FieldType>)
    decreases elem, 2, |rs|
  {
    rs == [] || (rs[0].Record? && HasTypes(rs[0].vs, elem) && AreRecords(rs[1..], elem))
  }

  const STRING_DATA: nat := 82

  /** Every string in the value has at most 82 bytes. */
  predicate Fits(v: Value)
    decreases v, 0
  {
    match v
    case Text(t) => |t| <= STRING_DATA
    case Texts(ts) => forall i :: 0 <= i < |ts| ==> |ts[i]| <= STRING_DATA
    case Record(vs) => AllFit(vs)
    case Records(rs) => AllFit(rs)
    case _ => true
  }

  predicate AllFit(vs: seq<Value>)
    decreases vs, 1
  {
    vs == [] || (Fits(vs[0]) && AllFit(vs[1..]))
  }

  /// Alignment

  type Alignment = a: nat | a == 1 || a == 2 || a == 4 || a == 8 witness 1

  function Align(t: FieldType): Alignment
    decreases t, 0
  {
    match t
    case Scalar(width) => width.Bytes()
    case Bool(_) => 1
    case BoolArray(_, _) => 1
    case ScalarArray(width, _, _) => width.Bytes()
    case Struct(fields) => Max(4, MaxAlign(fields))
    case StructArray(elem, _) => Max(4, MaxAlign(elem))
    case Str => 4
    case StrArray(_) => 4
  }

  /** The largest alignment among the fields, at least 1. */
  function MaxAlign(fs: seq<FieldType>): (a: Alignment)
    ensures forall i :: 0 <= i < |fs| ==> Align(fs[i]) <= a
    decreases fs, 1
  {
    if fs == [] then 1
    else
      var a := Max(Align(fs[0]), MaxAlign(fs[1..]));
      assert forall i :: 1 <= i < |fs| ==> fs[i] == fs[1..][i - 1];
      a
  }

  predicate Divides(a: Alignment, pos: nat) {
    if a == 1 then true else if a == 2 then pos % 2 == 0
    else if a == 4 then pos % 4 == 0 else pos % 8 == 0
  }

  /** How many bytes bring position `pos` up to a multiple of `a`. */
  function Rem(pos: nat, a: Alignment): nat {
    if pos == 0 then 0 else if pos < a then a - pos else Rem(pos - a, a)
  }

  /** The formula in the source. */
  lemma {:induction false} RemFormula(pos: nat, a: Alignment)
    ensures Rem(pos, a) == if pos % a == 0 then 0 else a - pos % a
  {
    if pos >= a {
      RemFormula(pos - a, a);
      Remainder(pos, a, (pos - a) / a + 1, (pos - a) % a);
    } else {
      Remainder(pos, a, 0, pos);
    }
  }

  lemma {:induction false} DividesStep(a: Alignment, pos: nat)
    ensures Divides(a, pos + a) <==> Divides(a, pos)
    ensures pos < a ==> (Divides(a, pos) <==> pos == 0)
  {
  }

  lemma {:induction false} RemAligns(pos: nat, a: Alignment)
    ensures Rem(pos, a) < a && Divides(a, pos + Rem(pos, a))
    ensures Rem(pos, a) == 0 <==> Divides(a, pos)
  {
    DividesStep(a, 0);
    if pos >= a {
      RemAligns(pos - a, a);
      DividesStep(a, pos - a);
      DividesStep(a, pos - a + Rem(pos - a, a));
    } else {
      DividesStep(a, pos);
    }
  }

  /// Pack

  /** What `Pack` carries from field to field; `bitpack` holds bits not yet written. */
  datatype PackState = PackState(pos: nat, bitpos: nat, bitpack: byte, lastA: nat)

  const PACK_START := PackState(0, 0, 0, 1)

  function PackBit(p: PackState, b: bool): (PackState, seq<byte>)
    requires p.bitpos < 8
  {
    var packed := OrBit(p.bitpack, p.bitpos, b);
    if p.bitpos + 1 >= 8 then (p.(pos := p.pos + 1, bitpos := 0, bitpack := 0), [packed])
    else (p.(bitpos := p.bitpos + 1, bitpack := packed), [])
  }

  function PackBits(p: PackState, bs: seq<bool>): (r: (PackState, seq<byte>))
    requires p.bitpos < 8
    ensures r.0.bitpos < 8 && r.0.lastA == p.lastA
    decreases bs
  {
    if bs == [] then (p, [])
    else
      var (p1, out1) := PackBit(p, bs[0]);
      var (p2, out2) := PackBits(p1, bs[1..]);
      (p2, out1 + out2)
  }

  function FlagBytes(bs: seq<bool>): (r: seq<byte>)
    ensures |r| == |bs|
  {
    seq(|bs|, i requires 0 <= i < |bs| => if bs[i] then 1 else 0)
  }

  function WordBytes(ws: seq<nat>, width: nat): (r: seq<byte>)
    ensures |r| == |ws| * width
  {
    if ws == [] then [] else LE(ws[0], width) + WordBytes(ws[1..], width)
  }

  /** A string slot: a 32-bit length, then 82 bytes of text cut or filled up with zeros. */
  function Slot(t: seq<byte>): (r: seq<byte>)
    ensures |r| == 86
  {
    var n := Min(|t|, STRING_DATA);
    U32(|t|) + t[..n] + Zeros(STRING_DATA - n)
  }

  function Slots(ts: seq<seq<byte>>): (r: seq<byte>)
    ensures |r| == 86 * |ts|
  {
    if ts == [] then [] else Slot(ts[0]) + Slots(ts[1..])
  }

  /** Fields whose bits are merged into shared bytes. */
  predicate IsPacked(t: FieldType) {
    (t.Bool? || t.BoolArray?) && !t.nopack
  }

  /** Fields written where the stream stands: no flush of pending bits, no second padding. */
  predicate IsRaw(t: FieldType) {
    t.StructArray? || t.Str? || t.StrArray?
  }

  function BitCount(t: FieldType): nat
    requires IsPacked(t)
  {
    if t.Bool? then 1 else t.len
  }

  function Bits(v: Value): seq<bool>
    requires v.Flag? || v.Flags?
  {
    if v.Flag? then [v.b] else v.bs
  }

  /** The field's own bytes, without any padding. */
  function Body(t: FieldType, v: Value): seq<byte>
    requires HasType(v, t)
    decreases t, 0
  {
    match t
    case Scalar(width) => LE(v.w, width.Bytes())
    case Bool(_) => FlagBytes([v.b])
    case BoolArray(_, _) => FlagBytes(v.bs)
    case ScalarArray(width, _, _) => WordBytes(v.ws, width.Bytes())
    case Struct(fields) => PackStruct(fields, v.vs)
    case StructArray(elem, _) => PackElems(elem, v.rs)
    case Str => Slot(v.t)
    case StrArray(_) => Slots(v.ts)
  }

  /** What a field has to write: bits, bytes as they come, or bytes brought to their alignment. */
  datatype Piece =
    | BitPiece(bits: seq<bool>)
    | RawPiece(body: seq<byte>)
    | AlignedPiece(body: seq<byte>, forgets: bool, isStruct: bool)

  function PieceOf(t: FieldType, v: Value): Piece
    requires HasType(v, t)
    decreases t, 1
  {
    if IsPacked(t) then BitPiece(Bits(v))
    else if IsRaw(t) then RawPiece(Body(t, v))
    else AlignedPiece(Body(t, v), t.ScalarArray? && !t.nopack, t.Struct?)
  }

  /** The padding written when the alignment grows, before anything else is done for a field. */
  function PackPre(p: PackState, a: Alignment): (PackState, seq<byte>) {
    var pad := Zeros(if a > p.lastA then Rem(p.pos, a) else 0);
    (p.(pos := p.pos + |pad|, lastA := a), pad)
  }

  /** Flush pending bits, pad to the alignment, write the body and, after a struct, pad again. */
  function PackAligned(p: PackState, a: Alignment, body: seq<byte>, isStruct: bool)
    : (PackState, seq<byte>)
  {
    var flush := if p.bitpos > 0 then [p.bitpack] else [];
    var pad := Zeros(Rem(p.pos + |flush|, a));
    var end := p.pos + |flush| + |pad| + |body|;
    var post := Zeros(if isStruct then Rem(end, a) else 0);
    (PackState(end + |post|, 0, if p.bitpos > 0 then 0 else p.bitpack, p.lastA),
     flush + pad + body + post)
  }

  /**
   A raw piece leaves `bitpack` as it is and sets `bitpos` to 0: pending bits are not written.
   A scalar array without `nopack` sets `bitpos` to 0 first, with the same effect.
   */
  function PackRest(p: PackState, a: Alignment, piece: Piece): (r: (PackState, seq<byte>))
    requires p.bitpos < 8
    ensures r.0.bitpos < 8 && r.0.lastA == p.lastA
  {
    match piece
    case BitPiece(bits) => PackBits(p, bits)
    case RawPiece(body) => (p.(pos := p.pos + |body|, bitpos := 0), body)
    case AlignedPiece(body, forgets, isStruct) =>
      PackAligned(if forgets then p.(bitpos := 0) else p, a, body, isStruct)
  }

  function PackPiece(p: PackState, a: Alignment, piece: Piece): (r: (PackState, seq<byte>))
    requires p.bitpos < 8
    ensures r.0.bitpos < 8 && r.0.lastA == a
  {
    var (p1, pre) := PackPre(p, a);
    var (p2, out) := PackRest(p1, a, piece);
    (p2, pre + out)
  }

  function PackField(p: PackState, t: FieldType, v: Value): (r: (PackState, seq<byte>))
    requires p.bitpos < 8 && HasType(v, t)
    ensures r.0.bitpos < 8
    decreases t, 2
  {
    PackPiece(p, Align(t), PieceOf(t, v))
  }

  /** Everything `Pack` still writes from state `p` on, with fields `fs` to go. */
  function PackFields(p: PackState, fs: seq<FieldType>, vs: seq<Value>): seq<byte>
    requires p.bitpos < 8 && HasTypes(vs, fs)
    decreases fs, 3
  {
    if fs == [] then (if p.bitpos > 0 then [p.bitpack] else [])
    else
      var (p1, out) := PackField(p, fs[0], vs[0]);
      out + PackFields(p1, fs[1..], vs[1..])
  }

  function PackStruct(fs: seq<FieldType>, vs: seq<Value>): seq<byte>
    requires HasTypes(vs, fs)
    decreases fs, 4
  {
    PackFields(PACK_START, fs, vs)
  }

  function PackElems(elem: seq<FieldType>, rs: seq<Value>): seq<byte>
    requires AreRecords(rs, elem)
    decreases elem, 5, |rs|
  {
    if rs == [] then [] else PackStruct(elem, rs[0].vs) + PackElems(elem, rs[1..])
  }

  /// Unpack

  datatype UnpackState = UnpackState(n: nat, bitpos: nat, bitpack: byte, lastA: nat)

  const UNPACK_START := UnpackState(0, 0, 0, 1)

  /** A field read from a stream: the new state, the value and the bytes left over. */
  datatype Got = Got(u: UnpackState, v: Value, rest: seq<byte>)

  /** All fields of a struct: the values, the bytes `Unpack` says it used, the bytes left over. */
  datatype GotAll = GotAll(vs: seq<Value>, n: nat, rest: seq<byte>)

  function UnpackBit(u: UnpackState, r: seq<byte>): Result<(UnpackState, bool, seq<byte>)>
    requires u.bitpos < 8
  {
    if u.bitpos == 0 && r == [] then Err(EndOfData)
    else
      var u1 := if u.bitpos == 0 then u.(n := u.n + 1, bitpack := r[0]) else u;
      var r1 := if u.bitpos == 0 then r[1..] else r;
      Ok((u1.(bitpos := if u.bitpos + 1 >= 8 then 0 else u.bitpos + 1), Bit(u1.bitpack, u.bitpos), r1))
  }

  function UnpackBits(u: UnpackState, len: nat, r: seq<byte>)
    : (res: Result<(UnpackState, seq<bool>, seq<byte>)>)
    requires u.bitpos < 8
    ensures res.Ok? ==> res.value.0.bitpos < 8 && res.value.0.lastA == u.lastA && |res.value.1| == len
    decreases len
  {
    if len == 0 then Ok((u, [], r))
    else
      var (u1, b, r1) :- UnpackBit(u, r);
      var (u2, bs, r2) :- UnpackBits(u1, len - 1, r1);
      Ok((u2, [b] + bs, r2))
  }

  function UnWords(b: seq<byte>, width: nat, len: nat): (ws: seq<nat>)
    requires |b| == len * width
    ensures |ws| == len
  {
    if len == 0 then []
    else
      assert len * width == width + (len - 1) * width;
      [FromLE(b[..width])] + UnWords(b[width..], width, len - 1)
  }

  function UnFlags(b: seq<byte>): (bs: seq<bool>)
    ensures |bs| == |b|
  {
    seq(|b|, i requires 0 <= i < |b| => b[i] != 0)
  }

  function ReadSlot(r: seq<byte>): Result<(seq<byte>, seq<byte>)> {
    if |r| < 86 then Err(ShortData)
    else
      var n := FromU32(r);
      if n > STRING_DATA then Err(Malformed) else Ok((r[4..n + 4], r[86..]))
  }

  function ReadSlots(r: seq<byte>, len: nat): Result<(seq<seq<byte>>, seq<byte>)> {
    if len == 0 then Ok(([], r))
    else
      var (t, r1) :- ReadSlot(r);
      var (ts, r2) :- ReadSlots(r1, len - 1);
      Ok(([t] + ts, r2))
  }

  /** The field's own bytes, once the padding has been dealt with. */
  function UnpackBody(t: FieldType, r: seq<byte>): Result<(Value, nat, seq<byte>)>
    decreases t, 0
  {
    match t
    case Scalar(width) =>
      var (b, r1) :- ReadFull(r, width.Bytes());
      Ok((Word(FromLE(b)), |b|, r1))
    case Bool(_) =>
      var (b, r1) :- ReadFull(r, 1);
      Ok((Flag(b[0] != 0), 1, r1))
    case BoolArray(len, _) =>
      var (b, r1) :- ReadFull(r, len);
      Ok((Flags(UnFlags(b)), len, r1))
    case ScalarArray(width, len, _) =>
      var (b, r1) :- ReadFull(r, len * width.Bytes());
      Ok((Words(UnWords(b, width.Bytes(), len)), |b|, r1))
    case Struct(fields) =>
      var got :- UnpackFields(UNPACK_START, fields, r);
      Ok((Record(got.vs), got.n, got.rest))
    case StructArray(elem, len) =>
      var (rs, n, r1) :- UnpackElems(elem, len, r);
      Ok((Records(rs), n, r1))
    case Str =>
      var (s, r1) :- ReadSlot(r);
      Ok((Text(s), 86, r1))
    case StrArray(len) =>
      var (ss, r1) :- ReadSlots(r, len);
      Ok((Texts(ss), 86 * len, r1))
  }

  /**
   The padding skipped in front of a field: on growing alignment and, unless the field is
   `direct`, once more up to the field's own alignment. Gives the count and the stream after it.
   */
  function Approach(u: UnpackState, a: Alignment, direct: bool, r: seq<byte>): Result<(nat, seq<byte>)> {
    var pre := if a > u.lastA then Rem(u.n, a) else 0;
    var r1 :- ReadPad(r, pre);
    var pad := if direct then 0 else Rem(u.n + pre, a);
    var r2 :- ReadPad(r1, pad);
    Ok((u.n + pre + pad, r2))
  }

  function UnpackField(u: UnpackState, t: FieldType, r: seq<byte>): (res: Result<Got>)
    requires u.bitpos < 8
    ensures res.Ok? ==> res.value.u.bitpos < 8 && res.value.u.lastA == Align(t)
    decreases t, 2
  {
    var a := Align(t);
    var (n, r1) :- Approach(u, a, IsPacked(t) || IsRaw(t), r);
    if IsPacked(t) then
      var (u1, bs, r2) :- UnpackBits(UnpackState(n, u.bitpos, u.bitpack, a), BitCount(t), r1);
      Ok(Got(u1, if t.Bool? then Flag(bs[0]) else Flags(bs), r2))
    else
      var (v, size, r2) :- UnpackBody(t, r1);
      var post := if t.Struct? then Rem(n + size, a) else 0;
      var r3 :- ReadPad(r2, post);
      Ok(Got(UnpackState(n + size + post, 0, u.bitpack, a), v, r3))
  }

  function UnpackFields(u: UnpackState, fs: seq<FieldType>, r: seq<byte>): Result<GotAll>
    requires u.bitpos < 8
    decreases fs, 3
  {
    if fs == [] then Ok(GotAll([], u.n, r))
    else
      var got :- UnpackField(u, fs[0], r);
      var all :- UnpackFields(got.u, fs[1..], got.rest);
      Ok(GotAll([got.v] + all.vs, all.n, all.rest))
  }

  function UnpackStruct(fs: seq<FieldType>, r: seq<byte>): Result<GotAll>
    decreases fs, 4
  {
    UnpackFields(UNPACK_START, fs, r)
  }

  function UnpackElems(elem: seq<FieldType>, len: nat, r: seq<byte>)
    : Result<(seq<Value>, nat, seq<byte>)>
    decreases elem, 5, len
  {
    if len == 0 then Ok(([], 0, r))
    else
      var got :- UnpackStruct(elem, r);
      var (rs, n, r2) :- UnpackElems(elem, len - 1, got.rest);
      Ok(([Record(got.vs)] + rs, got.n + n, r2))
  }

  /// Unfolding one field

  function Cons(got: Got, all: Result<GotAll>): Result<GotAll> {
    if all.Err? then Err(all.error)
    else Ok(GotAll([got.v] + all.value.vs, all.value.n, all.value.rest))
  }

  lemma {:induction false} UnpackUnfold(u: UnpackState, fs: seq<FieldType>, r: seq<byte>)
    requires u.bitpos < 8 && fs != [] && UnpackField(u, fs[0], r).Ok?
    ensures var got := UnpackField(u, fs[0], r).value;
      UnpackFields(u, fs, r) == Cons(got, UnpackFields(got.u, fs[1..], got.rest))
  {
  }

  lemma {:induction false} PackUnfold(p: PackState, fs: seq<FieldType>, vs: seq<Value>)
    requires p.bitpos < 8 && HasTypes(vs, fs) && fs != []
    ensures var (p1, hb) := PackField(p, fs[0], vs[0]);
      PackFields(p, fs, vs) == hb + PackFields(p1, fs[1..], vs[1..])
  {
  }

  lemma {:induction false} ConsMeans(got: Got, all: Result<GotAll>, vs: seq<Value>, n: nat, rest: seq<byte>)
    requires |vs| > 0 && vs[0] == got.v
    ensures Cons(got, all) == Ok(GotAll(vs, n, rest)) <==> all == Ok(GotAll(vs[1..], n, rest))
  {
    assert vs == [vs[0]] + vs[1..];
    if all.Ok? {
      assert ([got.v] + all.value.vs)[1..] == all.value.vs;
    }
  }
}
