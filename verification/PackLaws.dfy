/** What the struct packer guarantees, stated on whole structs. */
module PackLaws {
  import opened Wire
  import opened PackSpec
  import opened PackShape
  import opened PackRoundTrip
  import opened PackUnclean

  /** `Unpack` gives back the values, uses exactly what `Pack` wrote and leaves `rest`. */
  ghost predicate RoundTrips(fs: seq<FieldType>, vs: seq<Value>, rest: seq<byte>)
    requires HasTypes(vs, fs)
  {
    UnpackStruct(fs, PackStruct(fs, vs) + rest) == Ok(GotAll(vs, |PackStruct(fs, vs)|, rest))
  }

  /// Whatever `Unpack` returns fits its string slots

  lemma {:induction false} SlotsFit(r: seq<byte>, len: nat)
    ensures ReadSlots(r, len).Ok? ==>
      forall i :: 0 <= i < |ReadSlots(r, len).value.0| ==> |ReadSlots(r, len).value.0[i]| <= STRING_DATA
    decreases len
  {
    if len > 0 && ReadSlot(r).Ok? {
      SlotsFit(ReadSlot(r).value.1, len - 1);
    }
  }

  lemma {:induction false} BodyFits(t: FieldType, r: seq<byte>)
    ensures UnpackBody(t, r).Ok? ==> Fits(UnpackBody(t, r).value.0)
    decreases t, 0
  {
    match t
    case Struct(fields) => FieldsFit(UNPACK_START, fields, r);
    case StructArray(elem, len) => ElemsFit(elem, len, r);
    case StrArray(len) => SlotsFit(r, len);
    case _ =>
  }

  lemma {:induction false} FieldsFit(u: UnpackState, fs: seq<FieldType>, r: seq<byte>)
    requires u.bitpos < 8
    ensures UnpackFields(u, fs, r).Ok? ==> AllFit(UnpackFields(u, fs, r).value.vs)
    decreases fs, 3
  {
    if fs != [] && UnpackField(u, fs[0], r).Ok? {
      var got := UnpackField(u, fs[0], r).value;
      var near := Approach(u, Align(fs[0]), IsPacked(fs[0]) || IsRaw(fs[0]), r);
      BodyFits(fs[0], near.value.1);
      FieldsFit(got.u, fs[1..], got.rest);
      var all := UnpackFields(got.u, fs[1..], got.rest);
      if all.Ok? {
        assert ([got.v] + all.value.vs)[1..] == all.value.vs;
      }
    }
  }

  lemma {:induction false} ElemsFit(elem: seq<FieldType>, len: nat, r: seq<byte>)
    ensures UnpackElems(elem, len, r).Ok? ==> AllFit(UnpackElems(elem, len, r).value.0)
    decreases elem, 5, len
  {
    if len > 0 && UnpackStruct(elem, r).Ok? {
      FieldsFit(UNPACK_START, elem, r);
      var got := UnpackStruct(elem, r).value;
      ElemsFit(elem, len - 1, got.rest);
      var more := UnpackElems(elem, len - 1, got.rest);
      if more.Ok? {
        assert ([Record(got.vs)] + more.value.0)[1..] == more.value.0;
      }
    }
  }

  /// Round trip

  /** On a bit-clean type a value round-trips exactly when its strings fit their slots. */
  lemma {:induction false} RoundTripForValue(fs: seq<FieldType>, vs: seq<Value>, rest: seq<byte>)
    requires HasTypes(vs, fs) && CleanStruct(fs)
    ensures RoundTrips(fs, vs, rest) <==> AllFit(vs)
  {
    if AllFit(vs) {
      StructForward(fs, vs, rest);
    }
    FieldsFit(UNPACK_START, fs, PackStruct(fs, vs) + rest);
  }

  /** The types on which every value whose strings fit round-trips are exactly the bit-clean ones. */
  lemma {:induction false} RoundTripForType(fs: seq<FieldType>)
    ensures CleanStruct(fs) <==>
      forall vs :: HasTypes(vs, fs) && AllFit(vs) ==> RoundTrips(fs, vs, [])
  {
    if CleanStruct(fs) {
      forall vs | HasTypes(vs, fs) && AllFit(vs)
        ensures RoundTrips(fs, vs, [])
      {
        RoundTripForValue(fs, vs, []);
      }
    } else {
      var bp, vs := Refute(PACK_START, fs);
      assert PACK_START.(bitpack := bp) == PACK_START;
      var out := PackStruct(fs, vs);
      assert Synced(PACK_START, out, UNPACK_START, out + [], []);
      assert !RoundTrips(fs, vs, []);
    }
  }

  /// Padding

  /** The value of a type with all numbers 0, all flags false and all strings empty. */
  function ZeroValue(t: FieldType): (v: Value)
    decreases t, 0
  {
    match t
    case Scalar(_) => Word(0)
    case Bool(_) => Flag(false)
    case BoolArray(len, _) => Flags(seq(len, _ => false))
    case ScalarArray(_, len, _) => Words(seq(len, _ => 0))
    case Struct(fields) => Record(ZeroValues(fields))
    case StructArray(elem, len) => Records(ZeroRecords(elem, len))
    case Str => Text([])
    case StrArray(len) => Texts(NoTexts(len))
  }

  function NoTexts(len: nat): (ts: seq<seq<byte>>)
    ensures |ts| == len && forall i :: 0 <= i < len ==> ts[i] == []
  {
    seq(len, _ => [])
  }

  function ZeroValues(fs: seq<FieldType>): seq<Value>
    decreases fs, 1
  {
    if fs == [] then [] else [ZeroValue(fs[0])] + ZeroValues(fs[1..])
  }

  function ZeroRecords(elem: seq<FieldType>, len: nat): (rs: seq<Value>)
    ensures |rs| == len
    decreases elem, 2, len
  {
    if len == 0 then [] else [Record(ZeroValues(elem))] + ZeroRecords(elem, len - 1)
  }

  lemma {:induction false} ZeroTyped(t: FieldType)
    ensures HasType(ZeroValue(t), t)
    decreases t, 0
  {
    match t
    case Struct(fields) => ZerosTyped(fields);
    case StructArray(elem, len) => RecordsTyped(elem, len);
    case _ =>
  }

  lemma {:induction false} ZerosTyped(fs: seq<FieldType>)
    ensures HasTypes(ZeroValues(fs), fs)
    decreases fs, 1
  {
    hide HasType, ZeroValue;
    if fs != [] {
      ZeroTyped(fs[0]);
      ZerosTyped(fs[1..]);
      assert ZeroValues(fs)[1..] == ZeroValues(fs[1..]);
    }
  }

  lemma {:induction false} RecordsTyped(elem: seq<FieldType>, len: nat)
    ensures AreRecords(ZeroRecords(elem, len), elem)
    decreases elem, 2, len
  {
    hide HasTypes, ZeroValues;
    if len > 0 {
      ZerosTyped(elem);
      RecordsTyped(elem, len - 1);
      assert ZeroRecords(elem, len)[1..] == ZeroRecords(elem, len - 1);
    }
  }

  predicate AllZero(b: seq<byte>) {
    forall i :: 0 <= i < |b| ==> b[i] == 0
  }

  lemma {:induction false} ZeroWord(width: nat)
    ensures AllZero(LE(0, width))
  {
    if width > 0 {
      ZeroWord(width - 1);
    }
  }

  lemma {:induction false} ZeroWords(len: nat, width: nat)
    ensures AllZero(WordBytes(seq(len, _ => 0), width))
    decreases len
  {
    hide LE;
    if len > 0 {
      var ws := seq(len, _ => 0);
      assert ws[1..] == seq(len - 1, _ => 0);
      ZeroWord(width);
      ZeroWords(len - 1, width);
    }
  }

  lemma {:induction false} EmptySlot()
    ensures AllZero(Slot([]))
  {
    assert U32(0) == [0, 0, 0, 0];
  }

  lemma {:induction false} EmptySlots(ts: seq<seq<byte>>)
    requires forall i :: 0 <= i < |ts| ==> ts[i] == []
    ensures AllZero(Slots(ts))
  {
    hide Slot;
    if ts != [] {
      EmptySlot();
      EmptySlots(ts[1..]);
    }
  }

  lemma {:induction false} ZeroBits(p: PackState, len: nat)
    requires p.bitpos < 8 && p.bitpack == 0
    ensures var (p1, out) := PackBits(p, seq(len, _ => false)); p1.bitpack == 0 && AllZero(out)
    decreases len
  {
    if len > 0 {
      var bs := seq(len, _ => false);
      assert bs[1..] == seq(len - 1, _ => false);
      ZeroBits(PackBit(p, false).0, len - 1);
    }
  }

  lemma {:induction false} ZeroBody(t: FieldType)
    ensures HasType(ZeroValue(t), t) && AllZero(Body(t, ZeroValue(t)))
    decreases t, 3
  {
    hide WordBytes, Slot, Slots, LE, AreRecords, PackElems, PackFields, HasTypes;
    ZeroTyped(t);
    match t
    case Scalar(width) => ZeroWord(width.Bytes());
    case ScalarArray(width, len, _) => ZeroWords(len, width.Bytes());
    case Struct(fields) => ZeroPacksToZero(fields);
    case StructArray(elem, len) => ZeroElems(elem, len);
    case Str => EmptySlot();
    case StrArray(len) => EmptySlots(NoTexts(len));
    case _ =>
  }

  lemma {:induction false} ZeroElems(elem: seq<FieldType>, len: nat)
    ensures AreRecords(ZeroRecords(elem, len), elem) && AllZero(PackElems(elem, ZeroRecords(elem, len)))
    decreases elem, 6, len
  {
    hide PackFields, HasTypes;
    RecordsTyped(elem, len);
    if len > 0 {
      ZeroPacksToZero(elem);
      ZeroElems(elem, len - 1);
      assert ZeroRecords(elem, len)[1..] == ZeroRecords(elem, len - 1);
    }
  }

  lemma {:induction false} ZeroAligned(p: PackState, a: Alignment, body: seq<byte>, isStruct: bool)
    requires p.bitpack == 0 && AllZero(body)
    ensures var (p1, out) := PackAligned(p, a, body, isStruct); p1.bitpack == 0 && AllZero(out)
  {
    hide Rem;
  }

  lemma {:induction false} ZeroPiece(p: PackState, a: Alignment, piece: Piece)
    requires p.bitpos < 8 && p.bitpack == 0
    requires match piece
      case BitPiece(bits) => bits == seq(|bits|, _ => false)
      case RawPiece(body) => AllZero(body)
      case AlignedPiece(body, _, _) => AllZero(body)
    ensures var (p1, out) := PackPiece(p, a, piece); p1.bitpack == 0 && AllZero(out)
  {
    hide Rem, PackBits, PackAligned;
    var (p1, pre) := PackPre(p, a);
    match piece
    case BitPiece(bits) => ZeroBits(p1, |bits|);
    case RawPiece(_) =>
    case AlignedPiece(body, forgets, isStruct) =>
      ZeroAligned(if forgets then p1.(bitpos := 0) else p1, a, body, isStruct);
  }

  lemma {:induction false} ZeroField(p: PackState, t: FieldType)
    requires p.bitpos < 8 && p.bitpack == 0
    ensures HasType(ZeroValue(t), t)
    ensures var (p1, out) := PackField(p, t, ZeroValue(t)); p1.bitpack == 0 && AllZero(out)
    decreases t, 4
  {
    hide Body, PackPiece, HasType, AllZero;
    ZeroBody(t);
    if IsPacked(t) {
      assert Bits(ZeroValue(t)) == seq(BitCount(t), _ => false);
    }
    ZeroPiece(p, Align(t), PieceOf(t, ZeroValue(t)));
  }

  lemma {:induction false} ZeroFields(p: PackState, fs: seq<FieldType>)
    requires p.bitpos < 8 && p.bitpack == 0
    ensures HasTypes(ZeroValues(fs), fs) && AllZero(PackFields(p, fs, ZeroValues(fs)))
    decreases fs, 3
  {
    hide PackField, HasType, ZeroValue;
    ZerosTyped(fs);
    if fs != [] {
      ZeroField(p, fs[0]);
      ZeroFields(PackField(p, fs[0], ZeroValue(fs[0])).0, fs[1..]);
      assert ZeroValues(fs)[1..] == ZeroValues(fs[1..]);
    }
  }

  /** Padding is zero: of every type the zero value is packed as zeros, as many as the type takes. */
  lemma {:induction false} ZeroPacksToZero(fs: seq<FieldType>)
    ensures HasTypes(ZeroValues(fs), fs) && PackStruct(fs, ZeroValues(fs)) == Zeros(StructSize(fs))
    ensures AllZero(PackStruct(fs, ZeroValues(fs)))
    decreases fs, 5
  {
    hide PackFields, HasTypes;
    ZeroFields(PACK_START, fs);
    StructShape(fs, ZeroValues(fs));
  }

  /** Behind a text its slot is filled up with zeros. */
  lemma {:induction false} SlotFilled(t: seq<byte>, i: nat)
    requires 4 + |t| <= i < 86
    ensures Slot(t)[i] == 0
  {
    hide U32;
  }

  /** `Pack`'s count depends on the type only. */
  lemma {:induction false} PackedSize(fs: seq<FieldType>, vs: seq<Value>)
    requires HasTypes(vs, fs)
    ensures |PackStruct(fs, vs)| == StructSize(fs)
  {
    StructShape(fs, vs);
  }

  function Bools(n: nat): seq<FieldType> {
    if n == 0 then [] else [Bool(false)] + Bools(n - 1)
  }

  /** The structs of the repository's own packing test. */
  const PACK_TEST_SUB := [Bool(false), Scalar(Four), Bool(false)]

  const PACK_TEST_TAIL := [Scalar(Four), Struct(PACK_TEST_SUB), BoolArray(16, false), Struct(PACK_TEST_SUB)]

  const PACK_TEST_FIELDS := Bools(1) + ([Bool(true)] + (Bools(10) + PACK_TEST_TAIL))

  lemma {:induction false} NextBool(s: Shape, fs: seq<FieldType>)
    requires s.bitpos < 8 && s.lastA == 1 && fs != [] && fs[0] == Bool(false)
    ensures var k := s.bitpos + 1;
      CleanFields(s, fs) <==> CleanFields(Shape(s.pos + k / 8, k % 8, 1), fs[1..])
  {
    hide Divides, Rem;
    assert Next(s, fs[0]) == Shape(s.pos + (s.bitpos + 1) / 8, (s.bitpos + 1) % 8, 1);
    assert Ready(s, fs[0]) && CleanInside(fs[0]);
  }

  lemma {:induction false} Carry(b: nat, n: nat)
    requires b < 8
    ensures (b + 1) / 8 + ((b + 1) % 8 + n) / 8 == (b + (n + 1)) / 8
    ensures ((b + 1) % 8 + n) % 8 == (b + (n + 1)) % 8
  {
    if b == 7 {
      Remainder(n + 8, 8, n / 8 + 1, n % 8);
    }
  }

  lemma {:induction false} BoolsAdvance(s: Shape, n: nat, fs: seq<FieldType>)
    requires s.bitpos < 8 && s.lastA == 1
    ensures CleanFields(s, Bools(n) + fs) <==>
      CleanFields(Shape(s.pos + (s.bitpos + n) / 8, (s.bitpos + n) % 8, 1), fs)
    decreases n
  {
    hide CleanFields;
    if n == 0 {
      assert Bools(0) + fs == fs;
    } else {
      var all := Bools(n) + fs;
      assert all[0] == Bool(false) && all[1..] == Bools(n - 1) + fs;
      var k := s.bitpos + 1;
      NextBool(s, all);
      Carry(s.bitpos, n - 1);
      BoolsAdvance(Shape(s.pos + k / 8, k % 8, 1), n - 1, fs);
    }
  }

  /** Two bits are pending at offset 3 when the 32-bit field arrives. */
  lemma {:induction false} PackTestIsUnclean()
    ensures !CleanStruct(PACK_TEST_FIELDS)
    ensures exists vs :: HasTypes(vs, PACK_TEST_FIELDS) && AllFit(vs) && !RoundTrips(PACK_TEST_FIELDS, vs, [])
  {
    var tail := Bools(10) + PACK_TEST_TAIL;
    BoolsAdvance(START_SHAPE, 1, [Bool(true)] + tail);
    assert ([Bool(true)] + tail)[1..] == tail;
    RemFormula(1, 1);
    var s := Shape(2, 0, 1);
    assert Next(Shape(0, 1, 1), Bool(true)) == s;
    BoolsAdvance(s, 10, PACK_TEST_TAIL);
    assert !Ready(Shape(3, 2, 1), PACK_TEST_TAIL[0]);
    RoundTripForType(PACK_TEST_FIELDS);
  }
}
