/** On bit-clean types `Unpack` reads each value from where `Pack` puts it, whoever wrote the stream. */
module CleanPlaces {
  import opened Wire
  import opened PackSpec
  import opened PackShape
  import opened PackPlaces
  import opened PackLaws
  import U = UnpackPlaces

  /** Where `Unpack` stands when `Pack` has the shape `s`: a byte with pending bits is already counted. */
  function Met(s: Shape): U.Cursor {
    U.Cursor(if s.bitpos > 0 then s.pos + 1 else s.pos, s.bitpos, s.lastA)
  }

  predicate IsSane(s: Shape) {
    s.bitpos < 8 && s.lastA >= 1 && (s.bitpos > 0 ==> s.lastA == 1)
  }

  lemma {:induction false} BeginMet(s: Shape, t: FieldType)
    requires IsSane(s) && Ready(s, t) && !IsPacked(t)
    ensures U.Begin(Met(s), t) == BodyStart(s, t)
  {
    hide Rem, Divides;
    var a := Align(t);
    RemAligns(s.pos, a);
    RemAligns(s.pos + Rem(s.pos, a), a);
  }

  lemma {:induction false} BitsMet(pos: nat, bitpos: nat, count: nat)
    requires bitpos < 8
    ensures (if bitpos > 0 then pos + 1 else pos) + U.BitBytes(bitpos, count) ==
      pos + (bitpos + count) / 8 + if (bitpos + count) % 8 > 0 then 1 else 0
  {
  }

  lemma {:induction false} NextMet(s: Shape, t: FieldType)
    requires IsSane(s) && Ready(s, t) && U.Width(t) == BodySize(t)
    ensures U.Next(Met(s), t) == Met(Next(s, t)) && IsSane(Next(s, t))
  {
    hide Rem, Divides, BodySize, U.Width, U.BitBytes, BodyStart;
    if IsPacked(t) {
      BitsMet(s.pos, s.bitpos, BitCount(t));
    } else {
      BeginMet(s, t);
      NextOfBody(s, t);
    }
  }

  lemma {:induction false} WidthMet(t: FieldType)
    requires CleanInside(t)
    ensures U.Width(t) == BodySize(t)
    decreases t, 0
  {
    match t
    case Struct(fields) => LengthMet(START_SHAPE, fields);
    case StructArray(elem, len) =>
      if len > 0 {
        LengthMet(START_SHAPE, elem);
      }
    case _ =>
  }

  lemma {:induction false} LengthMet(s: Shape, fs: seq<FieldType>)
    requires IsSane(s) && CleanFields(s, fs)
    ensures U.Length(Met(s), fs) == EndOf(s, fs)
    decreases fs, 1
  {
    hide Next, U.Next, Ready;
    if fs != [] {
      WidthMet(fs[0]);
      NextMet(s, fs[0]);
      LengthMet(Next(s, fs[0]), fs[1..]);
    }
  }

  /// Types

  lemma {:induction false} BodyTyped(whole: seq<byte>, at: nat, t: FieldType, v: Value)
    requires U.ShowsBody(whole, at, t, v)
    ensures HasType(v, t)
    decreases t, 0
  {
    match t
    case Struct(fields) => ShownTyped(whole, at, U.START, fields, v.vs);
    case StructArray(elem, _) => ElemsTyped(whole, at, elem, v.rs);
    case ScalarArray(width, len, _) =>
      forall k | 0 <= k < len ensures v.ws[k] < Pow256(width.Bytes()) {
        assert U.IsWord(whole, at + k * width.Bytes(), width, v.ws[k]);
      }
    case _ =>
  }

  lemma {:induction false} ElemsTyped(whole: seq<byte>, at: nat, elem: seq<FieldType>, rs: seq<Value>)
    requires U.ShowsElems(whole, at, elem, rs)
    ensures AreRecords(rs, elem)
    decreases elem, 2, |rs|
  {
    hide U.Shows, HasTypes;
    if rs != [] {
      ShownTyped(whole, at, U.START, elem, rs[0].vs);
      ElemsTyped(whole, at + U.Length(U.START, elem), elem, rs[1..]);
    }
  }

  lemma {:induction false} ShownTyped(whole: seq<byte>, base: nat, c: U.Cursor, fs: seq<FieldType>, vs: seq<Value>)
    requires U.Shows(whole, base, c, fs, vs)
    ensures HasTypes(vs, fs)
    decreases fs, 1
  {
    hide U.Next, U.ShowsBody, HasType;
    if fs != [] {
      if IsPacked(fs[0]) {
        BitsTyped(fs[0], vs[0]);
      } else {
        BodyTyped(whole, base + U.Begin(c, fs[0]), fs[0], vs[0]);
      }
      ShownTyped(whole, base, U.Next(c, fs[0]), fs[1..], vs[1..]);
    }
  }

  lemma {:induction false} BitsTyped(t: FieldType, v: Value)
    requires IsPacked(t) && (if t.Bool? then v.Flag? else v.Flags?) && |Bits(v)| == BitCount(t)
    ensures HasType(v, t)
  {
  }

  /// Numbers

  lemma {:induction false} AtJoined(whole: seq<byte>, at: nat, a: seq<byte>, b: seq<byte>)
    requires At(whole, at, a) && At(whole, at + |a|, b)
    ensures At(whole, at, a + b)
  {
    assert whole[at..at + |a + b|] == whole[at..at + |a|] + whole[at + |a|..at + |a| + |b|];
  }

  lemma {:induction false} WordHolds(whole: seq<byte>, at: nat, width: Width, w: nat)
    requires U.IsWord(whole, at, width, w)
    ensures At(whole, at, LE(w, width.Bytes()))
  {
    hide LE, Pow256, U.Drop;
    U.StandsAt(whole, at, LE(w, width.Bytes()));
  }

  lemma {:induction false} WordsHold(whole: seq<byte>, at: nat, width: Width, ws: seq<nat>)
    requires forall k :: 0 <= k < |ws| ==> U.IsWord(whole, at + k * width.Bytes(), width, ws[k])
    requires at + |ws| * width.Bytes() <= |whole|
    ensures At(whole, at, WordBytes(ws, width.Bytes()))
    decreases |ws|
  {
    hide LE, U.IsWord, Width.Bytes;
    var w := width.Bytes();
    if ws == [] {
      assert At(whole, at, []);
    } else {
      hide At;
      assert |ws| * w == w + (|ws| - 1) * w;
      assert U.IsWord(whole, at + 0 * w, width, ws[0]);
      forall k | 0 <= k < |ws[1..]| ensures U.IsWord(whole, at + w + k * w, width, ws[1..][k]) {
        assert at + w + k * w == at + (k + 1) * w;
      }
      WordsHold(whole, at + w, width, ws[1..]);
      WordHolds(whole, at, width, ws[0]);
      AtJoined(whole, at, LE(ws[0], w), WordBytes(ws[1..], w));
    }
  }

  lemma {:induction false} NumberInPlace(whole: seq<byte>, at: nat, width: Width, ws: seq<nat>)
    requires forall k :: 0 <= k < |ws| ==> U.IsWord(whole, at + k * width.Bytes(), width, ws[k])
    requires at + |ws| * width.Bytes() <= |whole|
    ensures AllHold(whole, [Place(at, width.Bytes(), ws)])
  {
    hide U.IsWord, At, WordBytes, Width.Bytes;
    WordsHold(whole, at, width, ws);
  }

  lemma {:induction false} OneNumberInPlace(whole: seq<byte>, at: nat, width: Width, w: nat)
    requires U.IsWord(whole, at, width, w) && at + width.Bytes() <= |whole|
    ensures AllHold(whole, [Place(at, width.Bytes(), [w])])
  {
    hide U.IsWord, AllHold, Width.Bytes;
    assert at + 0 * width.Bytes() == at;
    assert 1 * width.Bytes() == width.Bytes();
    NumberInPlace(whole, at, width, [w]);
  }

  lemma {:induction false} BodyInPlace(whole: seq<byte>, base: nat, s: Shape, t: FieldType, v: Value)
    requires HasType(v, t) && CleanInside(t) && !IsPacked(t)
    requires U.ShowsBody(whole, base + BodyStart(s, t), t, v)
    requires base + BodyStart(s, t) + BodySize(t) <= |whole|
    ensures AllHold(whole, PlacesIn(base, s, t, v))
    decreases t, 0
  {
    hide BodyStart, U.IsWord, Holds, Width.Bytes, Places, U.Shows, HasTypes, AllHold;
    var at := base + BodyStart(s, t);
    match t
    case Scalar(width) => OneNumberInPlace(whole, at, width, v.w);
    case ScalarArray(width, _, _) => NumberInPlace(whole, at, width, v.ws);
    case Struct(fields) => NumbersInPlace(whole, at, START_SHAPE, fields, v.vs);
    case StructArray(elem, _) => ElemsInPlace(whole, at, elem, v.rs);
    case _ => NothingHolds(whole);
  }

  lemma {:induction false} NothingHolds(whole: seq<byte>)
    ensures AllHold(whole, [])
  {
  }

  lemma {:induction false} ElemsInPlace(whole: seq<byte>, at: nat, elem: seq<FieldType>, rs: seq<Value>)
    requires AreRecords(rs, elem) && (rs != [] ==> CleanStruct(elem))
    requires U.ShowsElems(whole, at, elem, rs) && at + |rs| * StructSize(elem) <= |whole|
    ensures AllHold(whole, ElemPlaces(at, elem, rs))
    decreases elem, 2, |rs|
  {
    hide Holds, Places, U.Shows, HasTypes;
    if rs != [] {
      var one := StructSize(elem);
      assert |rs| * one == one + (|rs| - 1) * one;
      U.NotNegative(|rs| - 1, one);
      LengthMet(START_SHAPE, elem);
      NumbersInPlace(whole, at, START_SHAPE, elem, rs[0].vs);
      ElemsInPlace(whole, at + one, elem, rs[1..]);
    }
  }

  lemma {:induction false} EndGrows(s: Shape, fs: seq<FieldType>)
    ensures EndOf(s, fs) >= s.pos
    decreases fs
  {
    if fs != [] {
      NextGrows(s, fs[0]);
      EndGrows(Next(s, fs[0]), fs[1..]);
    }
  }

  lemma {:induction false} NextGrows(s: Shape, t: FieldType)
    ensures Next(s, t).pos >= s.pos
    ensures !IsPacked(t) ==> Next(s, t).pos >= BodyStart(s, t) + BodySize(t)
  {
    hide Rem, BodySize;
  }

  /** What stands where `Unpack` looks stands where `Pack` puts it. */
  lemma {:induction false} NumbersInPlace(whole: seq<byte>, base: nat, s: Shape, fs: seq<FieldType>, vs: seq<Value>)
    requires HasTypes(vs, fs) && IsSane(s) && CleanFields(s, fs)
    requires U.Shows(whole, base, Met(s), fs, vs) && base + EndOf(s, fs) <= |whole|
    ensures AllHold(whole, Places(base, s, fs, vs))
    decreases fs, 1
  {
    hide Holds, PlacesIn, U.Next, Next, Ready, U.ShowsBody, HasType, BodyStart;
    if fs != [] {
      WidthMet(fs[0]);
      NextMet(s, fs[0]);
      NextGrows(s, fs[0]);
      EndGrows(Next(s, fs[0]), fs[1..]);
      if IsPacked(fs[0]) {
        NoPlaces(base, s, fs[0], vs[0]);
      } else {
        BeginMet(s, fs[0]);
        BodyInPlace(whole, base, s, fs[0], vs[0]);
      }
      NumbersInPlace(whole, base, Next(s, fs[0]), fs[1..], vs[1..]);
    }
  }

  lemma {:induction false} NoPlaces(base: nat, s: Shape, t: FieldType, v: Value)
    requires HasType(v, t) && IsPacked(t)
    ensures PlacesIn(base, s, t, v) == []
  {
  }

  /// The laws

  /** Of a bit-clean type each number comes from the place at which `Pack` would have put it. */
  lemma {:induction false} ReadsFromPlaces(fs: seq<FieldType>, whole: seq<byte>)
    requires CleanStruct(fs) && StructSize(fs) <= |whole| && UnpackStruct(fs, whole).Ok?
    ensures var got := UnpackStruct(fs, whole).value;
      HasTypes(got.vs, fs) && got.n == StructSize(fs) && AllHold(whole, Places(0, START_SHAPE, fs, got.vs))
  {
    hide U.Shows, HasTypes, UnpackStruct, Places, CleanStruct, StructSize, U.Length;
    U.UnpackedStands(fs, whole);
    assert Met(START_SHAPE) == U.START;
    var vs := UnpackStruct(fs, whole).value.vs;
    StartsClean(fs);
    LengthMet(START_SHAPE, fs);
    ShownTyped(whole, 0, U.START, fs, vs);
    NumbersInPlace(whole, 0, START_SHAPE, fs, vs);
  }

  lemma {:induction false} StartsClean(fs: seq<FieldType>)
    requires CleanStruct(fs)
    ensures CleanFields(START_SHAPE, fs) && StructSize(fs) == EndOf(START_SHAPE, fs)
  {
  }

  /**
   Packing what was read from any stream gives the canonical form of that stream: it reads as the same
   values, and has as many bytes as were counted.
   */
  lemma {:induction false} Repacked(fs: seq<FieldType>, whole: seq<byte>, rest: seq<byte>)
    requires CleanStruct(fs) && UnpackStruct(fs, whole).Ok?
    ensures var got := UnpackStruct(fs, whole).value;
      HasTypes(got.vs, fs) && |PackStruct(fs, got.vs)| == got.n &&
      UnpackStruct(fs, PackStruct(fs, got.vs) + rest) == Ok(GotAll(got.vs, got.n, rest))
  {
    hide U.Shows, HasTypes, UnpackStruct, CleanStruct, StructSize, U.Length, AllFit;
    U.UnpackedStands(fs, whole);
    var vs := UnpackStruct(fs, whole).value.vs;
    ShownTyped(whole, 0, U.START, fs, vs);
    ReadFits(fs, whole);
    RoundTripForValue(fs, vs, rest);
    PackedSize(fs, vs);
    StartsClean(fs);
    assert Met(START_SHAPE) == U.START;
    LengthMet(START_SHAPE, fs);
  }

  lemma {:induction false} ReadFits(fs: seq<FieldType>, whole: seq<byte>)
    requires UnpackStruct(fs, whole).Ok?
    ensures AllFit(UnpackStruct(fs, whole).value.vs)
  {
    hide UnpackFields, AllFit;
    FieldsFit(UNPACK_START, fs, whole);
  }
}
