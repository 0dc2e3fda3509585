/** What `Unpack` makes of any stream: from which bytes and bits each value comes. */
module UnpackPlaces {
  import opened Wire
  import opened Streams
  import opened PackSpec

  /// Where the values stand

  /** The bytes counted so far, the bits used of the last of them, the alignment of the last field. */
  datatype Cursor = Cursor(n: nat, bitpos: nat, lastA: nat)

  const START := Cursor(0, 0, 1)

  /** Packed bits and raw fields are brought to their alignment only if that grows, others always. */
  function Begin(c: Cursor, t: FieldType): nat {
    if (IsPacked(t) || IsRaw(t)) && Align(t) <= c.lastA then c.n else c.n + Rem(c.n, Align(t))
  }

  /** The first bit of a field of packed bits, counted from the start of the stream. */
  function FirstBit(base: nat, n: nat, bitpos: nat): nat
    requires bitpos > 0 ==> n > 0
  {
    8 * (base + if bitpos > 0 then n - 1 else n) + bitpos
  }

  /** Bytes that `len` bits take, of which the first may already be open. */
  function BitBytes(bitpos: nat, len: nat): nat {
    if bitpos == 0 then (len + 7) / 8 else (bitpos + len + 7) / 8 - 1
  }

  function Next(c: Cursor, t: FieldType): Cursor
    decreases t, 1
  {
    var n := Begin(c, t);
    if IsPacked(t) then
      Cursor(n + BitBytes(c.bitpos, BitCount(t)), (c.bitpos + BitCount(t)) % 8, Align(t))
    else
      var end := n + Width(t);
      Cursor(if t.Struct? then end + Rem(end, Align(t)) else end, 0, Align(t))
  }

  /** The bytes of a field's own data. */
  function Width(t: FieldType): nat
    decreases t, 0
  {
    match t
    case Scalar(width) => width.Bytes()
    case Bool(_) => 1
    case BoolArray(len, _) => len
    case ScalarArray(width, len, _) => len * width.Bytes()
    case Struct(fields) => Length(START, fields)
    case StructArray(elem, len) => len * Length(START, elem)
    case Str => 86
    case StrArray(len) => len * 86
  }

  function Length(c: Cursor, fs: seq<FieldType>): nat
    decreases fs, 2
  {
    if fs == [] then c.n else Length(Next(c, fs[0]), fs[1..])
  }

  /// What stands there

  function Drop(whole: seq<byte>, at: nat): seq<byte> {
    if at <= |whole| then whole[at..] else []
  }

  predicate Stands(whole: seq<byte>, at: nat, part: seq<byte>) {
    part <= Drop(whole, at)
  }

  predicate IsBit(whole: seq<byte>, i: nat, b: bool) {
    i / 8 < |whole| && (b <==> Bit(whole[i / 8], i % 8))
  }

  predicate IsFlag(whole: seq<byte>, at: nat, b: bool) {
    at < |whole| && (b <==> whole[at] != 0)
  }

  predicate IsWord(whole: seq<byte>, at: nat, width: Width, w: nat) {
    w < Pow256(width.Bytes()) && Stands(whole, at, LE(w, width.Bytes()))
  }

  predicate IsText(whole: seq<byte>, at: nat, t: seq<byte>) {
    |t| <= STRING_DATA && at + 86 <= |whole| && Stands(whole, at, U32(|t|) + t)
  }

  /** `v` is what the bytes at `at` say by the type: a flag is false exactly on a byte of 0. */
  predicate ShowsBody(whole: seq<byte>, at: nat, t: FieldType, v: Value)
    decreases t, 0
  {
    match t
    case Scalar(width) => v.Word? && IsWord(whole, at, width, v.w)
    case Bool(_) => v.Flag? && IsFlag(whole, at, v.b)
    case BoolArray(len, _) => v.Flags? && |v.bs| == len && forall k :: 0 <= k < len ==> IsFlag(whole, at + k, v.bs[k])
    case ScalarArray(width, len, _) =>
      v.Words? && |v.ws| == len &&
      forall k :: 0 <= k < len ==> IsWord(whole, at + k * width.Bytes(), width, v.ws[k])
    case Struct(fields) => v.Record? && Shows(whole, at, START, fields, v.vs)
    case StructArray(elem, len) => v.Records? && |v.rs| == len && ShowsElems(whole, at, elem, v.rs)
    case Str => v.Text? && IsText(whole, at, v.t)
    case StrArray(len) =>
      v.Texts? && |v.ts| == len && forall k :: 0 <= k < len ==> IsText(whole, at + k * 86, v.ts[k])
  }

  predicate ShowsField(whole: seq<byte>, base: nat, c: Cursor, t: FieldType, v: Value)
    decreases t, 1
  {
    if IsPacked(t) then
      && (if t.Bool? then v.Flag? else v.Flags?) && |Bits(v)| == BitCount(t)
      && (c.bitpos > 0 ==> Begin(c, t) > 0)
      && forall k :: 0 <= k < BitCount(t) ==>
        IsBit(whole, FirstBit(base, Begin(c, t), c.bitpos) + k, Bits(v)[k])
    else ShowsBody(whole, base + Begin(c, t), t, v)
  }

  /** Every value is what stands at its place, whatever the bytes between the places. */
  predicate Shows(whole: seq<byte>, base: nat, c: Cursor, fs: seq<FieldType>, vs: seq<Value>)
    decreases fs, 2
  {
    |vs| == |fs| &&
    (fs == [] || (ShowsField(whole, base, c, fs[0], vs[0]) && Shows(whole, base, Next(c, fs[0]), fs[1..], vs[1..])))
  }

  predicate ShowsElems(whole: seq<byte>, at: nat, elem: seq<FieldType>, rs: seq<Value>)
    decreases elem, 3, |rs|
  {
    rs == [] ||
    (rs[0].Record? && Shows(whole, at, START, elem, rs[0].vs)
     && ShowsElems(whole, at + Length(START, elem), elem, rs[1..]))
  }

  /// Streams

  lemma {:induction false} DropTwice(whole: seq<byte>, at: nat, k: nat)
    ensures Drop(Drop(whole, at), k) == Drop(whole, at + k)
  {
  }

  lemma {:induction false} PadDrop(whole: seq<byte>, at: nat, k: nat)
    ensures var r := ReadPad(Drop(whole, at), k); r.Ok? ==> r.value == Drop(whole, at + k)
    ensures at + k <= |whole| ==> ReadPad(Drop(whole, at), k).Ok?
  {
  }

  lemma {:induction false} FullDrop(whole: seq<byte>, at: nat, k: nat)
    ensures var r := ReadFull(Drop(whole, at), k);
      r.Ok? ==> r.value.1 == Drop(whole, at + k) && Stands(whole, at, r.value.0) && (k > 0 ==> at + k <= |whole|)
    ensures at + k <= |whole| ==> ReadFull(Drop(whole, at), k) == Ok((whole[at..at + k], Drop(whole, at + k)))
  {
    if at + k <= |whole| {
      assert whole[at..][..k] == whole[at..at + k] && whole[at..][k..] == whole[at + k..];
    }
  }

  lemma {:induction false} StandsInside(whole: seq<byte>, at: nat, part: seq<byte>, k: nat, len: nat)
    requires Stands(whole, at, part) && k + len <= |part|
    ensures Stands(whole, at + k, part[k..k + len])
  {
    if len > 0 {
      assert at + |part| <= |whole|;
      assert part[k..k + len] == Drop(whole, at + k)[..len];
    }
  }

  lemma {:induction false} StandsAt(whole: seq<byte>, at: nat, part: seq<byte>)
    requires Stands(whole, at, part) && part != []
    ensures at + |part| <= |whole| && whole[at..at + |part|] == part
  {
  }

  /// One field

  function CursorOf(u: UnpackState): Cursor {
    Cursor(u.n, u.bitpos, u.lastA)
  }

  /** The stream stands behind the counted bytes; with bits left over, the last of them is at hand. */
  predicate Linked(whole: seq<byte>, base: nat, u: UnpackState, r: seq<byte>) {
    && u.bitpos < 8 && u.lastA >= 1 && r == Drop(whole, base + u.n)
    && (u.bitpos > 0 ==> u.lastA == 1 && 0 < u.n && base + u.n <= |whole| && u.bitpack == whole[base + u.n - 1])
  }

  lemma {:induction false} AlignsByOne(t: FieldType)
    ensures IsPacked(t) ==> Align(t) == 1
  {
  }

  lemma {:induction false} Approaches(whole: seq<byte>, base: nat, u: UnpackState, t: FieldType, r: seq<byte>)
    requires Linked(whole, base, u, r)
    ensures var res := Approach(u, Align(t), IsPacked(t) || IsRaw(t), r);
      && (res.Ok? ==> res.value == (Begin(CursorOf(u), t), Drop(whole, base + Begin(CursorOf(u), t))))
      && (base + Begin(CursorOf(u), t) <= |whole| ==> res.Ok?)
    ensures IsPacked(t) ==> Begin(CursorOf(u), t) == u.n
  {
    hide Rem, ReadPad, Drop, Divides, Align;
    var a := Align(t);
    AlignsByOne(t);
    var pre := if a > u.lastA then Rem(u.n, a) else 0;
    RemAligns(u.n, a);
    RemAligns(u.n + Rem(u.n, a), a);
    PadDrop(whole, base + u.n, pre);
    PadDrop(whole, base + u.n + pre, if IsPacked(t) || IsRaw(t) then 0 else Rem(u.n + pre, a));
  }

  ghost predicate OneBitIsShown(whole: seq<byte>, base: nat, u: UnpackState, u1: UnpackState, b: bool, r1: seq<byte>) {
    && Linked(whole, base, u1, r1) && u1.lastA == 1
    && u1.n == u.n + BitBytes(u.bitpos, 1) && u1.bitpos == (u.bitpos + 1) % 8
    && (u.bitpos > 0 ==> u.n > 0)
    && IsBit(whole, FirstBit(base, u.n, u.bitpos), b)
  }

  lemma {:induction false} PlaceOfBit(base: nat, n: nat, bitpos: nat)
    requires bitpos < 8 && (bitpos > 0 ==> n > 0)
    ensures FirstBit(base, n, bitpos) / 8 == base + (if bitpos > 0 then n - 1 else n)
    ensures FirstBit(base, n, bitpos) % 8 == bitpos
    ensures BitBytes(bitpos, 1) == if bitpos == 0 then 1 else 0
    ensures (bitpos + 1) % 8 == if bitpos + 1 >= 8 then 0 else bitpos + 1
  {
  }

  /** A bit of a byte that is taken for it. */
  lemma {:induction false} FirstBitShown(whole: seq<byte>, base: nat, u: UnpackState, r: seq<byte>)
    requires Linked(whole, base, u, r) && u.lastA == 1 && u.bitpos == 0 && r != []
    ensures var (u1, b, r1) := UnpackBit(u, r).value; OneBitIsShown(whole, base, u, u1, b, r1)
  {
    hide Bit, BitBytes, FirstBit;
    PlaceOfBit(base, u.n, 0);
    assert r[0] == whole[base + u.n] && r[1..] == whole[base + u.n + 1..];
  }

  /** A bit of the byte at hand. */
  lemma {:induction false} LaterBitShown(whole: seq<byte>, base: nat, u: UnpackState, r: seq<byte>)
    requires Linked(whole, base, u, r) && u.lastA == 1 && u.bitpos > 0
    ensures var (u1, b, r1) := UnpackBit(u, r).value; OneBitIsShown(whole, base, u, u1, b, r1)
  {
    hide Bit, BitBytes, FirstBit, Drop;
    PlaceOfBit(base, u.n, u.bitpos);
  }

  lemma {:induction false} BitShown(whole: seq<byte>, base: nat, u: UnpackState, r: seq<byte>)
    requires Linked(whole, base, u, r) && u.lastA == 1
    ensures UnpackBit(u, r).Ok? <==> u.bitpos > 0 || base + u.n < |whole|
    ensures UnpackBit(u, r).Ok? ==>
      var (u1, b, r1) := UnpackBit(u, r).value; OneBitIsShown(whole, base, u, u1, b, r1)
  {
    hide Bit, OneBitIsShown, BitBytes, FirstBit;
    if u.bitpos > 0 {
      LaterBitShown(whole, base, u, r);
    } else if r != [] {
      FirstBitShown(whole, base, u, r);
    }
  }

  lemma {:induction false} BitBytesOneMore(bitpos: nat, len: nat)
    requires bitpos < 8 && len > 0
    ensures BitBytes(bitpos, len) == BitBytes(bitpos, 1) + BitBytes((bitpos + 1) % 8, len - 1)
  {
  }

  lemma {:induction false} FirstBitOneMore(base: nat, n: nat, bitpos: nat)
    requires bitpos < 8 && (bitpos > 0 ==> n > 0)
    ensures FirstBit(base, n, bitpos) + 1 == FirstBit(base, n + BitBytes(bitpos, 1), (bitpos + 1) % 8)
  {
  }

  lemma {:induction false} BitsShown(whole: seq<byte>, base: nat, u: UnpackState, len: nat, r: seq<byte>)
    requires Linked(whole, base, u, r) && u.lastA == 1
    ensures base + u.n + BitBytes(u.bitpos, len) <= |whole| ==> UnpackBits(u, len, r).Ok?
    ensures UnpackBits(u, len, r).Ok? ==>
      var (u1, bs, r1) := UnpackBits(u, len, r).value;
      && Linked(whole, base, u1, r1)
      && CursorOf(u1) == Cursor(u.n + BitBytes(u.bitpos, len), (u.bitpos + len) % 8, 1)
      && forall k :: 0 <= k < len ==> IsBit(whole, FirstBit(base, u.n, u.bitpos) + k, bs[k])
    decreases len
  {
    hide UnpackBit, IsBit, Drop, BitBytes, FirstBit;
    if len == 0 {
      NoBits(u.bitpos);
    } else {
      BitShown(whole, base, u, r);
      BitBytesOneMore(u.bitpos, len);
      FirstBitOneMore(base, u.n, u.bitpos);
      OneBit(u.bitpos);
      var one := UnpackBit(u, r);
      if one.Ok? {
        var (u1, b, r1) := one.value;
        BitsShown(whole, base, u1, len - 1, r1);
        Modulo8(u.bitpos, len);
        var more := UnpackBits(u1, len - 1, r1);
        if more.Ok? {
          var first, next := FirstBit(base, u.n, u.bitpos), FirstBit(base, u1.n, u1.bitpos);
          forall k | 0 <= k < len ensures IsBit(whole, first + k, ([b] + more.value.1)[k]) {
            assert k > 0 ==> first + k == next + (k - 1);
          }
        }
      }
    }
  }

  lemma {:induction false} NoBits(bitpos: nat)
    requires bitpos < 8
    ensures BitBytes(bitpos, 0) == 0 && bitpos % 8 == bitpos
  {
  }

  lemma {:induction false} OneBit(bitpos: nat)
    requires bitpos < 8
    ensures BitBytes(bitpos, 1) == if bitpos == 0 then 1 else 0
  {
  }

  lemma {:induction false} Modulo8(bitpos: nat, len: nat)
    requires len > 0
    ensures ((bitpos + 1) % 8 + (len - 1)) % 8 == (bitpos + len) % 8
  {
  }

  /// Numbers, flags and texts

  lemma {:induction false} FromLEBelow(b: seq<byte>)
    ensures FromLE(b) < Pow256(|b|)
  {
    LETruncates(FromLE(b), |b|);
    LEOfFromLE(b);
  }

  /** The one number whose little-endian bytes stand here is the number read. */
  lemma {:induction false} WordShown(whole: seq<byte>, at: nat, width: Width, b: seq<byte>)
    requires |b| == width.Bytes() && Stands(whole, at, b)
    ensures IsWord(whole, at, width, FromLE(b))
    ensures forall w :: IsWord(whole, at, width, w) ==> w == FromLE(b)
  {
    hide LE, FromLE, Pow256, Drop;
    LEOfFromLE(b);
    FromLEBelow(b);
    forall w | IsWord(whole, at, width, w) ensures w == FromLE(b) {
      SamePrefix(Drop(whole, at), b, LE(w, |b|));
      LERoundTrip(w, |b|);
    }
  }

  lemma {:induction false} SamePrefix(r: seq<byte>, a: seq<byte>, b: seq<byte>)
    requires a <= r && b <= r && |a| == |b|
    ensures a == b
  {
    assert a == r[..|a|] && b == r[..|b|];
  }

  lemma {:induction false} WordsShown(whole: seq<byte>, at: nat, width: Width, len: nat, b: seq<byte>)
    requires |b| == len * width.Bytes() && Stands(whole, at, b)
    ensures forall k :: 0 <= k < len ==> IsWord(whole, at + k * width.Bytes(), width, UnWords(b, width.Bytes(), len)[k])
    decreases len
  {
    hide IsWord, Stands, FromLE;
    var w := width.Bytes();
    if len > 0 {
      assert len * w == w + (len - 1) * w;
      StandsInside(whole, at, b, 0, w);
      StandsInside(whole, at, b, w, (len - 1) * w);
      assert b[0..w] == b[..w] && b[w..w + (len - 1) * w] == b[w..];
      WordShown(whole, at, width, b[..w]);
      WordsShown(whole, at + w, width, len - 1, b[w..]);
      var more := UnWords(b[w..], w, len - 1);
      forall k | 0 <= k < len ensures IsWord(whole, at + k * w, width, UnWords(b, w, len)[k]) {
        if k > 0 {
          assert at + w + (k - 1) * w == at + k * w;
          assert IsWord(whole, at + w + (k - 1) * w, width, more[k - 1]);
        }
      }
    }
  }

  /** There is only one list of numbers. */
  lemma {:induction false} WordsUnique(whole: seq<byte>, at: nat, width: Width, len: nat, a: seq<nat>, b: seq<nat>)
    requires |a| == len && forall k :: 0 <= k < len ==> IsWord(whole, at + k * width.Bytes(), width, a[k])
    requires |b| == len && forall k :: 0 <= k < len ==> IsWord(whole, at + k * width.Bytes(), width, b[k])
    ensures a == b
  {
    hide IsWord;
    forall k | 0 <= k < len ensures a[k] == b[k] {
      WordUnique(whole, at + k * width.Bytes(), width, a[k], b[k]);
    }
  }

  lemma {:induction false} WordUnique(whole: seq<byte>, at: nat, width: Width, a: nat, b: nat)
    requires IsWord(whole, at, width, a) && IsWord(whole, at, width, b)
    ensures a == b
  {
    hide LE, Pow256, Drop;
    SamePrefix(Drop(whole, at), LE(a, width.Bytes()), LE(b, width.Bytes()));
    LERoundTrip(a, width.Bytes());
    LERoundTrip(b, width.Bytes());
  }

  lemma {:induction false} TextShown(whole: seq<byte>, at: nat)
    ensures var r := ReadSlot(Drop(whole, at));
      r.Ok? ==> r.value.1 == Drop(whole, at + 86) && IsText(whole, at, r.value.0)
  {
    hide FromU32, U32;
    var b := Drop(whole, at);
    var r := ReadSlot(b);
    if r.Ok? {
      var n := FromU32(b);
      assert FromU32(b) == FromU32(b[..4]) by { FourBytes(b); }
      U32OfValue(b[..4]);
      assert U32(n) + b[4..n + 4] == b[..n + 4];
      assert |r.value.0| == n;
    }
  }

  lemma {:induction false} FourBytes(b: seq<byte>)
    requires |b| >= 4
    ensures FromU32(b) == FromU32(b[..4])
  {
  }

  lemma {:induction false} U32OfValue(b: seq<byte>)
    requires |b| == 4
    ensures U32(FromU32(b)) == b
  {
    U32IsLE(FromU32(b));
    FromU32IsLE(b);
    LEOfFromLE(b);
  }

  lemma {:induction false} TextReads(whole: seq<byte>, at: nat, t: seq<byte>)
    requires IsText(whole, at, t)
    ensures ReadSlot(Drop(whole, at)) == Ok((t, Drop(whole, at + 86)))
  {
    hide FromU32, U32;
    var b := Drop(whole, at);
    var p := U32(|t|) + t;
    assert b[..|p|] == p && p[..4] == U32(|t|) && p[4..] == t;
    FourBytes(b);
    assert b[..4] == p[..4] && b[4..|t| + 4] == p[4..];
    U32Value(|t|);
  }

  lemma {:induction false} TextsShown(whole: seq<byte>, at: nat, len: nat)
    ensures var r := ReadSlots(Drop(whole, at), len);
      r.Ok? ==>
        && r.value.1 == Drop(whole, at + len * 86) && |r.value.0| == len
        && forall k :: 0 <= k < len ==> IsText(whole, at + k * 86, r.value.0[k])
    decreases len
  {
    hide IsText, ReadSlot, Drop;
    if len > 0 {
      TextShown(whole, at);
      TextsShown(whole, at + 86, len - 1);
      var r := ReadSlots(Drop(whole, at), len);
      if r.Ok? {
        var more := ReadSlots(Drop(whole, at + 86), len - 1).value.0;
        forall k | 0 <= k < len ensures IsText(whole, at + k * 86, r.value.0[k]) {
          assert k > 0 ==> at + 86 + (k - 1) * 86 == at + k * 86 && r.value.0[k] == more[k - 1];
        }
      }
    }
  }

  lemma {:induction false} TextsRead(whole: seq<byte>, at: nat, ts: seq<seq<byte>>)
    requires forall k :: 0 <= k < |ts| ==> IsText(whole, at + k * 86, ts[k])
    ensures ReadSlots(Drop(whole, at), |ts|) == Ok((ts, Drop(whole, at + |ts| * 86)))
    decreases |ts|
  {
    hide IsText, ReadSlot, Drop;
    if ts != [] {
      assert IsText(whole, at + 0 * 86, ts[0]);
      TextReads(whole, at, ts[0]);
      forall k | 0 <= k < |ts[1..]| ensures IsText(whole, at + 86 + k * 86, ts[1..][k]) {
        assert at + 86 + k * 86 == at + (k + 1) * 86;
      }
      TextsRead(whole, at + 86, ts[1..]);
      assert [ts[0]] + ts[1..] == ts;
    }
  }

  /// From the bytes to the values

  predicate BodyIsShown(whole: seq<byte>, at: nat, t: FieldType, res: Result<(Value, nat, seq<byte>)>) {
    res.Ok? ==>
      && res.value.1 == Width(t) && res.value.2 == Drop(whole, at + Width(t))
      && ShowsBody(whole, at, t, res.value.0)
  }

  lemma {:induction false} PlainShown(whole: seq<byte>, at: nat, t: FieldType)
    requires !t.Struct? && !t.StructArray?
    ensures BodyIsShown(whole, at, t, UnpackBody(t, Drop(whole, at)))
  {
    hide FromLE, IsText, IsWord, ReadSlot, ReadSlots, Drop, ReadFull;
    var res := UnpackBody(t, Drop(whole, at));
    match t
    case Scalar(width) =>
      FullDrop(whole, at, width.Bytes());
      if res.Ok? {
        WordShown(whole, at, width, ReadFull(Drop(whole, at), width.Bytes()).value.0);
      }
    case Bool(_) =>
      FullDrop(whole, at, 1);
      if res.Ok? {
        FlagsShown(whole, at, ReadFull(Drop(whole, at), 1).value.0);
        assert UnFlags(ReadFull(Drop(whole, at), 1).value.0)[0] == res.value.0.b;
      }
    case BoolArray(len, _) =>
      FullDrop(whole, at, len);
      if res.Ok? {
        FlagsShown(whole, at, ReadFull(Drop(whole, at), len).value.0);
      }
    case ScalarArray(width, len, _) =>
      FullDrop(whole, at, len * width.Bytes());
      if res.Ok? {
        WordsShown(whole, at, width, len, ReadFull(Drop(whole, at), len * width.Bytes()).value.0);
      }
    case Str => TextShown(whole, at);
    case StrArray(len) => TextsShown(whole, at, len);
  }

  lemma {:induction false} FlagsShown(whole: seq<byte>, at: nat, b: seq<byte>)
    requires Stands(whole, at, b)
    ensures forall k :: 0 <= k < |b| ==> IsFlag(whole, at + k, UnFlags(b)[k])
  {
    forall k | 0 <= k < |b| ensures IsFlag(whole, at + k, UnFlags(b)[k]) {
      assert Drop(whole, at)[k] == b[k];
    }
  }

  predicate StructIsShown(whole: seq<byte>, at: nat, fs: seq<FieldType>, res: Result<GotAll>) {
    res.Ok? ==>
      && res.value.n == Length(START, fs) && res.value.rest == Drop(whole, at + res.value.n)
      && Shows(whole, at, START, fs, res.value.vs)
  }

  predicate ElemsAreShown(
      whole: seq<byte>, at: nat, elem: seq<FieldType>, len: nat, res: Result<(seq<Value>, nat, seq<byte>)>) {
    res.Ok? ==>
      && res.value.1 == len * Length(START, elem) && res.value.2 == Drop(whole, at + res.value.1)
      && |res.value.0| == len && ShowsElems(whole, at, elem, res.value.0)
  }

  lemma {:induction false} StructBodyShown(whole: seq<byte>, at: nat, fs: seq<FieldType>)
    requires StructIsShown(whole, at, fs, UnpackStruct(fs, Drop(whole, at)))
    ensures BodyIsShown(whole, at, Struct(fs), UnpackBody(Struct(fs), Drop(whole, at)))
  {
    hide Drop, Shows, UnpackFields, Length;
  }

  lemma {:induction false} ElemsBodyShown(whole: seq<byte>, at: nat, elem: seq<FieldType>, len: nat)
    requires ElemsAreShown(whole, at, elem, len, UnpackElems(elem, len, Drop(whole, at)))
    ensures BodyIsShown(whole, at, StructArray(elem, len), UnpackBody(StructArray(elem, len), Drop(whole, at)))
  {
    hide Drop, ShowsElems, UnpackElems, Length;
  }

  lemma {:induction false} BodyShown(whole: seq<byte>, at: nat, t: FieldType)
    ensures BodyIsShown(whole, at, t, UnpackBody(t, Drop(whole, at)))
    decreases t, 0
  {
    hide BodyIsShown, StructIsShown, ElemsAreShown, UnpackBody, UnpackElems, UnpackStruct, Drop;
    match t
    case Struct(fields) =>
      StructShown(whole, at, fields);
      StructBodyShown(whole, at, fields);
    case StructArray(elem, len) =>
      ElemsShown(whole, at, elem, len);
      ElemsBodyShown(whole, at, elem, len);
    case _ => PlainShown(whole, at, t);
  }

  lemma {:induction false} StructShown(whole: seq<byte>, at: nat, fs: seq<FieldType>)
    ensures StructIsShown(whole, at, fs, UnpackStruct(fs, Drop(whole, at)))
    decreases fs, 3
  {
    hide Drop, Shows, UnpackFields, Length;
    FieldsShown(whole, at, UNPACK_START, fs, Drop(whole, at));
  }

  lemma {:induction false} ElemsShown(whole: seq<byte>, at: nat, elem: seq<FieldType>, len: nat)
    ensures ElemsAreShown(whole, at, elem, len, UnpackElems(elem, len, Drop(whole, at)))
    decreases elem, 4, len
  {
    hide Drop, Shows, UnpackStruct, Length;
    if len > 0 {
      StructShown(whole, at, elem);
      ElemsShown(whole, at + Length(START, elem), elem, len - 1);
      assert len * Length(START, elem) == Length(START, elem) + (len - 1) * Length(START, elem);
    }
  }

  ghost predicate FieldIsShown(
      whole: seq<byte>, base: nat, u: UnpackState, t: FieldType, res: Result<Got>) {
    res.Ok? ==>
      && ShowsField(whole, base, CursorOf(u), t, res.value.v)
      && CursorOf(res.value.u) == Next(CursorOf(u), t)
      && Linked(whole, base, res.value.u, res.value.rest)
  }

  lemma {:induction false} PackedShown(whole: seq<byte>, base: nat, u: UnpackState, t: FieldType, r: seq<byte>)
    requires Linked(whole, base, u, r) && IsPacked(t)
    ensures FieldIsShown(whole, base, u, t, UnpackField(u, t, r))
  {
    hide Drop, UnpackBits, Approach, IsBit, FirstBit, BitBytes;
    Approaches(whole, base, u, t, r);
    if UnpackField(u, t, r).Ok? {
      BitsShown(whole, base, u.(lastA := 1), BitCount(t), r);
    }
  }

  lemma {:induction false} FieldShown(whole: seq<byte>, base: nat, u: UnpackState, t: FieldType, r: seq<byte>)
    requires Linked(whole, base, u, r)
    ensures FieldIsShown(whole, base, u, t, UnpackField(u, t, r))
    decreases t, 1
  {
    hide Drop, Approach, Rem, UnpackBody, ShowsBody, ReadPad, Width;
    if IsPacked(t) {
      PackedShown(whole, base, u, t, r);
    } else {
      Approaches(whole, base, u, t, r);
      var at := base + Begin(CursorOf(u), t);
      BodyShown(whole, at, t);
      var end := Begin(CursorOf(u), t) + Width(t);
      PadDrop(whole, base + end, if t.Struct? then Rem(end, Align(t)) else 0);
    }
  }

  lemma {:induction false} FieldsShown(
      whole: seq<byte>, base: nat, u: UnpackState, fs: seq<FieldType>, r: seq<byte>)
    requires Linked(whole, base, u, r)
    ensures var res := UnpackFields(u, fs, r);
      res.Ok? ==>
        && res.value.n == Length(CursorOf(u), fs) && res.value.rest == Drop(whole, base + res.value.n)
        && Shows(whole, base, CursorOf(u), fs, res.value.vs)
    decreases fs, 2
  {
    hide Drop, UnpackField, ShowsField, Next;
    if fs != [] {
      FieldShown(whole, base, u, fs[0], r);
      var res := UnpackField(u, fs[0], r);
      if res.Ok? {
        FieldsShown(whole, base, res.value.u, fs[1..], res.value.rest);
      }
    }
  }

  /// From the values to the bytes

  lemma {:induction false} PlainRead(whole: seq<byte>, at: nat, t: FieldType, v: Value)
    requires !t.Struct? && !t.StructArray? && ShowsBody(whole, at, t, v) && at + Width(t) <= |whole|
    ensures UnpackBody(t, Drop(whole, at)) == Ok((v, Width(t), Drop(whole, at + Width(t))))
  {
    hide FromLE, IsText, IsWord, ReadSlot, ReadSlots, Drop, ReadFull;
    PlainShown(whole, at, t);
    FullDrop(whole, at, Width(t));
    match t
    case Scalar(width) =>
      WordUnique(whole, at, width, v.w, UnpackBody(t, Drop(whole, at)).value.0.w);
    case Bool(_) =>
    case BoolArray(len, _) =>
      FlagsUnique(whole, at, v.bs, UnpackBody(t, Drop(whole, at)).value.0.bs);
    case ScalarArray(width, len, _) =>
      WordsUnique(whole, at, width, len, v.ws, UnpackBody(t, Drop(whole, at)).value.0.ws);
    case Str => TextReads(whole, at, v.t);
    case StrArray(len) => TextsRead(whole, at, v.ts);
  }

  lemma {:induction false} FlagsUnique(whole: seq<byte>, at: nat, a: seq<bool>, b: seq<bool>)
    requires |a| == |b|
    requires forall k :: 0 <= k < |a| ==> IsFlag(whole, at + k, a[k]) && IsFlag(whole, at + k, b[k])
    ensures a == b
  {
  }

  lemma {:induction false} BodyRead(whole: seq<byte>, at: nat, t: FieldType, v: Value)
    requires ShowsBody(whole, at, t, v) && at + Width(t) <= |whole|
    ensures UnpackBody(t, Drop(whole, at)) == Ok((v, Width(t), Drop(whole, at + Width(t))))
    decreases t, 0
  {
    hide Drop, Shows, UnpackFields, Length, IsText, IsWord, ShowsElems;
    match t
    case Struct(fields) => StructRead(whole, at, fields, v.vs);
    case StructArray(elem, _) => ElemsRead(whole, at, elem, v.rs);
    case _ => PlainRead(whole, at, t, v);
  }

  lemma {:induction false} StructRead(whole: seq<byte>, at: nat, fs: seq<FieldType>, vs: seq<Value>)
    requires Shows(whole, at, START, fs, vs) && at + Length(START, fs) <= |whole|
    ensures UnpackStruct(fs, Drop(whole, at)) ==
      Ok(GotAll(vs, Length(START, fs), Drop(whole, at + Length(START, fs))))
    decreases fs, 3
  {
    hide Shows, UnpackFields, Length;
    FieldsRead(whole, at, UNPACK_START, fs, Drop(whole, at), vs);
  }

  lemma {:induction false} ElemsRead(whole: seq<byte>, at: nat, elem: seq<FieldType>, rs: seq<Value>)
    requires ShowsElems(whole, at, elem, rs) && at + |rs| * Length(START, elem) <= |whole|
    ensures UnpackElems(elem, |rs|, Drop(whole, at)) ==
      Ok((rs, |rs| * Length(START, elem), Drop(whole, at + |rs| * Length(START, elem))))
    decreases elem, 4, |rs|
  {
    hide Drop, Shows, UnpackStruct, Length;
    if rs != [] {
      var one := Length(START, elem);
      assert |rs| * one == one + (|rs| - 1) * one;
      NotNegative(|rs| - 1, one);
      StructRead(whole, at, elem, rs[0].vs);
      ElemsRead(whole, at + one, elem, rs[1..]);
      assert [Record(rs[0].vs)] + rs[1..] == rs;
    }
  }

  lemma {:induction false} NotNegative(a: nat, b: nat)
    ensures a * b >= 0
  {
  }

  lemma {:induction false} PackedRead(whole: seq<byte>, base: nat, u: UnpackState, t: FieldType, r: seq<byte>, v: Value)
    requires Linked(whole, base, u, r) && IsPacked(t)
    requires ShowsField(whole, base, CursorOf(u), t, v) && base + Next(CursorOf(u), t).n <= |whole|
    ensures var res := UnpackField(u, t, r); res.Ok? && res.value.v == v
  {
    hide Drop, UnpackBits, Approach, FirstBit, BitBytes, Bit;
    Approaches(whole, base, u, t, r);
    Reachable(whole, base, u, t, r);
    BitsShown(whole, base, u.(lastA := 1), BitCount(t), r);
    PackedShown(whole, base, u, t, r);
    var got := UnpackField(u, t, r).value.v;
    assert Bits(got) == Bits(v);
  }

  lemma {:induction false} Reachable(whole: seq<byte>, base: nat, u: UnpackState, t: FieldType, r: seq<byte>)
    requires Linked(whole, base, u, r) && base + Next(CursorOf(u), t).n <= |whole|
    ensures base + Begin(CursorOf(u), t) <= |whole|
  {
    hide Drop, Begin, BitBytes, Rem;
  }

  lemma {:induction false} FieldRead(whole: seq<byte>, base: nat, u: UnpackState, t: FieldType, r: seq<byte>, v: Value)
    requires Linked(whole, base, u, r)
    requires ShowsField(whole, base, CursorOf(u), t, v) && base + Next(CursorOf(u), t).n <= |whole|
    ensures var res := UnpackField(u, t, r); res.Ok? && res.value.v == v
    decreases t, 1
  {
    hide Drop, Approach, Rem, UnpackBody, ShowsBody, ReadPad, Width;
    if IsPacked(t) {
      PackedRead(whole, base, u, t, r, v);
    } else {
      Approaches(whole, base, u, t, r);
      Reachable(whole, base, u, t, r);
      BodyRead(whole, base + Begin(CursorOf(u), t), t, v);
      var end := Begin(CursorOf(u), t) + Width(t);
      PadDrop(whole, base + end, if t.Struct? then Rem(end, Align(t)) else 0);
    }
  }

  /** Positions only grow. */
  lemma {:induction false} LengthGrows(c: Cursor, fs: seq<FieldType>)
    requires c.bitpos < 8
    ensures Length(c, fs) >= c.n
    decreases fs
  {
    hide Rem, Width, BitBytes;
    if fs != [] {
      LengthGrows(Next(c, fs[0]), fs[1..]);
    }
  }

  lemma {:induction false} FieldsRead(
      whole: seq<byte>, base: nat, u: UnpackState, fs: seq<FieldType>, r: seq<byte>, vs: seq<Value>)
    requires Linked(whole, base, u, r)
    requires Shows(whole, base, CursorOf(u), fs, vs) && base + Length(CursorOf(u), fs) <= |whole|
    ensures var n := Length(CursorOf(u), fs); UnpackFields(u, fs, r) == Ok(GotAll(vs, n, Drop(whole, base + n)))
    decreases fs, 2
  {
    hide Drop, UnpackField, ShowsField, Next;
    if fs != [] {
      FieldShown(whole, base, u, fs[0], r);
      assert Next(CursorOf(u), fs[0]).bitpos < 8 by { NextBits(CursorOf(u), fs[0]); }
      LengthGrows(Next(CursorOf(u), fs[0]), fs[1..]);
      FieldRead(whole, base, u, fs[0], r, vs[0]);
      var got := UnpackField(u, fs[0], r).value;
      FieldsRead(whole, base, got.u, fs[1..], got.rest, vs[1..]);
      assert [vs[0]] + vs[1..] == vs;
    }
  }

  lemma {:induction false} NextBits(c: Cursor, t: FieldType)
    ensures Next(c, t).bitpos < 8
  {
    hide Rem, Width, BitBytes;
  }

  /// The law

  /**
   Whatever stream `Unpack` accepts, with whatever in its padding, for every type: each flag of a
   byte of its own is true exactly when that byte is not 0, each packed flag is its bit, each number
   is the little-endian value of its bytes, each string has its length and its characters.
   */
  lemma {:induction false} UnpackedStands(fs: seq<FieldType>, whole: seq<byte>)
    ensures var res := UnpackStruct(fs, whole);
      res.Ok? ==>
        && Shows(whole, 0, START, fs, res.value.vs)
        && res.value.n == Length(START, fs) && res.value.rest == Drop(whole, res.value.n)
  {
    hide Shows, Length, UnpackFields;
    assert Drop(whole, 0) == whole;
    StructShown(whole, 0, fs);
  }

  /** Of a stream that is long enough, a value is read exactly when it stands there. */
  lemma {:induction false} ReadExactlyWhatStands(fs: seq<FieldType>, whole: seq<byte>, vs: seq<Value>)
    requires Length(START, fs) <= |whole|
    ensures var n := Length(START, fs);
      UnpackStruct(fs, whole) == Ok(GotAll(vs, n, whole[n..])) <==> Shows(whole, 0, START, fs, vs)
  {
    hide Shows, Length, UnpackStruct;
    assert Drop(whole, 0) == whole;
    StructShown(whole, 0, fs);
    if Shows(whole, 0, START, fs, vs) {
      StructRead(whole, 0, fs, vs);
    }
  }
}
