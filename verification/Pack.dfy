/** `Pack`, `Unpack` and `Align` as the loops of pack.go. */
module Pack {
  import opened Wire
  import opened PackSpec
  import opened Streams

  /** The largest alignment of the fields, but at least 4. */
  method StructAlign(fs: seq<FieldType>) returns (a: Alignment)
    ensures a == Max(4, MaxAlign(fs))
    decreases fs, 0
  {
    a := 1;
    for i := 0 to |fs|
      invariant Max(a, MaxAlign(fs[i..])) == MaxAlign(fs)
    {
      assert fs[i..][0] == fs[i] && fs[i..][1..] == fs[i + 1..];
      var sub := FieldAlign(fs[i]);
      if sub > a {
        a := sub;
      }
    }
    assert fs[|fs|..] == [];
    if a < 4 {
      a := 4;
    }
  }

  method FieldAlign(t: FieldType) returns (a: Alignment)
    ensures a == Align(t)
    decreases t, 1
  {
    match t
    case Scalar(width) => a := width.Bytes();
    case Bool(_) => a := 1;
    case BoolArray(_, _) => a := 1;
    case ScalarArray(width, _, _) => a := width.Bytes();
    case Struct(fields) => a := StructAlign(fields);
    case StructArray(elem, _) => a := StructAlign(elem);
    case Str => a := 4;
    case StrArray(_) => a := 4;
  }

  method PackAll(w: Stream, fs: seq<FieldType>, vs: seq<Value>) returns (pos: nat)
    requires HasTypes(vs, fs)
    modifies w
    ensures w.data == old(w.data) + PackStruct(fs, vs) && pos == |PackStruct(fs, vs)|
    decreases fs, 4
  {
    hide PackField, Align, HasType;
    pos := 0;
    var bitpos, bitpack: byte, lastA := 0, 0, 1;
    var i := 0;
    while i < |fs|
      invariant 0 <= i <= |fs| && bitpos < 8
      invariant HasTypes(vs[i..], fs[i..])
      invariant old(w.data) + PackStruct(fs, vs) ==
        w.data + PackFields(PackState(pos, bitpos, bitpack, lastA), fs[i..], vs[i..])
      invariant pos == |w.data| - |old(w.data)|
      decreases |fs| - i
    {
      ghost var p := PackState(pos, bitpos, bitpack, lastA);
      ghost var before := w.data;
      PackUnfold(p, fs[i..], vs[i..]);
      assert fs[i..][0] == fs[i] && fs[i..][1..] == fs[i + 1..];
      assert vs[i..][0] == vs[i] && vs[i..][1..] == vs[i + 1..];
      var a := FieldAlign(fs[i]);
      pos, bitpos, bitpack := PackOne(w, a, lastA, fs[i], vs[i], pos, bitpos, bitpack);
      lastA := a;
      i := i + 1;
    }
    if bitpos > 0 {
      w.Write([bitpack]);
      pos := pos + 1;
    }
  }

  /** One turn of the loop of `Pack`. */
  method PackOne(w: Stream, a: Alignment, lastA: nat, t: FieldType, v: Value,
                 pos0: nat, bitpos0: nat, bitpack0: byte)
    returns (pos: nat, bitpos: nat, bitpack: byte)
    requires bitpos0 < 8 && HasType(v, t) && a == Align(t)
    modifies w
    ensures bitpos < 8
    ensures var (p1, out) := PackField(PackState(pos0, bitpos0, bitpack0, lastA), t, v);
      p1 == PackState(pos, bitpos, bitpack, a) && w.data == old(w.data) + out
    ensures pos == pos0 + |w.data| - |old(w.data)|
    decreases t, 3
  {
    hide PackRest, PieceOf, Rem, Align, HasType;
    pos, bitpos, bitpack := pos0, bitpos0, bitpack0;
    if a > lastA {
      pos := Pad(w, pos, a);
    }
    ghost var pre := PackPre(PackState(pos0, bitpos0, bitpack0, lastA), a).1;
    assert w.data == old(w.data) + pre;
    ghost var out := PackRest(PackState(pos, bitpos, bitpack, a), a, PieceOf(t, v)).1;
    assert (old(w.data) + pre) + out == old(w.data) + (pre + out);
    pos, bitpos, bitpack := WriteField(w, a, t, v, pos, bitpos, bitpack);
  }

  method WriteField(w: Stream, a: Alignment, t: FieldType, v: Value,
                    pos0: nat, bitpos0: nat, bitpack0: byte)
    returns (pos: nat, bitpos: nat, bitpack: byte)
    requires bitpos0 < 8 && HasType(v, t)
    modifies w
    ensures bitpos < 8
    ensures var (p1, out) := PackRest(PackState(pos0, bitpos0, bitpack0, a), a, PieceOf(t, v));
      p1 == PackState(pos, bitpos, bitpack, a) && w.data == old(w.data) + out
    ensures pos == pos0 + |w.data| - |old(w.data)|
    decreases t, 2
  {
    pos, bitpos, bitpack := pos0, bitpos0, bitpack0;
    if IsPacked(t) {
      pos, bitpos, bitpack := WriteBits(w, Bits(v), pos, bitpos, bitpack, a);
    } else if IsRaw(t) {
      var n := WriteBody(w, t, v);
      pos, bitpos := pos + n, 0;
    } else {
      if t.ScalarArray? && !t.nopack {
        bitpos := 0;
      }
      pos, bitpos, bitpack := WriteAligned(w, a, t, v, pos, bitpos, bitpack);
    }
  }

  /** The part of the loop that every field outside the bit, string and struct array cases reaches. */
  method WriteAligned(w: Stream, a: Alignment, t: FieldType, v: Value,
                      pos0: nat, bitpos0: nat, bitpack0: byte)
    returns (pos: nat, bitpos: nat, bitpack: byte)
    requires HasType(v, t)
    modifies w
    ensures var (p1, out) := PackAligned(PackState(pos0, bitpos0, bitpack0, a), a, Body(t, v), t.Struct?);
      p1 == PackState(pos, bitpos, bitpack, a) && w.data == old(w.data) + out
    ensures bitpos == 0 && pos == pos0 + |w.data| - |old(w.data)|
    decreases t, 1
  {
    hide Body, HasType, Rem;
    pos, bitpos, bitpack := pos0, bitpos0, bitpack0;
    ghost var flush := if bitpos > 0 then [bitpack] else [];
    if bitpos > 0 {
      w.Write([bitpack]);
      bitpos, bitpack, pos := 0, 0, pos + 1;
    }
    assert w.data == old(w.data) + flush;
    ghost var pad := Zeros(Rem(pos, a));
    pos := Pad(w, pos, a);
    var n := WriteBody(w, t, v);
    pos := pos + n;
    ghost var post := Zeros(if t.Struct? then Rem(pos, a) else 0);
    if t.Struct? {
      pos := Pad(w, pos, a);
    }
    Grouped(old(w.data), flush, pad, Body(t, v), post);
  }

  lemma {:induction false} Grouped(x: seq<byte>, flush: seq<byte>, pad: seq<byte>, body: seq<byte>, post: seq<byte>)
    ensures x + flush + pad + body + post == x + (flush + pad + body + post)
  {
  }

  /** `rem := a - pos % a`, and padding unless that is `a`. */
  method Pad(w: Stream, pos: nat, a: Alignment) returns (end: nat)
    modifies w
    ensures end == pos + Rem(pos, a) && w.data == old(w.data) + Zeros(Rem(pos, a))
  {
    RemFormula(pos, a);
    var rem := a - pos % a;
    end := pos;
    if rem != a {
      w.Write(Zeros(rem));
      end := pos + rem;
    }
  }

  method WriteBits(w: Stream, bits: seq<bool>, pos0: nat, bitpos0: nat, bitpack0: byte, ghost lastA: nat)
    returns (pos: nat, bitpos: nat, bitpack: byte)
    requires bitpos0 < 8
    modifies w
    ensures bitpos < 8
    ensures var (p1, out) := PackBits(PackState(pos0, bitpos0, bitpack0, lastA), bits);
      p1 == PackState(pos, bitpos, bitpack, lastA) && w.data == old(w.data) + out
    ensures pos == pos0 + |w.data| - |old(w.data)|
  {
    pos, bitpos, bitpack := pos0, bitpos0, bitpack0;
    ghost var p0 := PackState(pos0, bitpos0, bitpack0, lastA);
    for i := 0 to |bits|
      invariant bitpos < 8 && pos == pos0 + |w.data| - |old(w.data)|
      invariant var (p1, out) := PackBits(PackState(pos, bitpos, bitpack, lastA), bits[i..]);
        PackBits(p0, bits).0 == p1 && old(w.data) + PackBits(p0, bits).1 == w.data + out
    {
      assert bits[i..][0] == bits[i] && bits[i..][1..] == bits[i + 1..];
      bitpack := OrBit(bitpack, bitpos, bits[i]);
      bitpos := bitpos + 1;
      if bitpos >= 8 {
        w.Write([bitpack]);
        bitpos, bitpack, pos := 0, 0, pos + 1;
      }
    }
  }

  /** The data of one field; a nested struct is a call of `Pack`. */
  method WriteBody(w: Stream, t: FieldType, v: Value) returns (n: nat)
    requires HasType(v, t)
    modifies w
    ensures w.data == old(w.data) + Body(t, v) && n == |Body(t, v)|
    decreases t, 0
  {
    match t {
      case Scalar(width) =>
        w.Write(LE(v.w, width.Bytes()));
        n := width.Bytes();
      case Bool(_) =>
        w.Write(FlagBytes([v.b]));
        n := 1;
      case BoolArray(len, _) =>
        w.Write(FlagBytes(v.bs));
        n := len;
      case ScalarArray(width, len, _) =>
        w.Write(WordBytes(v.ws, width.Bytes()));
        n := len * width.Bytes();
      case Struct(fields) =>
        n := PackAll(w, fields, v.vs);
      case StructArray(elem, len) =>
        n := WriteElems(w, elem, v.rs);
      case Str =>
        w.Write(Slot(v.t));
        n := 86;
      case StrArray(len) =>
        n := WriteSlots(w, v.ts);
    }
  }

  method WriteElems(w: Stream, elem: seq<FieldType>, rs: seq<Value>) returns (n: nat)
    requires AreRecords(rs, elem)
    modifies w
    ensures w.data == old(w.data) + PackElems(elem, rs) && n == |PackElems(elem, rs)|
    decreases elem, 5
  {
    hide PackElems, AreRecords, PackStruct;
    n := 0;
    var i := 0;
    assert rs[0..] == rs;
    while i < |rs|
      invariant 0 <= i <= |rs| && AreRecords(rs[i..], elem)
      invariant old(w.data) + PackElems(elem, rs) == w.data + PackElems(elem, rs[i..])
      invariant n == |w.data| - |old(w.data)|
      decreases |rs| - i
    {
      ElemStep(w.data, elem, rs, i);
      var s := PackAll(w, elem, rs[i].vs);
      n := n + s;
      i := i + 1;
    }
    NoElems(elem, rs[|rs|..]);
    assert w.data + [] == w.data;
  }

  lemma {:induction false} ElemStep(done: seq<byte>, elem: seq<FieldType>, rs: seq<Value>, i: nat)
    requires i < |rs| && AreRecords(rs[i..], elem)
    ensures rs[i].Record? && HasTypes(rs[i].vs, elem) && AreRecords(rs[i + 1..], elem)
    ensures done + PackElems(elem, rs[i..]) == (done + PackStruct(elem, rs[i].vs)) + PackElems(elem, rs[i + 1..])
  {
    hide PackStruct, HasTypes;
    var rest := rs[i..];
    assert rest[0] == rs[i] && rest[1..] == rs[i + 1..];
    assert done + (PackStruct(elem, rs[i].vs) + PackElems(elem, rs[i + 1..])) ==
      (done + PackStruct(elem, rs[i].vs)) + PackElems(elem, rs[i + 1..]);
  }

  lemma {:induction false} NoElems(elem: seq<FieldType>, rs: seq<Value>)
    requires rs == []
    ensures AreRecords(rs, elem) && PackElems(elem, rs) == []
  {
  }

  method WriteSlots(w: Stream, ts: seq<seq<byte>>) returns (n: nat)
    modifies w
    ensures w.data == old(w.data) + Slots(ts) && n == |Slots(ts)|
  {
    n := 0;
    for i := 0 to |ts|
      invariant old(w.data) + Slots(ts) == w.data + Slots(ts[i..])
      invariant n == 86 * i
    {
      assert ts[i..][0] == ts[i] && ts[i..][1..] == ts[i + 1..];
      w.Write(Slot(ts[i]));
      n := n + 86;
    }
  }

  /// Unpack

  function Prepend(vs: seq<Value>, all: Result<GotAll>): Result<GotAll> {
    if all.Err? then all else Ok(all.value.(vs := vs + all.value.vs))
  }

  lemma {:induction false} PrependNone(all: Result<GotAll>)
    ensures Prepend([], all) == all
  {
    if all.Ok? {
      assert [] + all.value.vs == all.value.vs;
    }
  }

  lemma {:induction false} PrependOne(vs: seq<Value>, u: UnpackState, fs: seq<FieldType>, r: seq<byte>)
    requires u.bitpos < 8 && fs != []
    ensures var got := UnpackField(u, fs[0], r);
      Prepend(vs, UnpackFields(u, fs, r)) ==
      if got.Err? then Err(got.error)
      else Prepend(vs + [got.value.v], UnpackFields(got.value.u, fs[1..], got.value.rest))
  {
    if UnpackField(u, fs[0], r).Ok? {
      var got := UnpackField(u, fs[0], r).value;
      UnpackUnfold(u, fs, r);
      PrependCons(vs, got, UnpackFields(got.u, fs[1..], got.rest));
    }
  }

  lemma {:induction false} PrependCons(vs: seq<Value>, got: Got, all: Result<GotAll>)
    ensures Prepend(vs, Cons(got, all)) == Prepend(vs + [got.v], all)
  {
    if all.Ok? {
      assert vs + ([got.v] + all.value.vs) == (vs + [got.v]) + all.value.vs;
    }
  }

  /** Read a whole struct: the values and how many bytes `Unpack` counts for it. */
  method UnpackAll(r: Stream, fs: seq<FieldType>) returns (res: Result<(seq<Value>, nat)>)
    modifies r
    ensures var spec := UnpackStruct(fs, old(r.data));
      match res
      case Err(e) => spec == Err(e)
      case Ok(v) => spec == Ok(GotAll(v.0, v.1, r.data))
    decreases fs, 4
  {
    ghost var spec := UnpackStruct(fs, r.data);
    var n, bitpos, bitpack: byte, lastA := 0, 0, 0, 1;
    var vs: seq<Value> := [];
    var i := 0;
    PrependNone(spec);
    while i < |fs|
      invariant 0 <= i <= |fs| && bitpos < 8
      invariant spec == Prepend(vs, UnpackFields(UnpackState(n, bitpos, bitpack, lastA), fs[i..], r.data))
      decreases |fs| - i
    {
      PrependOne(vs, UnpackState(n, bitpos, bitpack, lastA), fs[i..], r.data);
      assert fs[i..][0] == fs[i] && fs[i..][1..] == fs[i + 1..];
      var a := FieldAlign(fs[i]);
      var got := ReadField(r, a, lastA, fs[i], n, bitpos, bitpack);
      if got.Err? {
        return Err(got.error);
      }
      n, bitpos, bitpack, lastA := got.value.0.n, got.value.0.bitpos, got.value.0.bitpack, a;
      vs := vs + [got.value.1];
      i := i + 1;
    }
    assert vs + [] == vs;
    return Ok((vs, n));
  }

  /** One turn of the loop of `Unpack`. */
  method ReadField(r: Stream, a: Alignment, lastA: nat, t: FieldType,
                   n0: nat, bitpos: nat, bitpack: byte)
    returns (res: Result<(UnpackState, Value)>)
    requires bitpos < 8 && a == Align(t)
    modifies r
    ensures var spec := UnpackField(UnpackState(n0, bitpos, bitpack, lastA), t, old(r.data));
      match res
      case Err(e) => spec == Err(e)
      case Ok(v) => spec == Ok(Got(v.0, v.1, r.data)) && v.0.lastA == a
    decreases t, 2
  {
    hide UnpackBody, Approach, UnpackBits, Align, ReadPad, Rem;
    var near := SkipTo(r, a, lastA, IsPacked(t) || IsRaw(t), n0, bitpos, bitpack);
    if near.Err? {
      return Err(near.error);
    }
    var n := near.value;
    if IsPacked(t) {
      var bits := ReadBits(r, BitCount(t), n, bitpos, bitpack, a);
      if bits.Err? {
        return Err(bits.error);
      }
      return Ok((bits.value.0, if t.Bool? then Flag(bits.value.1[0]) else Flags(bits.value.1)));
    }
    var body := ReadBody(r, t);
    if body.Err? {
      return Err(body.error);
    }
    n := n + body.value.1;
    PadNone(r.data);
    if t.Struct? {
      var ok;
      n, ok := SkipPad(r, n, a);
      if !ok {
        return Err(EndOfData);
      }
    }
    return Ok((UnpackState(n, 0, bitpack, a), body.value.0));
  }

  lemma {:induction false} PadNone(r: seq<byte>)
    ensures ReadPad(r, 0) == Ok(r)
  {
  }

  /** The padding in front of a field. */
  method SkipTo(r: Stream, a: Alignment, lastA: nat, direct: bool, n0: nat,
                ghost bitpos: nat, ghost bitpack: byte)
    returns (res: Result<nat>)
    modifies r
    ensures var spec := Approach(UnpackState(n0, bitpos, bitpack, lastA), a, direct, old(r.data));
      match res
      case Err(e) => spec == Err(e)
      case Ok(n) => spec == Ok((n, r.data))
  {
    var n, ok := n0, true;
    if a > lastA {
      n, ok := SkipPad(r, n, a);
      if !ok {
        return Err(EndOfData);
      }
    }
    if !direct {
      n, ok := SkipPad(r, n, a);
      if !ok {
        return Err(EndOfData);
      }
    }
    return Ok(n);
  }

  method SkipPad(r: Stream, n: nat, a: Alignment) returns (end: nat, ok: bool)
    modifies r
    ensures end == n + Rem(n, a) && ok == ReadPad(old(r.data), Rem(n, a)).Ok?
    ensures ok ==> r.data == ReadPad(old(r.data), Rem(n, a)).value
    ensures !ok ==> ReadPad(old(r.data), Rem(n, a)) == Err(EndOfData)
  {
    RemFormula(n, a);
    var rem := a - n % a;
    end, ok := n, true;
    if rem < a && rem > 0 {
      ok := r.Skip(rem);
      end := n + rem;
    }
  }

  method ReadBits(r: Stream, len: nat, n0: nat, bitpos0: nat, bitpack0: byte, lastA: nat)
    returns (res: Result<(UnpackState, seq<bool>)>)
    requires bitpos0 < 8
    modifies r
    ensures var spec := UnpackBits(UnpackState(n0, bitpos0, bitpack0, lastA), len, old(r.data));
      match res
      case Err(e) => spec == Err(e)
      case Ok(v) => spec == Ok((v.0, v.1, r.data))
  {
    hide Bit, UnpackBits, BitsAhead;
    var n, bitpos, bitpack := n0, bitpos0, bitpack0;
    var bs: seq<bool> := [];
    ghost var spec := UnpackBits(UnpackState(n0, bitpos0, bitpack0, lastA), len, r.data);
    NoBitsAhead(spec);
    for i := 0 to len
      invariant bitpos < 8
      invariant spec == BitsAhead(bs, UnpackBits(UnpackState(n, bitpos, bitpack, lastA), len - i, r.data))
    {
      BitsStep(bs, UnpackState(n, bitpos, bitpack, lastA), len - i, r.data);
      if bitpos == 0 {
        var b := r.ReadAll(1);
        if b.Err? {
          return Err(b.error);
        }
        bitpack, n := b.value[0], n + 1;
      }
      bs := bs + [Bit(bitpack, bitpos)];
      bitpos := bitpos + 1;
      if bitpos >= 8 {
        bitpos := 0;
      }
    }
    BitsEnd(bs, UnpackState(n, bitpos, bitpack, lastA), r.data);
    return Ok((UnpackState(n, bitpos, bitpack, lastA), bs));
  }

  type BitsRead = Result<(UnpackState, seq<bool>, seq<byte>)>

  /** Bits already read, in front of those still to come. */
  function BitsAhead(bs: seq<bool>, more: BitsRead): BitsRead {
    if more.Err? then more else Ok((more.value.0, bs + more.value.1, more.value.2))
  }

  lemma {:induction false} NoBitsAhead(more: BitsRead)
    ensures BitsAhead([], more) == more
  {
    if more.Ok? {
      assert [] + more.value.1 == more.value.1;
    }
  }

  lemma {:induction false} BitsStep(bs: seq<bool>, u: UnpackState, len: nat, r: seq<byte>)
    requires u.bitpos < 8 && len > 0
    ensures var one := UnpackBit(u, r);
      BitsAhead(bs, UnpackBits(u, len, r)) ==
        if one.Err? then Err(one.error)
        else BitsAhead(bs + [one.value.1], UnpackBits(one.value.0, len - 1, one.value.2))
  {
    hide Bit;
    var one := UnpackBit(u, r);
    if one.Ok? {
      var more := UnpackBits(one.value.0, len - 1, one.value.2);
      if more.Ok? {
        assert bs + ([one.value.1] + more.value.1) == (bs + [one.value.1]) + more.value.1;
      }
    }
  }

  lemma {:induction false} BitsEnd(bs: seq<bool>, u: UnpackState, r: seq<byte>)
    requires u.bitpos < 8
    ensures BitsAhead(bs, UnpackBits(u, 0, r)) == Ok((u, bs, r))
  {
    assert bs + [] == bs;
  }

  method ReadBody(r: Stream, t: FieldType) returns (res: Result<(Value, nat)>)
    modifies r
    ensures var spec := UnpackBody(t, old(r.data));
      match res
      case Err(e) => spec == Err(e)
      case Ok(v) => spec == Ok((v.0, v.1, r.data))
    decreases t, 0
  {
    match t {
      case Struct(fields) =>
        var got := UnpackAll(r, fields);
        if got.Err? {
          return Err(got.error);
        }
        return Ok((Record(got.value.0), got.value.1));
      case StructArray(elem, len) =>
        var got := ReadElems(r, elem, len);
        if got.Err? {
          return Err(got.error);
        }
        return Ok((Records(got.value.0), got.value.1));
      case _ =>
        res := ReadFlat(r, t);
    }
  }

  /** Everything that is not a struct. */
  method ReadFlat(r: Stream, t: FieldType) returns (res: Result<(Value, nat)>)
    requires !t.Struct? && !t.StructArray?
    modifies r
    ensures var spec := UnpackBody(t, old(r.data));
      match res
      case Err(e) => spec == Err(e)
      case Ok(v) => spec == Ok((v.0, v.1, r.data))
  {
    if t.Str? || t.StrArray? {
      var ts := ReadStrings(r, if t.Str? then 1 else t.len);
      if ts.Err? {
        return Err(ts.error);
      }
      return Ok(if t.Str? then (Text(ts.value[0]), 86) else (Texts(ts.value), 86 * t.len));
    }
    var size := if t.Scalar? then t.width.Bytes() else if t.Bool? then 1
      else if t.BoolArray? then t.len else t.len * t.width.Bytes();
    var b := r.ReadAll(size);
    if b.Err? {
      return Err(b.error);
    }
    if t.Scalar? {
      return Ok((Word(FromLE(b.value)), size));
    } else if t.Bool? {
      return Ok((Flag(b.value[0] != 0), size));
    } else if t.BoolArray? {
      return Ok((Flags(UnFlags(b.value)), size));
    } else {
      return Ok((Words(UnWords(b.value, t.width.Bytes(), t.len)), size));
    }
  }

  method ReadStrings(r: Stream, len: nat) returns (res: Result<seq<seq<byte>>>)
    modifies r
    ensures var spec := ReadSlots(old(r.data), len);
      match res
      case Err(e) => spec == Err(e)
      case Ok(v) => spec == Ok((v, r.data)) && |v| == len
  {
    var ts: seq<seq<byte>> := [];
    ghost var spec := ReadSlots(r.data, len);
    if spec.Ok? {
      assert [] + spec.value.0 == spec.value.0;
    }
    for i := 0 to len
      invariant |ts| == i
      invariant var rest := ReadSlots(r.data, len - i);
        if rest.Err? then spec == Err(rest.error) else spec == Ok((ts + rest.value.0, rest.value.1))
    {
      if |r.data| < 86 {
        return Err(ShortData);
      }
      ghost var before := r.data;
      var slot := r.ReadAll(86);
      assert slot.value == before[..86] && r.data == before[86..];
      var n := FromU32(slot.value);
      if n > STRING_DATA {
        return Err(Malformed);
      }
      var t := slot.value[4..n + 4];
      assert t == before[4..n + 4];
      ghost var more := ReadSlots(r.data, len - i - 1);
      if more.Ok? {
        assert ts + ([t] + more.value.0) == (ts + [t]) + more.value.0;
      }
      ts := ts + [t];
    }
    assert ts + [] == ts;
    return Ok(ts);
  }

  method ReadElems(r: Stream, elem: seq<FieldType>, len: nat) returns (res: Result<(seq<Value>, nat)>)
    modifies r
    ensures var spec := UnpackElems(elem, len, old(r.data));
      match res
      case Err(e) => spec == Err(e)
      case Ok(v) => spec == Ok((v.0, v.1, r.data))
    decreases elem, 5
  {
    var rs: seq<Value>, n := [], 0;
    ghost var spec := UnpackElems(elem, len, r.data);
    if spec.Ok? {
      assert [] + spec.value.0 == spec.value.0;
    }
    var i := 0;
    while i < len
      invariant 0 <= i <= len
      invariant var rest := UnpackElems(elem, len - i, r.data);
        if rest.Err? then spec == Err(rest.error)
        else spec == Ok((rs + rest.value.0, n + rest.value.1, rest.value.2))
      decreases len - i
    {
      var got := UnpackAll(r, elem);
      if got.Err? {
        return Err(got.error);
      }
      ghost var more := UnpackElems(elem, len - i - 1, r.data);
      if more.Ok? {
        assert rs + ([Record(got.value.0)] + more.value.0) == (rs + [Record(got.value.0)]) + more.value.0;
      }
      rs, n := rs + [Record(got.value.0)], n + got.value.1;
      i := i + 1;
    }
    assert rs + [] == rs;
    return Ok((rs, n));
  }
}
