/** The common packet format of items.go: a list of typed, length-prefixed items. */
module Items {
  import opened Wire
  import opened Sequences
  import opened Streams

  const CONNECTION_ADDRESS: nat := 0x00A1
  const CONNECTED_DATA: nat := 0x00B1

  /** What an item puts on the wire. */
  datatype ItemValue = ItemValue(id: nat, length: nat, data: seq<byte>)

  function ItemBytes(v: ItemValue): seq<byte> {
    U16(v.id) + U16(v.length) + v.data
  }

  function AllItemBytes(vs: seq<ItemValue>): seq<byte> {
    if vs == [] then [] else ItemBytes(vs[0]) + AllItemBytes(vs[1..])
  }

  /** Six bytes of interface handle and sequence counter, the item count, the items. */
  function Framed(vs: seq<ItemValue>): seq<byte> {
    Zeros(6) + (U16(|vs|) + AllItemBytes(vs))
  }

  function ParseItem(r: seq<byte>): Result<(ItemValue, seq<byte>)> {
    var (h, r1) :- ReadFull(r, 4);
    var length := FromU16(h[2..]);
    var (d, r2) :- ReadFull(r1, length);
    Ok((ItemValue(FromU16(h), length, d), r2))
  }

  function ParseItemList(r: seq<byte>, count: nat): Result<(seq<ItemValue>, seq<byte>)> {
    if count == 0 then Ok(([], r))
    else
      var (v, r1) :- ParseItem(r);
      var (vs, r2) :- ParseItemList(r1, count - 1);
      Ok(([v] + vs, r2))
  }

  /** A stream that stands at the item count. */
  function ParseItems(r: seq<byte>): Result<(seq<ItemValue>, seq<byte>)> {
    var (h, r1) :- ReadFull(r, 2);
    ParseItemList(r1, FromU16(h))
  }

  /// The cursor

  /** `binary.Read` of `k` bytes at position `pos`; a negative position is a slice out of range. */
  function TakeAt(data: seq<byte>, pos: int, k: nat): (r: Result<seq<byte>>)
    ensures r.Ok? ==> |r.value| == k
  {
    if k == 0 then Ok([])
    else if pos >= |data| then Err(EndOfData)
    else if pos < 0 then Err(Panic)
    else if pos + k > |data| then Err(ShortData)
    else Ok(data[pos..pos + k])
  }

  lemma {:induction false} TakeIsRead(data: seq<byte>, pos: nat, k: nat)
    requires pos <= |data|
    ensures ReadFull(data[pos..], k) ==
      match TakeAt(data, pos, k)
      case Ok(b) => Ok((b, data[pos + k..]))
      case Err(e) => Err(e)
  {
    if pos + k <= |data| {
      assert data[pos..][..k] == data[pos..pos + k] && data[pos..][k..] == data[pos + k..];
    }
  }

  /** The typed readers check the length first. */
  function TypedAt(data: seq<byte>, pos: int, k: nat): (r: Result<seq<byte>>)
    requires k > 0
    ensures r.Ok? ==> |r.value| == k
  {
    if |data| < pos + k then Err(ShortData)
    else if pos < 0 then Err(Panic)
    else Ok(data[pos..pos + k])
  }

  function Signed16(v: nat): int
    requires v < 65536
  {
    if v < 32768 then v else v - 65536
  }

  /** The one number of that range with the same low 16 bits. */
  lemma {:induction false} Signed16Meaning(v: nat, x: int)
    requires v < 65536
    ensures Signed16(v) == x <==> -32768 <= x < 32768 && x % 65536 == v
  {
  }

  /// What is serialized

  /** A string, a list of strings, or a value whose encoding is fixed. */
  datatype Argument = StrArg(s: seq<byte>) | StrsArg(ss: seq<seq<byte>>) | BytesArg(b: seq<byte>)

  const STR_SLOT: nat := 84

  function StrBuffer(s: seq<byte>): (b: seq<byte>)
    ensures |b| == STR_SLOT
  {
    s[..Min(|s|, STR_SLOT)] + Zeros(STR_SLOT - Min(|s|, STR_SLOT))
  }

  /** In a list the length is cut to what the slot holds; a single string keeps its own length. */
  function StrSlotBytes(s: seq<byte>): (b: seq<byte>)
    ensures |b| == 4 + STR_SLOT
  {
    U32(Min(|s|, STR_SLOT)) + StrBuffer(s)
  }

  function AllStrSlots(ss: seq<seq<byte>>): seq<byte> {
    if ss == [] then [] else StrSlotBytes(ss[0]) + AllStrSlots(ss[1..])
  }

  function ArgumentBytes(a: Argument): seq<byte> {
    match a
    case StrArg(s) => U32(|s|) + StrBuffer(s)
    case StrsArg(ss) => AllStrSlots(ss)
    case BytesArg(b) => b
  }

  function ArgumentsBytes(args: seq<Argument>): seq<byte> {
    if args == [] then [] else ArgumentBytes(args[0]) + ArgumentsBytes(args[1..])
  }

  /** Nothing is written for an empty list of strings, and nothing is touched. */
  predicate AreSilent(args: seq<Argument>) {
    forall i :: 0 <= i < |args| ==> args[i].StrsArg? && args[i].ss == []
  }

  function Raws(parts: seq<seq<byte>>): (args: seq<Argument>)
    ensures |args| == |parts| && forall i :: 0 <= i < |args| ==> args[i] == BytesArg(parts[i])
  {
    seq(|parts|, i requires 0 <= i < |parts| => BytesArg(parts[i]))
  }

  lemma {:induction false} RawsConcat(parts: seq<seq<byte>>)
    ensures ArgumentsBytes(Raws(parts)) == Concat(parts)
  {
    if parts != [] {
      RawsConcat(parts[1..]);
      assert Raws(parts)[1..] == Raws(parts[1..]);
    }
  }

  /** The length that a reader finds in front of a slot is one that the slot holds, or not. */
  lemma {:induction false} StringHeader(s: seq<byte>)
    requires |s| < 0x1_0000_0000
    ensures var n := Min(|s|, STR_SLOT);
      FromU32(StrSlotBytes(s)) == n && StrSlotBytes(s)[4..4 + n] == s[..n]
    ensures FromU32(ArgumentBytes(StrArg(s))) <= STR_SLOT <==> |s| <= STR_SLOT
    ensures |s| <= STR_SLOT ==> ArgumentBytes(StrArg(s)) == StrSlotBytes(s)
  {
    U32Value(Min(|s|, STR_SLOT));
    U32Value(|s|);
    Remainder(|s|, 0x1_0000_0000, 0, |s|);
    assert FromU32(StrSlotBytes(s)) == FromU32(U32(Min(|s|, STR_SLOT)));
    assert FromU32(ArgumentBytes(StrArg(s))) == FromU32(U32(|s|));
  }

  /** Strings of a list stand 88 bytes apart, in order; behind its length a single string is laid out alike. */
  lemma {:induction false} ListSlot(ss: seq<seq<byte>>, k: nat)
    requires k < |ss|
    ensures |AllStrSlots(ss)| == 88 * |ss|
    ensures AllStrSlots(ss)[88 * k..88 * k + 88] == StrSlotBytes(ss[k])
    ensures ArgumentBytes(StrArg(ss[k]))[4..] == StrSlotBytes(ss[k])[4..]
    decreases |ss|
  {
    hide U32, StrBuffer;
    var first, more := StrSlotBytes(ss[0]), AllStrSlots(ss[1..]);
    SlotsLength(ss);
    SlotsLength(ss[1..]);
    if k > 0 {
      ListSlot(ss[1..], k - 1);
      assert (first + more)[88 * k..88 * k + 88] == more[88 * (k - 1)..88 * (k - 1) + 88];
    } else {
      assert (first + more)[..88] == first;
    }
  }

  lemma {:induction false} SlotsLength(ss: seq<seq<byte>>)
    ensures |AllStrSlots(ss)| == 88 * |ss|
  {
    hide StrSlotBytes;
    if ss != [] {
      SlotsLength(ss[1..]);
    }
  }

  lemma {:induction false} NothingWritten(data: seq<byte>)
    ensures data + ArgumentsBytes([]) == data
  {
  }

  lemma {:induction false} ArgumentStep(data: seq<byte>, args: seq<Argument>, i: nat)
    requires i < |args|
    ensures data + ArgumentsBytes(args[i..]) == (data + ArgumentBytes(args[i])) + ArgumentsBytes(args[i + 1..])
  {
    hide ArgumentBytes;
    assert args[i..][0] == args[i] && args[i..][1..] == args[i + 1..];
    Associate(data, ArgumentBytes(args[i]), ArgumentsBytes(args[i + 1..]));
  }

  lemma {:induction false} SilentStep(args: seq<Argument>, a: Argument)
    ensures AreSilent(args + [a]) <==> AreSilent(args) && a.StrsArg? && a.ss == []
  {
    if AreSilent(args + [a]) {
      assert (args + [a])[|args|] == a;
      assert forall i :: 0 <= i < |args| ==> args[i] == (args + [a])[i];
    }
  }

  lemma {:induction false} StrSlotStep(data: seq<byte>, ss: seq<seq<byte>>, i: nat)
    requires i < |ss|
    ensures data + AllStrSlots(ss[i..]) ==
      ((data + U32(Min(|ss[i]|, STR_SLOT))) + StrBuffer(ss[i])) + AllStrSlots(ss[i + 1..])
  {
    hide StrBuffer, U32;
    assert ss[i..][0] == ss[i] && ss[i..][1..] == ss[i + 1..];
    Associate(data, U32(Min(|ss[i]|, STR_SLOT)), StrBuffer(ss[i]));
    Associate(data, StrSlotBytes(ss[i]), AllStrSlots(ss[i + 1..]));
  }

  lemma {:induction false} NoStrSlots(data: seq<byte>)
    ensures data + AllStrSlots([]) == data
  {
  }

  class Item {
    var id: nat
    var length: nat
    var data: seq<byte>
    var pos: int

    function Value(): ItemValue
      reads this
    {
      ItemValue(id, length, data)
    }

    constructor (id: nat)
      ensures Value() == ItemValue(id, 0, []) && pos == 0
    {
      this.id, length, data, pos := id, 0, [], 0;
    }

    constructor Of(id: nat, length: nat, data: seq<byte>)
      ensures Value() == ItemValue(id, length, data) && pos == 0
    {
      this.id, this.length, this.data, pos := id, length, data, 0;
    }

    /** Appends, and keeps the 16-bit length field up to date. */
    method Write(p: seq<byte>)
      modifies this
      ensures data == old(data) + p && length == |data| % 65536
      ensures id == old(id) && pos == old(pos)
    {
      data := data + p;
      length := |data| % 65536;
    }

    method Serialize(args: seq<Argument>)
      modifies this
      ensures data == old(data) + ArgumentsBytes(args)
      ensures length == if AreSilent(args) then old(length) else |data| % 65536
      ensures id == old(id) && pos == old(pos)
    {
      hide ArgumentBytes, StrBuffer, ArgumentsBytes;
      assert args[0..] == args;
      NothingWritten(data);
      for i := 0 to |args|
        invariant data + ArgumentsBytes(args[i..]) == old(data) + ArgumentsBytes(args)
        invariant length == if AreSilent(args[..i]) then old(length) else |data| % 65536
        invariant id == old(id) && pos == old(pos)
      {
        ArgumentStep(data, args, i);
        assert args[..i + 1] == args[..i] + [args[i]];
        SilentStep(args[..i], args[i]);
        WriteArgument(args[i]);
      }
      NothingWritten(data);
      assert args[|args|..] == [] && args[..|args|] == args;
    }

    method WriteArgument(a: Argument)
      modifies this
      ensures data == old(data) + ArgumentBytes(a)
      ensures if a.StrsArg? && a.ss == [] then length == old(length) && data == old(data) else length == |data| % 65536
      ensures id == old(id) && pos == old(pos)
    {
      hide StrBuffer, AllStrSlots, U32;
      match a
      case StrArg(s) => WriteStr(s);
      case StrsArg(ss) =>
        NoStrSlots(data);
        WriteStrs(ss);
      case BytesArg(b) => Write(b);
    }

    method WriteStr(s: seq<byte>)
      modifies this
      ensures data == old(data) + (U32(|s|) + StrBuffer(s)) && length == |data| % 65536
      ensures id == old(id) && pos == old(pos)
    {
      hide StrBuffer, U32;
      Write(U32(|s|));
      Write(StrBuffer(s));
      assert data == old(data) + (U32(|s|) + StrBuffer(s));
    }

    method WriteStrs(ss: seq<seq<byte>>)
      modifies this
      ensures data == old(data) + AllStrSlots(ss)
      ensures length == if ss == [] then old(length) else |data| % 65536
      ensures id == old(id) && pos == old(pos)
    {
      hide StrSlotBytes, StrBuffer, U32, AllStrSlots;
      assert ss[0..] == ss;
      for i := 0 to |ss|
        invariant data + AllStrSlots(ss[i..]) == old(data) + AllStrSlots(ss)
        invariant length == if i == 0 then old(length) else |data| % 65536
        invariant id == old(id) && pos == old(pos)
      {
        StrSlotStep(data, ss, i);
        var n := |ss[i]|;
        if n > STR_SLOT {
          n := STR_SLOT;
        }
        Write(U32(n));
        Write(StrBuffer(ss[i]));
      }
      NoStrSlots(data);
      assert ss[|ss|..] == [];
    }

    method DeSerialize(k: nat) returns (r: Result<seq<byte>>)
      modifies `pos
      ensures r == TakeAt(data, old(pos), k)
      ensures r.Ok? ==> pos == old(pos) + k
      ensures r == Err(EndOfData) ==> pos == old(pos)
    {
      if k == 0 {
        return Ok([]);
      }
      if pos >= |data| {
        return Err(EndOfData);
      }
      if pos < 0 {
        return Err(Panic);
      }
      if pos + k > |data| {
        pos := |data|;
        return Err(ShortData);
      }
      r := Ok(data[pos..pos + k]);
      pos := pos + k;
    }

    method Byte() returns (r: Result<byte>)
      modifies `pos
      ensures r == match TypedAt(data, old(pos), 1) case Ok(b) => Ok(b[0]) case Err(e) => Err(e)
      ensures r.Ok? ==> pos == old(pos) + 1
    {
      if |data| <= pos {
        return Err(ShortData);
      }
      if pos < 0 {
        return Err(Panic);
      }
      r := Ok(data[pos]);
      pos := pos + 1;
    }

    method Uint16() returns (r: Result<nat>)
      modifies `pos
      ensures r == match TypedAt(data, old(pos), 2) case Ok(b) => Ok(FromU16(b)) case Err(e) => Err(e)
      ensures r.Ok? ==> pos == old(pos) + 2
    {
      if |data| <= pos + 1 {
        return Err(ShortData);
      }
      if pos < 0 {
        return Err(Panic);
      }
      r := Ok(FromU16(data[pos..pos + 2]));
      pos := pos + 2;
    }

    method Int16() returns (r: Result<int>)
      modifies `pos
      ensures r == match TypedAt(data, old(pos), 2) case Ok(b) => Ok(Signed16(FromU16(b))) case Err(e) => Err(e)
      ensures r.Ok? ==> pos == old(pos) + 2
    {
      var u := Uint16();
      r := if u.Ok? then Ok(Signed16(u.value)) else Err(u.error);
    }

    method Bytes() returns (b: seq<byte>)
      ensures b == ItemBytes(Value())
    {
      b := U16(id) + U16(length);
      b := b + data;
    }
  }

  function Concat(parts: seq<seq<byte>>): seq<byte> {
    if parts == [] then [] else parts[0] + Concat(parts[1..])
  }

  function Values(items: seq<Item>): (vs: seq<ItemValue>)
    reads items
    ensures |vs| == |items| && forall i :: 0 <= i < |vs| ==> vs[i] == items[i].Value()
  {
    seq(|items|, i requires 0 <= i < |items| reads items => items[i].Value())
  }

  method SerializeItems(items: seq<Item>) returns (b: seq<byte>)
    ensures b == Framed(Values(items))
  {
    b := Zeros(6) + U16(|items|);
    ghost var vs := Values(items);
    assert b + AllItemBytes(vs[0..]) == Framed(vs);
    for i := 0 to |items|
      invariant b + AllItemBytes(vs[i..]) == Framed(vs)
    {
      assert vs[i..][0] == vs[i] && vs[i..][1..] == vs[i + 1..];
      var b2 := items[i].Bytes();
      b := b + b2;
    }
  }

  method ReadItem(r: Stream) returns (res: Result<Item>)
    modifies r
    ensures match res
      case Err(e) => ParseItem(old(r.data)) == Err(e)
      case Ok(item) => ParseItem(old(r.data)) == Ok((item.Value(), r.data))
    ensures res.Ok? ==> fresh(res.value) && res.value.pos == 0
  {
    var hdr := r.ReadAll(4);
    if hdr.Err? {
      return Err(hdr.error);
    }
    var d := r.ReadAll(FromU16(hdr.value[2..]));
    if d.Err? {
      return Err(d.error);
    }
    var item := new Item.Of(FromU16(hdr.value), FromU16(hdr.value[2..]), d.value);
    return Ok(item);
  }

  predicate Distinct(items: seq<Item>) {
    forall i, j :: 0 <= i < j < |items| ==> items[i] != items[j]
  }

  method ReadItems(r: Stream) returns (res: Result<seq<Item>>)
    modifies r
    ensures match res
      case Err(e) => ParseItems(old(r.data)) == Err(e)
      case Ok(items) => ParseItems(old(r.data)) == Ok((Values(items), r.data))
    ensures res.Ok? ==> forall i :: 0 <= i < |res.value| ==> fresh(res.value[i]) && res.value[i].pos == 0
    ensures res.Ok? ==> Distinct(res.value)
  {
    hide ParseItem, ParseItemList, AheadWith, FromU16;
    var h := r.ReadAll(2);
    if h.Err? {
      return Err(h.error);
    }
    var count := FromU16(h.value);
    var items: seq<Item> := [];
    ghost var spec := ParseItemList(r.data, count);
    ghost var vs: seq<ItemValue> := [];
    NothingAheadWith(spec);
    for i := 0 to count
      invariant forall j :: 0 <= j < |items| ==> fresh(items[j]) && items[j].pos == 0
      invariant Distinct(items)
      invariant |vs| == |items| && forall j :: 0 <= j < |items| ==> vs[j] == items[j].Value()
      invariant spec == AheadWith(vs, ParseItemList(r.data, count - i))
    {
      ParseOne(r.data, count - i);
      var item := ReadItem(r);
      if item.Err? {
        AheadWithError<ItemValue, seq<byte>>(vs, item.error);
        return Err(item.error);
      }
      AheadWithTwice(vs, [item.value.Value()], ParseItemList(r.data, count - i - 1));
      items, vs := items + [item.value], vs + [item.value.Value()];
    }
    PrefixLast(vs, r.data);
    assert vs == Values(items);
    return Ok(items);
  }

  lemma {:induction false} PrefixLast(vs: seq<ItemValue>, r: seq<byte>)
    ensures AheadWith(vs, ParseItemList(r, 0)) == Ok((vs, r))
  {
    assert vs + [] == vs;
  }

  lemma {:induction false} ParseOne(r: seq<byte>, count: nat)
    requires count > 0
    ensures ParseItemList(r, count) ==
      match ParseItem(r)
      case Err(e) => Err(e)
      case Ok(v) => AheadWith([v.0], ParseItemList(v.1, count - 1))
  {
  }

  /// Round trips

  predicate Wellformed(v: ItemValue) {
    v.id < 65536 && v.length == |v.data|
  }

  lemma {:induction false} ParseItemInverts(v: ItemValue, x: seq<byte>)
    requires Wellformed(v) && |v.data| < 65536
    ensures ParseItem(ItemBytes(v) + x) == Ok((v, x))
  {
    var h := U16(v.id) + U16(v.length);
    assert ItemBytes(v) + x == h + (v.data + x);
    FullRead(h, v.data + x);
    FullRead(v.data, x);
    assert h[2..] == U16(v.length);
    U16Value(v.length);
    U16Value(v.id);
  }

  lemma {:induction false} ParseListInverts(vs: seq<ItemValue>, x: seq<byte>)
    requires Bounded(vs)
    ensures ParseItemList(AllItemBytes(vs) + x, |vs|) == Ok((vs, x))
  {
    hide ParseItem, ItemBytes, Wellformed;
    if vs == [] {
      assert AllItemBytes(vs) + x == x;
    } else {
      Associate(ItemBytes(vs[0]), AllItemBytes(vs[1..]), x);
      assert vs[0] in vs && forall v :: v in vs[1..] ==> v in vs;
      ParseItemInverts(vs[0], AllItemBytes(vs[1..]) + x);
      ParseListInverts(vs[1..], x);
      assert vs == [vs[0]] + vs[1..];
    }
  }

  ghost predicate Bounded(vs: seq<ItemValue>) {
    forall v :: v in vs ==> Wellformed(v) && |v.data| < 65536
  }

  /** Items that were read are well-formed, and their encoding is what was read. */
  ghost predicate ReadOff(r: seq<byte>, count: nat, res: Result<(seq<ItemValue>, seq<byte>)>) {
    res.Ok? ==>
      var (vs, rest) := res.value;
      |vs| == count && Bounded(vs) && r == AllItemBytes(vs) + rest
  }

  lemma {:induction false} ReadOffCons(r: seq<byte>, count: nat)
    requires count > 0 && ParseItem(r).Ok?
    requires ReadOff(ParseItem(r).value.1, count - 1, ParseItemList(ParseItem(r).value.1, count - 1))
    ensures ReadOff(r, count, ParseItemList(r, count))
  {
    var (v, r1) := ParseItem(r).value;
    ParseItemBytes(r);
    var tail := ParseItemList(r1, count - 1);
    if tail.Ok? {
      var (more, rest) := tail.value;
      var vs := [v] + more;
      assert vs[1..] == more;
      assert r == ItemBytes(v) + (AllItemBytes(more) + rest);
      assert ItemBytes(v) + (AllItemBytes(more) + rest) == AllItemBytes(vs) + rest;
    }
  }

  lemma {:induction false} ParseListBounded(r: seq<byte>, count: nat)
    ensures ReadOff(r, count, ParseItemList(r, count))
    decreases count
  {
    if count == 0 {
      assert AllItemBytes([]) + r == r;
    } else if ParseItem(r).Ok? {
      ParseListBounded(ParseItem(r).value.1, count - 1);
      ReadOffCons(r, count);
    }
  }

  lemma {:induction false} ParseItemBytes(r: seq<byte>)
    requires ParseItem(r).Ok?
    ensures var (v, r1) := ParseItem(r).value;
      r == ItemBytes(v) + r1 && Wellformed(v) && |v.data| < 65536
  {
    var (h, r1) := ReadFull(r, 4).value;
    var (v, r2) := ParseItem(r).value;
    U16OfValue(h[..2]);
    U16OfValue(h[2..]);
    assert FromU16(h) == FromU16(h[..2]);
    assert h == U16(v.id) + U16(v.length);
    assert r == h + (v.data + r2);
  }

  lemma {:induction false} FramedTail(vs: seq<ItemValue>, rest: seq<byte>)
    ensures (Framed(vs) + rest)[6..] == U16(|vs|) + (AllItemBytes(vs) + rest)
    ensures ParseItems((Framed(vs) + rest)[6..]) == ParseItemList(AllItemBytes(vs) + rest, |vs| % 65536)
  {
    FullRead(U16(|vs|), AllItemBytes(vs) + rest);
    U16Value(|vs|);
  }

  lemma {:induction false} FramedForward(vs: seq<ItemValue>, rest: seq<byte>)
    requires |vs| < 65536 && Bounded(vs)
    ensures ParseItems((Framed(vs) + rest)[6..]) == Ok((vs, rest))
  {
    var n := |vs| % 65536;
    assert n == |vs|;
    ParseListInverts(vs, rest);
    FramedTail(vs, rest);
  }

  lemma {:induction false} FramedBack(vs: seq<ItemValue>, rest: seq<byte>)
    requires ParseItems((Framed(vs) + rest)[6..]) == Ok((vs, rest))
    ensures |vs| < 65536 && Bounded(vs)
  {
    FramedTail(vs, rest);
    ParseListBounded(AllItemBytes(vs) + rest, |vs| % 65536);
  }

  ghost predicate NoOverflow(vs: seq<ItemValue>) {
    |vs| < 65536 && forall v :: v in vs ==> |v.data| < 65536
  }

  /**
   A framed list comes back exactly when neither a length nor the count overflows 16 bits; every
   item built by `Write` meets the precondition.
   */
  lemma {:induction false} FramedRoundTrip(vs: seq<ItemValue>, rest: seq<byte>)
    requires forall v :: v in vs ==> v.id < 65536 && v.length == |v.data| % 65536
    ensures ParseItems((Framed(vs) + rest)[6..]) == Ok((vs, rest)) <==> NoOverflow(vs)
  {
    if NoOverflow(vs) {
      assert Bounded(vs);
      FramedForward(vs, rest);
    }
    if ParseItems((Framed(vs) + rest)[6..]) == Ok((vs, rest)) {
      FramedBack(vs, rest);
    }
  }

  /** Whatever `readItems` accepts is what `serializeItems` writes for the items it returns. */
  lemma {:induction false} ParsedIsFramed(r: seq<byte>)
    requires ParseItems(r).Ok?
    ensures var (vs, rest) := ParseItems(r).value; r == (Framed(vs) + rest)[6..]
  {
    var (h, r1) := ReadFull(r, 2).value;
    var (vs, rest) := ParseItems(r).value;
    ParseListBounded(r1, FromU16(h));
    U16OfValue(h);
    FramedTail(vs, rest);
  }
}
