/** Tag text to EPATH bytes and back: ioi.go. */
module TagPath {
  import opened Wire
  import opened Sequences
  import opened Streams
  import opened Text
  import opened Items
  import CipTypes

  /// Parsing one tag text

  datatype Parts = Parts(base: text, order: seq<nat>, bitAccess: bool, bit: int)

  predicate IsSpace(c: byte) {
    c == 9 || c == 10 || c == 12 || c == 13 || c == 32
  }

  predicate IndexChars(t: text) {
    forall i :: 0 <= i < |t| ==> IsDigit(t[i]) || t[i] == COMMA || IsSpace(t[i])
  }

  /** The match of `\[([\d]|[,]|[\s])*\]$` is the text from the last bracket on, if it qualifies. */
  predicate HasIndex(t: text) {
    EndsWith(t, CLOSE_BRACKET) && LastIndexOf(t, OPEN_BRACKET) >= 0 && IndexChars(IndexText(t))
  }

  function IndexText(t: text): text
    requires EndsWith(t, CLOSE_BRACKET) && LastIndexOf(t, OPEN_BRACKET) >= 0
  {
    t[LastIndexOf(t, OPEN_BRACKET) + 1..|t| - 1]
  }

  /** The match of `\.\d+$`. */
  predicate HasBit(t: text) {
    LastIndexOf(t, DOT) >= 0 && BitText(t) != [] && AllDigits(BitText(t))
  }

  function BitText(t: text): text
    requires LastIndexOf(t, DOT) >= 0
  {
    t[LastIndexOf(t, DOT) + 1..]
  }

  function NatOf(t: text): Result<nat>
    requires IndexChars(t)
  {
    match Atoi(t)
    case Ok(n) => Ok(n)
    case Err(e) => Err(e)
  }

  function NatsOf(parts: seq<text>): Result<seq<nat>>
    requires forall i :: 0 <= i < |parts| ==> IndexChars(parts[i])
  {
    if parts == [] then Ok([])
    else
      var n :- NatOf(parts[0]);
      var ns :- NatsOf(parts[1..]);
      Ok([n] + ns)
  }

  lemma {:induction false} SplitIndexChars(t: text)
    requires IndexChars(t)
    ensures forall i :: 0 <= i < |Split(t, COMMA)| ==> IndexChars(Split(t, COMMA)[i])
    decreases |t|
  {
    if t != [] {
      SplitIndexChars(t[1..]);
    }
  }

  function IndexNumbers(t: text): Result<seq<nat>>
    requires IndexChars(t)
  {
    SplitIndexChars(t);
    NatsOf(Split(t, COMMA))
  }

  /** `tagPartDescriptor.Parse` */
  function ParseTag(t: text): Result<Parts> {
    var bit :- if HasBit(t) then Atoi(BitText(t)) else Ok(0);
    var base := if HasBit(t) then Without(t, BitText(t)) else t;
    if !HasIndex(t) then Ok(Parts(base, [], HasBit(t), bit))
    else
      var order :- IndexNumbers(IndexText(t));
      Ok(Parts(Without(base, IndexText(t)), order, HasBit(t), bit))
  }

  method Parse(t: text) returns (r: Result<Parts>)
    ensures r == ParseTag(t)
  {
    var base, bitAccess, bit := t, false, 0;
    if HasBit(t) {
      bitAccess := true;
      base := Without(base, BitText(t));
      var n := Atoi(BitText(t));
      if n.Err? {
        return Err(n.error);
      }
      bit := n.value;
    }
    var order: seq<nat> := [];
    if HasIndex(t) {
      base := Without(base, IndexText(t));
      var ns := ParseIndexes(IndexText(t));
      if ns.Err? {
        return Err(ns.error);
      }
      order := ns.value;
    }
    return Ok(Parts(base, order, bitAccess, bit));
  }

  method ParseIndexes(index: text) returns (r: Result<seq<nat>>)
    requires IndexChars(index)
    ensures r == IndexNumbers(index)
  {
    SplitIndexChars(index);
    var parts := Split(index, COMMA);
    var order: seq<nat> := [];
    ghost var spec := NatsOf(parts);
    assert spec == Ahead([], spec) by {
      if spec.Ok? {
        assert [] + spec.value == spec.value;
      }
    }
    for i := 0 to |parts|
      invariant spec == Ahead(order, NatsOf(parts[i..]))
    {
      assert parts[i..][0] == parts[i] && parts[i..][1..] == parts[i + 1..];
      var n := NatOf(parts[i]);
      if n.Err? {
        return Err(n.error);
      }
      AheadTwice(order, [n.value], NatsOf(parts[i + 1..]));
      order := order + [n.value];
    }
    assert order + [] == order;
    return Ok(order);
  }

  /// Symbolic paths

  const ELEMENT_8: byte := 0x28
  const ELEMENT_16: byte := 0x29
  const ELEMENT_32: byte := 0x2A
  const SYMBOLIC: byte := 0x91

  /** A symbolic segment; the length byte holds the low 8 bits of the length. */
  function NameBytes(n: text): seq<byte> {
    [SYMBOLIC, |n| % 256] + n + (if |n| % 2 == 1 then [0] else [])
  }

  function IndexBytes(k: nat): seq<byte> {
    if k < 256 then [ELEMENT_8, k]
    else if k < 65536 then U16(ELEMENT_16) + U16(k)
    else U16(ELEMENT_32) + U32(k)
  }

  function IndexesBytes(ks: seq<nat>): seq<byte> {
    if ks == [] then [] else IndexBytes(ks[0]) + IndexesBytes(ks[1..])
  }

  /** What `tagIOI` holds besides the path text and the type. */
  datatype Ioi = Ioi(buffer: seq<byte>, bitAccess: bool, bitPosition: int)

  const EMPTY_IOI := Ioi([], false, 0)

  /** `marshalIOIPart` */
  function MarshalPart(t: text): Result<seq<byte>> {
    var p :- ParseTag(t);
    Ok(NameBytes(p.base))
  }

  predicate IsBitPart(part: text) {
    Atoi(part).Ok? && Atoi(part).value <= 31
  }

  /** The last index of a BOOL array addresses a bit of a 32-bit word. */
  function WordIndex(order: seq<nat>, isBool: bool): seq<nat> {
    if isBool && order != [] then order[..|order| - 1] + [order[|order| - 1] / 32] else order
  }

  function AppendIndexes(ioi: Ioi, isBool: bool, order: seq<nat>): Ioi {
    var buffer := ioi.buffer + IndexesBytes(WordIndex(order, isBool));
    if isBool && order != [] then Ioi(buffer, true, order[|order| - 1] % 32)
    else ioi.(buffer := buffer)
  }

  function LeadingName(part: text): Result<seq<byte>> {
    var start := IndexOf(part, OPEN_BRACKET);
    if start > 0 then MarshalPart(part[..start]) else Ok([])
  }

  /** A part that ends with a bracket: a name, if there is one, and indexes. */
  function AppendIndexed(ioi: Ioi, isBool: bool, part: text): Result<Ioi> {
    var name :- LeadingName(part);
    var p :- ParseTag(part);
    Ok(AppendIndexes(ioi.(buffer := ioi.buffer + name), isBool, p.order))
  }

  /** `appendIOIPart` */
  function AppendPart(ioi: Ioi, isBool: bool, part: text): Result<Ioi> {
    if part == [] then Ok(ioi)
    else if EndsWith(part, CLOSE_BRACKET) then AppendIndexed(ioi, isBool, part)
    else if IsBitPart(part) then
      Ok(ioi.(bitAccess := true, bitPosition := Atoi(part).value))
    else
      var name :- MarshalPart(part);
      Ok(ioi.(buffer := ioi.buffer + name))
  }

  function AppendParts(ioi: Ioi, isBool: bool, parts: seq<text>): Result<Ioi>
    decreases |parts|
  {
    if parts == [] then Ok(ioi)
    else
      var ioi1 :- AppendPart(ioi, isBool, parts[0]);
      AppendParts(ioi1, isBool, parts[1..])
  }

  /** `newSymbolicIOI` */
  function SymbolicIoi(path: text, isBool: bool): Result<Ioi> {
    AppendParts(EMPTY_IOI, isBool, Split(path, DOT))
  }

  class TagIoi {
    const path: text
    const cipType: byte
    var bitAccess: bool
    var bitPosition: int
    var buffer: seq<byte>

    function Value(): Ioi
      reads this
    {
      Ioi(buffer, bitAccess, bitPosition)
    }

    constructor (path: text, cipType: byte, prefix: seq<byte>)
      ensures Value() == Ioi(prefix, false, 0) && this.path == path && this.cipType == cipType
    {
      this.path, this.cipType := path, cipType;
      buffer, bitAccess, bitPosition := prefix, false, 0;
    }

    method Write(p: seq<byte>)
      modifies `buffer
      ensures Value() == old(Value()).(buffer := old(buffer) + p)
    {
      buffer := buffer + p;
    }

    /** On an error the object is not used any more. */
    method Append(part: text) returns (r: Result<()>)
      modifies this
      ensures match AppendPart(old(Value()), cipType == CipTypes.BOOL, part)
        case Ok(v) => r.Ok? && Value() == v
        case Err(e) => r == Err(e)
    {
      if part == [] {
        r := Ok(());
      } else if EndsWith(part, CLOSE_BRACKET) {
        r := AppendIndexedPart(part);
      } else if IsBitPart(part) {
        bitAccess, bitPosition := true, Atoi(part).value;
        r := Ok(());
      } else {
        var name := MarshalPart(part);
        if name.Ok? {
          Write(name.value);
        }
        r := if name.Ok? then Ok(()) else Err(name.error);
      }
    }

    method AppendIndexedPart(part: text) returns (r: Result<()>)
      modifies this
      ensures match AppendIndexed(old(Value()), cipType == CipTypes.BOOL, part)
        case Ok(v) => r.Ok? && Value() == v
        case Err(e) => r == Err(e)
    {
      var name := LeadingName(part);
      if name.Err? {
        return Err(name.error);
      }
      Write(name.value);
      var t := Parse(part);
      if t.Err? {
        return Err(t.error);
      }
      AppendIndexList(t.value.order);
      return Ok(());
    }

    method AppendIndexList(order0: seq<nat>)
      modifies this
      ensures Value() == AppendIndexes(old(Value()), cipType == CipTypes.BOOL, order0)
    {
      var order := order0;
      if cipType == CipTypes.BOOL && |order| > 0 {
        var last := |order| - 1;
        bitAccess, bitPosition := true, order[last] % 32;
        order := order[last := order[last] / 32];
        assert order == order0[..last] + [order0[last] / 32];
      }
      AppendOrder(order);
    }

    method AppendOrder(order: seq<nat>)
      modifies `buffer
      ensures buffer == old(buffer) + IndexesBytes(order)
    {
      assert buffer + IndexesBytes(order[0..]) == old(buffer) + IndexesBytes(order);
      for i := 0 to |order|
        invariant buffer + IndexesBytes(order[i..]) == old(buffer) + IndexesBytes(order)
      {
        assert order[i..][0] == order[i] && order[i..][1..] == order[i + 1..];
        Associate(buffer, IndexBytes(order[i]), IndexesBytes(order[i + 1..]));
        WriteIndex(order[i]);
      }
    }

    method WriteIndex(k: nat)
      modifies `buffer
      ensures buffer == old(buffer) + IndexBytes(k)
    {
      if k < 256 {
        Write([ELEMENT_8, k]);
      } else if k < 65536 {
        Write(U16(ELEMENT_16) + U16(k));
      } else {
        Write(U16(ELEMENT_32));
        Write(U32(k));
      }
    }
  }

  method NewSymbolicIoi(path: text, cipType: byte) returns (r: Result<TagIoi>)
    ensures r.Ok? ==> fresh(r.value) && r.value.path == path && r.value.cipType == cipType
    ensures match SymbolicIoi(path, cipType == CipTypes.BOOL)
      case Ok(v) => r.Ok? && r.value.Value() == v
      case Err(e) => r == Err(e)
  {
    var ioi := new TagIoi(path, cipType, []);
    var failed := AppendAll(ioi, Split(path, DOT));
    return if failed.Ok? then Ok(ioi) else Err(failed.error);
  }

  method AppendAll(ioi: TagIoi, parts: seq<text>) returns (r: Result<()>)
    modifies ioi
    ensures match AppendParts(old(ioi.Value()), ioi.cipType == CipTypes.BOOL, parts)
      case Ok(v) => r.Ok? && ioi.Value() == v
      case Err(e) => r == Err(e)
  {
    for i := 0 to |parts|
      invariant AppendParts(old(ioi.Value()), ioi.cipType == CipTypes.BOOL, parts) ==
        AppendParts(ioi.Value(), ioi.cipType == CipTypes.BOOL, parts[i..])
    {
      assert parts[i..][0] == parts[i] && parts[i..][1..] == parts[i + 1..];
      var one := ioi.Append(parts[i]);
      if one.Err? {
        return Err(one.error);
      }
    }
    return Ok(());
  }

  /// The inverse parser

  function AddIndex(t: text, k: nat): text
    requires t != []
  {
    if EndsWith(t, CLOSE_BRACKET) then t[..|t| - 1] + [COMMA] + Digits(k) + [CLOSE_BRACKET]
    else t + [OPEN_BRACKET] + Digits(k) + [CLOSE_BRACKET]
  }

  function AddName(t: text, n: text): text {
    if t == [] then n else t + [DOT] + n
  }

  /** One turn of `getTagFromPath`; indexing an empty text is a runtime panic. */
  datatype Step = Stop | More(t: text, rest: seq<byte>)

  function DecodeStep(t: text, b: seq<byte>): (r: Result<Step>)
    ensures r.Ok? && r.value.More? ==> |r.value.rest| < |b|
  {
    if b == [] then Ok(Stop)
    else if b[0] == ELEMENT_8 then
      var (k, b1) :- ReadFull(b[1..], 1);
      if t == [] then Err(Panic) else Ok(More(AddIndex(t, k[0]), b1))
    else if b[0] == ELEMENT_16 then
      var (_, b1) :- ReadFull(b[1..], 1);
      var (k, b2) :- ReadFull(b1, 2);
      if t == [] then Err(Panic) else Ok(More(AddIndex(t, FromU16(k)), b2))
    else if b[0] == SYMBOLIC then
      var (n, b1) :- DecodeName(b[1..]);
      Ok(More(AddName(t, n), b1))
    else Ok(Stop)
  }

  function LeftBy(step: Step, b: seq<byte>): seq<byte> {
    if step.Stop? then b else step.rest
  }

  /** `getTagFromPath` from text `t` on: the tag text and what is left of the stream. */
  function DecodeFrom(t: text, b: seq<byte>): Result<(text, seq<byte>)>
    decreases |b|
  {
    var step :- DecodeStep(t, b);
    if step.Stop? then Ok((t, b)) else DecodeFrom(step.t, step.rest)
  }

  /** `getAsciiTagPart` */
  function DecodeName(b: seq<byte>): (r: Result<(text, seq<byte>)>)
    ensures r.Ok? ==> |r.value.1| < |b|
  {
    var (len, b1) :- ReadFull(b, 1);
    DecodeSized(len[0], b1)
  }

  /** A name of `k` bytes and, when `k` is odd, a pad byte. */
  function DecodeSized(k: byte, b: seq<byte>): (r: Result<(text, seq<byte>)>)
    ensures r.Ok? ==> |r.value.1| <= |b|
  {
    var (n, b1) :- ReadFull(b, k);
    var (_, b2) :- if k % 2 == 1 then ReadFull(b1, 1) else Ok(([], b1));
    Ok((n, b2))
  }

  method GetAsciiTagPart(item: Item) returns (r: Result<text>)
    requires 0 <= item.pos <= |item.data|
    modifies item`pos
    ensures match DecodeName(item.data[old(item.pos)..])
      case Err(e) => r == Err(e)
      case Ok(v) => r == Ok(v.0) && old(item.pos) <= item.pos <= |item.data| && item.data[item.pos..] == v.1
  {
    hide DecodeSized, TakeAt;
    TakeIsRead(item.data, item.pos, 1);
    var len := item.DeSerialize(1);
    if len.Err? {
      return Err(len.error);
    }
    r := ReadSized(item, len.value[0]);
  }

  method ReadSized(item: Item, k: byte) returns (r: Result<text>)
    requires 0 <= item.pos <= |item.data|
    modifies item`pos
    ensures match DecodeSized(k, item.data[old(item.pos)..])
      case Err(e) => r == Err(e)
      case Ok(v) => r == Ok(v.0) && old(item.pos) <= item.pos <= |item.data| && item.data[item.pos..] == v.1
  {
    hide TakeAt;
    TakeIsRead(item.data, item.pos, k);
    r := item.DeSerialize(k);
    if r.Ok? && k % 2 == 1 {
      TakeIsRead(item.data, item.pos, 1);
      var pad := item.DeSerialize(1);
      if pad.Err? {
        return Err(pad.error);
      }
    }
  }

  method ReadPathPart(item: Item, t: text) returns (r: Result<Step>)
    requires 0 <= item.pos <= |item.data|
    modifies item`pos
    ensures r == DecodeStep(t, item.data[old(item.pos)..])
    ensures r.Ok? ==> old(item.pos) <= item.pos <= |item.data|
    ensures r.Ok? ==> item.data[item.pos..] == LeftBy(r.value, item.data[old(item.pos)..])
  {
    ghost var b := item.data[item.pos..];
    var kind := item.DeSerialize(1);
    if kind.Err? {
      assert b == [];
      return Ok(Stop);
    }
    assert kind.value[0] == b[0] && item.data[item.pos..] == b[1..];
    if kind.value[0] == ELEMENT_8 {
      TakeIsRead(item.data, item.pos, 1);
      var k := item.DeSerialize(1);
      if k.Err? {
        return Err(k.error);
      }
      if t == [] {
        return Err(Panic);
      }
      return Ok(More(AddIndex(t, k.value[0]), item.data[item.pos..]));
    } else if kind.value[0] == ELEMENT_16 {
      TakeIsRead(item.data, item.pos, 1);
      var pad := item.DeSerialize(1);
      if pad.Err? {
        return Err(pad.error);
      }
      TakeIsRead(item.data, item.pos, 2);
      var k := item.DeSerialize(2);
      if k.Err? {
        return Err(k.error);
      }
      if t == [] {
        return Err(Panic);
      }
      return Ok(More(AddIndex(t, FromU16(k.value)), item.data[item.pos..]));
    } else if kind.value[0] == SYMBOLIC {
      var n := GetAsciiTagPart(item);
      if n.Err? {
        return Err(n.error);
      }
      return Ok(More(AddName(t, n.value), item.data[item.pos..]));
    } else {
      item.pos := item.pos - 1;
      return Ok(Stop);
    }
  }

  method GetTagFromPath(item: Item) returns (r: Result<text>)
    requires 0 <= item.pos <= |item.data|
    modifies item`pos
    ensures match DecodeFrom([], item.data[old(item.pos)..])
      case Err(e) => r == Err(e)
      case Ok(v) => r == Ok(v.0) && old(item.pos) <= item.pos <= |item.data| && item.data[item.pos..] == v.1
  {
    var t: text := [];
    while true
      invariant old(item.pos) <= item.pos <= |item.data|
      invariant DecodeFrom([], item.data[old(item.pos)..]) == DecodeFrom(t, item.data[item.pos..])
      decreases |item.data[item.pos..]|
    {
      var step := ReadPathPart(item, t);
      if step.Err? {
        return Err(step.error);
      }
      if step.value.Stop? {
        return Ok(t);
      }
      t := step.value.t;
    }
  }
}
