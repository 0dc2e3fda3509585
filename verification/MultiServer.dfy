/** The server's side of a multiple service packet: server_connected.go and server.go. */
module MultiServer {
  import opened Wire
  import opened Sequences
  import opened Streams
  import opened Text
  import opened Items
  import opened TagPath
  import opened MultiMessage
  import CipTypes

  /** What a request makes the tag provider do. */
  datatype Action =
    | ReadTag(tag: text, elements: int)
    | WriteTag(tag: text, cipType: byte, count: nat, values: seq<byte>)

  datatype Outcome =
    | Atomic(cipType: byte, data: seq<byte>)
    | Str(s: text)
    | Written
    | Failed

  /** A provider answers the last action in the light of all the actions before it. */
  type Provider = seq<Action> -> Outcome

  datatype Connection = Connection(to: nat, provider: Provider)

  /// The reply of one service

  const STRING_DATA_LENGTH: nat := 82

  /** The clamped length and the text in an 82-byte buffer, two pad bytes behind it. */
  function StringData(s: text): (b: seq<byte>)
    ensures |b| == 88
  {
    var n := Min(|s|, STRING_DATA_LENGTH);
    U32(n) + s[..n] + Zeros(84 - n)
  }

  /** `cipStringPacker.Bytes` */
  function StringSlot(s: text): (b: seq<byte>)
    ensures |b| == 92
  {
    [0xA0, 0x02, 0xCE, 0x0F] + StringData(s)
  }

  function ReadEntry(service: byte, o: Outcome): Result<seq<byte>> {
    match o
    case Atomic(t, data) => Ok([AsResponse(service), 0, 0, 0, t, 0] + data)
    case Str(s) => Ok([AsResponse(service), 0, 0, 0] + StringSlot(s))
    case Written => Err(Malformed)
    case Failed => Err(BadStatus)
  }

  function ServeRead(service: byte, rest: seq<byte>, done: seq<Action>, provider: Provider)
    : Result<(seq<byte>, seq<Action>)>
  {
    var (tag, rest1) :- DecodeFrom([], rest);
    if |rest1| < 2 then Err(ShortData)
    else
      var actions := done + [ReadTag(tag, Signed16(FromU16(rest1)))];
      var entry :- ReadEntry(service, provider(actions));
      Ok((entry, actions))
  }

  /** `count` values of the type, each read in full. */
  function ReadValues(cipType: byte, count: nat, rest: seq<byte>): Result<seq<byte>> {
    if count == 0 then Ok([])
    else if CipTypes.ValueWidth(cipType) == 0 then Err(Malformed)
    else
      var (v, rest1) :- ReadFull(rest, CipTypes.ValueWidth(cipType));
      var vs :- ReadValues(cipType, count - 1, rest1);
      Ok(CipTypes.Meant(cipType, v) + vs)
  }

  function ServeWrite(service: byte, rest: seq<byte>, done: seq<Action>, provider: Provider)
    : Result<(seq<byte>, seq<Action>)>
  {
    var (tag, r1) :- DecodeFrom([], rest);
    var (typ, r2) :- ReadFull(r1, 1);
    var (_, r3) :- ReadFull(r2, 1);
    var (n, r4) :- ReadFull(r3, 2);
    var values :- ReadValues(typ[0], FromU16(n), r4);
    if FromU16(n) == 0 then Err(Panic)
    else
      var actions := done + [WriteTag(tag, typ[0], FromU16(n), values)];
      if provider(actions).Written? then Ok(([AsResponse(service), 0, 0, 0], actions)) else Err(BadStatus)
  }

  /** A service that is neither a read nor a write gets an empty entry. */
  function ServeService(service: byte, rest: seq<byte>, done: seq<Action>, provider: Provider)
    : Result<(seq<byte>, seq<Action>)>
  {
    if service == FRAG_READ || service == READ then ServeRead(service, rest, done, provider)
    else if service == WRITE || service == FRAG_WRITE then ServeWrite(service, rest, done, provider)
    else Ok(([], done))
  }

  /** The service at a position: its code, its path length (not used), its request. */
  function ServeAt(data: seq<byte>, pos: int, done: seq<Action>, provider: Provider)
    : Result<(seq<byte>, seq<Action>)>
  {
    var service :- TakeAt(data, pos, 1);
    var _ :- TypedAt(data, pos + 1, 1);
    ServeService(service[0], data[pos + 2..], done, provider)
  }

  function ServeAll(data: seq<byte>, offsets: seq<int>, done: seq<Action>, provider: Provider)
    : Result<(seq<seq<byte>>, seq<Action>)>
    decreases |offsets|
  {
    if offsets == [] then Ok(([], done))
    else
      var (entry, done1) :- ServeAt(data, offsets[0] + 8, done, provider);
      var (entries, done2) :- ServeAll(data, offsets[1..], done1, provider);
      Ok(([entry] + entries, done2))
  }

  /// The whole packet

  function ReadOffsets(data: seq<byte>, pos: nat, count: nat): Result<seq<int>>
    decreases count
  {
    if count == 0 then Ok([])
    else
      var b :- TypedAt(data, pos, 2);
      var more :- ReadOffsets(data, pos + 2, count - 1);
      Ok([Signed16(FromU16(b))] + more)
  }

  /** The sequence number and the offsets; the path is read and dropped. */
  function ParseMultiHeader(data: seq<byte>): Result<(nat, seq<int>)> {
    var sequence :- TakeAt(data, 0, 2);
    var _ :- TakeAt(data, 2, 1);
    var words :- TakeAt(data, 3, 1);
    var path := words[0] as int * 2 % 256;
    var _ :- TakeAt(data, 4, path);
    var n :- TypedAt(data, 4 + path, 2);
    var offsets :- ReadOffsets(data, 6 + path, FromU16(n));
    Ok((FromU16(sequence), offsets))
  }

  function ReplyHeader(sequence: nat, status: nat): (h: seq<byte>)
    ensures |h| == 6
  {
    U16(sequence) + [AsResponse(MULTIPLE_SERVICE), 0] + U16(status)
  }

  /** The reply of any controller. */
  function ReplyWith(sequence: nat, status: nat, entries: seq<seq<byte>>): seq<byte> {
    ReplyHeader(sequence, status) + Packed(entries)
  }

  /** The reply of this server: it never reports an error. */
  function ReplyData(sequence: nat, entries: seq<seq<byte>>): seq<byte> {
    ReplyWith(sequence, 0, entries)
  }

  datatype Served = Served(reply: seq<byte>, actions: seq<Action>) | Elsewhere(service: byte)

  /** `connectedMulti`, with the connections that are open. */
  function ServeMulti(items: seq<ItemValue>, connections: map<nat, Connection>): Result<Served>
    requires |items| == 2
  {
    var id :- TakeAt(items[0].data, 0, 4);
    if FromU32(id) !in connections then Err(BadStatus)
    else
      var c := connections[FromU32(id)];
      var (sequence, offsets) :- ParseMultiHeader(items[1].data);
      var (entries, actions) :- ServeAll(items[1].data, offsets, [], c.provider);
      Ok(Served(Framed(ConnectedItems(c.to, ReplyData(sequence, entries))), actions))
  }

  /** `sendUnitData`, from the items on. */
  function ServeItems(items: seq<ItemValue>, connections: map<nat, Connection>): Result<Served> {
    if |items| != 2 || items[0].id != CONNECTION_ADDRESS then Err(Malformed)
    else
      var _ :- TakeAt(items[0].data, 0, 4);
      var _ :- TakeAt(items[1].data, 0, 2);
      var service :- TakeAt(items[1].data, 2, 1);
      if service[0] == MULTIPLE_SERVICE then ServeMulti(items, connections) else Ok(Elsewhere(service[0]))
  }

  /** `sendUnitData` */
  function ServeUnitData(b: seq<byte>, connections: map<nat, Connection>): Result<Served> {
    var (_, b1) :- ReadFull(b, 4);
    var (_, b2) :- ReadFull(b1, 2);
    var (items, _) :- ParseItems(b2);
    ServeItems(items, connections)
  }

  /// The same, step by step

  method PackString(s: text) returns (b: array<byte>)
    ensures fresh(b) && b[..] == StringSlot(s)
  {
    hide U32;
    b := new byte[92](i => 0);
    b[0], b[1], b[2], b[3] := 0xA0, 0x02, 0xCE, 0x0F;
    var l := |s|;
    if l > STRING_DATA_LENGTH {
      l := STRING_DATA_LENGTH;
    }
    CopyAt(b, 4, U32(l));
    CopyAt(b, 8, s[..l]);
    SlotBytes(b[..], s);
  }

  method CopyAt(b: array<byte>, at: nat, x: seq<byte>)
    requires at + |x| <= b.Length
    modifies b
    ensures forall k :: 0 <= k < b.Length ==> b[k] == if at <= k < at + |x| then x[k - at] else old(b[k])
  {
    for i := 0 to |x|
      invariant forall k :: 0 <= k < b.Length ==> b[k] == if at <= k < at + i then x[k - at] else old(b[k])
    {
      b[at + i] := x[i];
    }
  }

  lemma {:induction false} SlotBytes(b: seq<byte>, s: text)
    requires |b| == 92 && b[0] == 0xA0 && b[1] == 0x02 && b[2] == 0xCE && b[3] == 0x0F
    requires var n := Min(|s|, 82);
      && (forall k :: 4 <= k < 8 ==> b[k] == U32(n)[k - 4])
      && (forall k :: 0 <= k < n ==> b[8 + k] == s[k])
      && (forall k :: 8 + n <= k < 92 ==> b[k] == 0)
    ensures b == StringSlot(s)
  {
    hide U32;
    var n := Min(|s|, 82);
    assert b[..4] == [0xA0, 0x02, 0xCE, 0x0F];
    assert b[4..8] == U32(n);
    assert b[8..8 + n] == s[..n];
    assert b[8 + n..] == Zeros(84 - n);
    assert b == b[..4] + (b[4..8] + b[8..8 + n] + b[8 + n..]);
  }

  method ReplyToRead(service: byte, item: Item, done: seq<Action>, provider: Provider)
    returns (r: Result<(seq<byte>, seq<Action>)>)
    requires 0 <= item.pos <= |item.data|
    modifies item`pos
    ensures r == ServeRead(service, item.data[old(item.pos)..], done, provider)
  {
    hide DecodeFrom, StringSlot, FromU16;
    var tag := GetTagFromPath(item);
    if tag.Err? {
      return Err(tag.error);
    }
    ghost var rest := item.data[item.pos..];
    var qty := item.Uint16();
    if qty.Err? {
      return Err(qty.error);
    }
    FromSlice(item.data, item.pos - 2);
    var actions := done + [ReadTag(tag.value, Signed16(qty.value))];
    var b := [AsResponse(service), 0, 0, 0];
    match provider(actions) {
      case Atomic(t, data) =>
        b := b + [t, 0];
        assert b == [AsResponse(service), 0, 0, 0, t, 0];
        b := b + data;
        r := Ok((b, actions));
      case Str(s) =>
        var slot := PackString(s);
        r := Ok((b + slot[..], actions));
      case Written =>
        r := Err(Malformed);
      case Failed =>
        r := Err(BadStatus);
    }
  }

  lemma {:induction false} FromSlice(data: seq<byte>, pos: nat)
    requires pos + 2 <= |data|
    ensures FromU16(data[pos..]) == FromU16(data[pos..pos + 2])
  {
  }

  method ReadCount(item: Item, cipType: byte, count: nat) returns (r: Result<seq<byte>>)
    requires 0 <= item.pos <= |item.data|
    modifies item`pos
    ensures r == ReadValues(cipType, count, item.data[old(item.pos)..])
  {
    var values: seq<byte> := [];
    ghost var spec := ReadValues(cipType, count, item.data[item.pos..]);
    NothingAhead(spec);
    for i := 0 to count
      invariant 0 <= item.pos <= |item.data|
      invariant spec == Ahead(values, ReadValues(cipType, count - i, item.data[item.pos..]))
    {
      var w := CipTypes.ValueWidth(cipType);
      if w == 0 {
        return Err(Malformed);
      }
      TakeIsRead(item.data, item.pos, w);
      var v := item.DeSerialize(w);
      if v.Err? {
        return Err(v.error);
      }
      var meant := CipTypes.Meant(cipType, v.value);
      AheadTwice(values, meant, ReadValues(cipType, count - i - 1, item.data[item.pos..]));
      values := values + meant;
    }
    assert values + [] == values;
    return Ok(values);
  }

  method ReplyToWrite(service: byte, item: Item, done: seq<Action>, provider: Provider)
    returns (r: Result<(seq<byte>, seq<Action>)>)
    requires 0 <= item.pos <= |item.data|
    modifies item`pos
    ensures r == ServeWrite(service, item.data[old(item.pos)..], done, provider)
  {
    hide DecodeFrom, ReadValues, FromU16, TakeAt, ReadFull;
    var tag := GetTagFromPath(item);
    if tag.Err? {
      return Err(tag.error);
    }
    TakeIsRead(item.data, item.pos, 1);
    var typ := item.DeSerialize(1);
    if typ.Err? {
      return Err(typ.error);
    }
    TakeIsRead(item.data, item.pos, 1);
    var reserved := item.DeSerialize(1);
    if reserved.Err? {
      return Err(reserved.error);
    }
    TakeIsRead(item.data, item.pos, 2);
    var qty := item.DeSerialize(2);
    if qty.Err? {
      return Err(qty.error);
    }
    var values := ReadCount(item, typ.value[0], FromU16(qty.value));
    if values.Err? {
      return Err(values.error);
    }
    if FromU16(qty.value) == 0 {
      return Err(Panic);
    }
    var actions := done + [WriteTag(tag.value, typ.value[0], FromU16(qty.value), values.value)];
    if !provider(actions).Written? {
      return Err(BadStatus);
    }
    return Ok(([AsResponse(service), 0, 0, 0], actions));
  }

  method ServeService1(service: byte, item: Item, done: seq<Action>, provider: Provider)
    returns (r: Result<(seq<byte>, seq<Action>)>)
    requires 0 <= item.pos <= |item.data|
    modifies item`pos
    ensures r == ServeService(service, item.data[old(item.pos)..], done, provider)
  {
    hide ServeRead, ServeWrite;
    if service == FRAG_READ || service == READ {
      r := ReplyToRead(service, item, done, provider);
    } else if service == WRITE || service == FRAG_WRITE {
      r := ReplyToWrite(service, item, done, provider);
    } else {
      r := Ok(([], done));
    }
  }

  /** `item.Pos` is sought for every service, so it may start and end anywhere. */
  method ServeOne(item: Item, offset: int, done: seq<Action>, provider: Provider)
    returns (r: Result<(seq<byte>, seq<Action>)>)
    modifies item`pos
    ensures r == ServeAt(item.data, offset + 8, done, provider)
  {
    hide ServeService;
    item.pos := offset + 8;
    var service := item.DeSerialize(1);
    if service.Err? {
      return Err(service.error);
    }
    var size := item.Byte();
    if size.Err? {
      return Err(size.error);
    }
    r := ServeService1(service.value[0], item, done, provider);
  }

  lemma {:induction false} ServeAllCons(data: seq<byte>, offsets: seq<int>, done: seq<Action>, provider: Provider)
    requires offsets != []
    ensures ServeAll(data, offsets, done, provider) ==
      match ServeAt(data, offsets[0] + 8, done, provider)
      case Err(e) => Err(e)
      case Ok(one) => AheadWith([one.0], ServeAll(data, offsets[1..], one.1, provider))
  {
    hide ServeAt;
  }

  method ServeOffsets(item: Item, offsets: seq<int>, provider: Provider)
    returns (r: Result<(seq<seq<byte>>, seq<Action>)>)
    modifies item`pos
    ensures r == ServeAll(item.data, offsets, [], provider)
  {
    hide ServeAt;
    var results: seq<seq<byte>> := [];
    var actions: seq<Action> := [];
    ghost var spec := ServeAll(item.data, offsets, [], provider);
    NothingAheadWith(spec);
    assert offsets[0..] == offsets;
    for i := 0 to |offsets|
      invariant spec == AheadWith(results, ServeAll(item.data, offsets[i..], actions, provider))
    {
      ghost var rest := offsets[i..];
      assert rest[0] == offsets[i] && rest[1..] == offsets[i + 1..];
      ServeAllCons(item.data, rest, actions, provider);
      var one := ServeOne(item, offsets[i], actions, provider);
      if one.Err? {
        return Err(one.error);
      }
      AheadWithTwice(results, [one.value.0], ServeAll(item.data, rest[1..], one.value.1, provider));
      results, actions := results + [one.value.0], one.value.1;
    }
    assert results + [] == results;
    return Ok((results, actions));
  }

  method ParseOffsets(item: Item, count: nat) returns (r: Result<seq<int>>)
    requires item.pos >= 0
    modifies item`pos
    ensures r == ReadOffsets(item.data, old(item.pos), count)
  {
    var offsets: seq<int> := [];
    ghost var spec := ReadOffsets(item.data, item.pos, count);
    NothingAhead(spec);
    for i := 0 to count
      invariant item.pos >= 0
      invariant spec == Ahead(offsets, ReadOffsets(item.data, item.pos, count - i))
    {
      ghost var more := ReadOffsets(item.data, item.pos + 2, count - i - 1);
      var n := item.Int16();
      if n.Err? {
        return Err(n.error);
      }
      AheadTwice(offsets, [n.value], more);
      offsets := offsets + [n.value];
    }
    assert offsets + [] == offsets;
    return Ok(offsets);
  }

  method ParseHeader(item: Item) returns (r: Result<(nat, seq<int>)>)
    modifies item`pos
    ensures r == ParseMultiHeader(item.data)
  {
    hide ReadOffsets, FromU16;
    item.pos := 0;
    var sequence := item.DeSerialize(2);
    if sequence.Err? {
      return Err(sequence.error);
    }
    var service := item.DeSerialize(1);
    if service.Err? {
      return Err(service.error);
    }
    var words := item.DeSerialize(1);
    if words.Err? {
      return Err(words.error);
    }
    var path := item.DeSerialize(words.value[0] as int * 2 % 256);
    if path.Err? {
      return Err(path.error);
    }
    var qty := item.Uint16();
    if qty.Err? {
      return Err(qty.error);
    }
    var offsets := ParseOffsets(item, qty.value);
    if offsets.Err? {
      return Err(offsets.error);
    }
    return Ok((FromU16(sequence.value), offsets.value));
  }

  /** `sendConnectedReply` with the entries of a multiple service packet. */
  method SendReply(to: nat, sequence: nat, entries: seq<seq<byte>>) returns (b: seq<byte>)
    ensures b == Framed(ConnectedItems(to, ReplyData(sequence, entries)))
  {
    hide Framed, ReplyData, U32, Values;
    var item0 := new Item(CONNECTION_ADDRESS);
    item0.Write(U32(to));
    assert item0.data == U32(to);
    var item1 := ReplyItem(sequence, entries);
    b := SerializeItems([item0, item1]);
    ListOfTwo(Values([item0, item1]), ConnectedItems(to, ReplyData(sequence, entries)));
  }

  method ReplyItem(sequence: nat, entries: seq<seq<byte>>) returns (item: Item)
    ensures fresh(item)
    ensures var data := ReplyData(sequence, entries); item.Value() == ItemValue(CONNECTED_DATA, |data| % 65536, data)
  {
    hide Table, Concat, U16, ReplyHeader;
    var table := BuildOffsets(entries);
    item := new Item(CONNECTED_DATA);
    item.Write(U16(sequence));
    item.Write([AsResponse(MULTIPLE_SERVICE), 0, 0, 0]);
    ZeroHeader(sequence);
    assert item.data == ReplyHeader(sequence, 0);
    item.Write(U16(|entries|));
    item.Write(table);
    item.Serialize(Raws(entries));
    RawsConcat(entries);
    if entries == [] {
      NothingLeft(0, entries);
    }
    Regrouped(ReplyHeader(sequence, 0), U16(|entries|), table, Concat(entries));
    Associate(ReplyHeader(sequence, 0) + U16(|entries|), table, Concat(entries));
    assert item.data == ReplyData(sequence, entries);
  }

  lemma {:induction false} ZeroHeader(sequence: nat)
    ensures ReplyHeader(sequence, 0) == U16(sequence) + [AsResponse(MULTIPLE_SERVICE), 0, 0, 0]
  {
  }

  method BuildOffsets(entries: seq<seq<byte>>) returns (table: seq<byte>)
    ensures table == Table(2 + 2 * |entries|, entries)
  {
    hide Table, Concat, U16;
    var pos: nat := (|entries| + 1) * 2;
    table := [];
    assert [] + Table(pos, entries) == Table(pos, entries) && entries[0..] == entries;
    for i := 0 to |entries|
      invariant table + Table(pos, entries[i..]) == Table(2 + 2 * |entries|, entries)
    {
      OffsetStep(table, pos, entries, i);
      table := table + U16(pos);
      pos := pos + |entries[i]|;
    }
    NothingLeft(pos, entries[|entries|..]);
    assert table + [] == table;
  }

  lemma {:induction false} OffsetStep(table: seq<byte>, pos: nat, entries: seq<seq<byte>>, i: nat)
    requires i < |entries|
    ensures table + Table(pos, entries[i..]) == (table + U16(pos)) + Table(pos + |entries[i]|, entries[i + 1..])
  {
    hide Table, Concat, U16;
    var rest := entries[i..];
    assert rest[0] == entries[i] && rest[1..] == entries[i + 1..];
    TableCons(pos, rest);
    Associate(table, U16(pos), Table(pos + |entries[i]|, rest[1..]));
  }

  method ConnectedMulti(item0: Item, item1: Item, connections: map<nat, Connection>) returns (r: Result<Served>)
    requires item0 != item1
    modifies item0`pos, item1`pos
    ensures r == ServeMulti([item0.Value(), item1.Value()], connections)
  {
    hide FromU32, ParseMultiHeader, ServeAll, Framed, ReplyData;
    item0.pos := 0;
    var id := item0.DeSerialize(4);
    if id.Err? {
      return Err(id.error);
    }
    if FromU32(id.value) !in connections {
      return Err(BadStatus);
    }
    var c := connections[FromU32(id.value)];
    var header := ParseHeader(item1);
    if header.Err? {
      return Err(header.error);
    }
    var results := ServeOffsets(item1, header.value.1, c.provider);
    if results.Err? {
      return Err(results.error);
    }
    var reply := SendReply(c.to, header.value.0, results.value.0);
    return Ok(Served(reply, results.value.1));
  }

  method SendUnitData(conn: Stream, connections: map<nat, Connection>) returns (r: Result<Served>)
    modifies conn
    ensures r == ServeUnitData(old(conn.data), connections)
  {
    hide ServeItems, ParseItems;
    var interfaceHandle := conn.ReadAll(4);
    if interfaceHandle.Err? {
      return Err(interfaceHandle.error);
    }
    var timeout := conn.ReadAll(2);
    if timeout.Err? {
      return Err(timeout.error);
    }
    var items := ReadItems(conn);
    if items.Err? {
      return Err(items.error);
    }
    r := Dispatch(items.value, connections);
  }

  method Dispatch(items: seq<Item>, connections: map<nat, Connection>) returns (r: Result<Served>)
    requires Distinct(items) && forall i :: 0 <= i < |items| ==> items[i].pos == 0
    modifies items
    ensures r == ServeItems(old(Values(items)), connections)
  {
    hide ServeMulti;
    if |items| != 2 || items[0].id != CONNECTION_ADDRESS {
      return Err(Malformed);
    }
    var item0, item1 := items[0], items[1];
    ghost var vs := [item0.Value(), item1.Value()];
    ListOfTwo(old(Values(items)), vs);
    var id := item0.DeSerialize(4);
    if id.Err? {
      return Err(id.error);
    }
    var sequence := item1.DeSerialize(2);
    if sequence.Err? {
      return Err(sequence.error);
    }
    var service := item1.DeSerialize(1);
    if service.Err? {
      return Err(service.error);
    }
    if service.value[0] == MULTIPLE_SERVICE {
      assert [item0.Value(), item1.Value()] == vs;
      r := ConnectedMulti(item0, item1, connections);
    } else {
      r := Ok(Elsewhere(service.value[0]));
    }
  }
}
