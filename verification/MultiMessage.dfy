/** The Multiple Service Packet as both sides lay it out: a count, a table of offsets, the parts. */
module MultiMessage {
  import opened Wire
  import opened Sequences
  import opened Items

  const READ: byte := 0x4C
  const WRITE: byte := 0x4D
  const FRAG_READ: byte := 0x52
  const FRAG_WRITE: byte := 0x53
  const MULTIPLE_SERVICE: byte := 0x0A

  /** `CIPService.AsResponse` */
  function AsResponse(service: byte): byte {
    if service < 128 then service + 128 else service
  }

  /** 16-bit offsets of parts that start at `at`. */
  function Table(at: nat, parts: seq<seq<byte>>): (t: seq<byte>)
    ensures |t| == 2 * |parts|
    decreases |parts|
  {
    if parts == [] then [] else U16(at) + Table(at + |parts[0]|, parts[1..])
  }

  /** Offsets count from the service count on. */
  function Packed(parts: seq<seq<byte>>): seq<byte> {
    U16(|parts|) + (Table(2 + 2 * |parts|, parts) + Concat(parts))
  }

  /** Where part `i` starts. */
  function Start(parts: seq<seq<byte>>, i: nat): nat
    requires i <= |parts|
  {
    2 + 2 * |parts| + |Concat(parts[..i])|
  }

  lemma {:induction false} ConcatSplit(parts: seq<seq<byte>>, i: nat)
    requires i <= |parts|
    ensures Concat(parts) == Concat(parts[..i]) + Concat(parts[i..])
    decreases i
  {
    if i == 0 {
      assert parts[0..] == parts;
    } else {
      ConcatSplit(parts[1..], i - 1);
      assert parts[..i][1..] == parts[1..][..i - 1] && parts[1..][i - 1..] == parts[i..];
    }
  }

  lemma {:induction false} TableAt(at: nat, parts: seq<seq<byte>>, i: nat)
    requires i < |parts|
    ensures Table(at, parts)[2 * i..2 * i + 2] == U16(at + |Concat(parts[..i])|)
    decreases i
  {
    var t := Table(at, parts);
    if i == 0 {
      assert t[..2] == U16(at);
    } else {
      var more := Table(at + |parts[0]|, parts[1..]);
      TableAt(at + |parts[0]|, parts[1..], i - 1);
      assert parts[..i][0] == parts[0] && parts[..i][1..] == parts[1..][..i - 1];
      assert |Concat(parts[..i])| == |parts[0]| + |Concat(parts[1..][..i - 1])|;
      assert t[2 * i..2 * i + 2] == more[2 * (i - 1)..2 * (i - 1) + 2];
    }
  }

  lemma {:induction false} StartMonotone(parts: seq<seq<byte>>, i: nat)
    requires i < |parts|
    ensures Start(parts, i + 1) == Start(parts, i) + |parts[i]|
    ensures Start(parts, |parts|) == |Packed(parts)|
    ensures Start(parts, i + 1) <= |Packed(parts)|
  {
    hide Table;
    ConcatSplit(parts[..i + 1], i);
    assert parts[..i + 1][..i] == parts[..i] && parts[..i + 1][i..] == [parts[i]];
    assert Concat([parts[i]]) == parts[i] + [];
    ConcatSplit(parts, i + 1);
    assert parts[..|parts|] == parts;
  }

  /** The table leads to the parts. */
  lemma {:induction false} PackedAt(parts: seq<seq<byte>>, i: nat)
    requires i < |parts|
    ensures Packed(parts)[2 + 2 * i..4 + 2 * i] == U16(Start(parts, i))
    ensures Start(parts, i) <= |Packed(parts)|
    ensures Packed(parts)[Start(parts, i)..] == parts[i] + Concat(parts[i + 1..])
  {
    var t := Table(2 + 2 * |parts|, parts);
    TableAt(2 + 2 * |parts|, parts, i);
    SliceInside(U16(|parts|), t, Concat(parts), 2 * i, 2 * i + 2);
    ConcatSplit(parts, i);
    assert parts[i..][0] == parts[i] && parts[i..][1..] == parts[i + 1..];
    DropTwo(U16(|parts|) + t, Concat(parts[..i]), Concat(parts[i..]));
    assert Packed(parts) == (U16(|parts|) + t) + (Concat(parts[..i]) + Concat(parts[i..]));
  }

  lemma {:induction false} DropTwo(a: seq<byte>, b: seq<byte>, c: seq<byte>)
    ensures (a + (b + c))[|a| + |b|..] == c
  {
  }

  lemma {:induction false} SliceInside(a: seq<byte>, t: seq<byte>, c: seq<byte>, lo: nat, hi: nat)
    requires lo <= hi <= |t|
    ensures (a + (t + c))[|a| + lo..|a| + hi] == t[lo..hi]
  {
  }

  /// The request side

  datatype Request = Request(service: byte, path: seq<byte>, elements: nat, offset: nat)

  /** Service, path length in words, path, element count; a fragmented read adds its offset. */
  function RequestBytes(q: Request): seq<byte> {
    [q.service, |q.path| / 2 % 256] + q.path + U16(q.elements) + if q.service == FRAG_READ then U32(q.offset) else []
  }

  function AllRequestBytes(qs: seq<Request>): (parts: seq<seq<byte>>)
    ensures |parts| == |qs|
    ensures forall i :: 0 <= i < |qs| ==> parts[i] == RequestBytes(qs[i])
  {
    if qs == [] then [] else [RequestBytes(qs[0])] + AllRequestBytes(qs[1..])
  }

  /** Sequence number, service and the path of the message router, class 2 instance 1. */
  function RequestHeader(sequence: nat): (h: seq<byte>)
    ensures |h| == 8
  {
    U16(sequence) + [MULTIPLE_SERVICE, 2, 0x20, 0x02, 0x24, 0x01]
  }

  function PacketData(sequence: nat, parts: seq<seq<byte>>): seq<byte> {
    RequestHeader(sequence) + Packed(parts)
  }

  function RequestData(sequence: nat, qs: seq<Request>): seq<byte> {
    PacketData(sequence, AllRequestBytes(qs))
  }

  function ConnectedItems(connection: nat, data: seq<byte>): seq<ItemValue> {
    [ItemValue(CONNECTION_ADDRESS, 4, U32(connection)), ItemValue(CONNECTED_DATA, |data| % 65536, data)]
  }

  /** The request half of `readListFragRound`. */
  method BuildRequest(connection: nat, sequence: nat, qs: seq<Request>) returns (b: seq<byte>)
    ensures b == Framed(ConnectedItems(connection, RequestData(sequence, qs)))
  {
    hide Framed, RequestData, Table, Concat, U16, U32, RequestHeader, Values;
    var item0 := new Item(CONNECTION_ADDRESS);
    item0.Write(U32(connection));
    assert item0.data == U32(connection);
    var item1 := BuildItem(sequence, qs);
    b := SerializeItems([item0, item1]);
    ListOfTwo(Values([item0, item1]), ConnectedItems(connection, RequestData(sequence, qs)));
  }

  method BuildItem(sequence: nat, qs: seq<Request>) returns (item: Item)
    ensures fresh(item)
    ensures var data := RequestData(sequence, qs); item.Value() == ItemValue(CONNECTED_DATA, |data| % 65536, data)
  {
    hide AllRequestBytes, Table, Concat, U16, RequestHeader;
    var table, body := BuildTable(qs);
    item := new Item(CONNECTED_DATA);
    var header := RequestHeader(sequence) + U16(|qs|);
    item.Serialize(Raws([header, table, body]));
    RawsConcat([header, table, body]);
    ConcatThree(header, table, body);
    Regrouped(RequestHeader(sequence), U16(|qs|), table, body);
    assert item.data == RequestData(sequence, qs);
  }

  lemma {:induction false} ConcatOne(a: seq<byte>)
    ensures Concat([a]) == a
  {
    assert [a][1..] == [] && a + [] == a;
  }

  lemma {:induction false} ConcatThree(a: seq<byte>, b: seq<byte>, c: seq<byte>)
    ensures Concat([a, b, c]) == a + (b + c)
  {
    assert [a, b, c][1..] == [b, c] && [b, c][1..] == [c];
    ConcatOne(c);
  }

  lemma {:induction false} Regrouped(a: seq<byte>, b: seq<byte>, c: seq<byte>, d: seq<byte>)
    ensures (a + b) + (c + d) == a + (b + (c + d))
  {
  }

  method BuildTable(qs: seq<Request>) returns (table: seq<byte>, body: seq<byte>)
    ensures table == Table(2 + 2 * |qs|, AllRequestBytes(qs))
    ensures body == Concat(AllRequestBytes(qs))
  {
    hide AllRequestBytes, RequestBytes, U16, Table, Concat;
    var jumpStart := 2 + |qs| * 2;
    ghost var parts := AllRequestBytes(qs);
    table, body := [], [];
    assert parts[0..] == parts;
    for i := 0 to |qs|
      invariant table + Table(jumpStart + |body|, parts[i..]) == Table(jumpStart, parts)
      invariant body + Concat(parts[i..]) == Concat(parts)
    {
      ghost var rest := parts[i..];
      TableCons(jumpStart + |body|, rest);
      assert rest[0] == parts[i] && rest[1..] == parts[i + 1..];
      Associate(table, U16(jumpStart + |body|), Table(jumpStart + |body| + |parts[i]|, rest[1..]));
      Associate(body, parts[i], Concat(rest[1..]));
      table := table + U16(jumpStart + |body|);
      body := AppendRequest(body, qs[i]);
    }
    NothingLeft(jumpStart + |body|, parts[|qs|..]);
  }

  lemma {:induction false} TableCons(at: nat, parts: seq<seq<byte>>)
    requires parts != []
    ensures Table(at, parts) == U16(at) + Table(at + |parts[0]|, parts[1..])
    ensures Concat(parts) == parts[0] + Concat(parts[1..])
  {
  }

  lemma {:induction false} NothingLeft(at: nat, parts: seq<seq<byte>>)
    requires parts == []
    ensures Table(at, parts) == [] && Concat(parts) == []
  {
  }

  method AppendRequest(b0: seq<byte>, q: Request) returns (b: seq<byte>)
    ensures b == b0 + RequestBytes(q)
  {
    b := b0 + [q.service, |q.path| / 2 % 256];
    b := b + q.path;
    if q.service == FRAG_READ {
      b := b + (U16(q.elements) + U32(q.offset));
    } else {
      b := b + U16(q.elements);
    }
  }
}
