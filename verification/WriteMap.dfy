/** The request that `WriteMap` builds: udt_write.go. */
module WriteMap {
  import opened Wire
  import opened Sequences
  import opened Text
  import opened Items
  import opened TagPath
  import opened MultiMessage
  import CipTypes

  /** One entry of the map: the tag's name, the CIP type of the Go value and the value's bytes. */
  datatype Assignment = Assignment(name: text, cipType: byte, data: seq<byte>)

  /** `msgCIPWriteIOIFooter.Bytes` for one element. */
  function Footer(cipType: byte): seq<byte> {
    if cipType == CipTypes.STRING then [0xA0, 0x02, 0xCE, 0x0F, 1, 0] else [cipType, 0, 1, 0]
  }

  function WriteBytes(a: Assignment, path: seq<byte>): seq<byte> {
    [WRITE, |path| / 2 % 256] + path + Footer(a.cipType) + a.data
  }

  /** The path of a tag: what a new client's cache gives for a symbolic path. */
  function PathFor(a: Assignment): Result<Ioi> {
    SymbolicIoi(Lower(a.name), a.cipType == CipTypes.BOOL)
  }

  /** The services, or the error of the first bad name. */
  function Services(ws: seq<Assignment>): Result<seq<seq<byte>>>
    decreases |ws|
  {
    if ws == [] then Ok([])
    else
      var path :- PathFor(ws[0]);
      var more :- Services(ws[1..]);
      Ok([WriteBytes(ws[0], path.buffer)] + more)
  }

  function WritePacket(connection: nat, sequence: nat, ws: seq<Assignment>): Result<seq<byte>> {
    var parts :- Services(ws);
    Ok(Framed(ConnectedItems(connection, PacketData(sequence, parts))))
  }

  /// The same, step by step

  lemma {:induction false} ServicesCons(ws: seq<Assignment>, i: nat)
    requires i < |ws|
    ensures Services(ws[i..]) ==
      match PathFor(ws[i])
      case Err(e) => Err(e)
      case Ok(path) => Ahead([WriteBytes(ws[i], path.buffer)], Services(ws[i + 1..]))
  {
    hide PathFor, WriteBytes;
    assert ws[i..][0] == ws[i] && ws[i..][1..] == ws[i + 1..];
  }

  /** All paths come first, so that a bad name leaves nothing half built. */
  method BuildPaths(ws: seq<Assignment>) returns (r: Result<seq<seq<byte>>>)
    ensures r.Ok? == Services(ws).Ok?
    ensures r.Ok? ==> |r.value| == |ws| && forall i :: 0 <= i < |ws| ==>
      PathFor(ws[i]).Ok? && r.value[i] == PathFor(ws[i]).value.buffer
    ensures r.Err? ==> r.error == Services(ws).error
  {
    hide WriteBytes, SymbolicIoi, Lower;
    var paths: seq<seq<byte>> := [];
    ghost var spec := Services(ws);
    ghost var built: seq<seq<byte>> := [];
    assert ws[0..] == ws;
    NothingAhead(spec);
    for i := 0 to |ws|
      invariant |paths| == i
      invariant forall k :: 0 <= k < i ==> PathFor(ws[k]).Ok? && paths[k] == PathFor(ws[k]).value.buffer
      invariant spec == Ahead(built, Services(ws[i..]))
    {
      ServicesCons(ws, i);
      var ioi := NewSymbolicIoi(Lower(ws[i].name), ws[i].cipType);
      if ioi.Err? {
        return Err(ioi.error);
      }
      AheadTwice(built, [WriteBytes(ws[i], ioi.value.buffer)], Services(ws[i + 1..]));
      built := built + [WriteBytes(ws[i], ioi.value.buffer)];
      paths := paths + [ioi.value.buffer];
    }
    return Ok(paths);
  }

  lemma {:induction false} ServiceAt(ws: seq<Assignment>, i: nat)
    requires Services(ws).Ok? && i < |ws|
    ensures |Services(ws).value| == |ws| && PathFor(ws[i]).Ok?
    ensures Services(ws).value[i] == WriteBytes(ws[i], PathFor(ws[i]).value.buffer)
    decreases |ws|
  {
    hide PathFor, WriteBytes;
    if i > 0 {
      ServiceAt(ws[1..], i - 1);
    } else if |ws| > 1 {
      ServiceAt(ws[1..], 0);
    }
  }

  method BuildWrites(connection: nat, sequence: nat, ws: seq<Assignment>) returns (r: Result<seq<byte>>)
    ensures r == WritePacket(connection, sequence, ws)
  {
    hide Framed, PacketData, U32, Values, Services, WriteBytes, PathFor;
    var paths := BuildPaths(ws);
    if paths.Err? {
      return Err(paths.error);
    }
    ghost var parts := Services(ws).value;
    var item0 := new Item(CONNECTION_ADDRESS);
    item0.Write(U32(connection));
    assert item0.data == U32(connection);
    var item1 := BuildWriteItem(sequence, ws, paths.value);
    var b := SerializeItems([item0, item1]);
    ListOfTwo(Values([item0, item1]), ConnectedItems(connection, PacketData(sequence, parts)));
    return Ok(b);
  }

  method BuildWriteItem(sequence: nat, ws: seq<Assignment>, paths: seq<seq<byte>>) returns (item: Item)
    requires Services(ws).Ok? && |paths| == |ws|
    requires forall i :: 0 <= i < |ws| ==> PathFor(ws[i]).Ok? && paths[i] == PathFor(ws[i]).value.buffer
    ensures fresh(item)
    ensures var data := PacketData(sequence, Services(ws).value);
      item.Value() == ItemValue(CONNECTED_DATA, |data| % 65536, data)
  {
    hide Table, Concat, U16, RequestHeader, Services, WriteBytes, PathFor;
    ghost var parts := Services(ws).value;
    if ws == [] {
      NoServices(ws);
    } else {
      ServiceAt(ws, 0);
    }
    var table, body := BuildWriteTable(ws, paths);
    item := new Item(CONNECTED_DATA);
    var header := RequestHeader(sequence) + U16(|ws|);
    item.Serialize(Raws([header, table, body]));
    RawsConcat([header, table, body]);
    ConcatThree(header, table, body);
    Regrouped(RequestHeader(sequence), U16(|ws|), table, body);
    assert item.data == PacketData(sequence, parts);
  }

  lemma {:induction false} NoServices(ws: seq<Assignment>)
    requires ws == []
    ensures Services(ws) == Ok([])
  {
  }

  method BuildWriteTable(ws: seq<Assignment>, paths: seq<seq<byte>>) returns (table: seq<byte>, body: seq<byte>)
    requires Services(ws).Ok? && |paths| == |ws| == |Services(ws).value|
    requires forall i :: 0 <= i < |ws| ==> PathFor(ws[i]).Ok? && paths[i] == PathFor(ws[i]).value.buffer
    ensures table == Table(2 + 2 * |ws|, Services(ws).value)
    ensures body == Concat(Services(ws).value)
  {
    hide Services, WriteBytes, U16, Table, Concat, PathFor;
    var jumpStart := 2 + |ws| * 2;
    ghost var parts := Services(ws).value;
    table, body := [], [];
    assert parts[0..] == parts;
    for i := 0 to |ws|
      invariant table + Table(jumpStart + |body|, parts[i..]) == Table(jumpStart, parts)
      invariant body + Concat(parts[i..]) == Concat(parts)
    {
      ghost var rest := parts[i..];
      TableCons(jumpStart + |body|, rest);
      assert rest[0] == parts[i] && rest[1..] == parts[i + 1..];
      Associate(table, U16(jumpStart + |body|), Table(jumpStart + |body| + |parts[i]|, rest[1..]));
      Associate(body, parts[i], Concat(rest[1..]));
      ServiceAt(ws, i);
      table := table + U16(jumpStart + |body|);
      body := AppendWrite(body, ws[i], paths[i]);
    }
    NothingLeft(jumpStart + |body|, parts[|ws|..]);
  }

  method AppendWrite(b0: seq<byte>, a: Assignment, path: seq<byte>) returns (b: seq<byte>)
    ensures b == b0 + WriteBytes(a, path)
  {
    b := b0 + [WRITE, |path| / 2 % 256];
    b := b + path;
    b := b + Footer(a.cipType);
    b := b + a.data;
    assert b == b0 + WriteBytes(a, path);
  }
}
