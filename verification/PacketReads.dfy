/** The messages of client and server, read by position as any peer reads them. */
module PacketReads {
  import opened Wire
  import opened Sequences
  import opened Items
  import opened MultiMessage
  import opened MultiServer
  import opened WriteMap
  import M = MultiReadLaws
  import W = MultiWriteLaws
  import P = MultiReplyLaws
  import S = PathSegments
  import KnownTags
  import CipTypes

  /** The little-endian number of `width` bytes at `at`. */
  function Number(b: seq<byte>, at: nat, width: nat): Result<nat> {
    if at + width <= |b| then Ok(FromLE(b[at..at + width])) else Err(ShortData)
  }

  /// Frames

  /** Six zero bytes, two items: the connection's address and the data that is sent over it. */
  function ReadFrame(b: seq<byte>): Result<(nat, seq<byte>)> {
    if |b| < 20 || b[..6] != [0, 0, 0, 0, 0, 0] then Err(Malformed)
    else if Number(b, 6, 2) != Ok(2) || Number(b, 8, 2) != Ok(0xA1) || Number(b, 10, 2) != Ok(4) then Err(Malformed)
    else if Number(b, 16, 2) != Ok(0xB1) || Number(b, 18, 2) != Ok(|b| - 20) then Err(Malformed)
    else Ok((FromLE(b[12..16]), b[20..]))
  }

  lemma {:induction false} ShortNumber(b: seq<byte>, at: nat, v: nat)
    requires at + 2 <= |b| && b[at..at + 2] == U16(v) && v < 65536
    ensures Number(b, at, 2) == Ok(v)
  {
    U16Value(v);
    FromU16IsLE(U16(v));
  }

  lemma {:induction false} LongNumber(b: seq<byte>, at: nat, v: nat)
    requires at + 4 <= |b| && b[at..at + 4] == U32(v) && v < 0x1_0000_0000
    ensures Number(b, at, 4) == Ok(v)
  {
    hide U32, FromU32, FromLE;
    U32Value(v);
    FromU32IsLE(U32(v));
  }

  lemma {:induction false} ByteNumber(b: seq<byte>, at: nat, v: byte)
    requires at < |b| && b[at] == v
    ensures Number(b, at, 1) == Ok(v)
  {
    var one := b[at..at + 1];
    assert one == [v] && one[1..] == [];
    assert FromLE([]) == 0;
    assert FromLE(one) == one[0] + 256 * FromLE(one[1..]);
  }

  lemma {:induction false} FrameShape(connection: nat, data: seq<byte>)
    ensures Framed(ConnectedItems(connection, data)) ==
      Zeros(6) + U16(2) + (U16(0xA1) + U16(4) + U32(connection)) + (U16(0xB1) + U16(|data| % 65536)) + data
  {
    hide U16, U32;
    var vs := ConnectedItems(connection, data);
    assert vs[1..] == [vs[1]] && vs[1..][1..] == [];
    assert AllItemBytes(vs[1..]) == ItemBytes(vs[1]) + AllItemBytes([]);
    assert AllItemBytes(vs) == ItemBytes(vs[0]) + AllItemBytes(vs[1..]);
  }

  /** Address and data come out of a frame as they were put in. */
  lemma {:induction false} FrameIsRead(connection: nat, data: seq<byte>)
    requires connection < 0x1_0000_0000 && |data| < 65536
    ensures ReadFrame(Framed(ConnectedItems(connection, data))) == Ok((connection, data))
  {
    hide U16, U32, FromLE, Framed, ConnectedItems;
    var b := Framed(ConnectedItems(connection, data));
    FrameShape(connection, data);
    assert b[..6] == Zeros(6) == [0, 0, 0, 0, 0, 0];
    assert b[6..8] == U16(2) && b[8..10] == U16(0xA1) && b[10..12] == U16(4) && b[12..16] == U32(connection);
    assert b[16..18] == U16(0xB1) && b[18..20] == U16(|data|) && b[20..] == data;
    ShortNumber(b, 6, 2);
    ShortNumber(b, 8, 0xA1);
    ShortNumber(b, 10, 4);
    ShortNumber(b, 16, 0xB1);
    ShortNumber(b, 18, |data|);
    LongNumber(b, 12, connection);
  }

  /// Multiple service packets

  /** Part `i` of `n` starts at its offset and ends at the next one, the last one with the body. */
  function ReadParts(body: seq<byte>, n: nat, i: nat): Result<seq<seq<byte>>>
    requires i <= n
    decreases n - i
  {
    if i == n then Ok([])
    else
      var start :- Number(body, 2 + 2 * i, 2);
      var end :- if i + 1 < n then Number(body, 4 + 2 * i, 2) else Ok(|body|);
      if !(start <= end <= |body|) then Err(Malformed)
      else
        var more :- ReadParts(body, n, i + 1);
        Ok([body[start..end]] + more)
  }

  function ReadBody(body: seq<byte>): Result<seq<seq<byte>>> {
    var n :- Number(body, 0, 2);
    ReadParts(body, n, 0)
  }

  lemma {:induction false} PartFound(parts: seq<seq<byte>>, i: nat)
    requires |Packed(parts)| < 65536 && i < |parts|
    ensures Number(Packed(parts), 2 + 2 * i, 2) == Ok(Start(parts, i))
    ensures Start(parts, i) + |parts[i]| == Start(parts, i + 1) <= |Packed(parts)|
    ensures Start(parts, |parts|) == |Packed(parts)|
    ensures Packed(parts)[Start(parts, i)..Start(parts, i + 1)] == parts[i]
  {
    hide Packed, Start, Concat, U16, FromLE;
    M.PackedCount(parts);
    PackedAt(parts, i);
    StartMonotone(parts, i);
    ShortNumber(Packed(parts), 2 + 2 * i, Start(parts, i));
    M.PrefixOf(parts[i], Concat(parts[i + 1..]), Packed(parts), Start(parts, i));
  }

  lemma {:induction false} PartsRead(parts: seq<seq<byte>>, i: nat)
    requires |Packed(parts)| < 65536 && i <= |parts|
    ensures ReadParts(Packed(parts), |parts|, i) == Ok(parts[i..])
    decreases |parts| - i
  {
    hide Packed, Start, Number;
    if i < |parts| {
      PartFound(parts, i);
      if i + 1 < |parts| {
        PartFound(parts, i + 1);
        assert 2 + 2 * (i + 1) == 4 + 2 * i;
      }
      PartsRead(parts, i + 1);
      assert parts[i..] == [parts[i]] + parts[i + 1..];
    } else {
      assert parts[i..] == [];
    }
  }

  lemma {:induction false} BodyIsRead(parts: seq<seq<byte>>)
    requires |Packed(parts)| < 65536
    ensures ReadBody(Packed(parts)) == Ok(parts)
  {
    hide Table, Concat, ReadParts, U16, FromLE;
    PartsRead(parts, 0);
    assert parts[0..] == parts;
    assert Packed(parts)[0..2] == U16(|parts|);
    hide Packed;
    M.PackedCount(parts);
    ShortNumber(Packed(parts), 0, |parts|);
  }

  datatype Packet = Packet(sequence: nat, service: nat, path: seq<S.Segment>, parts: seq<seq<byte>>)

  function ReadPacket(data: seq<byte>): Result<Packet> {
    var sequence :- Number(data, 0, 2);
    var service :- Number(data, 2, 1);
    var words :- Number(data, 3, 1);
    if |data| < 4 + 2 * words then Err(ShortData)
    else
      var path :- S.Segments(data[4..4 + 2 * words]);
      var parts :- ReadBody(data[4 + 2 * words..]);
      Ok(Packet(sequence, service, path, parts))
  }

  lemma {:induction false} RouterPath()
    ensures S.Segments([0x20, 0x02, 0x24, 0x01]) == Ok([S.Class(2), S.Instance(1)])
  {
    hide S.Segments;
    InstanceOfOne();
    S.ClassSegment(2, 1);
    assert [0x20, 2] + [0x24, 1] == [0x20, 0x02, 0x24, 0x01];
  }

  lemma {:induction false} InstanceOfOne()
    ensures KnownTags.InstanceBytes(1) == [0x24, 1]
  {
  }

  /** The multiple service packet asks the message router, class 2 instance 1, for the services it holds. */
  lemma {:induction false} PacketIsRead(sequence: nat, parts: seq<seq<byte>>)
    requires |Packed(parts)| < 65536
    ensures ReadPacket(PacketData(sequence, parts)) ==
      Ok(Packet(sequence % 65536, 0x0A, [S.Class(2), S.Instance(1)], parts))
  {
    hide Packed, ReadBody, U16, S.Segments, Number;
    var data := PacketData(sequence, parts);
    SequenceAt(data, sequence);
    ByteNumber(data, 2, 0x0A);
    ByteNumber(data, 3, 2);
    assert data[4..8] == [0x20, 0x02, 0x24, 0x01];
    RouterPath();
    assert data[8..] == Packed(parts);
    BodyIsRead(parts);
  }

  lemma {:induction false} U16Wraps(v: nat)
    ensures U16(v % 65536) == U16(v)
  {
    U16Value(v);
    U16OfValue(U16(v));
  }

  lemma {:induction false} SequenceAt(data: seq<byte>, sequence: nat)
    requires |data| >= 2 && data[..2] == U16(sequence)
    ensures Number(data, 0, 2) == Ok(sequence % 65536)
  {
    hide U16, Number;
    assert data[0..2] == data[..2];
    U16Wraps(sequence);
    ShortNumber(data, 0, sequence % 65536);
  }

  datatype Reply = Reply(sequence: nat, service: nat, reserved: nat, status: nat, entries: seq<seq<byte>>)

  function ReadReply(data: seq<byte>): Result<Reply> {
    var sequence :- Number(data, 0, 2);
    var service :- Number(data, 2, 1);
    var reserved :- Number(data, 3, 1);
    var status :- Number(data, 4, 2);
    var entries :- ReadBody(data[6..]);
    Ok(Reply(sequence, service, reserved, status, entries))
  }

  lemma {:induction false} ReplyIsRead(sequence: nat, status: nat, entries: seq<seq<byte>>)
    requires |Packed(entries)| < 65536 && status < 65536
    ensures ReadReply(ReplyWith(sequence, status, entries)) == Ok(Reply(sequence % 65536, 0x8A, 0, status, entries))
  {
    hide Packed, ReadBody, U16, Number;
    var data := ReplyWith(sequence, status, entries);
    SequenceAt(data, sequence);
    ByteNumber(data, 2, 0x8A);
    ByteNumber(data, 3, 0);
    assert data[4..6] == U16(status);
    ShortNumber(data, 4, status);
    assert data[6..] == Packed(entries);
    BodyIsRead(entries);
  }

  /// Services

  /** The code, the path by its length in words, and the rest. */
  function ReadService(b: seq<byte>): Result<(nat, seq<byte>, seq<byte>)> {
    var service :- Number(b, 0, 1);
    var words :- Number(b, 1, 1);
    if |b| < 2 + 2 * words then Err(ShortData)
    else Ok((service, b[2..2 + 2 * words], b[2 + 2 * words..]))
  }

  lemma {:induction false} ServiceIsRead(service: byte, path: seq<byte>, rest: seq<byte>)
    requires |path| % 2 == 0 && |path| < 512
    ensures ReadService([service, |path| / 2 % 256] + (path + rest)) == Ok((service, path, rest))
  {
    hide Number;
    var b := [service, |path| / 2 % 256] + (path + rest);
    ByteNumber(b, 0, service);
    ByteNumber(b, 1, |path| / 2);
    assert b[2..2 + |path|] == path && b[2 + |path|..] == rest;
  }

  /** What a read asks for: a count and, if it is fragmented, an offset. */
  lemma {:induction false} RequestIsRead(q: Request)
    requires |q.path| % 2 == 0 && |q.path| < 512 && q.elements < 65536 && q.offset < 0x1_0000_0000
    ensures var r := ReadService(RequestBytes(q));
      && r.Ok? && r.value.0 == q.service && r.value.1 == q.path && Number(r.value.2, 0, 2) == Ok(q.elements)
      && (if q.service == 0x52 then |r.value.2| == 6 && Number(r.value.2, 2, 4) == Ok(q.offset) else |r.value.2| == 2)
  {
    hide U16, U32, Number, ReadService;
    var rest := M.Footer(q);
    M.RequestShape(q, []);
    assert RequestBytes(q) + [] == RequestBytes(q) && rest + [] == rest;
    ServiceIsRead(q.service, q.path, rest);
    assert rest[0..2] == U16(q.elements);
    ShortNumber(rest, 0, q.elements);
    if q.service == 0x52 {
      assert rest[2..6] == U32(q.offset);
      LongNumber(rest, 2, q.offset);
    }
  }

  /** What `WriteMap` says about a value: its type, one element, its bytes; of a string, type 0x02A0 and 0x0FCE. */
  lemma {:induction false} WriteIsRead(a: Assignment, path: seq<byte>)
    requires |path| % 2 == 0 && |path| < 512
    ensures var r := ReadService(WriteBytes(a, path));
      && r.Ok? && r.value.0 == 0x4D && r.value.1 == path
      && var rest := r.value.2;
        if a.cipType == 0xFF
        then
          Number(rest, 0, 2) == Ok(0x02A0) && Number(rest, 2, 2) == Ok(0x0FCE) && Number(rest, 4, 2) == Ok(1)
          && rest[6..] == a.data
        else Number(rest, 0, 2) == Ok(a.cipType) && Number(rest, 2, 2) == Ok(1) && rest[4..] == a.data
  {
    hide Number, ReadService;
    var rest := Footer(a.cipType) + a.data;
    assert WriteBytes(a, path) == [WRITE, |path| / 2 % 256] + (path + rest);
    ServiceIsRead(WRITE, path, rest);
    if a.cipType == 0xFF {
      assert rest[0..2] == [0xA0, 0x02] == U16(0x02A0);
      assert rest[2..4] == [0xCE, 0x0F] == U16(0x0FCE);
      assert rest[4..6] == [1, 0] == U16(1);
      ShortNumber(rest, 0, 0x02A0);
      ShortNumber(rest, 2, 0x0FCE);
      ShortNumber(rest, 4, 1);
    } else {
      assert rest[0..2] == [a.cipType, 0] == U16(a.cipType);
      assert rest[2..4] == [1, 0] == U16(1);
      ShortNumber(rest, 0, a.cipType);
      ShortNumber(rest, 2, 1);
    }
  }

  /** A whole batch of reads, from the frame down to each tag. */
  lemma {:induction false} BatchIsRead(connection: nat, sequence: nat, qs: seq<Request>, i: nat)
    requires connection < 0x1_0000_0000 && |RequestData(sequence, qs)| < 65536 && i < |qs|
    requires |qs[i].path| % 2 == 0 && |qs[i].path| < 512 && qs[i].elements < 65536 && qs[i].offset < 0x1_0000_0000
    ensures var frame := ReadFrame(Framed(ConnectedItems(connection, RequestData(sequence, qs))));
      && frame.Ok? && frame.value.0 == connection
      && var packet := ReadPacket(frame.value.1);
        && packet.Ok? && packet.value.sequence == sequence % 65536 && |packet.value.parts| == |qs|
        && packet.value.service == 0x0A && packet.value.path == [S.Class(2), S.Instance(1)]
        && var r := ReadService(packet.value.parts[i]);
          && r.Ok? && r.value.0 == qs[i].service && r.value.1 == qs[i].path
          && Number(r.value.2, 0, 2) == Ok(qs[i].elements)
  {
    hide Framed, ConnectedItems, ReadFrame, ReadPacket, ReadService, Packed, RequestBytes, Number, AllRequestBytes;
    var parts := AllRequestBytes(qs);
    FrameIsRead(connection, RequestData(sequence, qs));
    PacketIsRead(sequence, parts);
    assert parts[i] == RequestBytes(qs[i]);
    RequestIsRead(qs[i]);
  }

  /// This server's replies

  /** The entry of a number or a text is a value entry with its reserved bytes zero; a text has type 0x02A0, 0x0FCE. */
  lemma {:induction false} ServerEntryIs(fragmented: bool, o: Outcome)
    requires o.Atomic? || o.Str?
    ensures ReadEntry(if fragmented then 0x52 else 0x4C, o) == Ok(P.EntryBytes(
      match o
      case Atomic(t, data) => P.Value(P.Header(fragmented, 0, 0), t, P.Plain, data)
      case Str(s) => P.Value(P.Header(fragmented, 0, 0), 0xA0, P.Info(0x02, 0xCE, 0x0F), StringData(s))))
  {
    hide StringData;
    var service: byte := if fragmented then 0x52 else 0x4C;
    var h := P.HeaderBytes(P.Header(fragmented, 0, 0), 0);
    assert h == [AsResponse(service), 0, 0, 0];
    if o.Atomic? {
      assert [AsResponse(service), 0, 0, 0, o.cipType, 0] + o.data == h + ([o.cipType, 0] + o.data);
    }
  }

  lemma {:induction false} FramedReplyIsRead(to: nat, sequence: nat, entries: seq<seq<byte>>)
    requires to < 0x1_0000_0000 && |Packed(entries)| < 65530
    ensures var data := ReplyData(sequence % 65536, entries);
      && ReadFrame(Framed(ConnectedItems(to, data))) == Ok((to, data))
      && ReadReply(data) == Ok(Reply(sequence % 65536, 0x8A, 0, 0, entries))
  {
    hide Framed, ConnectedItems, ReadFrame, ReadReply, Packed;
    FrameIsRead(to, ReplyData(sequence % 65536, entries));
    ReplyIsRead(sequence % 65536, 0, entries);
  }

  /** What a reply says of its address, its number and its entries. */
  predicate Says(reply: seq<byte>, to: nat, sequence: nat, entries: seq<seq<byte>>) {
    var frame := ReadFrame(reply);
    frame.Ok? && frame.value.0 == to && ReadReply(frame.value.1) == Ok(Reply(sequence % 65536, 0x8A, 0, 0, entries))
  }

  lemma {:induction false} HandledSays(
      to: nat, sequence: nat, r: Result<(seq<seq<byte>>, seq<Action>)>)
    requires r.Ok? && to < 0x1_0000_0000 && |Packed(r.value.0)| < 65530
    ensures var h := M.Handled(to, sequence % 65536, r);
      h.Ok? && h.value.Served? && Says(h.value.reply, to, sequence, r.value.0)
  {
    hide Framed, ConnectedItems, ReadFrame, ReadReply, Packed, ReplyData;
    FramedReplyIsRead(to, sequence, r.value.0);
  }

  /** The reply goes to the peer of the connection that the packet named, under the packet's sequence number. */
  lemma {:induction false} ReplyIsAddressed(
      connection: nat, sequence: nat, ss: seq<W.Service>, connections: map<nat, Connection>)
    requires connection < 0x1_0000_0000 && connection in connections && connections[connection].to < 0x1_0000_0000
    requires W.AreServices(ss) && W.AreFree(ss) && |Packed(W.AllServiceBytes(ss))| < 32768
    requires var all := W.ServedFrom(ss, 0, [], connections[connection].provider);
      all.Ok? && |Packed(all.value.0)| < 65530
    ensures var r := ServeUnitData(W.MixedPacket(connection, sequence, ss), connections);
      && r.Ok? && r.value.Served?
      && Says(r.value.reply, connections[connection].to, sequence,
        W.ServedFrom(ss, 0, [], connections[connection].provider).value.0)
  {
    hide Packed, ServeUnitData, W.MixedPacket, W.AreServices, W.AreFree, W.ServedFrom, M.Handled, Says;
    var c := connections[connection];
    W.MixedServed(connection, sequence, ss, connections);
    HandledSays(c.to, sequence, W.ServedFrom(ss, 0, [], c.provider));
  }
}
