/** A batch of reads, from the client to the server and back. */
module MultiReadLaws {
  import opened Wire
  import opened Streams
  import opened Text
  import opened Items
  import opened TagPath
  import opened TagPathLaws
  import opened MultiMessage
  import opened MultiServer
  import opened ReadValue
  import R = MultiReply
  import CipTypes

  /// The request side

  datatype Tag = Tag(parts: seq<Part>, isBool: bool, elements: nat, fragmented: bool, offset: nat)

  /** A tag with a name, short enough names and small enough indexes. */
  predicate Encodable(t: Tag) {
    AreParts(t.parts) && Compact(Visible(t.parts, t.isBool)) && Visible(t.parts, t.isBool) != []
  }

  function PathOf(t: Tag): seq<byte> {
    match SymbolicIoi(Render(t.parts), t.isBool)
    case Ok(ioi) => ioi.buffer
    case Err(_) => []
  }

  function ToRequest(t: Tag): Request {
    Request(if t.fragmented then FRAG_READ else READ, PathOf(t), t.elements, t.offset)
  }

  function ToRequests(ts: seq<Tag>): (qs: seq<Request>)
    ensures |qs| == |ts|
  {
    if ts == [] then [] else [ToRequest(ts[0])] + ToRequests(ts[1..])
  }

  /** What the provider should be asked for: the path text and the element count. */
  function Asked(t: Tag): Action {
    ReadTag(Render(Visible(t.parts, t.isBool)), Signed16(t.elements % 65536))
  }

  function AskedAll(ts: seq<Tag>): (acts: seq<Action>)
    ensures |acts| == |ts|
    ensures forall i :: 0 <= i < |ts| ==> acts[i] == Asked(ts[i])
  {
    if ts == [] then [] else [Asked(ts[0])] + AskedAll(ts[1..])
  }

  /** The path parser does not take the low byte of the count for more path. */
  predicate CountIsFree(t: Tag) {
    !IsSentinel(t.elements % 256)
  }

  predicate CountsAreFree(ts: seq<Tag>) {
    ts == [] || (CountIsFree(ts[0]) && CountsAreFree(ts[1..]))
  }

  predicate AllEncodable(ts: seq<Tag>) {
    ts == [] || (Encodable(ts[0]) && AllEncodable(ts[1..]))
  }

  function Footer(q: Request): seq<byte> {
    U16(q.elements) + if q.service == FRAG_READ then U32(q.offset) else []
  }

  lemma {:induction false} RequestShape(q: Request, x: seq<byte>)
    ensures RequestBytes(q) + x == [q.service, |q.path| / 2 % 256] + (q.path + (Footer(q) + x))
  {
  }

  lemma {:induction false} TwoBytesAt(data: seq<byte>, pos: nat, a: byte, b: byte, y: seq<byte>)
    requires pos <= |data| && data[pos..] == [a, b] + y
    ensures TakeAt(data, pos, 1) == Ok([a]) && TypedAt(data, pos + 1, 1) == Ok([b])
    ensures pos + 2 <= |data| && data[pos + 2..] == y
  {
    assert data[pos..][0] == a && data[pos..][1] == b && data[pos..][2..] == y;
    assert data[pos..pos + 1] == [data[pos]] && data[pos + 1..pos + 2] == [data[pos + 1]];
  }

  /** Where a request starts, its service is served on its path and what follows. */
  lemma {:induction false} ServesRequest(
      data: seq<byte>, pos: nat, q: Request, x: seq<byte>, done: seq<Action>, provider: Provider)
    requires pos <= |data| && data[pos..] == RequestBytes(q) + x
    requires q.service == READ || q.service == FRAG_READ
    ensures ServeAt(data, pos, done, provider) == ServeRead(q.service, q.path + (Footer(q) + x), done, provider)
  {
    hide ServeRead, RequestBytes, Footer, TakeAt, TypedAt;
    RequestShape(q, x);
    TwoBytesAt(data, pos, q.service, |q.path| / 2 % 256, q.path + (Footer(q) + x));
  }

  /** A sentinel makes the text longer. */
  lemma {:induction false} DecodeGrows(t: text, x: seq<byte>)
    ensures DecodeFrom(t, x).Ok? ==> |DecodeFrom(t, x).value.0| >= |t|
    ensures DecodeFrom(t, x).Ok? && t != [] && !StartsFree(x) ==> |DecodeFrom(t, x).value.0| > |t|
    decreases |x|
  {
    hide Digits;
    var step := DecodeStep(t, x);
    if step.Ok? && step.value.More? {
      DecodeGrows(step.value.t, step.value.rest);
    }
  }

  lemma {:induction false} FooterFree(q: Request, x: seq<byte>)
    ensures StartsFree(Footer(q) + x) <==> !IsSentinel(q.elements % 256)
  {
    assert (Footer(q) + x)[0] == q.elements % 256;
  }

  lemma {:induction false} PathDecodes(t: Tag, x: seq<byte>)
    requires Encodable(t)
    ensures DecodeFrom([], PathOf(t) + x) == DecodeFrom(Render(Visible(t.parts, t.isBool)), x)
  {
    hide SymbolicIoi, DecodeFrom, Render, AreParts, Visible, PathBytes, Compact, RenderFrom;
    var vs := Visible(t.parts, t.isBool);
    SymbolicMeaning(t.parts, t.isBool);
    VisibleNamed(t.parts, t.isBool);
    DecodePath([], vs, x);
    RenderedAll([], vs);
    RenderNothing(vs);
  }

  lemma {:induction false} RenderNothing(vs: seq<Part>)
    ensures vs == [] ==> Render(vs) == []
    ensures AddName([], Render(vs)) == Render(vs)
  {
  }

  lemma {:induction false} FooterCount(q: Request, x: seq<byte>)
    ensures |Footer(q) + x| >= 2 && FromU16(Footer(q) + x) == q.elements % 65536
  {
    U16Value(q.elements);
    var y := Footer(q) + x;
    assert y[0] == U16(q.elements)[0] && y[1] == U16(q.elements)[1];
  }

  /** With a free count the server asks for the tag and answers with what the provider says. */
  lemma {:induction false} ServesTag(
      data: seq<byte>, pos: nat, t: Tag, x: seq<byte>, done: seq<Action>, provider: Provider)
    requires Encodable(t) && CountIsFree(t)
    requires pos <= |data| && data[pos..] == RequestBytes(ToRequest(t)) + x
    ensures ServeAt(data, pos, done, provider) ==
      match ReadEntry(ToRequest(t).service, provider(done + [Asked(t)]))
      case Ok(entry) => Ok((entry, done + [Asked(t)]))
      case Err(e) => Err(e)
  {
    hide ReadEntry, Encodable, DecodeFrom, Footer, ServeAt, RequestBytes, Render, Visible, FromU16, PathOf, IsSentinel;
    var q := ToRequest(t);
    var y := Footer(q) + x;
    ServesRequest(data, pos, q, x, done, provider);
    PathDecodes(t, y);
    FooterFree(q, x);
    DecodeEats(Render(Visible(t.parts, t.isBool)), y);
    FooterCount(q, x);
  }

  /** Otherwise it asks for a longer name, or fails. */
  lemma {:induction false} MistakesTag(
      data: seq<byte>, pos: nat, t: Tag, x: seq<byte>, done: seq<Action>, provider: Provider)
    requires Encodable(t) && !CountIsFree(t)
    requires pos <= |data| && data[pos..] == RequestBytes(ToRequest(t)) + x
    ensures var r := ServeAt(data, pos, done, provider);
      r.Ok? ==> |r.value.1| == |done| + 1 && r.value.1[|done|] != Asked(t) && done == r.value.1[..|done|]
  {
    hide ReadEntry, Encodable, DecodeFrom, Footer, ServeAt, RequestBytes, Render, FromU16, PathOf, IsSentinel;
    var q := ToRequest(t);
    var y := Footer(q) + x;
    ServesRequest(data, pos, q, x, done, provider);
    PathDecodes(t, y);
    FooterFree(q, x);
    RenderedName(t);
    DecodeGrows(Render(Visible(t.parts, t.isBool)), y);
  }

  lemma {:induction false} RenderedName(t: Tag)
    requires Encodable(t)
    ensures Render(Visible(t.parts, t.isBool)) != []
  {
    hide Render, Compact;
    VisibleNamed(t.parts, t.isBool);
    var vs := Visible(t.parts, t.isBool);
    RenderCons(vs);
    assert PartText(vs[0]) != [];
  }

  /// All the requests of a packet

  /** What serving the tags one after another yields. */
  function Answers(ts: seq<Tag>, done: seq<Action>, provider: Provider): Result<(seq<seq<byte>>, seq<Action>)>
    decreases |ts|
  {
    if ts == [] then Ok(([], done))
    else
      var entry :- ReadEntry(ToRequest(ts[0]).service, provider(done + [Asked(ts[0])]));
      var (entries, actions) :- Answers(ts[1..], done + [Asked(ts[0])], provider);
      Ok(([entry] + entries, actions))
  }

  function Starts(parts: seq<seq<byte>>, i: nat): (ns: seq<int>)
    requires i <= |parts|
    ensures |ns| == |parts| - i
    decreases |parts| - i
  {
    if i == |parts| then [] else [Start(parts, i)] + Starts(parts, i + 1)
  }

  function Parts(ts: seq<Tag>): (parts: seq<seq<byte>>)
    ensures |parts| == |ts|
  {
    AllRequestBytes(ToRequests(ts))
  }

  lemma {:induction false} PartAt(ts: seq<Tag>, i: nat)
    requires i < |ts|
    ensures Parts(ts)[i] == RequestBytes(ToRequest(ts[i]))
    decreases |ts|
  {
    hide RequestBytes, ToRequest;
    if i > 0 {
      PartAt(ts[1..], i - 1);
      assert ToRequests(ts)[1..] == ToRequests(ts[1..]);
    }
  }

  lemma {:induction false} AtIndex(ts: seq<Tag>, i: nat)
    requires i < |ts| && AllEncodable(ts)
    ensures Encodable(ts[i])
    ensures CountsAreFree(ts) ==> CountIsFree(ts[i])
    decreases |ts|
  {
    hide Encodable, CountIsFree;
    if i > 0 {
      AtIndex(ts[1..], i - 1);
    }
  }

  /** Data that holds packed requests behind an eight-byte header. */
  predicate Holds(data: seq<byte>, parts: seq<seq<byte>>) {
    |data| >= 8 && data[8..] == Packed(parts)
  }

  /** Part `i`, found by its offset. */
  lemma {:induction false} FindsPart(data: seq<byte>, parts: seq<seq<byte>>, i: nat) returns (x: seq<byte>)
    requires Holds(data, parts) && i < |parts|
    ensures var pos := Start(parts, i) + 8; pos <= |data| && data[pos..] == parts[i] + x
  {
    hide Packed, Start, Concat;
    PackedAt(parts, i);
    x := Concat(parts[i + 1..]);
    var k := Start(parts, i);
    assert data[8..][k..] == data[8 + k..];
  }

  lemma {:induction false} FindsRequest(data: seq<byte>, ts: seq<Tag>, i: nat) returns (x: seq<byte>)
    requires Holds(data, Parts(ts)) && i < |ts|
    ensures var pos := Start(Parts(ts), i) + 8;
      pos <= |data| && data[pos..] == RequestBytes(ToRequest(ts[i])) + x
  {
    hide Parts, Start, RequestBytes, Holds;
    PartAt(ts, i);
    x := FindsPart(data, Parts(ts), i);
  }

  /** The offsets lead the server through exactly the requested tags, in order. */
  lemma {:induction false} ServesAll(data: seq<byte>, ts: seq<Tag>, i: nat, done: seq<Action>, provider: Provider)
    requires Holds(data, Parts(ts)) && i <= |ts| && AllEncodable(ts) && CountsAreFree(ts)
    ensures ServeAll(data, Starts(Parts(ts), i), done, provider) == Answers(ts[i..], done, provider)
    decreases |ts| - i
  {
    hide Holds, Parts, Start, ServeAt, ReadEntry, ToRequest, AllEncodable, CountsAreFree, Encodable, CountIsFree;
    if i < |ts| {
      var offsets := Starts(Parts(ts), i);
      assert offsets[0] == Start(Parts(ts), i) && offsets[1..] == Starts(Parts(ts), i + 1);
      assert ts[i..][0] == ts[i] && ts[i..][1..] == ts[i + 1..];
      AtIndex(ts, i);
      var x := FindsRequest(data, ts, i);
      ServesTag(data, Start(Parts(ts), i) + 8, ts[i], x, done, provider);
      ServesAll(data, ts, i + 1, done + [Asked(ts[i])], provider);
    }
  }

  /** Actions are only ever added. */
  lemma {:induction false} ActionsGrow(data: seq<byte>, offsets: seq<int>, done: seq<Action>, provider: Provider)
    ensures var r := ServeAll(data, offsets, done, provider); r.Ok? ==> done <= r.value.1
    decreases |offsets|
  {
    hide ServeRead, ServeWrite, TakeAt, TypedAt;
    if offsets != [] {
      var one := ServeAt(data, offsets[0] + 8, done, provider);
      if one.Ok? {
        OneActionGrows(data, offsets[0] + 8, done, provider);
        ActionsGrow(data, offsets[1..], one.value.1, provider);
      }
    }
  }

  lemma {:induction false} OneActionGrows(data: seq<byte>, pos: int, done: seq<Action>, provider: Provider)
    ensures var r := ServeAt(data, pos, done, provider); r.Ok? ==> done <= r.value.1
  {
    hide DecodeFrom, ReadEntry, TakeAt, TypedAt, ReadFull, ReadValues;
  }

  lemma {:induction false} CountsFrom(ts: seq<Tag>, i: nat)
    requires i < |ts|
    ensures CountsAreFree(ts[i..]) <==> CountIsFree(ts[i]) && CountsAreFree(ts[i + 1..])
  {
    assert ts[i..][0] == ts[i] && ts[i..][1..] == ts[i + 1..];
  }

  lemma {:induction false} AskedRightly(
      data: seq<byte>, pos: nat, t: Tag, x: seq<byte>, done: seq<Action>, provider: Provider,
      actions: seq<Action>)
    requires Encodable(t)
    requires pos <= |data| && data[pos..] == RequestBytes(ToRequest(t)) + x
    requires ServeAt(data, pos, done, provider).Ok? && ServeAt(data, pos, done, provider).value.1 <= actions
    requires |done| < |actions| && actions[|done|] == Asked(t)
    ensures CountIsFree(t)
  {
    hide ServeAt, RequestBytes, Encodable, CountIsFree, Asked, ToRequest;
    if !CountIsFree(t) {
      MistakesTag(data, pos, t, x, done, provider);
    }
  }

  /** If exactly the requested tags were asked for, no count was mistaken for path. */
  lemma {:induction false} MistakesShow(data: seq<byte>, ts: seq<Tag>, i: nat, done: seq<Action>, provider: Provider)
    requires Holds(data, Parts(ts)) && i <= |ts| && AllEncodable(ts)
    requires ServeAll(data, Starts(Parts(ts), i), done, provider).Ok?
    requires ServeAll(data, Starts(Parts(ts), i), done, provider).value.1 == done + AskedAll(ts[i..])
    ensures CountsAreFree(ts[i..])
    decreases |ts| - i
  {
    hide Holds, Parts, Start, ServeAt, ReadEntry, ToRequest, RequestBytes, AllEncodable, CountsAreFree;
    hide Encodable, CountIsFree, Asked, AskedAll;
    if i < |ts| {
      var offsets := Starts(Parts(ts), i);
      var pos := Start(Parts(ts), i) + 8;
      assert offsets[0] == Start(Parts(ts), i) && offsets[1..] == Starts(Parts(ts), i + 1);
      assert ts[i..][0] == ts[i] && ts[i..][1..] == ts[i + 1..];
      AtIndex(ts, i);
      CountsFrom(ts, i);
      var x := FindsRequest(data, ts, i);
      var one := ServeAt(data, pos, done, provider).value;
      ActionsGrow(data, offsets[1..], one.1, provider);
      var actions := done + AskedAll(ts[i..]);
      AskedFrom(ts, i);
      Extended(done, Asked(ts[i]), AskedAll(ts[i + 1..]));
      AskedRightly(data, pos, ts[i], x, done, provider, actions);
      ServesTag(data, pos, ts[i], x, done, provider);
      MistakesShow(data, ts, i + 1, done + [Asked(ts[i])], provider);
    } else {
      assert ts[i..] == [];
      NoCounts(ts[i..]);
    }
  }

  lemma {:induction false} AskedFrom(ts: seq<Tag>, i: nat)
    requires i < |ts|
    ensures AskedAll(ts[i..]) == [Asked(ts[i])] + AskedAll(ts[i + 1..])
  {
    assert ts[i..][0] == ts[i] && ts[i..][1..] == ts[i + 1..];
  }

  lemma {:induction false} Extended(done: seq<Action>, a: Action, more: seq<Action>)
    ensures done + ([a] + more) == (done + [a]) + more
    ensures (done + ([a] + more))[|done|] == a
  {
  }

  lemma {:induction false} NoCounts(ts: seq<Tag>)
    requires ts == []
    ensures CountsAreFree(ts)
  {
  }

  /// The header

  lemma {:induction false} SmallOffset(k: nat)
    requires k < 32768
    ensures Signed16(FromU16(U16(k))) == k
  {
    U16Value(k);
  }

  lemma {:induction false} OffsetsRead(data: seq<byte>, parts: seq<seq<byte>>, i: nat)
    requires |data| >= 8 && data[8..] == Packed(parts) && |Packed(parts)| < 32768 && i <= |parts|
    ensures ReadOffsets(data, 10 + 2 * i, |parts| - i) == Ok(Starts(parts, i))
    decreases |parts| - i
  {
    hide Packed, Start, U16, Signed16, FromU16;
    if i < |parts| {
      OffsetsRead(data, parts, i + 1);
      PackedAt(parts, i);
      PackedCount(parts);
      SmallOffset(Start(parts, i));
      assert Packed(parts)[2 + 2 * i..4 + 2 * i] == data[10 + 2 * i..12 + 2 * i];
    }
  }

  lemma {:induction false} PackedCount(parts: seq<seq<byte>>)
    requires |Packed(parts)| < 65536
    ensures |Packed(parts)| >= 2 + 2 * |parts| && FromU16(Packed(parts)) == |parts|
  {
    hide Table, Concat;
    U16Value(|parts|);
    assert Packed(parts)[0] == U16(|parts|)[0] && Packed(parts)[1] == U16(|parts|)[1];
  }

  lemma {:induction false} HeaderRead(sequence: nat, parts: seq<seq<byte>>)
    requires |Packed(parts)| < 32768
    ensures ParseMultiHeader(PacketData(sequence, parts)) == Ok((sequence % 65536, Starts(parts, 0)))
  {
    hide Packed, ReadOffsets, Starts, U16, FromU16;
    var data := PacketData(sequence, parts);
    U16Value(sequence);
    assert data[..2] == U16(sequence);
    assert data[2] == MULTIPLE_SERVICE && data[3] == 2;
    assert data[8..] == Packed(parts);
    PackedCount(parts);
    CountAt(data, 8);
    OffsetsRead(data, parts, 0);
  }

  lemma {:induction false} CountAt(data: seq<byte>, pos: nat)
    requires pos + 2 <= |data|
    ensures FromU16(data[pos..pos + 2]) == FromU16(data[pos..])
  {
  }

  /** The server's work on a packet built by the client. */
  function Handled(to: nat, sequence: nat, r: Result<(seq<seq<byte>>, seq<Action>)>): Result<Served> {
    var (entries, actions) :- r;
    Ok(Served(Framed(ConnectedItems(to, ReplyData(sequence, entries))), actions))
  }

  lemma {:induction false} MultiServed(
      connection: nat, sequence: nat, parts: seq<seq<byte>>, connections: map<nat, Connection>)
    requires connection < 0x1_0000_0000 && connection in connections
    requires |Packed(parts)| < 32768
    ensures var data := PacketData(sequence, parts);
      ServeMulti(ConnectedItems(connection, data), connections) ==
      Handled(connections[connection].to, sequence % 65536,
        ServeAll(data, Starts(parts, 0), [], connections[connection].provider))
  {
    hide PacketData, ServeAll, Starts, Packed, ParseMultiHeader, U32, FromU32, Framed, ReplyData;
    U32Value(connection);
    HeaderRead(sequence, parts);
    assert U32(connection)[0..4] == U32(connection);
  }

  /** The server takes a framed packet apart as the client put it together. */
  lemma {:induction false} FrameServed(connection: nat, data: seq<byte>, connections: map<nat, Connection>)
    requires connection < 0x1_0000_0000 && 8 <= |data| < 65536 && data[2] == MULTIPLE_SERVICE
    ensures ServeUnitData(Framed(ConnectedItems(connection, data)), connections) ==
      ServeMulti(ConnectedItems(connection, data), connections)
  {
    hide Framed, ServeMulti, ParseItems, U32;
    var vs := ConnectedItems(connection, data);
    var b := Framed(vs);
    FramedForward(vs, []);
    assert b + [] == b;
    FramedLength(vs);
    assert b[4..][2..] == b[6..];
    assert data[2..3] == [data[2]];
  }

  lemma {:induction false} FramedLength(vs: seq<ItemValue>)
    ensures |Framed(vs)| >= 8
  {
  }

  lemma {:induction false} PacketShape(sequence: nat, parts: seq<seq<byte>>)
    ensures var data := PacketData(sequence, parts);
      |data| == 8 + |Packed(parts)| && data[2] == MULTIPLE_SERVICE && Holds(data, parts)
  {
    hide Packed, U16;
    var data := PacketData(sequence, parts);
    assert data[8..] == Packed(parts);
  }

  /** What the server does with a client's packet, by the offsets alone. */
  lemma {:induction false} PacketServed(
      connection: nat, sequence: nat, parts: seq<seq<byte>>, connections: map<nat, Connection>)
    requires connection < 0x1_0000_0000 && connection in connections
    requires |Packed(parts)| < 32768
    ensures var data := PacketData(sequence, parts);
      Holds(data, parts) &&
      ServeUnitData(Framed(ConnectedItems(connection, data)), connections) ==
      Handled(connections[connection].to, sequence % 65536,
        ServeAll(data, Starts(parts, 0), [], connections[connection].provider))
  {
    hide PacketData, ServeAll, Starts, Packed, Framed, ServeMulti, ServeUnitData, Handled, Holds;
    PacketShape(sequence, parts);
    FrameServed(connection, PacketData(sequence, parts), connections);
    MultiServed(connection, sequence, parts, connections);
  }

  /// The reply side

  /** Every entry split on its own. */
  function SplitEach(entries: seq<seq<byte>>): Result<seq<R.TagResult>>
    decreases |entries|
  {
    if entries == [] then Ok([])
    else
      var one :- R.SplitEntry(entries[0]);
      var more :- SplitEach(entries[1..]);
      Ok([one] + more)
  }

  /** The offsets the client reads are the positions the server computed. */
  lemma {:induction false} OffsetOf(entries: seq<seq<byte>>, table: seq<byte>, i: nat)
    requires table == Table(2 + 2 * |entries|, entries) && i < |entries| && |Packed(entries)| < 65536
    ensures R.Words(table)[i] == Start(entries, i)
  {
    hide Table, U16, FromU16, Packed;
    TableAt(2 + 2 * |entries|, entries, i);
    U16Value(Start(entries, i));
    PackedAt(entries, i);
  }

  /** All is well, or some entry reports an error. */
  predicate IsReadable(status: nat) {
    status == 0x00 || status == 0x1E
  }

  function ReplyValue(sequence: nat, status: nat, entries: seq<seq<byte>>): ItemValue {
    var data := ReplyWith(sequence, status, entries);
    ItemValue(CONNECTED_DATA, |data| % 65536, data)
  }

  lemma {:induction false} ReplyItemAt(sequence: nat, status: nat, entries: seq<seq<byte>>, k: nat)
    requires k <= |Packed(entries)|
    ensures var v := ReplyValue(sequence, status, entries);
      |ItemBytes(v)| == 10 + |Packed(entries)| && ItemBytes(v)[10 + k..] == Packed(entries)[k..]
  {
    hide Packed, U16;
    var v := ReplyValue(sequence, status, entries);
    assert ItemBytes(v) == (U16(v.id) + U16(v.length) + ReplyHeader(sequence, status)) + Packed(entries);
  }

  lemma {:induction false} PrefixOf(a: seq<byte>, b: seq<byte>, x: seq<byte>, k: nat)
    requires k <= |x| && x[k..] == a + b
    ensures k + |a| <= |x| && x[k..k + |a|] == a
  {
    assert x[k..][..|a|] == a;
  }

  lemma {:induction false} EntryFound(sequence: nat, status: nat, entries: seq<seq<byte>>, offsets: seq<nat>, i: nat)
    requires i < |entries| && |offsets| == |entries|
    requires forall k :: 0 <= k < |entries| ==> offsets[k] == Start(entries, k)
    ensures var v := ReplyValue(sequence, status, entries);
      R.EntryAt(ItemBytes(v), offsets, i) == Ok(entries[i])
  {
    hide Packed, Start, Concat, ItemBytes, ReplyWith;
    var v := ReplyValue(sequence, status, entries);
    PackedAt(entries, i);
    StartMonotone(entries, i);
    ReplyItemAt(sequence, status, entries, Start(entries, i));
    PrefixOf(entries[i], Concat(entries[i + 1..]), ItemBytes(v), 10 + Start(entries, i));
    var b, at := ItemBytes(v), 10 + Start(entries, i);
    assert i + 1 == |entries| ==> b[at..] == b[at..at + |entries[i]|];
  }

  lemma {:induction false} EntriesSplit(sequence: nat, status: nat, entries: seq<seq<byte>>, offsets: seq<nat>, i: nat)
    requires i <= |entries| && |offsets| == |entries|
    requires forall k :: 0 <= k < |entries| ==> offsets[k] == Start(entries, k)
    ensures var v := ReplyValue(sequence, status, entries);
      R.SplitEntries(ItemBytes(v), offsets, i) == SplitEach(entries[i..])
    decreases |entries| - i
  {
    hide Start, ItemBytes, ReplyWith, R.SplitEntry, R.EntryAt;
    if i < |entries| {
      EntryFound(sequence, status, entries, offsets, i);
      EntriesSplit(sequence, status, entries, offsets, i + 1);
      assert entries[i..][0] == entries[i] && entries[i..][1..] == entries[i + 1..];
    }
  }

  lemma {:induction false} TableRead(sequence: nat, status: nat, entries: seq<seq<byte>>)
    requires |Packed(entries)| < 65536 && status < 65536
    ensures R.ReplyOffsets(ReplyWith(sequence, status, entries)) ==
      if IsReadable(status) then Ok(R.Words(Table(2 + 2 * |entries|, entries))) else Err(BadStatus)
  {
    hide Table, Concat, U16, FromU16, R.Words;
    var data := ReplyWith(sequence, status, entries);
    PackedCount(entries);
    U16Value(status);
    assert data[4..6] == U16(status);
    assert data[6..] == Packed(entries);
    CountAt(data, 6);
    PackedHead(entries);
    assert data[8..8 + 2 * |entries|] == Packed(entries)[2..2 + 2 * |entries|];
  }

  lemma {:induction false} PackedHead(parts: seq<seq<byte>>)
    ensures |Packed(parts)| >= 2 + 2 * |parts|
    ensures Packed(parts)[2..2 + 2 * |parts|] == Table(2 + 2 * |parts|, parts)
  {
    hide Table, Concat, U16;
  }

  /** The client cuts a reply exactly where it was joined, if the status of the whole lets it. */
  lemma {:induction false} ReplySplit(to: nat, sequence: nat, status: nat, entries: seq<seq<byte>>)
    requires |ReplyWith(sequence, status, entries)| < 65536 && status < 65536
    ensures R.SplitReply(Framed(ConnectedItems(to, ReplyWith(sequence, status, entries)))) ==
      if IsReadable(status) then SplitEach(entries) else Err(BadStatus)
  {
    hide Framed, Packed, R.SplitEntries, Table, R.Words, ParseItems, ItemBytes, R.ReplyOffsets, SplitEach, U32;
    var data := ReplyWith(sequence, status, entries);
    var vs := ConnectedItems(to, data);
    var b := Framed(vs);
    FramedForward(vs, []);
    assert b + [] == b;
    FramedLength(vs);
    TableRead(sequence, status, entries);
    var table := Table(2 + 2 * |entries|, entries);
    var offsets := R.Words(table);
    forall k | 0 <= k < |entries| ensures offsets[k] == Start(entries, k) {
      OffsetOf(entries, table, k);
    }
    EntriesSplit(sequence, status, entries, offsets, 0);
    assert entries[0..] == entries;
  }

  /// End to end

  /** What the client makes of the provider's answer. */
  function ResultOf(o: Outcome): R.TagResult
    requires o.Atomic? || o.Str?
  {
    match o
    case Atomic(t, data) => R.TagResult(0, t, data)
    case Str(s) => R.TagResult(0, CipTypes.STRUCT, StringData(s))
  }

  /** A provider that has a value for whatever it is asked. */
  ghost predicate HasAll(provider: Provider) {
    forall acts: seq<Action> :: provider(acts).Atomic? || provider(acts).Str?
  }

  lemma {:induction false} EntryComesBack(service: byte, o: Outcome)
    requires (service == READ || service == FRAG_READ) && (o.Atomic? || o.Str?)
    ensures ReadEntry(service, o).Ok?
    ensures R.SplitEntry(ReadEntry(service, o).value) == Ok(ResultOf(o))
  {
    hide StringData;
    var entry := ReadEntry(service, o).value;
    if o.Atomic? {
      assert entry[4..] == [o.cipType, 0] + o.data;
      assert ([o.cipType, 0] + o.data)[..2] == [o.cipType, 0] && ([o.cipType, 0] + o.data)[2..] == o.data;
    } else {
      var rest := [0xA0, 0x02, 0xCE, 0x0F] + StringData(o.s);
      assert entry[4..] == rest;
      assert rest[..2] == [0xA0, 0x02];
      assert rest[2..][2..] == StringData(o.s);
    }
  }

  function ResultsFrom(ts: seq<Tag>, done: seq<Action>, provider: Provider): (rs: seq<R.TagResult>)
    requires HasAll(provider)
    ensures |rs| == |ts|
    decreases |ts|
  {
    if ts == [] then []
    else [ResultOf(provider(done + [Asked(ts[0])]))] + ResultsFrom(ts[1..], done + [Asked(ts[0])], provider)
  }

  lemma {:induction false} ResultsAt(ts: seq<Tag>, done: seq<Action>, provider: Provider, i: nat)
    requires HasAll(provider) && i < |ts|
    ensures ResultsFrom(ts, done, provider)[i] == ResultOf(provider(done + AskedAll(ts)[..i + 1]))
    decreases i
  {
    hide Asked, HasAll, AskedAll;
    AskedFrom(ts, 0);
    assert ts[0..] == ts;
    var a := Asked(ts[0]);
    if i == 0 {
      assert AskedAll(ts)[..1] == [a];
    } else {
      ResultsAt(ts[1..], done + [a], provider, i - 1);
      assert AskedAll(ts)[..i + 1] == [a] + AskedAll(ts[1..])[..i];
      Extended(done, a, AskedAll(ts[1..])[..i]);
    }
  }

  lemma {:induction false} AnswersGiven(ts: seq<Tag>, done: seq<Action>, provider: Provider)
    requires HasAll(provider)
    ensures Answers(ts, done, provider).Ok?
    ensures Answers(ts, done, provider).value.1 == done + AskedAll(ts)
    ensures SplitEach(Answers(ts, done, provider).value.0) == Ok(ResultsFrom(ts, done, provider))
    decreases |ts|
  {
    hide Asked, ReadEntry, R.SplitEntry, AskedAll, SplitEach, HasAll;
    if ts == [] {
      NothingAsked(ts);
      assert done + [] == done;
      assert SplitEach([]) == Ok([]) by { NothingSplit(); }
    } else {
      AskedFrom(ts, 0);
      assert ts[0..] == ts;
      var o := provider(done + [Asked(ts[0])]);
      Answered(provider, done + [Asked(ts[0])]);
      EntryComesBack(ToRequest(ts[0]).service, o);
      AnswersGiven(ts[1..], done + [Asked(ts[0])], provider);
      Extended(done, Asked(ts[0]), AskedAll(ts[1..]));
      var entry := ReadEntry(ToRequest(ts[0]).service, o).value;
      SplitOneMore(entry, Answers(ts[1..], done + [Asked(ts[0])], provider).value.0);
    }
  }

  lemma {:induction false} NothingSplit()
    ensures SplitEach([]) == Ok([])
  {
  }

  lemma {:induction false} Answered(provider: Provider, acts: seq<Action>)
    requires HasAll(provider)
    ensures provider(acts).Atomic? || provider(acts).Str?
  {
  }

  lemma {:induction false} SplitOneMore(entry: seq<byte>, entries: seq<seq<byte>>)
    ensures R.SplitEntry(entry).Ok? && SplitEach(entries).Ok? ==>
      SplitEach([entry] + entries) == Ok([R.SplitEntry(entry).value] + SplitEach(entries).value)
  {
    hide R.SplitEntry;
    assert ([entry] + entries)[1..] == entries;
  }

  lemma {:induction false} NothingAsked(ts: seq<Tag>)
    requires ts == []
    ensures AskedAll(ts) == []
  {
  }

  /** The client's packet, framed. */
  function PacketOf(connection: nat, sequence: nat, ts: seq<Tag>): seq<byte> {
    Framed(ConnectedItems(connection, RequestData(sequence, ToRequests(ts))))
  }

  lemma {:induction false} PacketIs(connection: nat, sequence: nat, ts: seq<Tag>)
    ensures PacketOf(connection, sequence, ts) == Framed(ConnectedItems(connection, PacketData(sequence, Parts(ts))))
  {
    hide Framed, ConnectedItems, PacketData, AllRequestBytes, ToRequests;
  }

  predicate AsksFor(r: Result<Served>, ts: seq<Tag>) {
    r.Ok? && r.value.Served? && r.value.actions == AskedAll(ts)
  }

  /**
   The server asks the provider for exactly the requested tags with exactly the requested counts,
   in order, if and only if no count starts with a byte that the path parser takes for more path.
   */
  lemma {:induction false} ServerAsksForTags(
      connection: nat, sequence: nat, ts: seq<Tag>, connections: map<nat, Connection>)
    requires connection < 0x1_0000_0000 && connection in connections && HasAll(connections[connection].provider)
    requires AllEncodable(ts) && |Packed(Parts(ts))| < 32768
    ensures AsksFor(ServeUnitData(PacketOf(connection, sequence, ts), connections), ts) <==> CountsAreFree(ts)
  {
    hide PacketData, ServeAll, Starts, Packed, Parts, Framed, ServeUnitData, AllEncodable, Holds, PacketOf;
    hide CountsAreFree, ReplyData, HasAll, AskedAll, Answers;
    var provider := connections[connection].provider;
    var data := PacketData(sequence, Parts(ts));
    PacketServed(connection, sequence, Parts(ts), connections);
    PacketIs(connection, sequence, ts);
    assert ts[0..] == ts;
    assert [] + AskedAll(ts) == AskedAll(ts);
    if CountsAreFree(ts) {
      ServesAll(data, ts, 0, [], provider);
      AnswersGiven(ts, [], provider);
    } else if AsksFor(ServeUnitData(PacketOf(connection, sequence, ts), connections), ts) {
      MistakesShow(data, ts, 0, [], provider);
    }
  }

  /** The entries the server writes for the tags. */
  function EntriesFor(ts: seq<Tag>, provider: Provider): seq<seq<byte>> {
    match Answers(ts, [], provider)
    case Ok(v) => v.0
    case Err(_) => []
  }

  function ReplyFor(c: Connection, sequence: nat, ts: seq<Tag>): seq<byte> {
    ReplyData(sequence % 65536, EntriesFor(ts, c.provider))
  }

  lemma {:induction false} PacketAnswered(
      connection: nat, sequence: nat, ts: seq<Tag>, connections: map<nat, Connection>)
    requires connection < 0x1_0000_0000 && connection in connections && HasAll(connections[connection].provider)
    requires AllEncodable(ts) && CountsAreFree(ts) && |Packed(Parts(ts))| < 32768
    ensures var c := connections[connection];
      ServeUnitData(PacketOf(connection, sequence, ts), connections) ==
      Ok(Served(Framed(ConnectedItems(c.to, ReplyFor(c, sequence, ts))), AskedAll(ts)))
  {
    hide PacketData, ServeAll, Starts, Packed, Parts, Framed, ServeUnitData, AllEncodable, Holds, PacketOf;
    hide CountsAreFree, ReplyData, HasAll, AskedAll, Answers, ConnectedItems;
    var provider := connections[connection].provider;
    PacketServed(connection, sequence, Parts(ts), connections);
    PacketIs(connection, sequence, ts);
    assert ts[0..] == ts;
    assert [] + AskedAll(ts) == AskedAll(ts);
    ServesAll(PacketData(sequence, Parts(ts)), ts, 0, [], provider);
    AnswersGiven(ts, [], provider);
  }

  lemma {:induction false} ReplyReads(c: Connection, sequence: nat, ts: seq<Tag>) returns (rs: seq<R.TagResult>)
    requires HasAll(c.provider) && |ReplyFor(c, sequence, ts)| < 65536
    ensures R.SplitReply(Framed(ConnectedItems(c.to, ReplyFor(c, sequence, ts)))) == Ok(rs)
    ensures |rs| == |ts|
    ensures forall i :: 0 <= i < |ts| ==> rs[i] == ResultOf(c.provider(AskedAll(ts)[..i + 1]))
  {
    hide Framed, ConnectedItems, ReplyWith, AskedAll, Answers, R.SplitReply;
    AnswersGiven(ts, [], c.provider);
    ReplySplit(c.to, sequence % 65536, 0, EntriesFor(ts, c.provider));
    rs := ResultsFrom(ts, [], c.provider);
    forall i | 0 <= i < |ts| ensures rs[i] == ResultOf(c.provider(AskedAll(ts)[..i + 1])) {
      ResultsAt(ts, [], c.provider, i);
      assert [] + AskedAll(ts)[..i + 1] == AskedAll(ts)[..i + 1];
    }
  }

  /**
   A batched read returns, at every index, the type and the bytes the provider gave for that tag:
   fragmented or not, whatever the offset, whatever was asked before.
   */
  lemma {:induction false} MultiReadEndToEnd(
      connection: nat, sequence: nat, ts: seq<Tag>, connections: map<nat, Connection>)
    returns (rs: seq<R.TagResult>)
    requires connection < 0x1_0000_0000 && connection in connections && HasAll(connections[connection].provider)
    requires AllEncodable(ts) && CountsAreFree(ts) && |Packed(Parts(ts))| < 32768
    requires |ReplyFor(connections[connection], sequence, ts)| < 65536
    ensures var served := ServeUnitData(PacketOf(connection, sequence, ts), connections);
      AsksFor(served, ts) && R.SplitReply(served.value.reply) == Ok(rs)
    ensures |rs| == |ts|
    ensures forall i :: 0 <= i < |ts| ==>
      rs[i] == ResultOf(connections[connection].provider(AskedAll(ts)[..i + 1]))
  {
    hide Packed, Parts, Framed, ServeUnitData, AllEncodable, CountsAreFree, ReplyFor, HasAll, AskedAll;
    hide ConnectedItems, PacketOf, R.SplitReply;
    PacketAnswered(connection, sequence, ts, connections);
    rs := ReplyReads(connections[connection], sequence, ts);
  }

  /// Strings

  /** A string comes back whole exactly when it fits its 82-byte slot. */
  lemma {:induction false} StringComesBack(s: text)
    ensures StringOf(StringData(s)) == Ok(s[..Min(|s|, STRING_DATA_LENGTH)])
    ensures StringOf(StringData(s)) == Ok(s) <==> |s| <= STRING_DATA_LENGTH
  {
    var n := Min(|s|, STRING_DATA_LENGTH);
    var b := StringData(s);
    U32Value(n);
    assert b[..4] == U32(n);
    assert b[4..][..n] == s[..n];
    assert |s| <= STRING_DATA_LENGTH ==> s[..n] == s;
  }
}
