/** Packets that mix reads and writes, and the packets of `WriteMap`, at the server. */
module MultiWriteLaws {
  import opened Wire
  import opened Streams
  import opened Sequences
  import opened Text
  import opened Items
  import opened TagPath
  import opened TagPathLaws
  import opened MultiMessage
  import opened MultiServer
  import opened MultiReadLaws
  import opened WriteMap
  import CipTypes

  /// One service

  /** A read, or a write of `tag.elements` values of a type. */
  datatype Service =
    | Read(tag: Tag)
    | Write(tag: Tag, cipType: byte, reserved: byte, data: seq<byte>)

  function CodeOf(s: Service): byte {
    if s.Read? then (if s.tag.fragmented then FRAG_READ else READ)
    else if s.tag.fragmented then FRAG_WRITE else WRITE
  }

  function ServiceBytes(s: Service): seq<byte> {
    if s.Read? then RequestBytes(ToRequest(s.tag))
    else
      var path := PathOf(s.tag);
      [CodeOf(s), |path| / 2 % 256] + (path + ([s.cipType, s.reserved] + (U16(s.tag.elements) + s.data)))
  }

  /** The bytes that the values of a write take; there may be more of them, which nobody looks at. */
  function ValueBytes(s: Service): nat
    requires s.Write?
  {
    s.tag.elements * CipTypes.ValueWidth(s.cipType)
  }

  /** A tag that can be sent; to write, a type the server can read and bytes for all the values. */
  predicate IsService(s: Service) {
    Encodable(s.tag) &&
    (s.Write? ==>
      && 0 < s.tag.elements < 65536 && CipTypes.ValueWidth(s.cipType) > 0
      && ValueBytes(s) <= |s.data|)
  }

  predicate IsFree(s: Service) {
    s.Read? ==> CountIsFree(s.tag)
  }

  /** What the provider should be told: to read, or to write these very values to the tag. */
  function Wanted(s: Service): Action
    requires IsService(s)
  {
    if s.Read? then Asked(s.tag)
    else
      WriteTag(Render(Visible(s.tag.parts, s.tag.isBool)), s.cipType, s.tag.elements,
        CipTypes.Meant(s.cipType, s.data[..ValueBytes(s)]))
  }

  /** The entry for a service by the provider's answer; a write is acknowledged with a bare header. */
  function EntryFor(s: Service, o: Outcome): Result<seq<byte>> {
    if s.Read? then ReadEntry(CodeOf(s), o)
    else if o.Written? then Ok([CodeOf(s) + 128, 0, 0, 0]) else Err(BadStatus)
  }

  function Served1(s: Service, done: seq<Action>, provider: Provider): Result<(seq<byte>, seq<Action>)>
    requires IsService(s)
  {
    var actions := done + [Wanted(s)];
    var entry :- EntryFor(s, provider(actions));
    Ok((entry, actions))
  }

  lemma {:induction false} MeantParts(t: byte, a: seq<byte>, b: seq<byte>)
    ensures CipTypes.Meant(t, a + b) == CipTypes.Meant(t, a) + CipTypes.Meant(t, b)
  {
  }

  /** All the values of a write are read, in order, and no more than these. */
  lemma {:induction false} ValuesRead(t: byte, n: nat, b: seq<byte>)
    requires CipTypes.ValueWidth(t) > 0 && n * CipTypes.ValueWidth(t) <= |b|
    ensures ReadValues(t, n, b) == Ok(CipTypes.Meant(t, b[..n * CipTypes.ValueWidth(t)]))
    decreases n
  {
    hide CipTypes.ValueWidth, CipTypes.Meant;
    var w := CipTypes.ValueWidth(t);
    if n == 0 {
      assert b[..0] == [];
      NothingMeant(t);
    } else {
      assert n * w == w + (n - 1) * w;
      ValuesRead(t, n - 1, b[w..]);
      MeantParts(t, b[..w], b[w..][..(n - 1) * w]);
      assert b[..w] + b[w..][..(n - 1) * w] == b[..n * w];
    }
  }

  lemma {:induction false} NothingMeant(t: byte)
    ensures CipTypes.Meant(t, []) == []
  {
  }

  /** A type that the server reads, and also the type of structures, is no path segment. */
  lemma {:induction false} TypeIsFree(t: byte)
    requires CipTypes.ValueWidth(t) > 0 || t == CipTypes.STRUCT
    ensures !IsSentinel(t)
  {
  }

  lemma {:induction false} TypeHeader(t: byte, r: byte, n: nat, data: seq<byte>)
    ensures var y := [t, r] + (U16(n) + data);
      && ReadFull(y, 1) == Ok(([t], [r] + (U16(n) + data)))
      && ReadFull([r] + (U16(n) + data), 1) == Ok(([r], U16(n) + data))
      && ReadFull(U16(n) + data, 2) == Ok((U16(n), data))
  {
    hide U16;
    var y := [t, r] + (U16(n) + data);
    assert y == [t] + ([r] + (U16(n) + data));
    FullRead([t], [r] + (U16(n) + data));
    FullRead([r], U16(n) + data);
    FullRead(U16(n), data);
  }

  /** Behind the path of a write, up to the values. */
  lemma {:induction false} ServesWriteHeader(
      service: byte, tag: Tag, t: byte, r: byte, data: seq<byte>, done: seq<Action>, provider: Provider)
    requires Encodable(tag) && tag.elements < 65536 && !IsSentinel(t)
    ensures var b := PathOf(tag) + ([t, r] + (U16(tag.elements) + data));
      var values := ReadValues(t, tag.elements, data);
      ServeWrite(service, b, done, provider) ==
      if values.Err? then Err(values.error)
      else if tag.elements == 0 then Err(Panic)
      else
        var actions := done + [WriteTag(Render(Visible(tag.parts, tag.isBool)), t, tag.elements, values.value)];
        if provider(actions).Written? then Ok(([AsResponse(service), 0, 0, 0], actions)) else Err(BadStatus)
  {
    hide Encodable, DecodeFrom, Render, Visible, FromU16, U16, PathOf, IsSentinel, ReadValues, ReadFull;
    var y := [t, r] + (U16(tag.elements) + data);
    PathDecodes(tag, y);
    assert y[0] == t;
    DecodeEats(Render(Visible(tag.parts, tag.isBool)), y);
    TypeHeader(t, r, tag.elements, data);
    U16Value(tag.elements);
  }

  lemma {:induction false} WriteShape(s: Service, x: seq<byte>)
    requires s.Write?
    ensures ServiceBytes(s) + x == [CodeOf(s), |PathOf(s.tag)| / 2 % 256] +
      (PathOf(s.tag) + ([s.cipType, s.reserved] + (U16(s.tag.elements) + (s.data + x))))
  {
    hide PathOf, U16;
  }

  lemma {:induction false} WriteCode(s: Service)
    requires s.Write?
    ensures CodeOf(s) == WRITE || CodeOf(s) == FRAG_WRITE
    ensures AsResponse(CodeOf(s)) == CodeOf(s) + 128
  {
  }

  lemma {:induction false} ServesWriteAt(
      data: seq<byte>, pos: nat, s: Service, x: seq<byte>, done: seq<Action>, provider: Provider)
    requires s.Write? && pos <= |data| && data[pos..] == ServiceBytes(s) + x
    ensures ServeAt(data, pos, done, provider) ==
      ServeWrite(CodeOf(s), PathOf(s.tag) + ([s.cipType, s.reserved] + (U16(s.tag.elements) + (s.data + x))),
        done, provider)
  {
    hide ServeWrite, ServeRead, ServiceBytes, TakeAt, TypedAt, PathOf, U16, CodeOf;
    WriteShape(s, x);
    WriteCode(s);
    TwoBytesAt(data, pos, CodeOf(s), |PathOf(s.tag)| / 2 % 256,
      PathOf(s.tag) + ([s.cipType, s.reserved] + (U16(s.tag.elements) + (s.data + x))));
  }

  /** A write tells the provider the tag, the type, the count and all the values, and is acknowledged. */
  lemma {:induction false} ServesWrite(
      data: seq<byte>, pos: nat, s: Service, x: seq<byte>, done: seq<Action>, provider: Provider)
    requires s.Write? && IsService(s)
    requires pos <= |data| && data[pos..] == ServiceBytes(s) + x
    ensures ServeAt(data, pos, done, provider) == Served1(s, done, provider)
  {
    hide ServeAt, Encodable, Render, Visible, PathOf, ServeWrite, ServiceBytes, CipTypes.Meant, CodeOf, U16;
    hide CipTypes.ValueWidth, IsSentinel, ReadValues, AsResponse;
    var b := s.data + x;
    ServesWriteAt(data, pos, s, x, done, provider);
    WriteCode(s);
    TypeIsFree(s.cipType);
    ServesWriteHeader(CodeOf(s), s.tag, s.cipType, s.reserved, b, done, provider);
    ValuesRead(s.cipType, s.tag.elements, b);
    assert b[..ValueBytes(s)] == s.data[..ValueBytes(s)];
  }

  lemma {:induction false} ServesService(
      data: seq<byte>, pos: nat, s: Service, x: seq<byte>, done: seq<Action>, provider: Provider)
    requires IsService(s) && IsFree(s)
    requires pos <= |data| && data[pos..] == ServiceBytes(s) + x
    ensures ServeAt(data, pos, done, provider) == Served1(s, done, provider)
  {
    hide ServeAt, Encodable, ReadEntry, RequestBytes, Asked, CountIsFree;
    if s.Read? {
      ServesTag(data, pos, s.tag, x, done, provider);
    } else {
      ServesWrite(data, pos, s, x, done, provider);
    }
  }

  /// All the services of a packet

  predicate AreServices(ss: seq<Service>) {
    forall i :: 0 <= i < |ss| ==> IsService(ss[i])
  }

  predicate AreFree(ss: seq<Service>) {
    forall i :: 0 <= i < |ss| ==> IsFree(ss[i])
  }

  function AllServiceBytes(ss: seq<Service>): (parts: seq<seq<byte>>)
    ensures |parts| == |ss| && forall i :: 0 <= i < |ss| ==> parts[i] == ServiceBytes(ss[i])
  {
    seq(|ss|, i requires 0 <= i < |ss| => ServiceBytes(ss[i]))
  }

  function WantedAll(ss: seq<Service>): (acts: seq<Action>)
    requires AreServices(ss)
    ensures |acts| == |ss| && forall i :: 0 <= i < |ss| ==> acts[i] == Wanted(ss[i])
  {
    seq(|ss|, i requires 0 <= i < |ss| => Wanted(ss[i]))
  }

  /** The services from `i` on, one after another, each in the light of all before it. */
  function ServedFrom(ss: seq<Service>, i: nat, done: seq<Action>, provider: Provider)
    : Result<(seq<seq<byte>>, seq<Action>)>
    requires AreServices(ss) && i <= |ss|
    decreases |ss| - i
  {
    if i == |ss| then Ok(([], done))
    else
      var (entry, actions) :- Served1(ss[i], done, provider);
      var (entries, all) :- ServedFrom(ss, i + 1, actions, provider);
      Ok(([entry] + entries, all))
  }

  lemma {:induction false} ServesEach(
      data: seq<byte>, ss: seq<Service>, i: nat, done: seq<Action>, provider: Provider)
    requires Holds(data, AllServiceBytes(ss)) && i <= |ss| && AreServices(ss) && AreFree(ss)
    ensures ServeAll(data, Starts(AllServiceBytes(ss), i), done, provider) == ServedFrom(ss, i, done, provider)
    decreases |ss| - i
  {
    hide Holds, Start, ServeAt, Served1, IsService, IsFree, ServiceBytes;
    if i < |ss| {
      var parts := AllServiceBytes(ss);
      var offsets := Starts(parts, i);
      assert offsets[0] == Start(parts, i) && offsets[1..] == Starts(parts, i + 1);
      var x := FindsPart(data, parts, i);
      ServesService(data, Start(parts, i) + 8, ss[i], x, done, provider);
      var one := Served1(ss[i], done, provider);
      if one.Ok? {
        ServesEach(data, ss, i + 1, one.value.1, provider);
      }
    }
  }

  /** A packet of services, framed. */
  function MixedPacket(connection: nat, sequence: nat, ss: seq<Service>): seq<byte> {
    Framed(ConnectedItems(connection, PacketData(sequence, AllServiceBytes(ss))))
  }

  /** A packet that mixes reads and writes is served service by service, whatever the provider does. */
  lemma {:induction false} MixedServed(
      connection: nat, sequence: nat, ss: seq<Service>, connections: map<nat, Connection>)
    requires connection < 0x1_0000_0000 && connection in connections
    requires AreServices(ss) && AreFree(ss) && |Packed(AllServiceBytes(ss))| < 32768
    ensures ServeUnitData(MixedPacket(connection, sequence, ss), connections) ==
      Handled(connections[connection].to, sequence % 65536,
        ServedFrom(ss, 0, [], connections[connection].provider))
  {
    hide PacketData, ServeAll, Starts, Packed, Framed, ServeUnitData, AreServices, AreFree, Handled, Holds;
    hide ServedFrom, AllServiceBytes;
    var parts := AllServiceBytes(ss);
    PacketServed(connection, sequence, parts, connections);
    ServesEach(PacketData(sequence, parts), ss, 0, [], connections[connection].provider);
  }

  /** The provider gives a value for a read, or takes a write. */
  predicate IsServed(s: Service, o: Outcome) {
    if s.Read? then o.Atomic? || o.Str? else o.Written?
  }

  lemma {:induction false} EntryIff(s: Service, o: Outcome)
    ensures EntryFor(s, o).Ok? <==> IsServed(s, o)
  {
  }

  /** What the provider has been told when service `k` has its turn, the first of them being `i`. */
  function Told(ss: seq<Service>, i: nat, k: nat, done: seq<Action>): seq<Action>
    requires AreServices(ss) && i <= k < |ss|
  {
    done + WantedAll(ss)[i..k + 1]
  }

  lemma {:induction false} ServedIff(ss: seq<Service>, i: nat, done: seq<Action>, provider: Provider)
    requires AreServices(ss) && i <= |ss|
    ensures ServedFrom(ss, i, done, provider).Ok? <==>
      forall k :: i <= k < |ss| ==> IsServed(ss[k], provider(Told(ss, i, k, done)))
    decreases |ss| - i
  {
    hide IsService, Wanted, EntryFor, IsServed;
    if i < |ss| {
      var acts := done + [Wanted(ss[i])];
      assert WantedAll(ss)[i..i + 1] == [Wanted(ss[i])] && Told(ss, i, i, done) == acts;
      EntryIff(ss[i], provider(acts));
      ServedIff(ss, i + 1, acts, provider);
      forall k | i < k < |ss| ensures Told(ss, i, k, done) == Told(ss, i + 1, k, acts) {
        assert WantedAll(ss)[i..k + 1] == [Wanted(ss[i])] + WantedAll(ss)[i + 1..k + 1];
      }
    }
  }

  /** One service that the provider refuses spoils the whole packet: it is answered only if none is refused. */
  lemma {:induction false} AnsweredIff(
      connection: nat, sequence: nat, ss: seq<Service>, connections: map<nat, Connection>)
    requires connection < 0x1_0000_0000 && connection in connections
    requires AreServices(ss) && AreFree(ss) && |Packed(AllServiceBytes(ss))| < 32768
    ensures ServeUnitData(MixedPacket(connection, sequence, ss), connections).Ok? <==>
      forall k :: 0 <= k < |ss| ==> IsServed(ss[k], connections[connection].provider(Told(ss, 0, k, [])))
  {
    hide Packed, ServeUnitData, AreServices, AreFree, ServedFrom, AllServiceBytes, Told, IsServed, MixedPacket;
    hide Framed, ReplyData;
    var provider := connections[connection].provider;
    MixedServed(connection, sequence, ss, connections);
    ServedIff(ss, 0, [], provider);
  }

  /** A connection that is not open is refused. */
  lemma {:induction false} UnknownConnection(connection: nat, data: seq<byte>, connections: map<nat, Connection>)
    requires connection < 0x1_0000_0000 && connection !in connections
    requires 8 <= |data| < 65536 && data[2] == MULTIPLE_SERVICE
    ensures ServeUnitData(Framed(ConnectedItems(connection, data)), connections) == Err(BadStatus)
  {
    hide Framed, ServeUnitData, U32, FromU32;
    FrameServed(connection, data, connections);
    U32Value(connection);
    assert U32(connection)[0..4] == U32(connection);
  }

  /** Any other service goes elsewhere, under its own code. */
  lemma {:induction false} OtherService(connection: nat, data: seq<byte>, connections: map<nat, Connection>)
    requires connection < 0x1_0000_0000 && 3 <= |data| < 65536 && data[2] != 0x0A
    ensures ServeUnitData(Framed(ConnectedItems(connection, data)), connections) == Ok(Elsewhere(data[2]))
  {
    hide Framed, ServeMulti, ParseItems, U32;
    var vs := ConnectedItems(connection, data);
    var b := Framed(vs);
    FramedForward(vs, []);
    assert b + [] == b;
    FramedLength(vs);
    assert b[4..][2..] == b[6..];
    assert data[2..3] == [data[2]];
  }

  /// Providers that do what they are told

  /** A provider that has a value for every read and takes every write. */
  ghost predicate Obliges(provider: Provider) {
    forall acts: seq<Action> :: acts != [] ==>
      var o := provider(acts);
      if acts[|acts| - 1].ReadTag? then o.Atomic? || o.Str? else o.Written?
  }

  lemma {:induction false} Obliged(s: Service, done: seq<Action>, provider: Provider)
    requires IsService(s) && Obliges(provider)
    ensures Served1(s, done, provider).Ok?
    ensures Served1(s, done, provider).value.1 == done + [Wanted(s)]
  {
    hide IsService, CipTypes.Meant, Render, Visible;
    var acts := done + [Wanted(s)];
    assert acts[|acts| - 1] == Wanted(s);
  }

  lemma {:induction false} AllObliged(ss: seq<Service>, i: nat, done: seq<Action>, provider: Provider)
    requires AreServices(ss) && i <= |ss| && Obliges(provider)
    ensures var r := ServedFrom(ss, i, done, provider);
      r.Ok? && r.value.1 == done + WantedAll(ss)[i..] && |r.value.0| == |ss| - i
    decreases |ss| - i
  {
    hide IsService, Wanted, Obliges, Served1;
    if i < |ss| {
      Obliged(ss[i], done, provider);
      AllObliged(ss, i + 1, done + [Wanted(ss[i])], provider);
      assert WantedAll(ss)[i..] == [Wanted(ss[i])] + WantedAll(ss)[i + 1..];
      Associate(done, [Wanted(ss[i])], WantedAll(ss)[i + 1..]);
    } else {
      assert done + WantedAll(ss)[i..] == done;
    }
  }

  predicate Does(r: Result<Served>, ss: seq<Service>)
    requires AreServices(ss)
  {
    r.Ok? && r.value.Served? && r.value.actions == WantedAll(ss)
  }

  /** A read whose count looks like path is not asked for as it should be. */
  lemma {:induction false} WantedRightly(
      data: seq<byte>, pos: nat, s: Service, x: seq<byte>, done: seq<Action>, provider: Provider,
      actions: seq<Action>)
    requires IsService(s)
    requires pos <= |data| && data[pos..] == ServiceBytes(s) + x
    requires ServeAt(data, pos, done, provider).Ok? && ServeAt(data, pos, done, provider).value.1 <= actions
    requires |done| < |actions| && actions[|done|] == Wanted(s)
    ensures IsFree(s)
  {
    hide ServeAt, RequestBytes, Encodable, CountIsFree, Asked, ToRequest;
    if s.Read? {
      AskedRightly(data, pos, s.tag, x, done, provider, actions);
    }
  }

  lemma {:induction false} MixedMistakesShow(
      data: seq<byte>, ss: seq<Service>, i: nat, done: seq<Action>, provider: Provider)
    requires AreServices(ss) && Holds(data, AllServiceBytes(ss)) && i <= |ss|
    requires var r := ServeAll(data, Starts(AllServiceBytes(ss), i), done, provider);
      r.Ok? && r.value.1 == done + WantedAll(ss)[i..]
    ensures forall k :: i <= k < |ss| ==> IsFree(ss[k])
    decreases |ss| - i
  {
    hide Holds, Start, ServeAt, Served1, IsService, IsFree, ServiceBytes, Wanted;
    if i < |ss| {
      var parts := AllServiceBytes(ss);
      var offsets := Starts(parts, i);
      var pos := Start(parts, i) + 8;
      assert offsets[0] == Start(parts, i) && offsets[1..] == Starts(parts, i + 1);
      var x := FindsPart(data, parts, i);
      var one := ServeAt(data, pos, done, provider).value;
      ActionsGrow(data, offsets[1..], one.1, provider);
      assert WantedAll(ss)[i..] == [Wanted(ss[i])] + WantedAll(ss)[i + 1..];
      Extended(done, Wanted(ss[i]), WantedAll(ss)[i + 1..]);
      WantedRightly(data, pos, ss[i], x, done, provider, done + WantedAll(ss)[i..]);
      ServesService(data, pos, ss[i], x, done, provider);
      NextDone(ss[i], done, provider);
      MixedMistakesShow(data, ss, i + 1, done + [Wanted(ss[i])], provider);
    }
  }

  lemma {:induction false} NextDone(s: Service, done: seq<Action>, provider: Provider)
    requires IsService(s)
    ensures Served1(s, done, provider).Ok? ==> Served1(s, done, provider).value.1 == done + [Wanted(s)]
  {
    hide IsService, Wanted, EntryFor;
  }

  /**
   The provider is told to read and write exactly what the packet says, in the order of its services,
   if and only if no element count of a read starts like a path segment. Writes are never mistaken:
   behind their path stands a type.
   */
  lemma {:induction false} ServerDoesServices(
      connection: nat, sequence: nat, ss: seq<Service>, connections: map<nat, Connection>)
    requires connection < 0x1_0000_0000 && connection in connections && Obliges(connections[connection].provider)
    requires AreServices(ss) && |Packed(AllServiceBytes(ss))| < 32768
    ensures Does(ServeUnitData(MixedPacket(connection, sequence, ss), connections), ss) <==> AreFree(ss)
  {
    hide PacketData, ServeAll, Starts, Packed, Framed, ServeUnitData, AreServices, Holds, Obliges;
    hide ServedFrom, AllServiceBytes, WantedAll, IsFree, ReplyData;
    var parts := AllServiceBytes(ss);
    var provider := connections[connection].provider;
    PacketServed(connection, sequence, parts, connections);
    assert [] + WantedAll(ss)[0..] == WantedAll(ss);
    if AreFree(ss) {
      ServesEach(PacketData(sequence, parts), ss, 0, [], provider);
      AllObliged(ss, 0, [], provider);
    } else if Does(ServeUnitData(MixedPacket(connection, sequence, ss), connections), ss) {
      MixedMistakesShow(PacketData(sequence, parts), ss, 0, [], provider);
    }
  }

  /// `WriteMap`

  /** A lower-case tag name taken apart. */
  type Meaning = text -> seq<Part>

  /** The types that Go values have, those without a type code left out. */
  predicate IsGoType(t: byte) {
    t == CipTypes.STRING || t == CipTypes.STRUCT || IsAtomic(t)
  }

  predicate IsAtomic(t: byte) {
    t in {CipTypes.BOOL, CipTypes.BYTE, CipTypes.SINT, CipTypes.INT, CipTypes.UINT, CipTypes.DINT, CipTypes.UDINT,
      CipTypes.LINT, CipTypes.LWORD, CipTypes.REAL, CipTypes.LREAL}
  }

  /** A Go value under a name that can be sent; a slice has the type of its elements and more bytes. */
  predicate IsAssignment(a: Assignment, meaning: Meaning) {
    && Lower(a.name) == Render(meaning(Lower(a.name))) && Encodable(TargetOf(a, meaning))
    && IsGoType(a.cipType) && (IsAtomic(a.cipType) ==> CipTypes.ValueWidth(a.cipType) <= |a.data|)
  }

  function TargetOf(a: Assignment, meaning: Meaning): Tag {
    Tag(meaning(Lower(a.name)), a.cipType == CipTypes.BOOL, 1, false, 0)
  }

  /** What the server takes an assignment for: of a string it takes two bytes about the type for a count. */
  function AsService(a: Assignment, meaning: Meaning): Service {
    if a.cipType == CipTypes.STRING
    then Write(TargetOf(a, meaning).(elements := 0x0FCE), CipTypes.STRUCT, 2, [1, 0] + a.data)
    else Write(TargetOf(a, meaning), a.cipType, 0, a.data)
  }

  lemma {:induction false} TargetPath(a: Assignment, meaning: Meaning)
    requires IsAssignment(a, meaning)
    ensures PathFor(a).Ok? && PathFor(a).value.buffer == PathOf(TargetOf(a, meaning))
    ensures PathOf(TargetOf(a, meaning)) == PathOf(AsService(a, meaning).tag)
  {
    hide Render, Compact, Visible, AreParts, SymbolicIoi, Lower;
    SymbolicMeaning(meaning(Lower(a.name)), a.cipType == CipTypes.BOOL);
  }

  lemma {:induction false} AssignmentBytes(a: Assignment, meaning: Meaning)
    requires IsAssignment(a, meaning)
    ensures PathFor(a).Ok? && WriteBytes(a, PathFor(a).value.buffer) == ServiceBytes(AsService(a, meaning))
  {
    hide PathFor, PathOf, IsAssignment;
    TargetPath(a, meaning);
    var path := PathOf(TargetOf(a, meaning));
    if a.cipType == CipTypes.STRING {
      assert U16(0x0FCE) == [0xCE, 0x0F];
      assert WriteBytes(a, path) ==
        [WRITE, |path| / 2 % 256] + (path + ([0xA0, 2] + (U16(0x0FCE) + ([1, 0] + a.data))));
    } else {
      assert U16(1) == [1, 0];
      assert WriteBytes(a, path) == [WRITE, |path| / 2 % 256] + (path + ([a.cipType, 0] + (U16(1) + a.data)));
    }
  }

  predicate AreAssignments(ws: seq<Assignment>, meaning: Meaning) {
    forall i :: 0 <= i < |ws| ==> IsAssignment(ws[i], meaning)
  }

  function AsServices(ws: seq<Assignment>, meaning: Meaning): (ss: seq<Service>)
    ensures |ss| == |ws| && forall i :: 0 <= i < |ws| ==> ss[i] == AsService(ws[i], meaning)
  {
    seq(|ws|, i requires 0 <= i < |ws| => AsService(ws[i], meaning))
  }

  lemma {:induction false} AssignmentsBytes(ws: seq<Assignment>, meaning: Meaning)
    requires AreAssignments(ws, meaning)
    ensures Services(ws) == Ok(AllServiceBytes(AsServices(ws, meaning)))
    decreases |ws|
  {
    hide IsAssignment, PathFor, WriteBytes, AsService, ServiceBytes;
    if ws != [] {
      AssignmentBytes(ws[0], meaning);
      assert AreAssignments(ws[1..], meaning);
      AssignmentsBytes(ws[1..], meaning);
      var parts := AllServiceBytes(AsServices(ws, meaning));
      assert parts == [parts[0]] + AllServiceBytes(AsServices(ws[1..], meaning));
    } else {
      assert AllServiceBytes(AsServices(ws, meaning)) == [];
    }
  }

  lemma {:induction false} AtomicIsService(a: Assignment, meaning: Meaning)
    requires IsAssignment(a, meaning) && IsAtomic(a.cipType)
    ensures var s := AsService(a, meaning); s.Write? && IsService(s) && IsFree(s)
  {
    hide Encodable, Render, Lower;
  }

  /** A string or a structure makes the server give up. */
  lemma {:induction false} OtherFails(
      data: seq<byte>, pos: nat, a: Assignment, meaning: Meaning, x: seq<byte>, done: seq<Action>, provider: Provider)
    requires IsAssignment(a, meaning) && !IsAtomic(a.cipType)
    requires pos <= |data| && data[pos..] == ServiceBytes(AsService(a, meaning)) + x
    ensures ServeAt(data, pos, done, provider) == Err(Malformed)
  {
    hide ServeAt, Encodable, Render, Visible, PathOf, ServeWrite, ServiceBytes, CodeOf, U16, Lower, IsSentinel;
    var s := AsService(a, meaning);
    ServesWriteAt(data, pos, s, x, done, provider);
    TypeIsFree(CipTypes.STRUCT);
    assert Encodable(s.tag) by { SameTarget(s.tag, TargetOf(a, meaning)); }
    ServesWriteHeader(CodeOf(s), s.tag, s.cipType, s.reserved, s.data + x, done, provider);
  }

  lemma {:induction false} SameTarget(s: Tag, t: Tag)
    requires s.parts == t.parts && s.isBool == t.isBool
    ensures Encodable(s) <==> Encodable(t)
  {
    hide AreParts, Compact, Visible;
  }

  /** With a string or a structure among the assignments from `i` on, the server gives up. */
  lemma {:induction false} SomeFails(
      data: seq<byte>, ws: seq<Assignment>, meaning: Meaning, i: nat, k: nat, done: seq<Action>, provider: Provider)
    requires AreAssignments(ws, meaning) && Holds(data, AllServiceBytes(AsServices(ws, meaning)))
    requires Obliges(provider) && i <= k < |ws| && !IsAtomic(ws[k].cipType)
    ensures ServeAll(data, Starts(AllServiceBytes(AsServices(ws, meaning)), i), done, provider) == Err(Malformed)
    decreases k - i
  {
    hide Holds, Start, ServeAt, Served1, IsService, IsFree, ServiceBytes, IsAssignment, AsService, Obliges, IsAtomic;
    hide Wanted;
    var parts := AllServiceBytes(AsServices(ws, meaning));
    var offsets := Starts(parts, i);
    var pos := Start(parts, i) + 8;
    assert offsets[0] == Start(parts, i) && offsets[1..] == Starts(parts, i + 1);
    var x := FindsPart(data, parts, i);
    if IsAtomic(ws[i].cipType) {
      var s := AsService(ws[i], meaning);
      AtomicIsService(ws[i], meaning);
      ServesService(data, pos, s, x, done, provider);
      Obliged(s, done, provider);
      SomeFails(data, ws, meaning, i + 1, k, done + [Wanted(s)], provider);
    } else {
      OtherFails(data, pos, ws[i], meaning, x, done, provider);
    }
  }

  predicate AllAtomic(ws: seq<Assignment>) {
    forall i :: 0 <= i < |ws| ==> IsAtomic(ws[i].cipType)
  }

  /** The write of one value to the named tag: of a slice, its first element. */
  function FirstValue(a: Assignment, meaning: Meaning): Action
    requires IsAssignment(a, meaning) && IsAtomic(a.cipType)
  {
    WriteTag(Render(Visible(meaning(Lower(a.name)), a.cipType == CipTypes.BOOL)), a.cipType, 1,
      CipTypes.Meant(a.cipType, a.data[..CipTypes.ValueWidth(a.cipType)]))
  }

  lemma {:induction false} AtomicWanted(a: Assignment, meaning: Meaning)
    requires IsAssignment(a, meaning) && IsAtomic(a.cipType)
    ensures IsService(AsService(a, meaning)) && Wanted(AsService(a, meaning)) == FirstValue(a, meaning)
  {
    hide Encodable, Render, Lower, Visible, CipTypes.Meant;
    AtomicIsService(a, meaning);
  }

  /**
   `WriteMap` against this server: with a string or a structure among the values it fails; otherwise
   one value is written to every tag, in the order in which the map was walked.
   */
  lemma {:induction false} WriteMapWrites(
      connection: nat, sequence: nat, ws: seq<Assignment>, meaning: Meaning, connections: map<nat, Connection>)
    requires connection < 0x1_0000_0000 && connection in connections && Obliges(connections[connection].provider)
    requires AreAssignments(ws, meaning) && |Packed(AllServiceBytes(AsServices(ws, meaning)))| < 32768
    ensures WritePacket(connection, sequence, ws).Ok?
    ensures var r := ServeUnitData(WritePacket(connection, sequence, ws).value, connections);
      && (!AllAtomic(ws) ==> r == Err(Malformed))
      && (AllAtomic(ws) ==>
          r.Ok? && r.value.Served? && |r.value.actions| == |ws| &&
          forall i :: 0 <= i < |ws| ==> r.value.actions[i] == FirstValue(ws[i], meaning))
  {
    hide PacketData, ServeAll, Starts, Packed, Framed, ServeUnitData, IsAssignment, Holds, Obliges, ReplyData;
    hide ServedFrom, AllServiceBytes, IsAtomic, IsService, IsFree, AsService, Services, Wanted, FirstValue;
    var ss := AsServices(ws, meaning);
    var parts := AllServiceBytes(ss);
    var provider := connections[connection].provider;
    AssignmentsBytes(ws, meaning);
    PacketServed(connection, sequence, parts, connections);
    if AllAtomic(ws) {
      forall i | 0 <= i < |ws|
        ensures IsService(ss[i]) && IsFree(ss[i]) && Wanted(ss[i]) == FirstValue(ws[i], meaning)
      {
        AtomicIsService(ws[i], meaning);
        AtomicWanted(ws[i], meaning);
      }
      ServesEach(PacketData(sequence, parts), ss, 0, [], provider);
      AllObliged(ss, 0, [], provider);
      assert [] + WantedAll(ss)[0..] == WantedAll(ss);
    } else {
      var k :| 0 <= k < |ws| && !IsAtomic(ws[k].cipType);
      SomeFails(PacketData(sequence, parts), ws, meaning, 0, k, [], provider);
    }
  }

  /** Nobody looks at the bit of a path: a bool written to a bit of a word is written to the word. */
  lemma {:induction false} BitWritesWord(t: Tag, bit: Part, reserved: byte, data: seq<byte>)
    requires AreParts(t.parts + [bit]) && bit.BitOf? && AreParts(t.parts)
    ensures Visible(t.parts + [bit], t.isBool) == Visible(t.parts, t.isBool)
    ensures ServiceBytes(Write(t.(parts := t.parts + [bit]), CipTypes.BOOL, reserved, data)) ==
      ServiceBytes(Write(t, CipTypes.BOOL, reserved, data))
  {
    hide AreParts, SymbolicIoi, Render, PathBytes, Compact, U16, Visible;
    BitIsInvisible(t.parts, bit, t.isBool);
    SymbolicMeaning(t.parts + [bit], t.isBool);
    SymbolicMeaning(t.parts, t.isBool);
  }

  lemma {:induction false} BitIsInvisible(ps: seq<Part>, bit: Part, isBool: bool)
    requires bit.BitOf?
    ensures Visible(ps + [bit], isBool) == Visible(ps, isBool)
    decreases |ps|
  {
    if ps != [] {
      BitIsInvisible(ps[1..], bit, isBool);
      assert (ps + [bit])[1..] == ps[1..] + [bit];
    } else {
      assert ([bit])[1..] == [] && ps + [bit] == [bit];
    }
  }
}
