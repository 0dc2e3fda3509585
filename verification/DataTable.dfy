/** The data table buffer: tags added and sent to the controller in batches, then read all at once. */
module DataTable {
  import opened Wire
  import opened Sequences
  import opened Streams
  import opened Text
  import opened Items
  import CipTypes

  /// What the client and the controller exchange

  /** One tag of an add request: how many bytes its value takes, and its path. */
  datatype Slot = Slot(size: word, path: seq<byte>)

  function SlotBytes(s: Slot): seq<byte> {
    U16(s.size) + [|s.path| / 2 % 256] + s.path
  }

  function AllSlotBytes(ss: seq<Slot>): seq<byte> {
    if ss == [] then [] else SlotBytes(ss[0]) + AllSlotBytes(ss[1..])
  }

  /** Service 0x4E. */
  function AddMessage(ss: seq<Slot>): seq<byte> {
    [0x02, 0x00, 0x01, 0x01, |ss| % 256] + AllSlotBytes(ss)
  }

  function ParseSlot(b: seq<byte>): Result<(Slot, seq<byte>)> {
    var (h, b1) :- ReadFull(b, 3);
    var (path, b2) :- ReadFull(b1, 2 * h[2] as int);
    Ok((Slot(FromU16(h), path), b2))
  }

  function ParseSlots(b: seq<byte>, count: nat): Result<(seq<Slot>, seq<byte>)>
    decreases count
  {
    if count == 0 then Ok(([], b))
    else
      var (s, b1) :- ParseSlot(b);
      var (ss, b2) :- ParseSlots(b1, count - 1);
      Ok(([s] + ss, b2))
  }

  /** A controller takes an add request whose count is not zero and matches its length. */
  function ParseAdd(b: seq<byte>): Result<seq<Slot>> {
    var (h, b1) :- ReadFull(b, 5);
    if h[..4] != [0x02, 0x00, 0x01, 0x01] || h[4] == 0 then Err(Malformed)
    else
      var (ss, rest) :- ParseSlots(b1, h[4]);
      if rest != [] then Err(Malformed) else Ok(ss)
  }

  /** The bytes that a tag holds at the time of a read. */
  type Memory = seq<byte> -> seq<byte>

  function SlotValue(memory: Memory, s: Slot): (v: seq<byte>)
    ensures |v| == s.size
  {
    var v := memory(s.path);
    if |v| >= s.size then v[..s.size] else v + Zeros(s.size - |v|)
  }

  function BatchValues(memory: Memory, batch: seq<Slot>): seq<byte> {
    if batch == [] then [] else SlotValue(memory, batch[0]) + BatchValues(memory, batch[1..])
  }

  /** Service 0x4C: every batch behind its number. */
  function ReadMessage(memory: Memory, batches: seq<seq<Slot>>, id: nat): seq<byte>
    decreases |batches|
  {
    if batches == [] then []
    else U16(id) + BatchValues(memory, batches[0]) + ReadMessage(memory, batches[1..], id + 1)
  }

  const MAX_BATCHES: nat := 65535

  /** The controller's side: the batches it was given, numbered from 1 on. */
  class Controller {
    var batches: seq<seq<Slot>>

    constructor ()
      ensures batches == []
    {
      batches := [];
    }

    /** `up` tells whether the request gets through. */
    method Add(data: seq<byte>, up: bool) returns (r: Result<nat>)
      modifies this
      ensures r == Accepts(old(batches), data, up)
      ensures batches == if r.Ok? then old(batches) + [ParseAdd(data).value] else old(batches)
    {
      r := Accepts(batches, data, up);
      if r.Ok? {
        batches := batches + [ParseAdd(data).value];
      }
    }
  }

  function Accepts(batches: seq<seq<Slot>>, data: seq<byte>, up: bool): (r: Result<nat>)
    ensures r.Ok? ==> ParseAdd(data).Ok? && r.value == |batches| + 1 <= MAX_BATCHES
  {
    if !up then Err(EndOfData)
    else if |batches| >= MAX_BATCHES then Err(BadStatus)
    else
      var _ :- ParseAdd(data);
      Ok(|batches| + 1)
  }

  /// The buffer

  datatype BufferTag = BufferTag(
    name: text, cipType: byte, size: word, index: word, path: seq<byte>, batchID: nat, synced: bool)

  /** What the client knows of a tag: its path, and the template size of its type, 0 when unknown. */
  datatype Lookup = Lookup(paths: (text, byte) -> Result<seq<byte>>, templateSize: text -> nat)

  /** `dataTableTypeSize` */
  function TypeSize(t: byte): Result<word> {
    if t == CipTypes.STRING || t == CipTypes.STRUCT then Ok(88)
    else if CipTypes.Size(t) == 0 then Err(Malformed)
    else Ok(CipTypes.Size(t))
  }

  /** `resolveTypeSize` */
  function SlotSize(name: text, t: byte, l: Lookup): Result<word> {
    if (t == CipTypes.STRING || t == CipTypes.STRUCT) && l.templateSize(Lower(name)) > 0
    then Ok(l.templateSize(Lower(name)) % 65536)
    else TypeSize(t)
  }

  function NewTag(name: text, t: byte, position: nat, l: Lookup): Result<BufferTag> {
    var path :- l.paths(name, t);
    var size :- SlotSize(name, t, l);
    Ok(BufferTag(name, t, size, position % 65536, path, 0, false))
  }

  /** New tags behind `position` others. */
  function NewTags(names: seq<(text, byte)>, position: nat, l: Lookup): Result<seq<BufferTag>>
    decreases |names|
  {
    if names == [] then Ok([])
    else
      var t :- NewTag(names[0].0, names[0].1, position + 1, l);
      var more :- NewTags(names[1..], position + 1, l);
      Ok([t] + more)
  }

  function SlotOf(t: BufferTag): Slot {
    Slot(t.size, t.path)
  }

  function Unsynced(tags: seq<BufferTag>): seq<Slot> {
    if tags == [] then []
    else (if tags[0].synced then [] else [SlotOf(tags[0])]) + Unsynced(tags[1..])
  }

  /** The tags that were not synced become part of batch `id`. */
  function Mark(tags: seq<BufferTag>, id: nat): (r: seq<BufferTag>)
    ensures |r| == |tags|
    ensures forall i :: 0 <= i < |tags| ==> r[i] == MarkOne(tags[i], id)
  {
    seq(|tags|, i requires 0 <= i < |tags| => MarkOne(tags[i], id))
  }

  function MarkOne(t: BufferTag, id: nat): BufferTag {
    if t.synced then t else t.(batchID := id, synced := true)
  }

  /// Reading

  /** What is made of the bytes of one tag. */
  type Decoder<V> = (byte, seq<byte>) -> Result<V>

  /** One tag: a batch number first where a batch starts, then its bytes. */
  function Take<V>(t: BufferTag, reply: seq<byte>, batch: nat, decode: Decoder<V>): Result<(V, seq<byte>)> {
    if t.batchID != batch && |reply| < 2 then Err(ShortData)
    else
      var reply1 := if t.batchID != batch then reply[2..] else reply;
      if |reply1| < t.size then Err(ShortData)
      else
        var v :- decode(t.cipType, reply1[..t.size]);
        Ok((v, reply1[t.size..]))
  }

  /** The values of the tags, in their order, and what is left of the reply. */
  function Walk<V>(tags: seq<BufferTag>, reply: seq<byte>, batch: nat, decode: Decoder<V>): Result<(seq<V>, seq<byte>)>
    decreases |tags|
  {
    if tags == [] then Ok(([], reply))
    else
      var (v, reply1) :- Take(tags[0], reply, batch, decode);
      var (vs, rest) :- Walk(tags[1..], reply1, tags[0].batchID, decode);
      Ok(([v] + vs, rest))
  }

  /** The library sort by index. */
  function Insert(t: BufferTag, ts: seq<BufferTag>): seq<BufferTag> {
    if ts == [] || t.index <= ts[0].index then [t] + ts else [ts[0]] + Insert(t, ts[1..])
  }

  function SortByIndex(ts: seq<BufferTag>): seq<BufferTag> {
    if ts == [] then [] else Insert(ts[0], SortByIndex(ts[1..]))
  }

  /** Name by name; of two tags with one name the later one wins. */
  function ByName<V>(tags: seq<BufferTag>, values: seq<V>): map<text, V>
    requires |values| == |tags|
    decreases |tags|
  {
    if tags == [] then map[]
    else ByName(tags[..|tags| - 1], values[..|tags| - 1])[tags[|tags| - 1].name := values[|tags| - 1]]
  }

  datatype Value = Str(s: text) | Scalar(cipType: byte, data: seq<byte>)

  /** `decodeDataTableValue` */
  function Decode(t: byte, raw: seq<byte>): Result<Value> {
    if t == CipTypes.STRING || t == CipTypes.STRUCT then
      if |raw| < 4 then Err(ShortData)
      else
        var length := Min(Min(FromU32(raw), |raw| - 4), 82);
        Ok(Str(raw[4..4 + length]))
    else if CipTypes.ValueWidth(t) == 0 then Err(Malformed)
    else
      var (v, _) :- ReadFull(raw, CipTypes.ValueWidth(t));
      Ok(Scalar(t, CipTypes.Meant(t, v)))
  }

  /** `ReadAllRaw` hands out the bytes as they are. */
  function AsBytes(t: byte, raw: seq<byte>): Result<seq<byte>> {
    Ok(raw)
  }

  /** The map that a read returns. */
  function ReadResult<V>(tags: seq<BufferTag>, reply: seq<byte>, decode: Decoder<V>): Result<map<text, V>> {
    var sorted := SortByIndex(tags);
    var (vs, _) :- Walk(sorted, reply, 0, decode);
    WalkLength(sorted, reply, 0, decode);
    Ok(ByName(sorted, vs))
  }

  lemma {:induction false} WalkLength<V>(tags: seq<BufferTag>, reply: seq<byte>, batch: nat, decode: Decoder<V>)
    ensures Walk(tags, reply, batch, decode).Ok? ==> |Walk(tags, reply, batch, decode).value.0| == |tags|
    decreases |tags|
  {
    if tags != [] {
      var one := Take(tags[0], reply, batch, decode);
      if one.Ok? {
        WalkLength(tags[1..], one.value.1, tags[0].batchID, decode);
      }
    }
  }

  /// The methods

  /** What an attempt to sync does to the tags and to the controller: all or nothing. */
  ghost predicate SyncedBy(
      tags: seq<BufferTag>, tags1: seq<BufferTag>, synced: bool, synced1: bool,
      batches: seq<seq<Slot>>, batches1: seq<seq<Slot>>, up: bool)
  {
    var reply := Accepts(batches, AddMessage(Unsynced(tags)), up);
    if reply.Ok? then
      synced1 && tags1 == Mark(tags, reply.value) && batches1 == batches + [ParseAdd(AddMessage(Unsynced(tags))).value]
    else synced1 == synced && tags1 == tags && batches1 == batches
  }

  class Buffer {
    var created: bool
    var tags: seq<BufferTag>
    var synced: bool

    constructor ()
      ensures created && tags == [] && !synced
    {
      created, tags, synced := true, [], false;
    }

    method AddTag(name: text, t: byte, l: Lookup) returns (r: Result<()>)
      modifies this
      ensures created == old(created)
      ensures if old(created) && NewTag(name, t, |old(tags)| + 1, l).Ok?
        then r.Ok? && !synced && tags == old(tags) + [NewTag(name, t, |old(tags)| + 1, l).value]
        else r.Err? && synced == old(synced) && tags == old(tags)
    {
      if !created {
        return Err(Malformed);
      }
      var path := l.paths(name, t);
      if path.Err? {
        return Err(path.error);
      }
      var size := SlotSize(name, t, l);
      if size.Err? {
        return Err(size.error);
      }
      synced := false;
      tags := tags + [BufferTag(name, t, size.value, (|tags| + 1) % 65536, path.value, 0, false)];
      return Ok(());
    }

    /** The tags come in whatever order the map is walked. */
    method AddTags(names: seq<(text, byte)>, l: Lookup) returns (r: Result<()>)
      modifies this
      ensures created == old(created)
      ensures if old(created) && NewTags(names, |old(tags)|, l).Ok?
        then r.Ok? && !synced && tags == old(tags) + NewTags(names, |old(tags)|, l).value
        else r.Err? && synced == old(synced) && tags == old(tags)
    {
      if !created {
        return Err(Malformed);
      }
      hide NewTags;
      var prepared := Prepare(names, |tags|, l);
      if prepared.Err? {
        return Err(prepared.error);
      }
      tags := tags + prepared.value;
      synced := false;
      return Ok(());
    }

    method SyncTags(plc: Controller, up: bool) returns (r: Result<()>)
      modifies this, plc
      ensures created == old(created)
      ensures r.Ok? == Accepts(old(plc.batches), AddMessage(Unsynced(old(tags))), up).Ok?
      ensures SyncedBy(old(tags), tags, old(synced), synced, old(plc.batches), plc.batches, up)
    {
      hide Accepts, AddMessage, ParseAdd, Unsynced, Mark;
      var entries := Entries(tags);
      var batchID := plc.Add(AddMessage(entries), up);
      if batchID.Err? {
        return Err(batchID.error);
      }
      MarkSynced(batchID.value);
      synced := true;
      return Ok(());
    }

    method MarkSynced(id: nat)
      modifies `tags
      ensures tags == Mark(old(tags), id)
    {
      for i := 0 to |tags|
        invariant |tags| == |old(tags)|
        invariant forall j :: 0 <= j < i ==> tags[j] == Mark(old(tags), id)[j]
        invariant forall j :: i <= j < |tags| ==> tags[j] == old(tags)[j]
      {
        if !tags[i].synced {
          tags := tags[i := tags[i].(batchID := id, synced := true)];
        }
      }
    }

    /** `ReadAll` and `ReadAllRaw`, which differ in what they make of a tag's bytes. */
    method ReadAll<V>(plc: Controller, memory: Memory, decode: Decoder<V>, up: bool, upRead: bool)
      returns (r: Result<map<text, V>>)
      modifies this, plc
      ensures created == old(created)
      ensures if old(created) && old(tags) != [] && !old(synced)
        then SyncedBy(old(tags), tags, false, synced, old(plc.batches), plc.batches, up)
        else tags == old(tags) && synced == old(synced) && plc.batches == old(plc.batches)
      ensures if created && tags != [] && synced && upRead
        then r == ReadResult(tags, ReadMessage(memory, plc.batches, 1), decode)
        else r.Err?
    {
      hide Accepts, AddMessage, ParseAdd, Unsynced, ReadMessage, ReadResult;
      if !created || |tags| == 0 {
        return Err(Malformed);
      }
      if !synced {
        var sync := SyncTags(plc, up);
        if sync.Err? {
          return Err(sync.error);
        }
      }
      if !upRead {
        return Err(EndOfData);
      }
      var reply := ReadMessage(memory, plc.batches, 1);
      r := ReadReply(tags, reply, decode);
    }
  }

  method Prepare(names: seq<(text, byte)>, position: nat, l: Lookup) returns (r: Result<seq<BufferTag>>)
    ensures r == NewTags(names, position, l)
  {
    hide NewTag, Ahead;
    var prepared: seq<BufferTag> := [];
    NothingAhead(NewTags(names, position, l));
    assert names[0..] == names;
    for i := 0 to |names|
      invariant NewTags(names, position, l) == Ahead(prepared, NewTags(names[i..], position + i, l))
    {
      assert names[i..][0] == names[i] && names[i..][1..] == names[i + 1..];
      NewTagsCons(names[i..], position + i, l);
      var t := NewTag(names[i].0, names[i].1, position + i + 1, l);
      if t.Err? {
        AheadOfError(prepared, t.error);
        return Err(t.error);
      }
      AheadTwice(prepared, [t.value], NewTags(names[i + 1..], position + i + 1, l));
      prepared := prepared + [t.value];
    }
    AheadOfNone(prepared);
    return Ok(prepared);
  }

  lemma {:induction false} NewTagsCons(names: seq<(text, byte)>, position: nat, l: Lookup)
    requires names != []
    ensures NewTags(names, position, l) ==
      match NewTag(names[0].0, names[0].1, position + 1, l)
      case Err(e) => Err(e)
      case Ok(t) => Ahead([t], NewTags(names[1..], position + 1, l))
  {
    hide NewTag;
  }

  method Entries(tags: seq<BufferTag>) returns (entries: seq<Slot>)
    ensures entries == Unsynced(tags)
  {
    hide Unsynced, SlotOf;
    entries := [];
    assert tags[0..] == tags && [] + Unsynced(tags) == Unsynced(tags);
    for i := 0 to |tags|
      invariant Unsynced(tags) == entries + Unsynced(tags[i..])
    {
      UnsyncedStep(entries, tags, i);
      if !tags[i].synced {
        entries := entries + [SlotOf(tags[i])];
      }
    }
    UnsyncedEnd(entries);
    assert tags[|tags|..] == [];
  }

  lemma {:induction false} UnsyncedStep(entries: seq<Slot>, tags: seq<BufferTag>, i: nat)
    requires i < |tags|
    ensures entries + Unsynced(tags[i..]) ==
      (if tags[i].synced then entries else entries + [SlotOf(tags[i])]) + Unsynced(tags[i + 1..])
  {
    hide SlotOf;
    var rest := tags[i..];
    assert rest[0] == tags[i] && rest[1..] == tags[i + 1..];
    Associate(entries, [SlotOf(tags[i])], Unsynced(tags[i + 1..]));
  }

  lemma {:induction false} UnsyncedEnd(entries: seq<Slot>)
    ensures entries + Unsynced([]) == entries
  {
  }

  method ReadReply<V>(tags: seq<BufferTag>, reply: seq<byte>, decode: Decoder<V>) returns (r: Result<map<text, V>>)
    ensures r == ReadResult(tags, reply, decode)
  {
    hide SortByIndex, Walk, ByName;
    var resp := new Item.Of(CONNECTED_DATA, |reply|, reply);
    assert resp.data[0..] == reply;
    r := ReadValues(SortByIndex(tags), resp, decode);
  }

  lemma {:induction false} WalkCons<V>(tags: seq<BufferTag>, reply: seq<byte>, batch: nat, decode: Decoder<V>)
    requires tags != []
    ensures Walk(tags, reply, batch, decode) ==
      match Take(tags[0], reply, batch, decode)
      case Err(e) => Err(e)
      case Ok(one) => AheadWith([one.0], Walk(tags[1..], one.1, tags[0].batchID, decode))
  {
    hide Take;
  }

  lemma {:induction false} AheadLast<V>(vs: seq<V>, reply: seq<byte>, batch: nat, decode: Decoder<V>)
    ensures AheadWith(vs, Walk([], reply, batch, decode)) == Ok((vs, reply))
  {
    assert vs + [] == vs;
  }

  lemma {:induction false} ByNameLast<V>(tags: seq<BufferTag>, vs: seq<V>, i: nat, v: V)
    requires i < |tags| && |vs| == i
    ensures ByName(tags[..i + 1], vs + [v]) == ByName(tags[..i], vs)[tags[i].name := v]
  {
    assert tags[..i + 1][..i] == tags[..i] && (vs + [v])[..i] == vs;
  }

  method ReadValues<V>(sorted: seq<BufferTag>, resp: Item, decode: Decoder<V>) returns (r: Result<map<text, V>>)
    requires 0 <= resp.pos <= |resp.data|
    modifies resp`pos
    ensures match Walk(sorted, resp.data[old(resp.pos)..], 0, decode)
      case Err(e) => r == Err(e)
      case Ok(v) => |v.0| == |sorted| && r == Ok(ByName(sorted, v.0))
  {
    hide Take, Walk, ByName, AheadWith;
    ghost var spec := Walk(sorted, resp.data[resp.pos..], 0, decode);
    var result: map<text, V> := map[];
    ghost var vs: seq<V> := [];
    var currentBatch := 0;
    NoNames(sorted, vs);
    NothingAheadWith(spec);
    assert sorted[0..] == sorted;
    for i := 0 to |sorted|
      invariant 0 <= resp.pos <= |resp.data| && currentBatch >= 0
      invariant spec == AheadWith(vs, Walk(sorted[i..], resp.data[resp.pos..], currentBatch, decode))
      invariant |vs| == i && result == ByName(sorted[..i], vs)
    {
      ghost var rest, reply := sorted[i..], resp.data[resp.pos..];
      assert rest[0] == sorted[i] && rest[1..] == sorted[i + 1..];
      WalkCons(rest, reply, currentBatch, decode);
      var one := ReadTag(sorted[i], resp, currentBatch, decode);
      if one.Err? {
        AheadWithError<V, seq<byte>>(vs, one.error);
        return Err(one.error);
      }
      currentBatch := sorted[i].batchID;
      AheadWithTwice(vs, [one.value], Walk(rest[1..], resp.data[resp.pos..], currentBatch, decode));
      ByNameLast(sorted, vs, i, one.value);
      result := result[sorted[i].name := one.value];
      vs := vs + [one.value];
    }
    AheadLast(vs, resp.data[resp.pos..], currentBatch, decode);
    assert sorted[..|sorted|] == sorted;
    return Ok(result);
  }

  lemma {:induction false} NoNames<V>(tags: seq<BufferTag>, vs: seq<V>)
    requires vs == []
    ensures ByName(tags[..0], vs) == map[]
  {
  }

  method ReadTag<V>(tag: BufferTag, resp: Item, currentBatch: nat, decode: Decoder<V>) returns (r: Result<V>)
    requires 0 <= resp.pos <= |resp.data|
    modifies resp`pos
    ensures match Take(tag, resp.data[old(resp.pos)..], currentBatch, decode)
      case Err(e) => r == Err(e)
      case Ok(v) => r == Ok(v.0) && 0 <= resp.pos <= |resp.data| && resp.data[resp.pos..] == v.1
  {
    if tag.batchID != currentBatch {
      var header := resp.Uint16();
      if header.Err? {
        return Err(header.error);
      }
    }
    if resp.pos + tag.size > |resp.data| {
      return Err(ShortData);
    }
    var raw := resp.data[resp.pos..resp.pos + tag.size];
    assert resp.data[resp.pos..][..tag.size] == raw;
    resp.pos := resp.pos + tag.size;
    r := decode(tag.cipType, raw);
  }
}
