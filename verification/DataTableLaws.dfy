/** The buffer and the controller stay in step, and a read takes the reply apart as it was laid out. */
module DataTableLaws {
  import opened Wire
  import opened Sequences
  import opened Streams
  import opened Text
  import opened DataTable
  import CipTypes

  /// The add request

  /** Whole 16-bit words, and few enough of them for the length byte. */
  predicate Sendable(path: seq<byte>) {
    |path| % 2 == 0 && |path| < 512
  }

  predicate AllSendable(ss: seq<Slot>) {
    ss == [] || (Sendable(ss[0].path) && AllSendable(ss[1..]))
  }

  lemma {:induction false} SlotParses(s: Slot, x: seq<byte>)
    requires Sendable(s.path)
    ensures ParseSlot(SlotBytes(s) + x) == Ok((s, x))
  {
    var h := U16(s.size) + [|s.path| / 2];
    U16Value(s.size);
    assert SlotBytes(s) + x == h + (s.path + x);
    FullRead(h, s.path + x);
    FullRead(s.path, x);
    assert h[0] == U16(s.size)[0] && h[1] == U16(s.size)[1];
  }

  lemma {:induction false} SlotsParse(ss: seq<Slot>, x: seq<byte>)
    requires AllSendable(ss)
    ensures ParseSlots(AllSlotBytes(ss) + x, |ss|) == Ok((ss, x))
    decreases |ss|
  {
    hide Sendable, SlotBytes, ParseSlot;
    if ss == [] {
      assert AllSlotBytes(ss) + x == x;
    } else {
      assert AllSlotBytes(ss) + x == SlotBytes(ss[0]) + (AllSlotBytes(ss[1..]) + x);
      SlotParses(ss[0], AllSlotBytes(ss[1..]) + x);
      SlotsParse(ss[1..], x);
      assert ss == [ss[0]] + ss[1..];
    }
  }

  lemma {:induction false} SlotsSplit(ss: seq<Slot>, k: nat)
    requires k <= |ss|
    ensures AllSlotBytes(ss) == AllSlotBytes(ss[..k]) + AllSlotBytes(ss[k..])
    ensures AllSendable(ss) ==> AllSendable(ss[..k]) && AllSendable(ss[k..])
    decreases k
  {
    hide Sendable, SlotBytes;
    if k == 0 {
      assert ss[0..] == ss;
    } else {
      SlotsSplit(ss[1..], k - 1);
      assert ss[..k][1..] == ss[1..][..k - 1] && ss[k..] == ss[1..][k - 1..];
    }
  }

  lemma {:induction false} AddHeader(count: byte, body: seq<byte>)
    ensures ParseAdd([0x02, 0x00, 0x01, 0x01, count] + body) ==
      if count == 0 then Err(Malformed)
      else match ParseSlots(body, count)
        case Err(e) => Err(e)
        case Ok(v) => if v.1 != [] then Err(Malformed) else Ok(v.0)
  {
    hide ParseSlots;
    var h := [0x02, 0x00, 0x01, 0x01, count];
    FullRead(h, body);
    assert h[..4] == [0x02, 0x00, 0x01, 0x01];
  }

  /** The request comes across whole exactly when it names between 1 and 255 tags; otherwise it is refused. */
  lemma {:induction false} AddParses(ss: seq<Slot>)
    requires AllSendable(ss)
    ensures if 1 <= |ss| <= 255 then ParseAdd(AddMessage(ss)) == Ok(ss) else ParseAdd(AddMessage(ss)).Err?
  {
    hide AllSlotBytes, AllSendable, ParseSlots, ParseAdd;
    var c := |ss| % 256;
    AddHeader(c, AllSlotBytes(ss));
    SlotsSplit(ss, c);
    SlotsParse(ss[..c], AllSlotBytes(ss[c..]));
    if c == |ss| {
      assert ss[..c] == ss;
      NoSlots(ss[c..]);
    } else {
      SomeSlots(ss[c..]);
    }
  }

  lemma {:induction false} NoSlots(ss: seq<Slot>)
    requires ss == []
    ensures AllSlotBytes(ss) == []
  {
  }

  lemma {:induction false} SomeSlots(ss: seq<Slot>)
    requires ss != []
    ensures AllSlotBytes(ss) != []
  {
  }

  /// Runs

  datatype State = State(tags: seq<BufferTag>, synced: bool, batches: seq<seq<Slot>>)

  datatype Op =
    | AddOne(name: text, cipType: byte)
    | AddMany(names: seq<(text, byte)>)
    | Sync(up: bool)

  /** What the methods of the buffer do to it and to the controller. */
  function Step(s: State, op: Op, l: Lookup): State {
    match op
    case AddOne(name, t) =>
      (match NewTag(name, t, |s.tags| + 1, l)
       case Ok(tag) => s.(tags := s.tags + [tag], synced := false)
       case Err(_) => s)
    case AddMany(names) =>
      (match NewTags(names, |s.tags|, l)
       case Ok(more) => s.(tags := s.tags + more, synced := false)
       case Err(_) => s)
    case Sync(up) =>
      var message := AddMessage(Unsynced(s.tags));
      (match Accepts(s.batches, message, up)
       case Ok(id) => State(Mark(s.tags, id), true, s.batches + [ParseAdd(message).value])
       case Err(_) => s)
  }

  function Run(s: State, ops: seq<Op>, l: Lookup): State
    decreases |ops|
  {
    if ops == [] then s else Run(Step(s, ops[0], l), ops[1..], l)
  }

  function StateOf(b: Buffer, plc: Controller): State
    reads b, plc
  {
    State(b.tags, b.synced, plc.batches)
  }

  /** A step is what the method of the buffer does. */
  method Perform(b: Buffer, plc: Controller, op: Op, l: Lookup)
    requires b.created
    modifies b, plc
    ensures b.created && StateOf(b, plc) == Step(old(StateOf(b, plc)), op, l)
  {
    hide Accepts, NewTag, NewTags, Mark, AddMessage, Unsynced, ParseAdd;
    match op
    case AddOne(name, t) => var _ := b.AddTag(name, t, l);
    case AddMany(names) => var _ := b.AddTags(names, l);
    case Sync(up) => var _ := b.SyncTags(plc, up);
  }

  /** And so is a run, on any buffer and controller. */
  method PerformAll(b: Buffer, plc: Controller, ops: seq<Op>, l: Lookup)
    requires b.created
    modifies b, plc
    ensures b.created && StateOf(b, plc) == Run(old(StateOf(b, plc)), ops, l)
  {
    hide Step;
    assert ops[0..] == ops;
    for i := 0 to |ops|
      invariant b.created && Run(StateOf(b, plc), ops[i..], l) == Run(old(StateOf(b, plc)), ops, l)
    {
      assert ops[i..][0] == ops[i] && ops[i..][1..] == ops[i + 1..];
      Perform(b, plc, ops[i], l);
    }
  }

  predicate Indexed(tags: seq<BufferTag>) {
    forall i :: 0 <= i < |tags| ==> tags[i].index == (i + 1) % 65536 && Sendable(tags[i].path)
  }

  predicate NoneSynced(tags: seq<BufferTag>) {
    forall i :: 0 <= i < |tags| ==> !tags[i].synced && tags[i].batchID == 0
  }

  predicate IsBatch(tags: seq<BufferTag>, batch: seq<Slot>, id: nat) {
    |tags| == |batch| && forall i :: 0 <= i < |tags| ==>
      tags[i].synced && tags[i].batchID == id && SlotOf(tags[i]) == batch[i]
  }

  /** The tags are the controller's batches, one after the other and numbered from `id`, then unsynced tags. */
  predicate Grouped(tags: seq<BufferTag>, batches: seq<seq<Slot>>, id: nat)
    decreases |batches|
  {
    if batches == [] then NoneSynced(tags)
    else
      var n := |batches[0]|;
      0 < n <= |tags| && IsBatch(tags[..n], batches[0], id) && Grouped(tags[n..], batches[1..], id + 1)
  }

  predicate AllSynced(tags: seq<BufferTag>) {
    forall i :: 0 <= i < |tags| ==> tags[i].synced
  }

  predicate InStep(s: State) {
    Indexed(s.tags) && Grouped(s.tags, s.batches, 1) && (s.synced ==> AllSynced(s.tags)) && |s.batches| <= MAX_BATCHES
  }

  /** The client builds paths of whole words; these must not be longer than the length byte can say. */
  ghost predicate ShortPaths(l: Lookup) {
    forall name: text, t: byte :: l.paths(name, t).Ok? ==> Sendable(l.paths(name, t).value)
  }

  lemma {:induction false} GroupedAppend(tags: seq<BufferTag>, more: seq<BufferTag>, batches: seq<seq<Slot>>, id: nat)
    requires Grouped(tags, batches, id) && NoneSynced(more)
    ensures Grouped(tags + more, batches, id)
    decreases |batches|
  {
    hide IsBatch;
    if batches != [] {
      var n := |batches[0]|;
      GroupedAppend(tags[n..], more, batches[1..], id + 1);
      assert (tags + more)[..n] == tags[..n] && (tags + more)[n..] == tags[n..] + more;
    }
  }

  lemma {:induction false} NewTagsShape(names: seq<(text, byte)>, position: nat, l: Lookup)
    requires ShortPaths(l) && NewTags(names, position, l).Ok?
    ensures var ts := NewTags(names, position, l).value;
      && |ts| == |names| && NoneSynced(ts)
      && forall i :: 0 <= i < |ts| ==> ts[i].index == (position + i + 1) % 65536 && Sendable(ts[i].path)
    decreases |names|
  {
    hide Sendable, SlotSize;
    if names != [] {
      NewTagsShape(names[1..], position + 1, l);
    }
  }

  lemma {:induction false} UnsyncedOfBatch(tags: seq<BufferTag>, n: nat)
    requires n <= |tags| && AllSynced(tags[..n])
    ensures Unsynced(tags) == Unsynced(tags[n..])
    decreases n
  {
    if n == 0 {
      assert tags[0..] == tags;
    } else {
      assert tags[..n][0] == tags[0];
      assert tags[1..][..n - 1] == tags[..n][1..] && tags[n..] == tags[1..][n - 1..];
      UnsyncedOfBatch(tags[1..], n - 1);
    }
  }

  lemma {:induction false} UnsyncedAll(tags: seq<BufferTag>)
    requires NoneSynced(tags)
    ensures |Unsynced(tags)| == |tags|
    ensures forall i :: 0 <= i < |tags| ==> Unsynced(tags)[i] == SlotOf(tags[i])
  {
    if tags != [] {
      UnsyncedAll(tags[1..]);
      assert forall i :: 0 < i < |tags| ==> Unsynced(tags)[i] == Unsynced(tags[1..])[i - 1];
    }
  }

  lemma {:induction false} UnsyncedSendable(tags: seq<BufferTag>)
    requires forall i :: 0 <= i < |tags| ==> Sendable(tags[i].path)
    ensures AllSendable(Unsynced(tags))
  {
    hide Sendable;
    if tags != [] {
      UnsyncedSendable(tags[1..]);
      var more := Unsynced(tags[1..]);
      assert [] + more == more && ([SlotOf(tags[0])] + more)[1..] == more;
    }
  }

  lemma {:induction false} MarkNew(tags: seq<BufferTag>, id: nat)
    requires NoneSynced(tags) && tags != []
    ensures Grouped(Mark(tags, id), [Unsynced(tags)], id)
  {
    UnsyncedAll(tags);
    var marked := Mark(tags, id);
    assert marked[..|tags|] == marked && marked[|tags|..] == [];
    var bs := [Unsynced(tags)];
    assert bs[0] == Unsynced(tags) && bs[1..] == [];
    assert IsBatch(marked, Unsynced(tags), id);
  }

  /** Marking what was not synced makes it the last batch. */
  lemma {:induction false} GroupedMark(tags: seq<BufferTag>, batches: seq<seq<Slot>>, id: nat, last: nat)
    requires Grouped(tags, batches, id) && last == id + |batches| && Unsynced(tags) != []
    ensures Grouped(Mark(tags, last), batches + [Unsynced(tags)], id)
    decreases |batches|
  {
    var marked := Mark(tags, last);
    var bs := batches + [Unsynced(tags)];
    if batches == [] {
      UnsyncedAll(tags);
      MarkNew(tags, last);
      assert bs == [Unsynced(tags)];
    } else {
      var n := |batches[0]|;
      UnsyncedOfBatch(tags, n);
      GroupedMark(tags[n..], batches[1..], id + 1, last);
      assert bs[1..] == batches[1..] + [Unsynced(tags[n..])];
      assert marked[n..] == Mark(tags[n..], last);
      assert marked[..n] == tags[..n];
    }
  }

  lemma {:induction false} StepStaysInStep(s: State, op: Op, l: Lookup)
    requires InStep(s) && ShortPaths(l)
    ensures InStep(Step(s, op, l))
  {
    hide InStep, Step, ShortPaths;
    match op {
      case AddOne(name, t) =>
        AddOneStays(s, name, t, l);
      case AddMany(names) =>
        AddManyStays(s, names, l);
      case Sync(up) =>
        SyncStays(s, up, l);
    }
  }

  lemma {:induction false} AddManyStays(s: State, names: seq<(text, byte)>, l: Lookup)
    requires InStep(s) && ShortPaths(l)
    ensures InStep(Step(s, AddMany(names), l))
  {
    hide NewTags, Sendable, Grouped, ShortPaths;
    if NewTags(names, |s.tags|, l).Ok? {
      NewTagsShape(names, |s.tags|, l);
      GroupedAppend(s.tags, NewTags(names, |s.tags|, l).value, s.batches, 1);
    }
  }

  lemma {:induction false} AddOneStays(s: State, name: text, t: byte, l: Lookup)
    requires InStep(s) && ShortPaths(l)
    ensures InStep(Step(s, AddOne(name, t), l))
  {
    hide SlotSize, Sendable;
    if NewTag(name, t, |s.tags| + 1, l).Ok? {
      GroupedAppend(s.tags, [NewTag(name, t, |s.tags| + 1, l).value], s.batches, 1);
    }
  }

  lemma {:induction false} SyncStays(s: State, up: bool, l: Lookup)
    requires InStep(s)
    ensures InStep(Step(s, Sync(up), l))
    ensures Step(s, Sync(up), l) != s ==> 1 <= |Unsynced(s.tags)| <= 255
  {
    hide ParseAdd, AddMessage, Unsynced, Sendable, Grouped;
    UnsyncedSendable(s.tags);
    AddParses(Unsynced(s.tags));
    if Accepts(s.batches, AddMessage(Unsynced(s.tags)), up).Ok? {
      GroupedMark(s.tags, s.batches, 1, |s.batches| + 1);
    }
  }

  /**
   Over every run of adds and syncs, failing ones included: indexes follow the order of the tags,
   and the tags are exactly what the controller holds, batch by batch, then what was not sent yet.
   */
  lemma {:induction false} RunStaysInStep(s: State, ops: seq<Op>, l: Lookup)
    requires InStep(s) && ShortPaths(l)
    ensures InStep(Run(s, ops, l))
    decreases |ops|
  {
    hide InStep, Step;
    if ops != [] {
      StepStaysInStep(s, ops[0], l);
      RunStaysInStep(Step(s, ops[0], l), ops[1..], l);
    }
  }

  /// Reading

  /** The value of every tag, decoded; the first that does not decode decides. */
  function Decoded<V>(tags: seq<BufferTag>, memory: Memory, decode: Decoder<V>): Result<seq<V>>
    decreases |tags|
  {
    if tags == [] then Ok([])
    else
      var v :- decode(tags[0].cipType, SlotValue(memory, SlotOf(tags[0])));
      var more :- Decoded(tags[1..], memory, decode);
      Ok([v] + more)
  }

  function Both<V>(a: Result<seq<V>>, b: Result<(seq<V>, seq<byte>)>): Result<(seq<V>, seq<byte>)> {
    if a.Err? then Err(a.error) else AheadWith(a.value, b)
  }

  lemma {:induction false} TakeHead<V>(t: BufferTag, memory: Memory, rest: seq<byte>, decode: Decoder<V>)
    ensures Take(t, SlotValue(memory, SlotOf(t)) + rest, t.batchID, decode) ==
      match decode(t.cipType, SlotValue(memory, SlotOf(t)))
      case Err(e) => Err(e)
      case Ok(v) => Ok((v, rest))
  {
    hide SlotValue;
    var v := SlotValue(memory, SlotOf(t));
    assert (v + rest)[..t.size] == v && (v + rest)[t.size..] == rest;
  }

  lemma {:induction false} TakeFirst<V>(
      t: BufferTag, memory: Memory, id: nat, batch: nat, rest: seq<byte>, decode: Decoder<V>)
    requires t.batchID != batch
    ensures Take(t, U16(id) + (SlotValue(memory, SlotOf(t)) + rest), batch, decode) ==
      Take(t, SlotValue(memory, SlotOf(t)) + rest, t.batchID, decode)
  {
    hide SlotValue;
    var y := SlotValue(memory, SlotOf(t)) + rest;
    assert (U16(id) + y)[2..] == y;
  }

  /** Inside a batch every tag finds its own value. */
  lemma {:induction false} WalkBatch<V>(
      tags: seq<BufferTag>, batch: seq<Slot>, id: nat, memory: Memory, more: seq<BufferTag>, rest: seq<byte>,
      decode: Decoder<V>)
    requires IsBatch(tags, batch, id)
    ensures Walk(tags + more, BatchValues(memory, batch) + rest, id, decode) ==
      Both(Decoded(tags, memory, decode), Walk(more, rest, id, decode))
    decreases |tags|
  {
    hide Take, SlotValue, Walk;
    if tags == [] {
      assert tags + more == more && BatchValues(memory, batch) + rest == rest;
      BothNothing(Walk(more, rest, id, decode));
    } else {
      var t := tags[0];
      var rest1 := BatchValues(memory, batch[1..]) + rest;
      assert BatchValues(memory, batch) + rest == SlotValue(memory, SlotOf(t)) + rest1;
      assert (tags + more)[0] == t && (tags + more)[1..] == tags[1..] + more;
      WalkCons(tags + more, BatchValues(memory, batch) + rest, id, decode);
      TakeHead(t, memory, rest1, decode);
      WalkBatch(tags[1..], batch[1..], id, memory, more, rest, decode);
      var v := decode(t.cipType, SlotValue(memory, SlotOf(t)));
      if v.Ok? {
        BothOne(v, Decoded(tags[1..], memory, decode), Walk(more, rest, id, decode));
      }
    }
  }

  lemma {:induction false} BothNothing<V>(more: Result<(seq<V>, seq<byte>)>)
    ensures Both(Ok([]), more) == more
  {
    NothingAheadWith(more);
  }

  lemma {:induction false} BothOne<V>(v: Result<V>, vs: Result<seq<V>>, more: Result<(seq<V>, seq<byte>)>)
    requires v.Ok?
    ensures AheadWith([v.value], Both(vs, more)) == Both(if vs.Err? then vs else Ok([v.value] + vs.value), more)
  {
    if vs.Ok? {
      AheadWithTwice([v.value], vs.value, more);
    }
  }

  /** A batch starts with its number, whatever batch was read before. */
  lemma {:induction false} WalkNewBatch<V>(
      tags: seq<BufferTag>, batch: seq<Slot>, id: nat, last: nat, memory: Memory, more: seq<BufferTag>,
      rest: seq<byte>, decode: Decoder<V>)
    requires IsBatch(tags, batch, id) && tags != [] && last != id
    ensures Walk(tags + more, U16(id) + (BatchValues(memory, batch) + rest), last, decode) ==
      Both(Decoded(tags, memory, decode), Walk(more, rest, id, decode))
  {
    hide Take, SlotValue, Walk, U16;
    var t := tags[0];
    var rest1 := BatchValues(memory, batch[1..]) + rest;
    assert BatchValues(memory, batch) + rest == SlotValue(memory, SlotOf(t)) + rest1;
    assert (tags + more)[0] == t;
    WalkCons(tags + more, U16(id) + (BatchValues(memory, batch) + rest), last, decode);
    TakeFirst(t, memory, id, last, rest1, decode);
    WalkCons(tags + more, BatchValues(memory, batch) + rest, id, decode);
    WalkBatch(tags, batch, id, memory, more, rest, decode);
  }

  /** The values of two lists of tags, or the first error. */
  function BothDecoded<V>(a: Result<seq<V>>, b: Result<seq<V>>): Result<seq<V>> {
    if a.Err? then a else Ahead(a.value, b)
  }

  lemma {:induction false} DecodedCons<V>(t: BufferTag, more: seq<BufferTag>, memory: Memory, decode: Decoder<V>)
    ensures var v := decode(t.cipType, SlotValue(memory, SlotOf(t)));
      Decoded([t] + more, memory, decode) ==
        if v.Err? then Err(v.error) else Ahead([v.value], Decoded(more, memory, decode))
  {
    hide SlotValue;
    assert ([t] + more)[1..] == more;
  }

  lemma {:induction false} DecodedSplit<V>(
      a: seq<BufferTag>, b: seq<BufferTag>, memory: Memory, decode: Decoder<V>)
    ensures Decoded(a + b, memory, decode) ==
      BothDecoded(Decoded(a, memory, decode), Decoded(b, memory, decode))
  {
    hide SlotValue, SlotOf, Decoded, Ahead;
    if a == [] {
      assert a + b == b;
      DecodedNone(memory, decode);
      NothingAhead(Decoded(b, memory, decode));
    } else {
      var t, more := a[0], a[1..];
      assert a == [t] + more && a + b == [t] + (more + b);
      DecodedCons(t, more, memory, decode);
      DecodedCons(t, more + b, memory, decode);
      DecodedSplit(more, b, memory, decode);
      var v, d := decode(t.cipType, SlotValue(memory, SlotOf(t))), Decoded(more, memory, decode);
      if v.Ok? {
        AheadBoth([v.value], d, Decoded(b, memory, decode));
      }
    }
  }

  lemma {:induction false} DecodedNone<V>(memory: Memory, decode: Decoder<V>)
    ensures Decoded([], memory, decode) == Ok([])
  {
  }

  lemma {:induction false} AheadBoth<V>(xs: seq<V>, a: Result<seq<V>>, b: Result<seq<V>>)
    ensures Ahead(xs, BothDecoded(a, b)) == BothDecoded(Ahead(xs, a), b)
  {
    if a.Ok? {
      AheadTwice(xs, a.value, b);
    }
  }

  lemma {:induction false} FirstSynced(tags: seq<BufferTag>)
    requires tags != [] && AllSynced(tags)
    ensures tags[0].synced
  {
  }

  lemma {:induction false} NoTags(tags: seq<BufferTag>)
    requires NoneSynced(tags) && AllSynced(tags)
    ensures tags == []
  {
    if tags != [] {
      FirstSynced(tags);
    }
  }

  /** The reader takes the reply apart as the controller put it together, and nothing is left. */
  lemma {:induction false} WalkReply<V>(
      tags: seq<BufferTag>, batches: seq<seq<Slot>>, id: nat, last: nat, memory: Memory, decode: Decoder<V>)
    requires Grouped(tags, batches, id) && AllSynced(tags) && last < id
    ensures Walk(tags, ReadMessage(memory, batches, id), last, decode) ==
      match Decoded(tags, memory, decode)
      case Err(e) => Err(e)
      case Ok(vs) => Ok((vs, []))
    decreases |batches|
  {
    hide IsBatch, Take, BatchValues, U16;
    if batches == [] {
      NoTags(tags);
    } else {
      var n := |batches[0]|;
      var rest := ReadMessage(memory, batches[1..], id + 1);
      WalkReply(tags[n..], batches[1..], id + 1, id, memory, decode);
      BatchFirst(tags, batches[0], id, last, memory, rest, decode);
      DecodedSplit(tags[..n], tags[n..], memory, decode);
      assert tags[..n] + tags[n..] == tags;
      Associate(U16(id), BatchValues(memory, batches[0]), rest);
    }
  }

  lemma {:induction false} BatchFirst<V>(
      tags: seq<BufferTag>, batch: seq<Slot>, id: nat, last: nat, memory: Memory, rest: seq<byte>, decode: Decoder<V>)
    requires 0 < |batch| <= |tags| && IsBatch(tags[..|batch|], batch, id) && last != id
    ensures Walk(tags, U16(id) + (BatchValues(memory, batch) + rest), last, decode) ==
      Both(Decoded(tags[..|batch|], memory, decode), Walk(tags[|batch|..], rest, id, decode))
  {
    hide Walk, Both, BatchValues, U16;
    WalkNewBatch(tags[..|batch|], batch, id, last, memory, tags[|batch|..], rest, decode);
    assert tags[..|batch|] + tags[|batch|..] == tags;
  }

  /// The result of a read

  lemma {:induction false} SortedAlready(tags: seq<BufferTag>)
    requires forall i, j :: 0 <= i < j < |tags| ==> tags[i].index < tags[j].index
    ensures SortByIndex(tags) == tags
  {
    if |tags| > 1 {
      SortedAlready(tags[1..]);
      assert tags[1..][0] == tags[1];
      assert tags == [tags[0]] + tags[1..];
    }
  }

  lemma {:induction false} InOrder(tags: seq<BufferTag>)
    requires Indexed(tags) && |tags| < 65536
    ensures SortByIndex(tags) == tags
  {
    forall i | 0 <= i < |tags| ensures tags[i].index == i + 1 {
    }
    hide SortByIndex, Sendable, Indexed;
    SortedAlready(tags);
  }

  lemma {:induction false} DecodedAt<V>(tags: seq<BufferTag>, memory: Memory, decode: Decoder<V>, i: nat)
    requires Decoded(tags, memory, decode).Ok? && i < |tags|
    ensures |Decoded(tags, memory, decode).value| == |tags|
    ensures decode(tags[i].cipType, SlotValue(memory, SlotOf(tags[i]))) == Ok(Decoded(tags, memory, decode).value[i])
    decreases |tags|
  {
    hide SlotValue;
    if i > 0 {
      DecodedAt(tags[1..], memory, decode, i - 1);
    } else if |tags| > 1 {
      DecodedAt(tags[1..], memory, decode, 0);
    }
  }

  predicate LastOfName(tags: seq<BufferTag>, i: nat)
    requires i < |tags|
  {
    forall j :: i < j < |tags| ==> tags[j].name != tags[i].name
  }

  /** The last tag of a name decides; no other name comes up. */
  lemma {:induction false} ByNameAt<V>(tags: seq<BufferTag>, values: seq<V>, i: nat)
    requires |values| == |tags| && i < |tags| && LastOfName(tags, i)
    ensures tags[i].name in ByName(tags, values) && ByName(tags, values)[tags[i].name] == values[i]
    decreases |tags|
  {
    var n := |tags| - 1;
    if i < n {
      assert tags[..n][i] == tags[i] && values[..n][i] == values[i];
      assert tags[n].name != tags[i].name;
      ByNameAt(tags[..n], values[..n], i);
    }
  }

  /** A tag's own bytes at the time of the read, decoded. */
  function ValueOf<V>(t: BufferTag, memory: Memory, decode: Decoder<V>): Result<V> {
    decode(t.cipType, SlotValue(memory, SlotOf(t)))
  }

  /**
   A read of a buffer that is in step succeeds exactly when every tag decodes, and then gives every
   tag, by its name, what its own slot held; of tags with one name the last one counts.
   */
  lemma {:induction false} ReadsEverySlot<V>(s: State, memory: Memory, decode: Decoder<V>)
    requires InStep(s) && s.synced && |s.tags| < 65536
    ensures var r := ReadResult(s.tags, ReadMessage(memory, s.batches, 1), decode);
      && (r.Ok? <==> forall i :: 0 <= i < |s.tags| ==> ValueOf(s.tags[i], memory, decode).Ok?)
      && (r.Ok? ==> forall i :: 0 <= i < |s.tags| && LastOfName(s.tags, i) ==>
        s.tags[i].name in r.value && Ok(r.value[s.tags[i].name]) == ValueOf(s.tags[i], memory, decode))
  {
    hide Grouped, ReadMessage, Walk, SlotValue, ByName, Indexed;
    InOrder(s.tags);
    WalkReply(s.tags, s.batches, 1, 0, memory, decode);
    var d := Decoded(s.tags, memory, decode);
    DecodedIff(s.tags, memory, decode);
    if d.Ok? {
      forall i | 0 <= i < |s.tags| && LastOfName(s.tags, i)
        ensures |d.value| == |s.tags|
        ensures s.tags[i].name in ByName(s.tags, d.value)
        ensures Ok(ByName(s.tags, d.value)[s.tags[i].name]) == ValueOf(s.tags[i], memory, decode)
      {
        DecodedAt(s.tags, memory, decode, i);
        ByNameAt(s.tags, d.value, i);
      }
    }
  }

  lemma {:induction false} DecodedIff<V>(tags: seq<BufferTag>, memory: Memory, decode: Decoder<V>)
    ensures Decoded(tags, memory, decode).Ok? <==> forall i :: 0 <= i < |tags| ==> ValueOf(tags[i], memory, decode).Ok?
    decreases |tags|
  {
    hide SlotValue;
    if tags != [] {
      DecodedIff(tags[1..], memory, decode);
      assert ValueOf(tags[0], memory, decode) == decode(tags[0].cipType, SlotValue(memory, SlotOf(tags[0])));
      assert forall i :: 0 < i < |tags| ==> tags[i] == tags[1..][i - 1];
      assert forall i :: 0 <= i < |tags| - 1 ==> tags[1..][i] == tags[i + 1];
    }
  }

  /// What a run has added

  /** A tag with a path, of a type whose size is known. */
  predicate CanAdd(name: text, t: byte, l: Lookup) {
    l.paths(name, t).Ok? && (t == CipTypes.STRING || t == CipTypes.STRUCT || CipTypes.Size(t) > 0)
  }

  /** The names and types that the adds of a run bring: of several at once all or none. */
  function Added(ops: seq<Op>, l: Lookup): seq<(text, byte)> {
    if ops == [] then []
    else
      (match ops[0]
       case AddOne(name, t) => if CanAdd(name, t, l) then [(name, t)] else []
       case AddMany(names) =>
         if forall i :: 0 <= i < |names| ==> CanAdd(names[i].0, names[i].1, l) then names else []
       case Sync(_) => []) + Added(ops[1..], l)
  }

  /** The tag of a name and type: its path, and the size of its template or of its type. */
  predicate IsFor(tag: BufferTag, name: text, t: byte, l: Lookup) {
    && tag.name == name && tag.cipType == t && l.paths(name, t) == Ok(tag.path)
    && tag.size == (if t != CipTypes.STRING && t != CipTypes.STRUCT then CipTypes.Size(t)
                    else if l.templateSize(Lower(name)) > 0 then l.templateSize(Lower(name)) % 65536
                    else 88)
  }

  predicate AreFor(tags: seq<BufferTag>, added: seq<(text, byte)>, l: Lookup) {
    |tags| == |added| && forall i :: 0 <= i < |tags| ==> IsFor(tags[i], added[i].0, added[i].1, l)
  }

  lemma {:induction false} NewTagIsFor(name: text, t: byte, position: nat, l: Lookup)
    ensures NewTag(name, t, position, l).Ok? <==> CanAdd(name, t, l)
    ensures CanAdd(name, t, l) ==> IsFor(NewTag(name, t, position, l).value, name, t, l)
  {
    hide Lower;
  }

  lemma {:induction false} NewTagsAreFor(names: seq<(text, byte)>, position: nat, l: Lookup)
    ensures NewTags(names, position, l).Ok? <==> forall i :: 0 <= i < |names| ==> CanAdd(names[i].0, names[i].1, l)
    ensures NewTags(names, position, l).Ok? ==> AreFor(NewTags(names, position, l).value, names, l)
    decreases |names|
  {
    hide NewTag, CanAdd, IsFor;
    if names != [] {
      NewTagIsFor(names[0].0, names[0].1, position + 1, l);
      NewTagsAreFor(names[1..], position + 1, l);
      assert forall i :: 0 < i < |names| ==> names[i] == names[1..][i - 1];
      assert forall i :: 0 <= i < |names| - 1 ==> names[1..][i] == names[i + 1];
    }
  }

  lemma {:induction false} MarkedAreFor(tags: seq<BufferTag>, id: nat, added: seq<(text, byte)>, l: Lookup)
    requires AreFor(tags, added, l)
    ensures AreFor(Mark(tags, id), added, l)
  {
    hide Lower;
  }

  lemma {:induction false} StepAdds(s: State, op: Op, l: Lookup, added: seq<(text, byte)>)
    requires AreFor(s.tags, added, l)
    ensures AreFor(Step(s, op, l).tags, added + Added([op], l), l)
  {
    hide NewTag, NewTags, Mark, Accepts, AddMessage, Unsynced, ParseAdd, CanAdd, IsFor;
    var none: seq<(text, byte)> := [];
    assert [op][1..] == [] && Added([], l) == none;
    match op
    case AddOne(name, t) =>
      NewTagIsFor(name, t, |s.tags| + 1, l);
      assert Added([op], l) == if CanAdd(name, t, l) then [(name, t)] else none;
    case AddMany(names) =>
      NewTagsAreFor(names, |s.tags|, l);
      assert names + none == names && none + none == none;
    case Sync(up) =>
      var message := AddMessage(Unsynced(s.tags));
      assert none + none == none && added + none == added;
      if Accepts(s.batches, message, up).Ok? {
        MarkedAreFor(s.tags, Accepts(s.batches, message, up).value, added, l);
      }
  }

  /** After any run the buffer holds a tag for everything that could be added, in order. */
  lemma {:induction false} RunHoldsAdded(ops: seq<Op>, l: Lookup)
    ensures AreFor(Run(EMPTY, ops, l).tags, Added(ops, l), l)
  {
    hide IsFor;
    RunAdds(EMPTY, ops, l, []);
    assert [] + Added(ops, l) == Added(ops, l);
  }

  lemma {:induction false} RunAdds(s: State, ops: seq<Op>, l: Lookup, added: seq<(text, byte)>)
    requires AreFor(s.tags, added, l)
    ensures AreFor(Run(s, ops, l).tags, added + Added(ops, l), l)
    decreases |ops|
  {
    hide Step, IsFor, CanAdd;
    if ops == [] {
      assert added + [] == added;
    } else {
      StepAdds(s, ops[0], l, added);
      AddedCons(ops, l);
      RunAdds(Step(s, ops[0], l), ops[1..], l, added + Added([ops[0]], l));
      Associate(added, Added([ops[0]], l), Added(ops[1..], l));
    }
  }

  lemma {:induction false} AddedCons(ops: seq<Op>, l: Lookup)
    requires ops != []
    ensures Added(ops, l) == Added([ops[0]], l) + Added(ops[1..], l)
  {
    hide CanAdd;
    var one := [ops[0]];
    assert one[1..] == [] && Added([], l) == [] && one[0] == ops[0];
    assert Added(one, l) + [] == Added(one, l);
  }

  const EMPTY := State([], false, [])

  /** After any run, a read gives every tag its own value. */
  lemma {:induction false} RunReadsEverySlot<V>(ops: seq<Op>, l: Lookup, memory: Memory, decode: Decoder<V>)
    requires ShortPaths(l)
    requires var s := Run(EMPTY, ops, l); s.synced && |s.tags| < 65536
    ensures var s := Run(EMPTY, ops, l);
      var r := ReadResult(s.tags, ReadMessage(memory, s.batches, 1), decode);
      && (r.Ok? <==> forall i :: 0 <= i < |s.tags| ==> ValueOf(s.tags[i], memory, decode).Ok?)
      && (r.Ok? ==> forall i :: 0 <= i < |s.tags| && LastOfName(s.tags, i) ==>
        s.tags[i].name in r.value && Ok(r.value[s.tags[i].name]) == ValueOf(s.tags[i], memory, decode))
  {
    hide Run, ReadResult, ReadMessage;
    RunStaysInStep(EMPTY, ops, l);
    ReadsEverySlot(Run(EMPTY, ops, l), memory, decode);
  }

  /** A raw read never fails, and gives the bytes of each tag's own slot. */
  lemma {:induction false} RunReadsRaw(ops: seq<Op>, l: Lookup, memory: Memory)
    requires ShortPaths(l)
    requires var s := Run(EMPTY, ops, l); s.synced && |s.tags| < 65536
    ensures var s := Run(EMPTY, ops, l);
      var r := ReadResult(s.tags, ReadMessage(memory, s.batches, 1), AsBytes);
      r.Ok? && forall i :: 0 <= i < |s.tags| && LastOfName(s.tags, i) ==>
        s.tags[i].name in r.value && r.value[s.tags[i].name] == SlotValue(memory, SlotOf(s.tags[i]))
  {
    hide Run, ReadResult, ReadMessage, SlotValue, LastOfName;
    var s := Run(EMPTY, ops, l);
    RunReadsEverySlot(ops, l, memory, AsBytes);
    assert forall i :: 0 <= i < |s.tags| ==>
      ValueOf(s.tags[i], memory, AsBytes) == Ok(SlotValue(memory, SlotOf(s.tags[i])));
  }

  /** Bytes of a type can be decoded if `readValue` knows the type, texts if there is room for their length. */
  predicate Readable(t: byte, size: nat) {
    if t == CipTypes.STRING || t == CipTypes.STRUCT then size >= 4
    else 0 < CipTypes.ValueWidth(t) <= size
  }

  lemma {:induction false} DecodeIffReadable(t: byte, raw: seq<byte>)
    ensures DataTable.Decode(t, raw).Ok? <==> Readable(t, |raw|)
  {
  }

  /** What a controller stores: a text of at most 82 characters behind its length, or a value's own bytes. */
  function Stored(v: DataTable.Value): seq<byte> {
    match v
    case Str(s) => U32(|s|) + s
    case Scalar(_, data) => data
  }

  /** A bool is stored as 0 or 1, other values as bytes of their width. */
  predicate IsStored(t: byte, v: DataTable.Value) {
    match v
    case Str(s) => (t == CipTypes.STRING || t == CipTypes.STRUCT) && |s| <= 82
    case Scalar(u, data) =>
      && u == t && t != CipTypes.STRING && |data| == CipTypes.ValueWidth(t) > 0
      && (t == CipTypes.BOOL ==> data[0] <= 1)
  }

  /** The value stored in a slot is the value read from it, whatever fills up the slot. */
  lemma {:induction false} DecodeStored(t: byte, v: DataTable.Value, fill: seq<byte>)
    requires IsStored(t, v)
    ensures DataTable.Decode(t, Stored(v) + fill) == Ok(v)
  {
    hide U32, FromU32;
    match v
    case Str(s) =>
      var raw := U32(|s|) + s + fill;
      U32Value(|s|);
      LengthAt(raw, |s|);
      assert raw[4..4 + |s|] == s;
    case Scalar(_, data) =>
      FullRead(data, fill);
      assert CipTypes.Meant(t, data) == data;
  }

  lemma {:induction false} LengthAt(raw: seq<byte>, n: nat)
    requires |raw| >= 4 && raw[..4] == U32(n)
    ensures FromU32(raw) == FromU32(U32(n))
  {
    assert forall k :: 0 <= k < 4 ==> raw[k] == raw[..4][k];
  }

  /** After any run, each tag whose slot holds a value is read as that value. */
  lemma {:induction false} RunReadsValues(ops: seq<Op>, l: Lookup, memory: Memory, values: seq<DataTable.Value>)
    requires ShortPaths(l)
    requires var s := Run(EMPTY, ops, l);
      && s.synced && |s.tags| < 65536 && |values| == |s.tags|
      && forall i :: 0 <= i < |s.tags| ==>
        IsStored(s.tags[i].cipType, values[i]) && Stored(values[i]) <= SlotValue(memory, SlotOf(s.tags[i]))
    ensures var s := Run(EMPTY, ops, l);
      var r := ReadResult(s.tags, ReadMessage(memory, s.batches, 1), DataTable.Decode);
      r.Ok? && forall i :: 0 <= i < |s.tags| && LastOfName(s.tags, i) ==>
        s.tags[i].name in r.value && r.value[s.tags[i].name] == values[i]
  {
    hide Run, ReadResult, ReadMessage, SlotValue, LastOfName, DataTable.Decode, IsStored, Stored;
    var s := Run(EMPTY, ops, l);
    RunReadsEverySlot(ops, l, memory, DataTable.Decode);
    forall i | 0 <= i < |s.tags| ensures ValueOf(s.tags[i], memory, DataTable.Decode) == Ok(values[i]) {
      var slot := SlotValue(memory, SlotOf(s.tags[i]));
      var fill := slot[|Stored(values[i])|..];
      assert slot == Stored(values[i]) + fill;
      DecodeStored(s.tags[i].cipType, values[i], fill);
    }
  }

  /** A text's length is cut to what the slot has room for, and to 82. */
  lemma {:induction false} DecodeCut(t: byte, n: nat, s: seq<byte>)
    requires (t == CipTypes.STRING || t == CipTypes.STRUCT) && n < 0x1_0000_0000
    ensures DataTable.Decode(t, U32(n) + s) == Ok(DataTable.Str(s[..Min(n, Min(|s|, 82))]))
  {
    hide U32, FromU32;
    var raw := U32(n) + s;
    U32Value(n);
    assert raw[..4] == U32(n);
    LengthAt(raw, n);
    var k := Min(n, Min(|s|, 82));
    assert raw[4..4 + k] == s[..k];
  }

  /** A bool is true exactly if its byte is not 0. */
  lemma {:induction false} DecodeBool(b: byte, fill: seq<byte>)
    ensures DataTable.Decode(CipTypes.BOOL, [b] + fill) ==
      Ok(DataTable.Scalar(CipTypes.BOOL, [if b != 0 then 1 else 0]))
  {
    FullRead([b], fill);
    assert CipTypes.Meant(CipTypes.BOOL, [b]) == [if b != 0 then 1 else 0];
  }

  /** Four types can be added but make every later `ReadAll` fail. */
  lemma {:induction false} AddedButNotReadable(name: text, t: byte, position: nat, l: Lookup)
    requires NewTag(name, t, position, l).Ok? && t != CipTypes.STRING && t != CipTypes.STRUCT
    ensures Readable(t, NewTag(name, t, position, l).value.size) <==>
      t !in {CipTypes.UTIME, CipTypes.ULINT, CipTypes.DATE, CipTypes.TIMEOFDAY}
  {
  }
}
