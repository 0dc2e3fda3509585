/** The client's side of a multiple service reply: read.go from line 1604 on. */
module MultiReply {
  import opened Wire
  import opened Sequences
  import opened Streams
  import opened Items
  import opened MultiMessage

  const OK: nat := 0x00
  const PARTIAL_TRANSFER: nat := 0x06
  const EMBEDDED_SERVICE_ERROR: nat := 0x1E

  /** `fragReadTagResult`; type and data are zero when the status is an error. */
  datatype TagResult = TagResult(status: byte, cipType: byte, data: seq<byte>)

  /** `CIPService.UnResponse` */
  function UnResponse(service: byte): byte {
    if service >= 128 then service - 128 else service
  }

  /** The type, possibly two bytes more about it, and the payload. */
  function SplitPayload(status: byte, rest: seq<byte>): Result<TagResult> {
    var (typ, r1) :- ReadFull(rest, 2);
    var (_, r2) :- if typ[1] != 0 then ReadFull(r1, 2) else Ok(([], r1));
    Ok(TagResult(status, typ[0], r2))
  }

  /** One entry of the reply. A fragmented read may also report a partial transfer. */
  function SplitEntry(entry: seq<byte>): Result<TagResult> {
    if |entry| < 4 then Err(ShortData)
    else if entry[0] < 128 then Err(Malformed)
    else if UnResponse(entry[0]) != FRAG_READ && UnResponse(entry[0]) != READ then Err(Malformed)
    else
      var status := entry[2];
      if status == OK || (UnResponse(entry[0]) == FRAG_READ && status == PARTIAL_TRANSFER)
      then SplitPayload(status, entry[4..])
      else Ok(TagResult(status, 0, []))
  }

  /** Entry `i` ends where the next one starts, the last one with the item; offsets start behind the header. */
  function EntryAt(item: seq<byte>, offsets: seq<nat>, i: nat): Result<seq<byte>>
    requires i < |offsets|
  {
    var start := offsets[i] + 10;
    var end := if i + 1 < |offsets| then offsets[i + 1] + 10 else |item|;
    if start > |item| || end < start || end > |item| then Err(Malformed) else Ok(item[start..end])
  }

  function SplitEntries(item: seq<byte>, offsets: seq<nat>, i: nat): Result<seq<TagResult>>
    requires i <= |offsets|
    decreases |offsets| - i
  {
    if i == |offsets| then Ok([])
    else
      var entry :- EntryAt(item, offsets, i);
      var one :- SplitEntry(entry);
      var more :- SplitEntries(item, offsets, i + 1);
      Ok([one] + more)
  }

  function Words(b: seq<byte>): (ns: seq<nat>)
    ensures |ns| == |b| / 2
    ensures forall i :: 0 <= i < |ns| ==> ns[i] == FromU16(b[2 * i..2 * i + 2])
  {
    seq(|b| / 2, i requires 0 <= i < |b| / 2 => FromU16(b[2 * i..2 * i + 2]))
  }

  /** The offset table of the reply item. */
  function ReplyOffsets(data: seq<byte>): Result<seq<nat>> {
    var _ :- TypedAt(data, 0, 2);
    var _ :- TypedAt(data, 2, 1);
    var _ :- TypedAt(data, 3, 1);
    var status :- TypedAt(data, 4, 2);
    if FromU16(status) != OK && FromU16(status) != EMBEDDED_SERVICE_ERROR then Err(BadStatus)
    else
      var n :- TypedAt(data, 6, 2);
      var table :- TakeAt(data, 8, 2 * FromU16(n));
      Ok(Words(table))
  }

  function SplitItem(v: ItemValue): Result<seq<TagResult>> {
    var offsets :- ReplyOffsets(v.data);
    SplitEntries(ItemBytes(v), offsets, 0)
  }

  /** A short header of the data is only logged; what is then left is read as items. */
  function SplitReply(b: seq<byte>): Result<seq<TagResult>> {
    var r := if |b| >= 6 then b[6..] else [];
    var (items, _) :- ParseItems(r);
    if |items| != 2 then Err(Malformed) else SplitItem(items[1])
  }

  /// The same, step by step

  /** The reply half of `readListFragRound`. */
  method ReadReply(data: Stream) returns (r: Result<seq<TagResult>>)
    modifies data
    ensures r == SplitReply(old(data.data))
  {
    hide ParseItems, SplitItem;
    var header := data.ReadAll(6);
    if header.Err? {
      data.data := [];
    }
    var items := ReadItems(data);
    if items.Err? {
      return Err(items.error);
    }
    if |items.value| != 2 {
      return Err(Malformed);
    }
    r := ReadReplyItem(items.value[1]);
  }

  method ReadReplyItem(rItem: Item) returns (r: Result<seq<TagResult>>)
    requires rItem.pos == 0
    modifies rItem`pos
    ensures r == SplitItem(rItem.Value())
  {
    hide ReplyOffsets, ItemBytes, EntryAt, SplitEntry;
    var offsets := ReadOffsetTable(rItem);
    if offsets.Err? {
      return Err(offsets.error);
    }
    var rb := rItem.Bytes();
    var results: seq<TagResult> := [];
    ghost var spec := SplitEntries(rb, offsets.value, 0);
    NothingAhead(spec);
    for i := 0 to |offsets.value|
      invariant spec == Ahead(results, SplitEntries(rb, offsets.value, i))
    {
      var entry := EntryAt(rb, offsets.value, i);
      if entry.Err? {
        return Err(entry.error);
      }
      var one := ReadEntry(entry.value);
      if one.Err? {
        return Err(one.error);
      }
      AheadTwice(results, [one.value], SplitEntries(rb, offsets.value, i + 1));
      results := results + [one.value];
    }
    assert results + [] == results;
    return Ok(results);
  }

  method ReadOffsetTable(rItem: Item) returns (r: Result<seq<nat>>)
    requires rItem.pos == 0
    modifies rItem`pos
    ensures r == ReplyOffsets(rItem.data)
  {
    hide FromU16, Words;
    var sequence := rItem.Uint16();
    if sequence.Err? {
      return Err(sequence.error);
    }
    var service := rItem.Byte();
    if service.Err? {
      return Err(service.error);
    }
    var reserved := rItem.Byte();
    if reserved.Err? {
      return Err(reserved.error);
    }
    var status := rItem.Uint16();
    if status.Err? {
      return Err(status.error);
    }
    if status.value != OK && status.value != EMBEDDED_SERVICE_ERROR {
      return Err(BadStatus);
    }
    var count := rItem.Uint16();
    if count.Err? {
      return Err(count.error);
    }
    var table := rItem.DeSerialize(2 * count.value);
    if table.Err? {
      return Err(table.error);
    }
    return Ok(Words(table.value));
  }

  method ReadEntry(entry: seq<byte>) returns (r: Result<TagResult>)
    ensures r == SplitEntry(entry)
  {
    if |entry| < 4 {
      return Err(ShortData);
    }
    var entryBuf := new Stream(entry);
    var header := entryBuf.ReadAll(4);
    assert header.value == entry[..4];
    var service, status := header.value[0], header.value[2];
    if service < 128 {
      return Err(Malformed);
    }
    service := UnResponse(service);
    if service != FRAG_READ && service != READ {
      return Err(Malformed);
    }
    if service == FRAG_READ {
      if status != OK && status != PARTIAL_TRANSFER {
        return Ok(TagResult(status, 0, []));
      }
    } else if status != OK {
      return Ok(TagResult(status, 0, []));
    }
    var typ := entryBuf.ReadAll(2);
    if typ.Err? {
      return Err(typ.error);
    }
    if typ.value[1] != 0 {
      var typeInfo := entryBuf.ReadAll(2);
      if typeInfo.Err? {
        return Err(typeInfo.error);
      }
    }
    return Ok(TagResult(status, typ.value[0], entryBuf.data));
  }
}
