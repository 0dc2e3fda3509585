/** What the client makes of a tag's status, type and bytes: `decodeReadTagValue` of read.go. */
module ReadValue {
  import opened Wire
  import opened Sequences
  import opened Streams
  import opened TagPath
  import opened Text
  import BoolAccess
  import MultiServer
  import F = Fragments
  import CipTypes

  /** The Go value, or the error that stands in its place; a bool in bytes is 0 or 1. */
  datatype Decoded =
    | Refused(status: byte)
    | Broken(error: Error)
    | OneBit(b: bool)
    | Characters(s: text)
    | RawBytes(data: seq<byte>)
    | One(cipType: byte, data: seq<byte>)
    | Many(cipType: byte, count: nat, data: seq<byte>)

  /** The string branch: the length, then as many characters. */
  function StringOf(payload: seq<byte>): Result<text> {
    var (len, r) :- ReadFull(payload, 4);
    var (s, _) :- ReadFull(r, FromU32(len));
    Ok(s)
  }

  /** The value of a tag that was asked for with a type and a count, by its path's bit access. */
  function DecodeTag(cipType: byte, elements: nat, ioi: Ioi, v: F.TagState): Decoded {
    if v.status != 0 then Refused(v.status)
    else if elements == 1 && cipType == CipTypes.BOOL && v.cipType != CipTypes.BOOL && ioi.bitAccess then
      match BoolAccess.DecodeBool(v.cipType, v.chunks, ioi.bitPosition)
      case Ok(b) => OneBit(b)
      case Err(e) => Broken(e)
    else if elements == 1 && cipType == CipTypes.STRING then
      match StringOf(v.chunks)
      case Ok(s) => Characters(s)
      case Err(e) => Broken(e)
    else if v.cipType == CipTypes.STRUCT then RawBytes(v.chunks)
    else
      match MultiServer.ReadValues(v.cipType, elements, v.chunks)
      case Ok(data) => if elements == 1 then One(v.cipType, data) else Many(v.cipType, elements, data)
      case Err(e) => Broken(e)
  }

  /// The same, step by step

  method ReadCount(bytes: Stream, cipType: byte, count: nat) returns (r: Result<seq<byte>>)
    modifies bytes
    ensures r == MultiServer.ReadValues(cipType, count, old(bytes.data))
  {
    hide ReadFull;
    var values: seq<byte> := [];
    ghost var spec := MultiServer.ReadValues(cipType, count, bytes.data);
    NothingAhead(spec);
    for i := 0 to count
      invariant spec == Ahead(values, MultiServer.ReadValues(cipType, count - i, bytes.data))
    {
      if CipTypes.ValueWidth(cipType) == 0 {
        return Err(Malformed);
      }
      ghost var rest := bytes.data;
      var v := bytes.ReadAll(CipTypes.ValueWidth(cipType));
      if v.Err? {
        return Err(v.error);
      }
      var meant := CipTypes.Meant(cipType, v.value);
      AheadTwice(values, meant, MultiServer.ReadValues(cipType, count - i - 1, bytes.data));
      values := values + meant;
    }
    assert values + [] == values;
    return Ok(values);
  }

  method DecodeReadTagValue(cipType: byte, elements: nat, ioi: Ioi, v: F.TagState) returns (d: Decoded)
    ensures d == DecodeTag(cipType, elements, ioi, v)
  {
    hide MultiServer.ReadValues, BoolAccess.DecodeBool, FromU32;
    if v.status != 0 {
      return Refused(v.status);
    }
    var bytes := new Stream(v.chunks);
    if elements == 1 {
      if cipType == CipTypes.BOOL && v.cipType != CipTypes.BOOL && ioi.bitAccess {
        var b := BoolAccess.DecodeBool(v.cipType, v.chunks, ioi.bitPosition);
        return if b.Ok? then OneBit(b.value) else Broken(b.error);
      }
      if cipType == CipTypes.STRING {
        var len := bytes.ReadAll(4);
        if len.Err? {
          return Broken(len.error);
        }
        var s := bytes.ReadAll(FromU32(len.value));
        return if s.Ok? then Characters(s.value) else Broken(s.error);
      }
    }
    if v.cipType == CipTypes.STRUCT {
      return RawBytes(v.chunks);
    }
    var data := ReadCount(bytes, v.cipType, elements);
    if data.Err? {
      return Broken(data.error);
    }
    return if elements == 1 then One(v.cipType, data.value) else Many(v.cipType, elements, data.value);
  }
}
