/** Go's in-memory byte streams. */
module Streams {
  import opened Wire

  /** A bare `Read` of `k` padding bytes: it fails only on an empty stream and may fall short. */
  function ReadPad(r: seq<byte>, k: nat): Result<seq<byte>> {
    if k == 0 then Ok(r)
    else if r == [] then Err(EndOfData)
    else Ok(r[Min(k, |r|)..])
  }

  /** `binary.Read` of `k` bytes: all of them or an error. */
  function ReadFull(r: seq<byte>, k: nat): (res: Result<(seq<byte>, seq<byte>)>)
    ensures res.Ok? ==> |res.value.0| == k && r == res.value.0 + res.value.1
  {
    if k <= |r| then Ok((r[..k], r[k..]))
    else if r == [] then Err(EndOfData)
    else Err(ShortData)
  }

  lemma {:induction false} FullRead(b: seq<byte>, x: seq<byte>)
    ensures ReadFull(b + x, |b|) == Ok((b, x))
  {
    assert (b + x)[..|b|] == b && (b + x)[|b|..] == x;
  }

  /** A `bytes.Buffer`: writes go to the end, reads come from the front. */
  class Stream {
    var data: seq<byte>

    constructor (data: seq<byte>)
      ensures this.data == data
    {
      this.data := data;
    }

    method Write(p: seq<byte>)
      modifies this
      ensures data == old(data) + p
    {
      data := data + p;
    }

    /** A bare `Read` into a buffer of `k` bytes whose content is not looked at. */
    method Skip(k: nat) returns (ok: bool)
      modifies this
      ensures ok == ReadPad(old(data), k).Ok?
      ensures data == if ok then ReadPad(old(data), k).value else old(data)
    {
      if k == 0 {
        ok := true;
      } else if data == [] {
        ok := false;
      } else {
        data := data[Min(k, |data|)..];
        ok := true;
      }
    }

    /** `binary.Read` of `k` bytes. */
    method ReadAll(k: nat) returns (r: Result<seq<byte>>)
      modifies this
      ensures r == match ReadFull(old(data), k) case Ok(v) => Ok(v.0) case Err(e) => Err(e)
      ensures r.Ok? ==> data == ReadFull(old(data), k).value.1
    {
      if k <= |data| {
        r := Ok(data[..k]);
        data := data[k..];
      } else if data == [] {
        r := Err(EndOfData);
      } else {
        r := Err(ShortData);
        data := [];
      }
    }
  }
}
