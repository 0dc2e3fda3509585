/** What the client makes of a multiple service reply of any controller, failing tags included. */
module MultiReplyLaws {
  import opened Wire
  import opened Streams
  import opened Items
  import opened MultiMessage
  import opened MultiServer
  import opened MultiReadLaws
  import R = MultiReply

  /** Two bytes about a type, announced by a byte that is not zero. */
  datatype TypeInfo = Plain | Info(announced: byte, first: byte, second: byte)

  /** The first four bytes of an entry but the status: the reply to a read, to a fragmented one or not. */
  datatype Header = Header(fragmented: bool, reserved: byte, extended: byte)

  /** What a controller says about one tag: its value, a piece of it, or a status that is an error. */
  datatype Entry =
    | Value(header: Header, cipType: byte, info: TypeInfo, data: seq<byte>)
    | Piece(header: Header, cipType: byte, info: TypeInfo, data: seq<byte>)
    | Refusal(header: Header, status: byte, rest: seq<byte>)

  /** Pieces answer fragmented reads only; in the reply to any other read the same status is an error. */
  predicate IsEntry(e: Entry) {
    match e
    case Value(_, _, info, _) => info.Info? ==> info.announced != 0
    case Piece(header, _, info, _) => header.fragmented && (info.Info? ==> info.announced != 0)
    case Refusal(header, status, _) => status != 0x00 && !(header.fragmented && status == 0x06)
  }

  function HeaderBytes(h: Header, status: byte): seq<byte> {
    [if h.fragmented then 0xD2 else 0xCC, h.reserved, status, h.extended]
  }

  function TypeBytes(cipType: byte, info: TypeInfo): seq<byte> {
    match info
    case Plain => [cipType, 0]
    case Info(k, a, b) => [cipType, k, a, b]
  }

  function EntryBytes(e: Entry): seq<byte> {
    match e
    case Value(h, t, info, data) => HeaderBytes(h, 0x00) + (TypeBytes(t, info) + data)
    case Piece(h, t, info, data) => HeaderBytes(h, 0x06) + (TypeBytes(t, info) + data)
    case Refusal(h, status, rest) => HeaderBytes(h, status) + rest
  }

  /** A value or a piece comes with its type and bytes, an error with its status alone. */
  function Reported(e: Entry): R.TagResult {
    match e
    case Value(_, t, _, data) => R.TagResult(0x00, t, data)
    case Piece(_, t, _, data) => R.TagResult(0x06, t, data)
    case Refusal(_, status, _) => R.TagResult(status, 0, [])
  }

  lemma {:induction false} PayloadRead(status: byte, t: byte, info: TypeInfo, data: seq<byte>)
    requires info.Info? ==> info.announced != 0
    ensures R.SplitPayload(status, TypeBytes(t, info) + data) == Ok(R.TagResult(status, t, data))
  {
    var b := TypeBytes(t, info) + data;
    assert b[..2] == [b[0], b[1]];
    assert info.Plain? ==> b[2..] == data;
    assert info.Info? ==> b[2..][2..] == data;
  }

  lemma {:induction false} EntryRead(e: Entry)
    requires IsEntry(e)
    ensures R.SplitEntry(EntryBytes(e)) == Ok(Reported(e))
  {
    hide R.SplitPayload, TypeBytes;
    var b := EntryBytes(e);
    if e.Refusal? {
      assert b[0] == HeaderBytes(e.header, e.status)[0] && b[2] == e.status;
    } else {
      var rest := TypeBytes(e.cipType, e.info) + e.data;
      assert b[4..] == rest;
      PayloadRead(b[2], e.cipType, e.info, e.data);
    }
  }

  lemma {:induction false} PayloadForm(status: byte, rest: seq<byte>) returns (t: byte, info: TypeInfo, data: seq<byte>)
    requires R.SplitPayload(status, rest).Ok?
    ensures rest == TypeBytes(t, info) + data && (info.Info? ==> info.announced != 0)
  {
    t := rest[0];
    if rest[1] == 0 {
      info, data := Plain, rest[2..];
    } else {
      info, data := Info(rest[1], rest[2], rest[3]), rest[4..];
    }
  }

  /** Nothing else is accepted: an entry that the client reads is one of these. */
  lemma {:induction false} ReadIsEntry(b: seq<byte>) returns (e: Entry)
    requires R.SplitEntry(b).Ok?
    ensures IsEntry(e) && b == EntryBytes(e) && R.SplitEntry(b) == Ok(Reported(e))
  {
    hide R.SplitPayload, TypeBytes;
    var h := Header(b[0] == 0xD2, b[1], b[3]);
    if b[2] == 0x00 || (h.fragmented && b[2] == 0x06) {
      var t, info, data := PayloadForm(b[2], b[4..]);
      e := if b[2] == 0x00 then Value(h, t, info, data) else Piece(h, t, info, data);
    } else {
      e := Refusal(h, b[2], b[4..]);
    }
    assert b == HeaderBytes(h, b[2]) + b[4..];
    EntryRead(e);
  }

  /// Whole replies

  function AllBytes(es: seq<Entry>): (bs: seq<seq<byte>>)
    ensures |bs| == |es| && forall i :: 0 <= i < |es| ==> bs[i] == EntryBytes(es[i])
  {
    seq(|es|, i requires 0 <= i < |es| => EntryBytes(es[i]))
  }

  lemma {:induction false} EachRead(es: seq<Entry>) returns (rs: seq<R.TagResult>)
    requires forall i :: 0 <= i < |es| ==> IsEntry(es[i])
    ensures SplitEach(AllBytes(es)) == Ok(rs)
    ensures |rs| == |es| && forall i :: 0 <= i < |es| ==> rs[i] == Reported(es[i])
    decreases |es|
  {
    hide R.SplitEntry, EntryBytes, Reported, IsEntry, SplitEach;
    if es == [] {
      NothingSplit();
      rs := [];
    } else {
      EntryRead(es[0]);
      var more := EachRead(es[1..]);
      assert AllBytes(es) == [EntryBytes(es[0])] + AllBytes(es[1..]);
      SplitOneMore(EntryBytes(es[0]), AllBytes(es[1..]));
      rs := [Reported(es[0])] + more;
    }
  }

  /**
   The client gets what the controller reports about each tag, good and failing ones mixed, at the
   tag's own index. The reply as a whole may say that some entry failed.
   */
  lemma {:induction false} ReplyReports(to: nat, sequence: nat, status: nat, es: seq<Entry>)
    returns (rs: seq<R.TagResult>)
    requires forall i :: 0 <= i < |es| ==> IsEntry(es[i])
    requires (status == 0x00 || status == 0x1E) && |ReplyWith(sequence, status, AllBytes(es))| < 65536
    ensures R.SplitReply(Framed(ConnectedItems(to, ReplyWith(sequence, status, AllBytes(es))))) == Ok(rs)
    ensures |rs| == |es| && forall i :: 0 <= i < |es| ==> rs[i] == Reported(es[i])
  {
    hide Framed, ConnectedItems, ReplyWith, R.SplitReply, SplitEach, IsEntry, Reported;
    rs := EachRead(es);
    ReplySplit(to, sequence, status, AllBytes(es));
  }
}
