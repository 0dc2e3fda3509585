/** Reading one value in several pieces: read.go and listmembers.go. */
module Fragments {
  import opened Wire
  import opened Sequences
  import opened MultiMessage
  import R = MultiReply

  const MAX_UINT32: nat := 0xFFFF_FFFF

  /** The offset of a `uint32` counter of the bytes so far. */
  function Offset(payload: seq<byte>): nat {
    |payload| % (MAX_UINT32 + 1)
  }

  lemma {:induction false} OffsetAdd(payload: seq<byte>, chunk: seq<byte>)
    ensures Offset(payload + chunk) == (Offset(payload) + |chunk|) % (MAX_UINT32 + 1)
  {
  }

  lemma {:induction false} EmptyOffset()
    ensures Offset([]) == 0
  {
  }

  /// `Read_single`

  /** What one exchange with the peer brings. */
  datatype Exchange =
    | Broken(error: Error)
    | Reply(status: byte, cipType: byte, chunk: seq<byte>)

  /** The peer answers the request of a round, made with a service and an offset. */
  type Peer = (nat, byte, nat) -> Exchange

  const LAST_ROUND: nat := 1024

  /** A type of zero leaves the type known so far. */
  function TypeAfter(known: byte, reported: byte): byte {
    if reported != 0 || known == 0 then reported else known
  }

  function SingleFrom(round: nat, service: byte, payload: seq<byte>, cipType: byte, peer: Peer)
    : Result<(byte, seq<byte>)>
    decreases LAST_ROUND + 1 - round
  {
    if round > LAST_ROUND then Err(TooManyRounds)
    else
      match peer(round, service, Offset(payload))
      case Broken(e) => Err(e)
      case Reply(status, t, chunk) =>
        if status != R.OK && status != R.PARTIAL_TRANSFER then Err(BadStatus)
        else if status == R.PARTIAL_TRANSFER then
          SingleFrom(round + 1, FRAG_READ, payload + chunk, TypeAfter(cipType, t), peer)
        else Ok((TypeAfter(cipType, t), payload + chunk))
  }

  method ReadSingle(service0: byte, datatype_: byte, peer: Peer) returns (r: Result<(byte, seq<byte>)>)
    ensures r == SingleFrom(0, service0, [], datatype_, peer)
  {
    hide Offset;
    EmptyOffset();
    var service, offset, respType := service0, 0, datatype_;
    var payload: seq<byte> := [];
    var rounds := 0;
    while true
      invariant 0 <= rounds <= LAST_ROUND + 1
      invariant offset == Offset(payload)
      invariant SingleFrom(0, service0, [], datatype_, peer) == SingleFrom(rounds, service, payload, respType, peer)
      decreases LAST_ROUND + 1 - rounds
    {
      if rounds > LAST_ROUND {
        return Err(TooManyRounds);
      }
      var x := peer(rounds, service, offset);
      if x.Broken? {
        return Err(x.error);
      }
      if x.status != R.OK && x.status != R.PARTIAL_TRANSFER {
        return Err(BadStatus);
      }
      if x.cipType != 0 || respType == 0 {
        respType := x.cipType;
      }
      assert x.chunk == [] ==> payload + x.chunk == payload;
      OffsetAdd(payload, x.chunk);
      if |x.chunk| > 0 {
        payload := payload + x.chunk;
        offset := (offset + |x.chunk|) % (MAX_UINT32 + 1);
      }
      if x.status != R.PARTIAL_TRANSFER {
        return Ok((respType, payload));
      }
      service := FRAG_READ;
      rounds := rounds + 1;
    }
  }

  /// `collectMemberReadPayload`

  datatype Fetched = FetchFailed(error: Error) | Fetched(status: byte, chunk: seq<byte>)

  /** The peer answers the request of a round for a length from an offset. */
  type Fetcher = (nat, nat, nat) -> Fetched

  const MEMBER_ROUNDS: nat := 1024
  const MAX_REQUEST: nat := 0xFFFF

  /** Unsigned 32-bit difference. */
  function Left(total: nat, offset: nat): nat
    requires total <= MAX_UINT32
  {
    (total - offset) % (MAX_UINT32 + 1)
  }

  /** The one 32-bit number that leads from the offset to the total, also if that is behind the offset. */
  lemma {:induction false} LeftMeaning(total: nat, offset: nat, x: nat)
    requires total <= MAX_UINT32 && offset <= MAX_UINT32
    ensures Left(total, offset) == x <==> x < 0x1_0000_0000 && (offset + x) % 0x1_0000_0000 == total
  {
  }

  function MembersFrom(round: nat, total: nat, payload: seq<byte>, fetch: Fetcher): Result<seq<byte>>
    requires total <= MAX_UINT32
    decreases MEMBER_ROUNDS - round
  {
    if round >= MEMBER_ROUNDS then Err(TooManyRounds)
    else
      var offset := Offset(payload);
      var left := Left(total, offset);
      if left == 0 then Ok(payload)
      else
        match fetch(round, offset, Min(left, MAX_REQUEST))
        case FetchFailed(e) => Err(e)
        case Fetched(status, chunk) =>
          if status != R.OK && status != R.PARTIAL_TRANSFER then Err(BadStatus)
          else if status == R.OK then Ok(payload + chunk)
          else if chunk == [] then Err(Malformed)
          else MembersFrom(round + 1, total, payload + chunk, fetch)
  }

  function Members(total: nat, fetch: Fetcher): Result<seq<byte>>
    requires total <= MAX_UINT32
  {
    if total == 0 then Ok([]) else MembersFrom(0, total, [], fetch)
  }

  method CollectMemberReadPayload(total: nat, fetch: Fetcher) returns (r: Result<seq<byte>>)
    requires total <= MAX_UINT32
    ensures r == Members(total, fetch)
  {
    if total == 0 {
      return Ok([]);
    }
    hide Offset, Left;
    var payload: seq<byte> := [];
    var offset := 0;
    EmptyOffset();
    for round := 0 to MEMBER_ROUNDS
      invariant offset == Offset(payload)
      invariant MembersFrom(0, total, [], fetch) == MembersFrom(round, total, payload, fetch)
    {
      var remaining := Left(total, offset);
      if remaining == 0 {
        return Ok(payload);
      }
      var requestLen := remaining;
      if remaining > 0xFFFF {
        requestLen := 0xFFFF;
      }
      var x := fetch(round, offset, requestLen);
      if x.FetchFailed? {
        return Err(x.error);
      }
      if x.status != R.OK && x.status != R.PARTIAL_TRANSFER {
        return Err(BadStatus);
      }
      assert x.chunk == [] ==> payload + x.chunk == payload;
      OffsetAdd(payload, x.chunk);
      if |x.chunk| > 0 {
        payload := payload + x.chunk;
        offset := (offset + |x.chunk|) % (MAX_UINT32 + 1);
      }
      if x.status != R.PARTIAL_TRANSFER {
        return Ok(payload);
      }
      if |x.chunk| == 0 {
        return Err(Malformed);
      }
    }
    return Err(TooManyRounds);
  }

  /// `readListFragAll`

  /** What is known of one tag. */
  datatype TagState = TagState(offset: nat, chunks: seq<byte>, cipType: byte, status: byte)

  const UNTOUCHED := TagState(0, [], 0, 0)

  /** One round: the tags still pending, and their offsets. */
  type RoundPeer = (nat, seq<nat>, seq<nat>) -> Result<seq<R.TagResult>>

  function Offsets(pending: seq<nat>, tags: seq<TagState>): (os: seq<nat>)
    requires forall i :: 0 <= i < |pending| ==> pending[i] < |tags|
    ensures |os| == |pending| && forall i :: 0 <= i < |os| ==> os[i] == tags[pending[i]].offset
  {
    seq(|pending|, i requires 0 <= i < |pending| => tags[pending[i]].offset)
  }

  /** Only a final reply is kept; its data moves the offset. */
  function Keep(t: TagState, r: R.TagResult): TagState {
    if r.status != R.OK then t.(status := r.status)
    else
      var offset := if r.data == [] then t.offset else (t.offset + |r.data|) % (MAX_UINT32 + 1);
      TagState(offset, t.chunks + r.data, if t.cipType == 0 then r.cipType else t.cipType, r.status)
  }

  /** The state after the results from `i` on, and the tags that stay pending. */
  function Absorb(pending: seq<nat>, tags: seq<TagState>, rs: seq<R.TagResult>, i: nat): (seq<TagState>, seq<nat>)
    requires i <= |rs| <= |pending| && forall j :: 0 <= j < |pending| ==> pending[j] < |tags|
    decreases |rs| - i
  {
    if i == |rs| then (tags, [])
    else
      var (tags1, more) := Absorb(pending, tags[pending[i] := Keep(tags[pending[i]], rs[i])], rs, i + 1);
      (tags1, (if rs[i].status == R.PARTIAL_TRANSFER then [pending[i]] else []) + more)
  }

  lemma {:induction false} AbsorbWithin(pending: seq<nat>, tags: seq<TagState>, rs: seq<R.TagResult>, i: nat)
    requires i <= |rs| <= |pending| && forall j :: 0 <= j < |pending| ==> pending[j] < |tags|
    ensures var (tags1, more) := Absorb(pending, tags, rs, i);
      |tags1| == |tags| && forall j :: 0 <= j < |more| ==> more[j] < |tags|
    decreases |rs| - i
  {
    hide Keep;
    if i < |rs| {
      AbsorbWithin(pending, tags[pending[i] := Keep(tags[pending[i]], rs[i])], rs, i + 1);
    }
  }

  predicate Pending(pending: seq<nat>, tags: seq<TagState>) {
    forall j :: 0 <= j < |pending| ==> pending[j] < |tags|
  }

  function FragFrom(round: nat, pending: seq<nat>, tags: seq<TagState>, peer: RoundPeer): Result<seq<TagState>>
    requires Pending(pending, tags)
    decreases LAST_ROUND + 1 - round
  {
    if pending == [] then Ok(tags)
    else if round > LAST_ROUND then Err(TooManyRounds)
    else
      var rs :- peer(round, pending, Offsets(pending, tags));
      if |rs| > |pending| then Err(Panic)
      else
        AbsorbWithin(pending, tags, rs, 0);
        var (tags1, next) := Absorb(pending, tags, rs, 0);
        FragFrom(round + 1, next, tags1, peer)
  }

  method ReadListFragAll(n: nat, peer: RoundPeer) returns (r: Result<seq<TagState>>)
    ensures r == FragFrom(0, UpTo(n), seq(n, _ => UNTOUCHED), peer)
  {
    hide Absorb, Offsets;
    var tags := seq(n, _ => UNTOUCHED);
    var pending: seq<nat> := UpTo(n);
    ghost var spec := FragFrom(0, pending, tags, peer);
    var rounds := 0;
    while |pending| > 0
      invariant Pending(pending, tags) && 0 <= rounds <= LAST_ROUND + 1
      invariant spec == FragFrom(rounds, pending, tags, peer)
      decreases LAST_ROUND + 1 - rounds
    {
      if rounds > LAST_ROUND {
        return Err(TooManyRounds);
      }
      var results := peer(rounds, pending, Offsets(pending, tags));
      if results.Err? {
        return Err(results.error);
      }
      if |results.value| > |pending| {
        return Err(Panic);
      }
      tags, pending := AbsorbRound(pending, tags, results.value);
      rounds := rounds + 1;
    }
    return Ok(tags);
  }

  method AbsorbRound(pending: seq<nat>, tags0: seq<TagState>, rs: seq<R.TagResult>)
    returns (tags: seq<TagState>, next: seq<nat>)
    requires Pending(pending, tags0) && |rs| <= |pending|
    ensures (tags, next) == Absorb(pending, tags0, rs, 0)
    ensures Pending(next, tags)
  {
    hide Keep, Absorb;
    tags, next := tags0, [];
    AbsorbStart(pending, tags0, rs);
    for i := 0 to |rs|
      invariant |tags| == |tags0| && Pending(next, tags)
      invariant Absorb(pending, tags0, rs, 0).0 == Absorb(pending, tags, rs, i).0
      invariant Absorb(pending, tags0, rs, 0).1 == next + Absorb(pending, tags, rs, i).1
    {
      AbsorbStep(pending, tags, rs, i, next);
      var kept := KeepResult(tags[pending[i]], rs[i]);
      tags := tags[pending[i] := kept];
      if rs[i].status == R.PARTIAL_TRANSFER {
        next := next + [pending[i]];
      }
    }
    AbsorbEnd(pending, tags, rs, next);
  }

  lemma {:induction false} AbsorbStart(pending: seq<nat>, tags: seq<TagState>, rs: seq<R.TagResult>)
    requires Pending(pending, tags) && |rs| <= |pending|
    ensures [] + Absorb(pending, tags, rs, 0).1 == Absorb(pending, tags, rs, 0).1
  {
    hide Absorb;
  }

  lemma {:induction false} AbsorbStep(
      pending: seq<nat>, tags: seq<TagState>, rs: seq<R.TagResult>, i: nat, next: seq<nat>)
    requires Pending(pending, tags) && i < |rs| <= |pending|
    ensures var tags1 := tags[pending[i] := Keep(tags[pending[i]], rs[i])];
      var next1 := if rs[i].status == R.PARTIAL_TRANSFER then next + [pending[i]] else next;
      && Absorb(pending, tags, rs, i).0 == Absorb(pending, tags1, rs, i + 1).0
      && next + Absorb(pending, tags, rs, i).1 == next1 + Absorb(pending, tags1, rs, i + 1).1
  {
    hide Keep;
  }

  lemma {:induction false} AbsorbEnd(pending: seq<nat>, tags: seq<TagState>, rs: seq<R.TagResult>, next: seq<nat>)
    requires Pending(pending, tags) && |rs| <= |pending|
    ensures Absorb(pending, tags, rs, |rs|).0 == tags && next + Absorb(pending, tags, rs, |rs|).1 == next
  {
  }

  method KeepResult(t: TagState, rr: R.TagResult) returns (r: TagState)
    ensures r == Keep(t, rr)
  {
    r := t.(status := rr.status);
    if rr.status == R.OK {
      if t.cipType == 0 {
        r := r.(cipType := rr.cipType);
      }
      assert rr.data == [] ==> t.chunks + rr.data == t.chunks;
      if |rr.data| > 0 {
        r := r.(chunks := t.chunks + rr.data, offset := (t.offset + |rr.data|) % (MAX_UINT32 + 1));
      }
    }
  }
}
