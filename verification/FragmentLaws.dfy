/** When a value read in pieces is whole. */
module FragmentLaws {
  import opened Wire
  import opened Sequences
  import opened MultiMessage
  import opened Fragments
  import R = MultiReply

  /// `Read_single`

  /** The next bytes in order, and a partial transfer exactly while bytes remain. */
  predicate NextChunk(status: byte, chunk: seq<byte>, data: seq<byte>, offset: nat, end: nat) {
    && offset + |chunk| <= end <= |data|
    && chunk == data[offset..offset + |chunk|]
    && (chunk == [] ==> offset == end)
    && status == (if offset + |chunk| < end then R.PARTIAL_TRANSFER else R.OK)
  }

  ghost predicate Honest(peer: Peer, data: seq<byte>) {
    forall round: nat, service: byte, offset: nat :: offset <= |data| ==>
      var x := peer(round, service, offset);
      x.Reply? && NextChunk(x.status, x.chunk, data, offset, |data|)
  }

  /** How many chunks an honest peer cuts the rest of the data into. */
  ghost function Chunks(peer: Peer, data: seq<byte>, round: nat, service: byte, offset: nat): (n: nat)
    requires Honest(peer, data) && offset <= |data|
    ensures n > 0
    decreases |data| - offset
  {
    var x := peer(round, service, offset);
    if offset + |x.chunk| == |data| then 1 else 1 + Chunks(peer, data, round + 1, FRAG_READ, offset + |x.chunk|)
  }

  lemma {:induction false} SingleStops(round: nat, service: byte, payload: seq<byte>, cipType: byte, peer: Peer)
    requires round > LAST_ROUND
    ensures SingleFrom(round, service, payload, cipType, peer) == Err(TooManyRounds)
  {
  }

  lemma {:induction false} SomeChunks(peer: Peer, data: seq<byte>, round: nat, service: byte, offset: nat)
    requires Honest(peer, data) && offset <= |data|
    ensures Chunks(peer, data, round, service, offset) > 0
  {
  }

  /** One round against an honest peer: a non-empty chunk more, and the end exactly at the end of the data. */
  lemma {:induction false} SingleStep(
      round: nat, service: byte, offset: nat, cipType: byte, peer: Peer, data: seq<byte>)
    requires Honest(peer, data) && offset <= |data| <= MAX_UINT32 && round <= LAST_ROUND
    ensures var x := peer(round, service, offset);
      && x.Reply? && offset + |x.chunk| <= |data|
      && SingleFrom(round, service, data[..offset], cipType, peer) ==
        (if offset + |x.chunk| == |data| then Ok((TypeAfter(cipType, x.cipType), data))
         else SingleFrom(round + 1, FRAG_READ, data[..offset + |x.chunk|], TypeAfter(cipType, x.cipType), peer))
      && Chunks(peer, data, round, service, offset) ==
        (if offset + |x.chunk| == |data| then 1
         else 1 + Chunks(peer, data, round + 1, FRAG_READ, offset + |x.chunk|))
      && (offset + |x.chunk| < |data| ==> |x.chunk| > 0)
  {
    assert Offset(data[..offset]) == offset;
    var x := peer(round, service, offset);
    assert data[..offset] + x.chunk == data[..offset + |x.chunk|];
    assert data[..|data|] == data;
  }

  lemma {:induction false} SingleFromOffset(
      round: nat, service: byte, offset: nat, cipType: byte, peer: Peer, data: seq<byte>)
    requires Honest(peer, data) && offset <= |data| <= MAX_UINT32
    ensures var r := SingleFrom(round, service, data[..offset], cipType, peer);
      if round + Chunks(peer, data, round, service, offset) <= LAST_ROUND + 1
      then r.Ok? && r.value.1 == data
      else r == Err(TooManyRounds)
    decreases |data| - offset
  {
    hide Honest, Chunks, SingleFrom;
    if round > LAST_ROUND {
      SingleStops(round, service, data[..offset], cipType, peer);
      SomeChunks(peer, data, round, service, offset);
    } else {
      SingleStep(round, service, offset, cipType, peer, data);
      var x := peer(round, service, offset);
      if offset + |x.chunk| < |data| {
        SingleFromOffset(round + 1, FRAG_READ, offset + |x.chunk|, TypeAfter(cipType, x.cipType), peer, data);
      }
    }
  }

  /** Against an honest peer a read succeeds exactly when the chunks fit the round budget, and is then whole. */
  lemma {:induction false} SingleReassembles(service: byte, cipType: byte, peer: Peer, data: seq<byte>)
    requires Honest(peer, data) && |data| <= MAX_UINT32
    ensures var r := SingleFrom(0, service, [], cipType, peer);
      if Chunks(peer, data, 0, service, 0) <= LAST_ROUND + 1 then r.Ok? && r.value.1 == data
      else r == Err(TooManyRounds)
  {
    assert data[..0] == [];
    SingleFromOffset(0, service, 0, cipType, peer, data);
  }

  /// `collectMemberReadPayload`

  /** A server that reports a partial transfer while the template has more bytes. */
  ghost predicate ServesTemplate(fetch: Fetcher, data: seq<byte>) {
    forall round: nat, offset: nat, length: nat :: 0 < length <= |data| - offset ==>
      var x := fetch(round, offset, length);
      x.Fetched? && |x.chunk| <= length && NextChunk(x.status, x.chunk, data, offset, |data|)
  }

  /** A server that reports a partial transfer while the request has more bytes. */
  ghost predicate ServesRequests(fetch: Fetcher, data: seq<byte>) {
    forall round: nat, offset: nat, length: nat :: 0 < length <= |data| - offset ==>
      var x := fetch(round, offset, length);
      x.Fetched? && NextChunk(x.status, x.chunk, data, offset, offset + length)
  }

  /** What the loop asks for at an offset. */
  function Length(total: nat, offset: nat): nat
    requires offset <= total
  {
    Min(total - offset, MAX_REQUEST)
  }

  /** Every request the loop makes is answered in order, partially while the template has more bytes. */
  ghost predicate Delivers(fetch: Fetcher, data: seq<byte>) {
    forall round: nat, offset: nat :: offset < |data| ==>
      var x := fetch(round, offset, Length(|data|, offset));
      x.Fetched? && NextChunk(x.status, x.chunk, data, offset, |data|)
  }

  ghost function MemberChunks(fetch: Fetcher, data: seq<byte>, round: nat, offset: nat): nat
    requires Delivers(fetch, data) && offset <= |data|
    decreases |data| - offset
  {
    if offset == |data| then 0
    else 1 + MemberChunks(fetch, data, round + 1, offset + |fetch(round, offset, Length(|data|, offset)).chunk|)
  }

  lemma {:induction false} OffsetOfPrefix(data: seq<byte>, offset: nat)
    requires offset <= |data| <= MAX_UINT32
    ensures Offset(data[..offset]) == offset && Left(|data|, offset) == |data| - offset
  {
  }

  lemma {:induction false} PrefixAndChunk(data: seq<byte>, offset: nat, chunk: seq<byte>)
    requires offset + |chunk| <= |data| && chunk == data[offset..offset + |chunk|]
    ensures data[..offset] + chunk == data[..offset + |chunk|]
    ensures offset + |chunk| == |data| ==> data[..offset] + chunk == data
  {
  }

  lemma {:induction false} MembersFromOffset(round: nat, offset: nat, fetch: Fetcher, data: seq<byte>)
    requires Delivers(fetch, data) && offset < |data| <= MAX_UINT32
    ensures var r := MembersFrom(round, |data|, data[..offset], fetch);
      r == if round + MemberChunks(fetch, data, round, offset) <= MEMBER_ROUNDS then Ok(data) else Err(TooManyRounds)
    decreases |data| - offset
  {
    hide Offset, Left;
    OffsetOfPrefix(data, offset);
    if round < MEMBER_ROUNDS {
      var x := fetch(round, offset, Length(|data|, offset));
      PrefixAndChunk(data, offset, x.chunk);
      if offset + |x.chunk| < |data| {
        MembersFromOffset(round + 1, offset + |x.chunk|, fetch, data);
      }
    }
  }

  lemma {:induction false} MembersDelivered(fetch: Fetcher, data: seq<byte>)
    requires Delivers(fetch, data) && |data| <= MAX_UINT32
    ensures Members(|data|, fetch) ==
      if MemberChunks(fetch, data, 0, 0) <= MEMBER_ROUNDS then Ok(data) else Err(TooManyRounds)
  {
    if data != [] {
      assert data[..0] == [];
      MembersFromOffset(0, 0, fetch, data);
    }
  }

  /** Against the first kind of server every template is read whole, if the rounds suffice. */
  lemma {:induction false} MembersReassemble(fetch: Fetcher, data: seq<byte>)
    requires ServesTemplate(fetch, data) && |data| <= MAX_UINT32
    ensures Delivers(fetch, data)
    ensures Members(|data|, fetch) ==
      if MemberChunks(fetch, data, 0, 0) <= MEMBER_ROUNDS then Ok(data) else Err(TooManyRounds)
  {
    MembersDelivered(fetch, data);
  }

  /** A template that one request covers. */
  lemma {:induction false} ShortDelivers(fetch: Fetcher, data: seq<byte>)
    requires ServesRequests(fetch, data) && |data| <= MAX_REQUEST
    ensures Delivers(fetch, data)
  {
    hide NextChunk;
    forall round: nat, offset: nat | offset < |data|
      ensures var x := fetch(round, offset, Length(|data|, offset));
        x.Fetched? && NextChunk(x.status, x.chunk, data, offset, |data|)
    {
      assert Length(|data|, offset) == |data| - offset;
    }
  }

  /** Against the second kind, one request must cover the template. */
  lemma {:induction false} ShortMembersReassemble(fetch: Fetcher, data: seq<byte>)
    requires ServesRequests(fetch, data) && |data| <= MAX_REQUEST
    ensures Delivers(fetch, data)
    ensures Members(|data|, fetch) ==
      if MemberChunks(fetch, data, 0, 0) <= MEMBER_ROUNDS then Ok(data) else Err(TooManyRounds)
  {
    hide ServesRequests, Delivers, MemberChunks, Members;
    ShortDelivers(fetch, data);
    MembersDelivered(fetch, data);
  }

  /** A completed request ends the loop, however much of the template is left. */
  lemma {:induction false} LongMembersTruncated(fetch: Fetcher, data: seq<byte>)
    requires ServesRequests(fetch, data) && MAX_REQUEST < |data| <= MAX_UINT32
    requires fetch(0, 0, MAX_REQUEST).Fetched? && fetch(0, 0, MAX_REQUEST).status == R.OK
    ensures Members(|data|, fetch) == Ok(data[..MAX_REQUEST])
  {
    OffsetOfPrefix(data, 0);
    assert data[..0] == [];
    var x := fetch(0, 0, MAX_REQUEST);
    assert NextChunk(x.status, x.chunk, data, 0, MAX_REQUEST);
    assert [] + x.chunk == data[..MAX_REQUEST];
  }

  function CompleteAtOnce(round: nat, offset: nat, length: nat): Fetched {
    Fetched.Fetched(R.OK, Zeros(length))
  }

  /** No server of the second kind makes the loop return a wrong template: true of short templates only. */
  ghost predicate NeverWrong(total: nat)
    requires total <= MAX_UINT32
  {
    forall data: seq<byte>, fetch: Fetcher :: |data| == total && ServesRequests(fetch, data) ==>
      Members(total, fetch).Ok? ==> Members(total, fetch).value == data
  }

  lemma {:induction false} RightForShortOnly(total: nat)
    requires total <= MAX_UINT32
    ensures NeverWrong(total) <==> total <= MAX_REQUEST
  {
    if total <= MAX_REQUEST {
      forall data: seq<byte>, fetch: Fetcher | |data| == total && ServesRequests(fetch, data)
        ensures Members(total, fetch).Ok? ==> Members(total, fetch).value == data
      {
        ShortMembersReassemble(fetch, data);
      }
    } else {
      var data := Zeros(total);
      CompleteServes(data);
      LongMembersTruncated(CompleteAtOnce, data);
    }
  }

  lemma {:induction false} CompleteServes(data: seq<byte>)
    requires data == Zeros(|data|)
    ensures ServesRequests(CompleteAtOnce, data)
  {
    forall round: nat, offset: nat, length: nat | 0 < length <= |data| - offset
      ensures var x := CompleteAtOnce(round, offset, length);
        x.Fetched? && NextChunk(x.status, x.chunk, data, offset, offset + length)
    {
      assert Zeros(length) == data[offset..offset + length];
    }
  }

  /// `readListFragAll`

  lemma {:induction false} AbsorbAt(pending: seq<nat>, tags: seq<TagState>, rs: seq<R.TagResult>, i: nat)
    requires i <= |rs| <= |pending| && Pending(pending, tags) && Increasing(pending)
    ensures var (tags1, next) := Absorb(pending, tags, rs, i);
      && |tags1| == |tags|
      && (forall j :: i <= j < |rs| ==> tags1[pending[j]] == Keep(tags[pending[j]], rs[j]))
      && (forall k :: 0 <= k < |tags| && (forall j :: i <= j < |rs| ==> pending[j] != k) ==> tags1[k] == tags[k])
    decreases |rs| - i
  {
    hide Keep;
    if i < |rs| {
      var tags0 := tags[pending[i] := Keep(tags[pending[i]], rs[i])];
      AbsorbAt(pending, tags0, rs, i + 1);
      assert forall j :: i < j < |rs| ==> pending[j] != pending[i];
      var tags1 := Absorb(pending, tags, rs, i).0;
      assert tags1[pending[i]] == tags0[pending[i]];
      forall k | 0 <= k < |tags| && (forall j :: i <= j < |rs| ==> pending[j] != k) ensures tags1[k] == tags[k] {
        assert pending[i] != k;
      }
    }
  }

  predicate Partial(pending: seq<nat>, rs: seq<R.TagResult>, i: nat, x: nat)
    requires |rs| <= |pending|
  {
    exists j :: i <= j < |rs| && pending[j] == x && rs[j].status == R.PARTIAL_TRANSFER
  }

  /** The tags that stay pending are those whose reply was partial. */
  lemma {:induction false} AbsorbNext(pending: seq<nat>, tags: seq<TagState>, rs: seq<R.TagResult>, i: nat)
    requires i <= |rs| <= |pending| && Pending(pending, tags)
    ensures forall x: nat :: x in Absorb(pending, tags, rs, i).1 <==> Partial(pending, rs, i, x)
    decreases |rs| - i
  {
    hide Keep;
    if i < |rs| {
      AbsorbNext(pending, tags[pending[i] := Keep(tags[pending[i]], rs[i])], rs, i + 1);
      forall x: nat
        ensures Partial(pending, rs, i, x) <==>
          (rs[i].status == R.PARTIAL_TRANSFER && x == pending[i]) || Partial(pending, rs, i + 1, x)
      {
      }
    }
  }

  lemma {:induction false} AbsorbOrder(pending: seq<nat>, tags: seq<TagState>, rs: seq<R.TagResult>, i: nat)
    requires i <= |rs| <= |pending| && Pending(pending, tags) && Increasing(pending)
    ensures Increasing(Absorb(pending, tags, rs, i).1)
    decreases |rs| - i
  {
    hide Keep;
    if i < |rs| {
      var tags0 := tags[pending[i] := Keep(tags[pending[i]], rs[i])];
      AbsorbOrder(pending, tags0, rs, i + 1);
      AbsorbNext(pending, tags0, rs, i + 1);
      var more := Absorb(pending, tags0, rs, i + 1).1;
      forall k | 0 <= k < |more| ensures more[k] > pending[i] {
        assert more[k] in more;
      }
    }
  }

  /** No tag that is still pending has got anywhere. */
  predicate AtZero(pending: seq<nat>, tags: seq<TagState>) {
    Pending(pending, tags) && Increasing(pending) && forall j :: 0 <= j < |pending| ==> tags[pending[j]].offset == 0
  }

  lemma {:induction false} StaysAtZero(pending: seq<nat>, tags: seq<TagState>, rs: seq<R.TagResult>)
    requires |rs| <= |pending| && AtZero(pending, tags)
    ensures var (tags1, next) := Absorb(pending, tags, rs, 0); AtZero(next, tags1)
  {
    AbsorbWithin(pending, tags, rs, 0);
    AbsorbAt(pending, tags, rs, 0);
    AbsorbNext(pending, tags, rs, 0);
    AbsorbOrder(pending, tags, rs, 0);
    var (tags1, next) := Absorb(pending, tags, rs, 0);
    forall k | 0 <= k < |next| ensures tags1[next[k]].offset == 0 {
      assert next[k] in next;
      var j :| 0 <= j < |rs| && pending[j] == next[k] && rs[j].status == R.PARTIAL_TRANSFER;
      assert tags1[pending[j]] == Keep(tags[pending[j]], rs[j]);
    }
  }

  function NoOffsets(n: nat): seq<nat> {
    seq(n, _ => 0)
  }

  /** The same peer, told that every tag is read from its start. */
  function FromStart(peer: RoundPeer): RoundPeer {
    (round: nat, pending: seq<nat>, offsets: seq<nat>) => peer(round, pending, NoOffsets(|pending|))
  }

  /** A continued read never moves on: every request of every round reads from offset 0. */
  lemma {:induction false} NeverMovesOn(round: nat, pending: seq<nat>, tags: seq<TagState>, peer: RoundPeer)
    requires AtZero(pending, tags)
    ensures FragFrom(round, pending, tags, peer) == FragFrom(round, pending, tags, FromStart(peer))
    decreases LAST_ROUND + 1 - round
  {
    hide Absorb;
    if pending != [] && round <= LAST_ROUND {
      assert Offsets(pending, tags) == NoOffsets(|pending|);
      var rs := peer(round, pending, Offsets(pending, tags));
      if rs.Ok? && |rs.value| <= |pending| {
        AbsorbWithin(pending, tags, rs.value, 0);
        StaysAtZero(pending, tags, rs.value);
        NeverMovesOn(round + 1, Absorb(pending, tags, rs.value, 0).1, Absorb(pending, tags, rs.value, 0).0, peer);
      }
    }
  }

  /** What a server replies to a read of a tag from an offset, round by round. */
  type Server = (nat, nat, nat) -> R.TagResult

  function RoundOf(server: Server): RoundPeer {
    (round: nat, pending: seq<nat>, offsets: seq<nat>) =>
      if |offsets| != |pending| then Err(Malformed)
      else
        Ok(seq(|pending|, i requires 0 <= i < |pending| && |offsets| == |pending| =>
          server(round, pending[i], offsets[i])))
  }

  /** The first round, from `round` on, in which the reply about a tag is not a partial transfer. */
  function FirstFinal(server: Server, tag: nat, round: nat): (r: Maybe<nat>)
    ensures r.Some? ==> server(r.value, tag, 0).status != R.PARTIAL_TRANSFER
    decreases LAST_ROUND + 1 - round
  {
    if round > LAST_ROUND then None
    else if server(round, tag, 0).status != R.PARTIAL_TRANSFER then Some(round)
    else FirstFinal(server, tag, round + 1)
  }

  /** Nothing has been kept for the pending tags. */
  predicate Untouched(pending: seq<nat>, tags: seq<TagState>) {
    AtZero(pending, tags) &&
    forall j :: 0 <= j < |pending| ==> tags[pending[j]].(status := 0) == UNTOUCHED
  }

  /** What the reads of the pending tags leave: the one reply that was final, read from the start. */
  ghost predicate Settled(
      round: nat, pending: seq<nat>, tags: seq<TagState>, server: Server, r: Result<seq<TagState>>) {
    if exists i :: i in pending && FirstFinal(server, i, round).None? then r == Err(TooManyRounds)
    else
      r.Ok? && |r.value| == |tags| &&
      (forall k :: 0 <= k < |tags| && k !in pending ==> r.value[k] == tags[k]) &&
      (forall k :: 0 <= k < |tags| && k in pending ==>
        r.value[k] == Keep(UNTOUCHED, server(FirstFinal(server, k, round).value, k, 0)))
  }

  lemma {:induction false} KeepLast(t: TagState, r: R.TagResult)
    requires t.(status := 0) == UNTOUCHED
    ensures Keep(t, r) == Keep(UNTOUCHED, r)
    ensures r.status == R.PARTIAL_TRANSFER ==> Keep(t, r).(status := 0) == UNTOUCHED
  {
  }

  /** One round: a tag with a partial reply is as it was, the others are settled. */
  lemma {:induction false} RoundSettles(
      round: nat, pending: seq<nat>, tags: seq<TagState>, server: Server, rs: seq<R.TagResult>)
    requires Untouched(pending, tags) && round <= LAST_ROUND
    requires RoundOf(server)(round, pending, Offsets(pending, tags)) == Ok(rs)
    ensures |rs| == |pending|
    ensures var (tags1, next) := Absorb(pending, tags, rs, 0);
      && |tags1| == |tags| && Untouched(next, tags1)
      && (forall k: nat :: k in next <==> k in pending && server(round, k, 0).status == R.PARTIAL_TRANSFER)
      && (forall k :: 0 <= k < |tags| && k !in pending ==> tags1[k] == tags[k])
      && (forall k :: 0 <= k < |tags| && k in pending ==> tags1[k] == Keep(UNTOUCHED, server(round, k, 0)))
  {
    hide Absorb, Keep, FirstFinal;
    forall j | 0 <= j < |pending| ensures rs[j] == server(round, pending[j], 0) {
      assert Offsets(pending, tags)[j] == 0;
    }
    AbsorbWithin(pending, tags, rs, 0);
    AbsorbAt(pending, tags, rs, 0);
    AbsorbNext(pending, tags, rs, 0);
    StaysAtZero(pending, tags, rs);
    var (tags1, next) := Absorb(pending, tags, rs, 0);
    forall k | 0 <= k < |tags| && k in pending
      ensures tags1[k] == Keep(UNTOUCHED, server(round, k, 0))
      ensures server(round, k, 0).status == R.PARTIAL_TRANSFER ==> tags1[k].(status := 0) == UNTOUCHED
    {
      var j :| 0 <= j < |pending| && pending[j] == k;
      assert tags1[pending[j]] == Keep(tags[pending[j]], rs[j]);
      KeepLast(tags[k], rs[j]);
    }
    forall k: nat ensures k in next <==> k in pending && server(round, k, 0).status == R.PARTIAL_TRANSFER {
      assert k in next <==> Partial(pending, rs, 0, k);
    }
    forall j | 0 <= j < |next| ensures tags1[next[j]].(status := 0) == UNTOUCHED {
      assert next[j] in next;
    }
  }

  lemma {:induction false} ReadSettles(round: nat, pending: seq<nat>, tags: seq<TagState>, server: Server)
    requires Untouched(pending, tags)
    ensures Settled(round, pending, tags, server, FragFrom(round, pending, tags, RoundOf(server)))
    decreases LAST_ROUND + 1 - round
  {
    hide Absorb, Keep;
    if pending != [] {
      if round > LAST_ROUND {
        assert pending[0] in pending && FirstFinal(server, pending[0], round).None?;
      } else {
        var rs := RoundOf(server)(round, pending, Offsets(pending, tags)).value;
        RoundSettles(round, pending, tags, server, rs);
        var (tags1, next) := Absorb(pending, tags, rs, 0);
        ReadSettles(round + 1, next, tags1, server);
        SettledBack(round, pending, tags, tags1, next, server, FragFrom(round + 1, next, tags1, RoundOf(server)));
      }
    }
  }

  lemma {:induction false} SettledBack(
      round: nat, pending: seq<nat>, tags: seq<TagState>, tags1: seq<TagState>, next: seq<nat>, server: Server,
      r: Result<seq<TagState>>)
    requires round <= LAST_ROUND && |tags1| == |tags| && Pending(pending, tags) && Pending(next, tags1)
    requires forall k: nat :: k in next <==> k in pending && server(round, k, 0).status == R.PARTIAL_TRANSFER
    requires forall k :: 0 <= k < |tags| && k !in pending ==> tags1[k] == tags[k]
    requires forall k :: 0 <= k < |tags| && k in pending ==> tags1[k] == Keep(UNTOUCHED, server(round, k, 0))
    requires Settled(round + 1, next, tags1, server, r)
    ensures Settled(round, pending, tags, server, r)
  {
    hide Keep;
    forall i | i in pending
      ensures FirstFinal(server, i, round) ==
        if i in next then FirstFinal(server, i, round + 1) else Some(round)
    {
    }
    if exists i :: i in pending && FirstFinal(server, i, round).None? {
      var i :| i in pending && FirstFinal(server, i, round).None?;
      assert i in next && FirstFinal(server, i, round + 1).None?;
    } else {
      forall i | i in next ensures FirstFinal(server, i, round + 1).Some? {
        assert i in pending;
      }
    }
  }

  /** What a final reply leaves: its status, and of a good one its type and its bytes. */
  predicate IsLeftBy(t: TagState, final: R.TagResult) {
    && t.status == final.status
    && t.cipType == (if final.status == R.OK then final.cipType else 0)
    && t.chunks == (if final.status == R.OK then final.data else [])
  }

  lemma {:induction false} KeptFinal(r: R.TagResult)
    ensures IsLeftBy(Keep(UNTOUCHED, r), r)
  {
    assert [] + r.data == r.data;
  }

  /**
   A batch of continued reads never puts pieces together: for every tag it returns the first reply
   that is no partial transfer, asked for from offset 0: its status and, if that is good, its type and
   its bytes. It gives up exactly when some tag gets a partial transfer in every round.
   */
  lemma {:induction false} ContinuesNothing(n: nat, server: Server)
    ensures var r := FragFrom(0, UpTo(n), seq(n, _ => UNTOUCHED), RoundOf(server));
      if exists i: nat :: i < n && FirstFinal(server, i, 0).None? then r == Err(TooManyRounds)
      else r.Ok? && |r.value| == n && forall i :: 0 <= i < n ==>
        IsLeftBy(r.value[i], server(FirstFinal(server, i, 0).value, i, 0))
  {
    hide FragFrom, Keep, FirstFinal, IsLeftBy;
    var pending, tags := UpTo(n), seq(n, _ => UNTOUCHED);
    ReadSettles(0, pending, tags, server);
    InUpTo(n);
    if !exists i: nat :: i < n && FirstFinal(server, i, 0).None? {
      forall i: nat | i < n
        ensures var final := server(FirstFinal(server, i, 0).value, i, 0); IsLeftBy(Keep(UNTOUCHED, final), final)
      {
        KeptFinal(server(FirstFinal(server, i, 0).value, i, 0));
      }
    }
  }

  lemma {:induction false} InUpTo(n: nat)
    ensures forall i: nat :: i in UpTo(n) <==> i < n
  {
    forall i: nat | i < n ensures i in UpTo(n) {
      assert UpTo(n)[i] == i;
    }
  }

  /** A server that cuts a tag's data into pieces: it sends them in order, partial while bytes remain. */
  ghost predicate CutsInPieces(server: Server, tag: nat, data: seq<byte>) {
    forall round: nat, offset: nat :: offset <= |data| ==>
      var x := server(round, tag, offset);
      NextChunk(x.status, x.data, data, offset, |data|)
  }

  /** Of such a tag the whole data is returned, and only ever in one piece. */
  lemma {:induction false} WholeOrNothing(n: nat, server: Server, tag: nat, data: seq<byte>)
    requires tag < n && CutsInPieces(server, tag, data)
    ensures var r := FragFrom(0, UpTo(n), seq(n, _ => UNTOUCHED), RoundOf(server));
      && (r.Ok? ==> |r.value| == n && r.value[tag].chunks == data)
      && (r.Ok? ==> exists round: nat :: round <= LAST_ROUND && server(round, tag, 0).data == data)
  {
    hide FragFrom;
    ContinuesNothing(n, server);
    var r := FragFrom(0, UpTo(n), seq(n, _ => UNTOUCHED), RoundOf(server));
    if r.Ok? {
      assert FirstFinal(server, tag, 0).Some?;
      var round := FirstFinal(server, tag, 0).value;
      FinalInTime(server, tag, 0);
      var x := server(round, tag, 0);
      assert NextChunk(x.status, x.data, data, 0, |data|);
      assert data[0..|data|] == data;
    }
  }

  lemma {:induction false} FinalInTime(server: Server, tag: nat, round: nat)
    ensures FirstFinal(server, tag, round).Some? ==> FirstFinal(server, tag, round).value <= LAST_ROUND
    decreases LAST_ROUND + 1 - round
  {
    if round <= LAST_ROUND {
      FinalInTime(server, tag, round + 1);
    }
  }
}
