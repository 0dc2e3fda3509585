/** What the continuation loops make of any peer, well-behaved or not. */
module FragmentRuns {
  import opened Wire
  import opened Sequences
  import opened MultiMessage
  import opened Fragments
  import R = MultiReply

  /// `Read_single`

  /**
   The exchanges of a read from `round` on: each asks behind the bytes that came before, and all but
   the last bring a partial transfer.
   */
  ghost predicate IsRun(peer: Peer, round: nat, service: byte, payload: seq<byte>, xs: seq<Exchange>)
    decreases |xs|
  {
    && xs != [] && round <= 1024 && peer(round, service, |payload| % 0x1_0000_0000) == xs[0]
    && if |xs| == 1 then xs[0].Broken? || xs[0].status != 0x06
      else
        && xs[0].Reply? && xs[0].status == 0x06
        && IsRun(peer, round + 1, 0x52, payload + xs[0].chunk, xs[1..])
  }

  /** All the chunks, in order. */
  function AllChunks(xs: seq<Exchange>): seq<byte> {
    if xs == [] then [] else (if xs[0].Reply? then xs[0].chunk else []) + AllChunks(xs[1..])
  }

  /** The last type that was reported, or the one known before. */
  function LastType(known: byte, xs: seq<Exchange>): byte
    decreases |xs|
  {
    if xs == [] then known
    else LastType(if xs[0].Reply? && xs[0].cipType != 0 then xs[0].cipType else known, xs[1..])
  }

  /** The last exchange decides: an error stays an error, and a good reply completes the value. */
  function Decided(payload: seq<byte>, known: byte, xs: seq<Exchange>): Result<(byte, seq<byte>)>
    requires xs != []
  {
    var last := xs[|xs| - 1];
    if last.Broken? then Err(last.error)
    else if last.status != 0x00 then Err(BadStatus)
    else Ok((LastType(known, xs), payload + AllChunks(xs)))
  }

  lemma {:induction false} OneExchange(known: byte, xs: seq<Exchange>)
    requires |xs| == 1 && xs[0].Reply?
    ensures AllChunks(xs) == xs[0].chunk && LastType(known, xs) == TypeAfter(known, xs[0].cipType)
  {
    var none: seq<byte> := [];
    assert |xs[1..]| == 0 && AllChunks(xs[1..]) == none;
    assert xs[0].chunk + none == xs[0].chunk;
    assert LastType(TypeAfter(known, xs[0].cipType), xs[1..]) == TypeAfter(known, xs[0].cipType);
  }

  lemma {:induction false} RunDecides(
      peer: Peer, round: nat, service: byte, payload: seq<byte>, known: byte, xs: seq<Exchange>)
    requires IsRun(peer, round, service, payload, xs)
    ensures SingleFrom(round, service, payload, known, peer) == Decided(payload, known, xs)
    decreases |xs|
  {
    var x := xs[0];
    if |xs| == 1 {
      if x.Reply? {
        OneExchange(known, xs);
      }
    } else {
      RunDecides(peer, round + 1, 0x52, payload + x.chunk, TypeAfter(known, x.cipType), xs[1..]);
      assert (payload + x.chunk) + AllChunks(xs[1..]) == payload + AllChunks(xs);
      assert xs[|xs| - 1] == xs[1..][|xs| - 2];
    }
  }

  /** Without such a run the rounds are used up. */
  lemma {:induction false} RunOrTooMany(peer: Peer, round: nat, service: byte, payload: seq<byte>, known: byte)
    returns (xs: seq<Exchange>)
    ensures IsRun(peer, round, service, payload, xs) ||
      SingleFrom(round, service, payload, known, peer) == Err(TooManyRounds)
    decreases 1025 - round
  {
    xs := [];
    if round <= 1024 {
      var x := peer(round, service, |payload| % 0x1_0000_0000);
      xs := [x];
      if x.Reply? && x.status == 0x06 {
        var more := RunOrTooMany(peer, round + 1, 0x52, payload + x.chunk, TypeAfter(known, x.cipType));
        xs := [x] + more;
        assert xs[1..] == more;
      }
    }
  }

  /**
   A read against any peer: at most 1025 exchanges, each behind the bytes before it. The first that is
   no partial transfer decides; its status must be good, and then value and type are those of the run.
   */
  lemma {:induction false} SingleOfAny(service: byte, known: byte, peer: Peer) returns (xs: seq<Exchange>)
    ensures var r := SingleFrom(0, service, [], known, peer);
      if IsRun(peer, 0, service, [], xs) then |xs| <= 1025 && r == Decided([], known, xs) else r == Err(TooManyRounds)
  {
    hide SingleFrom, Decided;
    xs := RunOrTooMany(peer, 0, service, [], known);
    if IsRun(peer, 0, service, [], xs) {
      RunDecides(peer, 0, service, [], known, xs);
      RunLength(peer, 0, service, [], xs);
    }
  }

  lemma {:induction false} RunLength(peer: Peer, round: nat, service: byte, payload: seq<byte>, xs: seq<Exchange>)
    requires IsRun(peer, round, service, payload, xs)
    ensures round + |xs| <= 1025
    decreases |xs|
  {
    if |xs| > 1 {
      RunLength(peer, round + 1, 0x52, payload + xs[0].chunk, xs[1..]);
    }
  }

  /// `collectMemberReadPayload`

  /** A partial transfer with bytes in it: the one reply after which the loop goes on. */
  predicate GoesOn(x: Fetched) {
    x.Fetched? && x.status == 0x06 && x.chunk != []
  }

  /** The requests of a template read from `round` on: each for what is left, but at most 65535 bytes. */
  ghost predicate IsFetchRun(fetch: Fetcher, total: nat, round: nat, payload: seq<byte>, xs: seq<Fetched>)
    decreases |xs|
  {
    xs == [] ||
    (&& round < 1024 && |payload| % 0x1_0000_0000 != total
     && fetch(round, |payload| % 0x1_0000_0000, Min((total - |payload|) % 0x1_0000_0000, 65535)) == xs[0]
     && (|xs| > 1 ==> GoesOn(xs[0]))
     && (GoesOn(xs[0]) ==> IsFetchRun(fetch, total, round + 1, payload + xs[0].chunk, xs[1..])))
  }

  function AllFetched(xs: seq<Fetched>): seq<byte> {
    if xs == [] then [] else (if xs[0].Fetched? then xs[0].chunk else []) + AllFetched(xs[1..])
  }

  /** The last reply decides, or the template is complete, or the rounds are used up. */
  function FetchDecided(total: nat, round: nat, payload: seq<byte>, xs: seq<Fetched>): Result<seq<byte>> {
    if xs != [] && xs[|xs| - 1].FetchFailed? then Err(xs[|xs| - 1].error)
    else if xs != [] && xs[|xs| - 1].status != 0x00 && xs[|xs| - 1].status != 0x06 then Err(BadStatus)
    else if xs != [] && xs[|xs| - 1].status == 0x00 then Ok(payload + AllFetched(xs))
    else if xs != [] && xs[|xs| - 1].chunk == [] then Err(Malformed)
    else if round + |xs| < 1024 then Ok(payload + AllFetched(xs))
    else Err(TooManyRounds)
  }

  /** A run that has come to its end. */
  predicate IsOver(total: nat, round: nat, payload: seq<byte>, xs: seq<Fetched>) {
    (xs != [] && !GoesOn(xs[|xs| - 1])) || round + |xs| >= 1024
    || |payload + AllFetched(xs)| % 0x1_0000_0000 == total
  }

  lemma {:induction false} SameRemainder(n: nat, total: nat)
    requires total <= MAX_UINT32
    ensures Left(total, n % 0x1_0000_0000) == (total - n) % 0x1_0000_0000
    ensures Left(total, n % 0x1_0000_0000) == 0 <==> n % 0x1_0000_0000 == total
  {
    var q := n / 0x1_0000_0000;
    var r := n % 0x1_0000_0000;
    assert total - n == (total - r) - 0x1_0000_0000 * q;
  }

  lemma {:induction false} FetchRunDecides(
      fetch: Fetcher, total: nat, round: nat, payload: seq<byte>, xs: seq<Fetched>)
    requires total <= MAX_UINT32 && round + |xs| <= 1024
    requires IsFetchRun(fetch, total, round, payload, xs) && IsOver(total, round, payload, xs)
    ensures MembersFrom(round, total, payload, fetch) == FetchDecided(total, round, payload, xs)
    decreases |xs|
  {
    hide Left;
    SameRemainder(|payload|, total);
    if xs == [] {
      assert payload + AllFetched(xs) == payload;
    } else {
      var x := xs[0];
      assert x.Fetched? ==> payload + AllFetched(xs) == (payload + x.chunk) + AllFetched(xs[1..]);
      if GoesOn(x) {
        assert |xs| > 1 ==> xs[|xs| - 1] == xs[1..][|xs| - 2];
        FetchRunDecides(fetch, total, round + 1, payload + x.chunk, xs[1..]);
      } else {
        var none: seq<byte> := [];
        assert |xs| == 1 && AllFetched(xs[1..]) == none;
        assert x.Fetched? ==> AllFetched(xs) == x.chunk + none == x.chunk;
      }
    }
  }

  lemma {:induction false} FetchRunExists(fetch: Fetcher, total: nat, round: nat, payload: seq<byte>)
    returns (xs: seq<Fetched>)
    requires total <= MAX_UINT32 && round <= 1024
    ensures IsFetchRun(fetch, total, round, payload, xs) && IsOver(total, round, payload, xs) && round + |xs| <= 1024
    decreases 1024 - round
  {
    xs := [];
    assert payload + AllFetched([]) == payload;
    if round < 1024 && |payload| % 0x1_0000_0000 != total {
      var x := fetch(round, |payload| % 0x1_0000_0000, Min((total - |payload|) % 0x1_0000_0000, 65535));
      if GoesOn(x) {
        var more := FetchRunExists(fetch, total, round + 1, payload + x.chunk);
        xs := [x] + more;
        assert xs[1..] == more;
        assert payload + AllFetched(xs) == (payload + x.chunk) + AllFetched(more);
        assert more != [] ==> xs[|xs| - 1] == more[|more| - 1];
      } else {
        xs := [x];
      }
    }
  }

  /**
   A template read against any server: at most 1024 requests, each behind the bytes before it and for
   no more than is left. It ends with the first reply that is no partial transfer with bytes in it, or
   when as many bytes as the template has are there.
   */
  lemma {:induction false} MembersOfAny(total: nat, fetch: Fetcher) returns (xs: seq<Fetched>)
    requires 0 < total <= MAX_UINT32
    ensures |xs| <= 1024 && IsFetchRun(fetch, total, 0, [], xs) && IsOver(total, 0, [], xs)
    ensures Members(total, fetch) == FetchDecided(total, 0, [], xs)
  {
    hide IsFetchRun, IsOver, FetchDecided, MembersFrom;
    xs := FetchRunExists(fetch, total, 0, []);
    FetchRunDecides(fetch, total, 0, [], xs);
  }
}
