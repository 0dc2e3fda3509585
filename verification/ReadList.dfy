/** Reading a list by splitting it: `readList` of read.go. */
module ReadList {
  import opened Wire
  import opened Sequences
  import opened Batching
  import opened ReadMap

  /// The split

  /** What each tag adds to the message body: service header, path, element count. */
  function Lengths(ts: seq<TagDesc>, paths: Paths): Result<seq<nat>>
    decreases |ts|
  {
    if ts == [] then Ok([])
    else
      var path :- paths(ts[0]);
      var more :- Lengths(ts[1..], paths);
      Ok([4 + |path|] + more)
  }

  /** The first tag with which the body, counted from `sum` at tag `i` on, gets too long. */
  function FirstOver(lens: seq<nat>, limit: nat, i: nat, sum: nat): (r: Maybe<nat>)
    requires i <= |lens|
    ensures r.Some? ==> i <= r.value < |lens|
    decreases |lens| - i
  {
    if i == |lens| then None
    else if sum + lens[i] + 6 > limit then Some(i)
    else FirstOver(lens, limit, i + 1, sum + lens[i])
  }

  /** `depth` stands for what is left of the stack: the recursion of the source has no other end. */
  function ReadSplit<V>(ts: seq<TagDesc>, paths: Paths, limit: nat, send: Reader<V>, depth: nat): Result<seq<V>>
    decreases depth
  {
    if depth == 0 then Err(StackExhausted)
    else
      var lens :- Lengths(ts, paths);
      LengthsCount(ts, paths);
      match FirstOver(lens, limit, 0, 0)
      case None => send(ts)
      case Some(i) =>
        var first :- ReadSplit(ts[..i], paths, limit, send, depth - 1);
        var rest :- ReadSplit(ts[i..], paths, limit, send, depth - 1);
        Ok(first + rest)
  }

  lemma {:induction false} LengthsCount(ts: seq<TagDesc>, paths: Paths)
    ensures Lengths(ts, paths).Ok? ==> |Lengths(ts, paths).value| == |ts|
    ensures Lengths(ts, paths).Ok? ==>
      forall i :: 0 <= i < |ts| ==> paths(ts[i]).Ok? && Lengths(ts, paths).value[i] == 4 + |paths(ts[i]).value|
    decreases |ts|
  {
    if ts != [] {
      LengthsCount(ts[1..], paths);
    }
  }

  method ReadTags<V>(
      ts: seq<TagDesc>, paths: Paths, limit: nat, send: Reader<V>, depth: nat) returns (r: Result<seq<V>>)
    ensures r == ReadSplit(ts, paths, limit, send, depth)
    decreases depth
  {
    if depth == 0 {
      return Err(StackExhausted);
    }
    var lens := BuildLengths(ts, paths);
    if lens.Err? {
      return Err(lens.error);
    }
    LengthsCount(ts, paths);
    var bytes := 0;
    for i := 0 to |ts|
      invariant bytes >= 0
      invariant FirstOver(lens.value, limit, 0, 0) == FirstOver(lens.value, limit, i, bytes)
    {
      bytes := bytes + lens.value[i];
      if bytes + 6 > limit {
        var results0 := ReadTags(ts[..i], paths, limit, send, depth - 1);
        if results0.Err? {
          return Err(results0.error);
        }
        var results1 := ReadTags(ts[i..], paths, limit, send, depth - 1);
        if results1.Err? {
          return Err(results1.error);
        }
        return Ok(results0.value + results1.value);
      }
    }
    r := send(ts);
  }

  method BuildLengths(ts: seq<TagDesc>, paths: Paths) returns (r: Result<seq<nat>>)
    ensures r == Lengths(ts, paths)
  {
    var lens: seq<nat> := [];
    NothingAhead(Lengths(ts, paths));
    for i := 0 to |ts|
      invariant Lengths(ts, paths) == Ahead(lens, Lengths(ts[i..], paths))
    {
      assert ts[i..][0] == ts[i] && ts[i..][1..] == ts[i + 1..];
      var path := paths(ts[i]);
      if path.Err? {
        return Err(path.error);
      }
      AheadTwice(lens, [4 + |path.value|], Lengths(ts[i + 1..], paths));
      lens := lens + [4 + |path.value|];
    }
    assert lens + [] == lens;
    return Ok(lens);
  }

  /// Termination

  /** A tag whose message, alone, is not too long. */
  predicate FitsAlone(t: TagDesc, paths: Paths, limit: nat) {
    paths(t).Ok? && 4 + |paths(t).value| + 6 <= limit
  }

  lemma {:induction false} LengthsOk(ts: seq<TagDesc>, paths: Paths)
    requires forall i :: 0 <= i < |ts| ==> paths(ts[i]).Ok?
    ensures Lengths(ts, paths).Ok?
    decreases |ts|
  {
    if ts != [] {
      LengthsOk(ts[1..], paths);
    }
  }

  /** The tags before the split never split again. */
  lemma {:induction false} LeftPartFits(lens: seq<nat>, limit: nat, i: nat, sum: nat)
    requires i <= |lens| && FirstOver(lens, limit, i, sum).Some?
    ensures var k := FirstOver(lens, limit, i, sum).value; FirstOver(lens[..k], limit, i, sum).None?
    decreases |lens| - i
  {
    if sum + lens[i] + 6 <= limit {
      LeftPartFits(lens, limit, i + 1, sum + lens[i]);
    }
  }

  lemma {:induction false} LengthsTake(ts: seq<TagDesc>, paths: Paths, k: nat)
    requires k <= |ts| && Lengths(ts, paths).Ok?
    ensures |Lengths(ts, paths).value| == |ts|
    ensures Lengths(ts[..k], paths) == Ok(Lengths(ts, paths).value[..k])
    ensures Lengths(ts[k..], paths) == Ok(Lengths(ts, paths).value[k..])
    decreases k
  {
    LengthsCount(ts, paths);
    var lens := Lengths(ts, paths).value;
    if k == 0 {
      assert ts[0..] == ts && lens[0..] == lens && lens[..0] == [];
    } else {
      LengthsTake(ts[1..], paths, k - 1);
      assert ts[..k][1..] == ts[1..][..k - 1] && ts[k..] == ts[1..][k - 1..];
      assert lens == [lens[0]] + lens[1..];
      assert lens[..k] == [lens[0]] + lens[1..][..k - 1] && lens[k..] == lens[1..][k - 1..];
    }
  }

  /** The left part is sent as it is. */
  lemma {:induction false} LeftIsSent<V>(
      ts: seq<TagDesc>, paths: Paths, limit: nat, send: Reader<V>, depth: nat, i: nat)
    requires depth > 0 && Lengths(ts, paths).Ok? && i <= |ts|
    requires FirstOver(Lengths(ts, paths).value, limit, 0, 0) == Some(i)
    ensures ReadSplit(ts[..i], paths, limit, send, depth) == send(ts[..i])
  {
    LengthsTake(ts, paths, i);
    LeftPartFits(Lengths(ts, paths).value, limit, 0, 0);
  }

  predicate AllFit(ts: seq<TagDesc>, paths: Paths, limit: nat) {
    forall i :: 0 <= i < |ts| ==> FitsAlone(ts[i], paths, limit)
  }

  /** Then a split always leaves a shorter list. */
  lemma {:induction false} SplitShrinks(ts: seq<TagDesc>, paths: Paths, limit: nat)
    requires AllFit(ts, paths, limit)
    ensures Lengths(ts, paths).Ok? && |Lengths(ts, paths).value| == |ts|
    ensures FirstOver(Lengths(ts, paths).value, limit, 0, 0) != Some(0)
  {
    LengthsOk(ts, paths);
    LengthsCount(ts, paths);
  }

  /** The messages that are sent, and their results, one after the other. */
  function SendPieces<V>(ts: seq<TagDesc>, paths: Paths, limit: nat, send: Reader<V>): Result<seq<V>>
    requires AllFit(ts, paths, limit)
    decreases |ts|
  {
    SplitShrinks(ts, paths, limit);
    match FirstOver(Lengths(ts, paths).value, limit, 0, 0)
    case None => send(ts)
    case Some(i) =>
      var first :- send(ts[..i]);
      var rest :- SendPieces(ts[i..], paths, limit, send);
      Ok(first + rest)
  }

  lemma {:induction false} SplitIsPieces<V>(ts: seq<TagDesc>, paths: Paths, limit: nat, send: Reader<V>, depth: nat)
    requires AllFit(ts, paths, limit) && depth > |ts|
    ensures ReadSplit(ts, paths, limit, send, depth) == SendPieces(ts, paths, limit, send)
    decreases |ts|
  {
    hide Lengths, FirstOver, FitsAlone;
    SplitShrinks(ts, paths, limit);
    var over := FirstOver(Lengths(ts, paths).value, limit, 0, 0);
    if over.Some? {
      LeftIsSent(ts, paths, limit, send, depth - 1, over.value);
      SplitIsPieces(ts[over.value..], paths, limit, send, depth - 1);
    }
  }

  lemma {:induction false} OverAt(lens: seq<nat>, limit: nat, i: nat, sum: nat, k: nat)
    requires i <= k < |lens| && lens[k] + 6 > limit
    ensures FirstOver(lens, limit, i, sum).Some? && FirstOver(lens, limit, i, sum).value <= k
    decreases k - i
  {
    if sum + lens[i] + 6 <= limit {
      OverAt(lens, limit, i + 1, sum + lens[i], k);
    }
  }

  /** Tag `k` is the first whose message alone is too long. */
  predicate FirstUnfit(ts: seq<TagDesc>, paths: Paths, limit: nat, k: nat) {
    k < |ts| && !FitsAlone(ts[k], paths, limit) && AllFit(ts[..k], paths, limit)
  }

  predicate HavePaths(ts: seq<TagDesc>, paths: Paths) {
    forall i :: 0 <= i < |ts| ==> paths(ts[i]).Ok?
  }

  /** The tags before position `k` are cut in the same way without what follows them. */
  lemma {:induction false} OverOfPrefix(lens: seq<nat>, limit: nat, i: nat, sum: nat, k: nat)
    requires i <= k <= |lens| && FirstOver(lens, limit, i, sum).Some? && FirstOver(lens, limit, i, sum).value <= k
    ensures FirstOver(lens[..k], limit, i, sum) ==
      if FirstOver(lens, limit, i, sum).value < k then FirstOver(lens, limit, i, sum) else None
    decreases k - i
  {
    if i < k && sum + lens[i] + 6 <= limit {
      OverOfPrefix(lens, limit, i + 1, sum + lens[i], k);
    }
  }

  /** The first cut of a list that cannot be sent as a whole, and what sending the tags before `k` takes. */
  lemma {:induction false} FirstCut<V>(
      ts: seq<TagDesc>, paths: Paths, limit: nat, send: Reader<V>, k: nat)
    returns (i: nat)
    requires HavePaths(ts, paths) && FirstUnfit(ts, paths, limit, k)
    ensures Lengths(ts, paths).Ok? && FirstOver(Lengths(ts, paths).value, limit, 0, 0) == Some(i)
    ensures i <= k < |ts| && (i == 0 ==> k == 0)
    ensures FirstUnfit(ts[i..], paths, limit, k - i) && HavePaths(ts[i..], paths)
    ensures AllFit(ts[i..][..k - i], paths, limit)
    ensures SendPieces(ts[..k], paths, limit, send) ==
      if i == k then send(ts[..i])
      else Then(send(ts[..i]), SendPieces(ts[i..][..k - i], paths, limit, send))
  {
    LengthsOk(ts, paths);
    LengthsTake(ts, paths, k);
    LengthAt(ts, paths, k);
    var lens := Lengths(ts, paths).value;
    hide Lengths, FitsAlone;
    OverAt(lens, limit, 0, 0, k);
    i := FirstOver(lens, limit, 0, 0).value;
    assert k > 0 ==> ts[..k][0] == ts[0];
    if i == 0 {
      CutAtFirst(ts, paths, limit);
    }
    OverOfPrefix(lens, limit, 0, 0, k);
    hide FirstOver;
    assert ts[i..][..k - i] == ts[..k][i..] && ts[..k][..i] == ts[..i];
    assert ts[i..][k - i] == ts[k];
    SplitShrinks(ts[..k], paths, limit);
  }

  lemma {:induction false} LengthAt(ts: seq<TagDesc>, paths: Paths, k: nat)
    requires Lengths(ts, paths).Ok? && k < |ts|
    ensures |Lengths(ts, paths).value| == |ts| && paths(ts[k]).Ok?
    ensures Lengths(ts, paths).value[k] == 4 + |paths(ts[k]).value|
  {
    LengthsTake(ts, paths, k);
    assert ts[k..][0] == ts[k];
  }

  lemma {:induction false} CutAtFirst(ts: seq<TagDesc>, paths: Paths, limit: nat)
    requires ts != [] && Lengths(ts, paths).Ok? && FirstOver(Lengths(ts, paths).value, limit, 0, 0) == Some(0)
    ensures !FitsAlone(ts[0], paths, limit)
  {
    LengthsCount(ts, paths);
  }

  /** The results of both parts, or the first error. */
  function Then<V>(a: Result<seq<V>>, b: Result<seq<V>>): Result<seq<V>> {
    if a.Err? then a else Ahead(a.value, b)
  }

  lemma {:induction false} SplitOnce<V>(ts: seq<TagDesc>, paths: Paths, limit: nat, send: Reader<V>, depth: nat, i: nat)
    requires Lengths(ts, paths).Ok? && FirstOver(Lengths(ts, paths).value, limit, 0, 0) == Some(i) && i <= |ts|
    requires depth > 1
    ensures ReadSplit(ts, paths, limit, send, depth) ==
      Then(send(ts[..i]), ReadSplit(ts[i..], paths, limit, send, depth - 1))
  {
    hide Lengths, FirstOver;
    LeftIsSent(ts, paths, limit, send, depth - 1, i);
  }

  /** While nothing that is sent fails, the recursion goes on at the tag that is too long. */
  lemma {:induction false} NeverEnds<V>(
      ts: seq<TagDesc>, paths: Paths, limit: nat, send: Reader<V>, depth: nat, k: nat)
    requires HavePaths(ts, paths) && FirstUnfit(ts, paths, limit, k)
    requires SendPieces(ts[..k], paths, limit, send).Ok? && send([]).Ok?
    ensures ReadSplit(ts, paths, limit, send, depth) == Err(StackExhausted)
    decreases depth
  {
    hide Lengths, FirstOver, FitsAlone, SendPieces, FirstUnfit, HavePaths, AllFit;
    if depth > 0 {
      var i := FirstCut(ts, paths, limit, send, k);
      if depth == 1 {
        NoStack(ts, paths, limit, send, i);
      } else {
        SplitOnce(ts, paths, limit, send, depth, i);
        assert ts[..0] == [] && ts[i..][..0] == [];
        NothingToSend(paths, limit, send);
        NeverEnds(ts[i..], paths, limit, send, depth - 1, k - i);
      }
    }
  }

  lemma {:induction false} NothingToSend<V>(paths: Paths, limit: nat, send: Reader<V>)
    ensures SendPieces([], paths, limit, send) == send([])
  {
  }

  lemma {:induction false} NoStack<V>(ts: seq<TagDesc>, paths: Paths, limit: nat, send: Reader<V>, i: nat)
    requires Lengths(ts, paths).Ok? && FirstOver(Lengths(ts, paths).value, limit, 0, 0) == Some(i) && i <= |ts|
    ensures ReadSplit(ts, paths, limit, send, 1) == Err(StackExhausted)
  {
  }

  /** A failure of what is sent first, or of the empty message, ends it with that error. */
  lemma {:induction false} EndsWithError<V>(
      ts: seq<TagDesc>, paths: Paths, limit: nat, send: Reader<V>, depth: nat, k: nat)
    requires HavePaths(ts, paths) && FirstUnfit(ts, paths, limit, k) && depth >= k + 2
    requires SendPieces(ts[..k], paths, limit, send).Err? || send([]).Err?
    ensures var first := SendPieces(ts[..k], paths, limit, send);
      ReadSplit(ts, paths, limit, send, depth) == Err(if first.Err? then first.error else send([]).error)
    decreases k
  {
    hide Lengths, FirstOver, FitsAlone, SendPieces, FirstUnfit, HavePaths, AllFit;
    var i := FirstCut(ts, paths, limit, send, k);
    SplitOnce(ts, paths, limit, send, depth, i);
    assert ts[..0] == [] && ts[i..][..0] == [];
    NothingToSend(paths, limit, send);
    if i > 0 && send(ts[..i]).Ok? {
      EndsWithError(ts[i..], paths, limit, send, depth - 1, k - i);
    }
  }

  /**
   Splitting comes to an end, on some stack, exactly when every tag fits a message of its own, or
   something that is sent before the first tag that does not, or the empty message, fails.
   */
  lemma {:induction false} EndsIff<V>(ts: seq<TagDesc>, paths: Paths, limit: nat, send: Reader<V>, k: nat)
    requires HavePaths(ts, paths) && forall us: seq<TagDesc> :: send(us) != Err(StackExhausted)
    requires AllFit(ts, paths, limit) || FirstUnfit(ts, paths, limit, k)
    ensures (exists depth: nat :: ReadSplit(ts, paths, limit, send, depth) != Err(StackExhausted)) <==>
      AllFit(ts, paths, limit) || SendPieces(ts[..k], paths, limit, send).Err? || send([]).Err?
  {
    hide ReadSplit, FitsAlone, SendPieces, FirstUnfit, HavePaths;
    if AllFit(ts, paths, limit) {
      SplitIsPieces(ts, paths, limit, send, |ts| + 1);
      PiecesEnd(ts, paths, limit, send);
      assert ReadSplit(ts, paths, limit, send, |ts| + 1) != Err(StackExhausted);
    } else {
      UnfitPrefix(ts, paths, limit, k);
      if SendPieces(ts[..k], paths, limit, send).Err? || send([]).Err? {
        EndsWithError(ts, paths, limit, send, k + 2, k);
        PiecesEnd(ts[..k], paths, limit, send);
        assert ReadSplit(ts, paths, limit, send, k + 2) != Err(StackExhausted);
      } else {
        forall depth: nat ensures ReadSplit(ts, paths, limit, send, depth) == Err(StackExhausted) {
          NeverEnds(ts, paths, limit, send, depth, k);
        }
      }
    }
  }

  lemma {:induction false} UnfitPrefix(ts: seq<TagDesc>, paths: Paths, limit: nat, k: nat)
    requires FirstUnfit(ts, paths, limit, k)
    ensures k <= |ts| && AllFit(ts[..k], paths, limit)
  {
    hide FitsAlone;
  }

  lemma {:induction false} PiecesEnd<V>(ts: seq<TagDesc>, paths: Paths, limit: nat, send: Reader<V>)
    requires AllFit(ts, paths, limit) && forall us: seq<TagDesc> :: send(us) != Err(StackExhausted)
    ensures SendPieces(ts, paths, limit, send) != Err(StackExhausted)
    decreases |ts|
  {
    hide Lengths, FirstOver, FitsAlone;
    SplitShrinks(ts, paths, limit);
    var over := FirstOver(Lengths(ts, paths).value, limit, 0, 0);
    if over.Some? {
      PiecesEnd(ts[over.value..], paths, limit, send);
    }
  }

  /// Results

  /** However often the list is split, there is one result per tag, in the order of the tags. */
  lemma {:induction false} SplitReadsEachTag<V(!new)>(
      ts: seq<TagDesc>, paths: Paths, limit: nat, send: Reader<V>, value: TagDesc -> V, depth: nat)
    requires Complete(send) && Reads(send, value)
    ensures var r := ReadSplit(ts, paths, limit, send, depth);
      r.Ok? ==> |r.value| == |ts| && forall j :: 0 <= j < |ts| ==> r.value[j] == value(ts[j])
    decreases depth
  {
    hide Lengths, FirstOver;
    if depth > 0 && Lengths(ts, paths).Ok? {
      LengthsCount(ts, paths);
      var over := FirstOver(Lengths(ts, paths).value, limit, 0, 0);
      if over.Some? {
        SplitReadsEachTag(ts[..over.value], paths, limit, send, value, depth - 1);
        SplitReadsEachTag(ts[over.value..], paths, limit, send, value, depth - 1);
      }
    }
  }
}
