/** Reading any number of tags in as many messages as it takes: `ReadMap` of read.go. */
module ReadMap {
  import opened Wire
  import opened Sequences
  import opened Items
  import opened MultiMessage
  import opened Batching
  import opened BatchingLaws

  /// One batch is a part of what is pending

  lemma {:induction false} TakenIsPick(pending: seq<nat>, sel: seq<nat>, pos: nat, k: nat)
    requires pos <= |pending| && k <= |sel| && Increasing(sel) && Between(sel, 0, |pending|)
    requires forall j :: k <= j < |sel| ==> sel[j] >= pos
    ensures Taken(pending, sel, pos, k) == Pick(pending, sel[k..])
    ensures |Remaining(pending, sel, pos, k)| == |pending| - pos - (|sel| - k)
    decreases |pending| - pos
  {
    if pos < |pending| {
      if k < |sel| && sel[k] == pos {
        TakenIsPick(pending, sel, pos + 1, k + 1);
        assert sel[k..][0] == sel[k] && sel[k..][1..] == sel[k + 1..];
      } else {
        TakenIsPick(pending, sel, pos + 1, k);
      }
    }
  }

  lemma {:induction false} TakenOrRemaining(pending: seq<nat>, sel: seq<nat>, pos: nat, k: nat)
    requires pos <= |pending|
    ensures multiset(pending[pos..]) ==
      multiset(Taken(pending, sel, pos, k)) + multiset(Remaining(pending, sel, pos, k))
    decreases |pending| - pos
  {
    if pos < |pending| {
      TakenOrRemaining(pending, sel, pos + 1, if k < |sel| && sel[k] == pos then k + 1 else k);
      assert pending[pos..] == [pending[pos]] + pending[pos + 1..];
    }
  }

  predicate AllFrom(xs: seq<nat>, lo: nat) {
    forall i :: 0 <= i < |xs| ==> lo <= xs[i]
  }

  lemma {:induction false} IncreasingCons(x: nat, xs: seq<nat>)
    requires Increasing(xs) && AllFrom(xs, x + 1)
    ensures Increasing([x] + xs) && AllFrom([x] + xs, x)
  {
  }

  lemma {:induction false} AllFromLess(xs: seq<nat>, lo: nat, lo1: nat)
    requires AllFrom(xs, lo) && lo1 <= lo
    ensures AllFrom(xs, lo1)
  {
  }

  /** The order of the pending tags is kept. */
  lemma {:induction false} OrderKept(pending: seq<nat>, sel: seq<nat>, pos: nat, k: nat, lo: nat)
    requires pos <= |pending| && Increasing(pending) && (pos < |pending| ==> lo <= pending[pos])
    ensures var a, b := Taken(pending, sel, pos, k), Remaining(pending, sel, pos, k);
      Increasing(a) && Increasing(b) && AllFrom(a, lo) && AllFrom(b, lo)
    decreases |pending| - pos
  {
    if pos < |pending| {
      var x := pending[pos];
      assert pos + 1 < |pending| ==> x < pending[pos + 1];
      hide Increasing, AllFrom;
      var taken := k < |sel| && sel[k] == pos;
      var k1 := if taken then k + 1 else k;
      OrderKept(pending, sel, pos + 1, k1, x + 1);
      var a, b := Taken(pending, sel, pos + 1, k1), Remaining(pending, sel, pos + 1, k1);
      if taken {
        IncreasingCons(x, a);
        AllFromLess([x] + a, x, lo);
        AllFromLess(b, x + 1, lo);
      } else {
        IncreasingCons(x, b);
        AllFromLess([x] + b, x, lo);
        AllFromLess(a, x + 1, lo);
      }
    } else {
      NothingFrom(lo);
    }
  }

  lemma {:induction false} NothingFrom(lo: nat)
    ensures Increasing([]) && AllFrom([], lo)
  {
  }

  /** A batch and what stays pending divide what was pending, in order; the batch is not empty. */
  lemma {:induction false} BatchDivides(pending: seq<nat>, ts: seq<TagDesc>, paths: Paths, limit: nat)
    requires Within(pending, |ts|) && pending != [] && BatchOf(pending, ts, paths, limit).Ok?
    ensures var (batch, next) := BatchOf(pending, ts, paths, limit).value;
      && batch != [] && |next| < |pending|
      && multiset(pending) == multiset(batch) + multiset(next)
      && Within(batch, |ts|) && Within(next, |ts|)
      && (Increasing(pending) ==> Increasing(batch) && Increasing(next))
  {
    hide Costs, Selected, Taken, Remaining, Increasing;
    var picked := Pick(ts, pending);
    CostsAt(picked, paths, limit, 0);
    var costs := Costs(picked, paths, limit).value;
    SelectionShape(costs, limit);
    var sel := Selected(costs, limit);
    TakenIsPick(pending, sel, 0, 0);
    assert sel[0..] == sel && pending[0..] == pending;
    TakenOrRemaining(pending, sel, 0, 0);
    TakenWithin(pending, sel, 0, 0, |ts|);
    if Increasing(pending) {
      OrderKept(pending, sel, 0, 0, 0);
    }
  }

  /// All the batches

  function Batches(pending: seq<nat>, ts: seq<TagDesc>, paths: Paths, limit: nat): Result<seq<seq<nat>>>
    requires Within(pending, |ts|)
    decreases |pending|
  {
    if pending == [] then Ok([])
    else
      var (batch, next) :- BatchOf(pending, ts, paths, limit);
      BatchDivides(pending, ts, paths, limit);
      var more :- Batches(next, ts, paths, limit);
      Ok([batch] + more)
  }

  function Flatten(batches: seq<seq<nat>>): seq<nat> {
    if batches == [] then [] else batches[0] + Flatten(batches[1..])
  }

  lemma {:induction false} BatchesDivide(pending: seq<nat>, ts: seq<TagDesc>, paths: Paths, limit: nat)
    requires Within(pending, |ts|) && Increasing(pending) && Batches(pending, ts, paths, limit).Ok?
    ensures var bs := Batches(pending, ts, paths, limit).value;
      multiset(Flatten(bs)) == multiset(pending) && forall k :: 0 <= k < |bs| ==> bs[k] != [] && Increasing(bs[k])
    decreases |pending|
  {
    hide BatchOf, Increasing;
    if pending != [] {
      BatchDivides(pending, ts, paths, limit);
      var (batch, next) := BatchOf(pending, ts, paths, limit).value;
      BatchesDivide(next, ts, paths, limit);
      var bs := Batches(pending, ts, paths, limit).value;
      assert bs[1..] == Batches(next, ts, paths, limit).value;
      assert forall k :: 0 < k < |bs| ==> bs[k] == bs[1..][k - 1];
    }
  }

  /** Every tag is read in exactly one batch, and the batches keep the order of the tags. */
  lemma {:induction false} EachTagOnce(ts: seq<TagDesc>, paths: Paths, limit: nat, i: nat)
    requires Batches(UpTo(|ts|), ts, paths, limit).Ok?
    ensures multiset(Flatten(Batches(UpTo(|ts|), ts, paths, limit).value))[i] == if i < |ts| then 1 else 0
  {
    BatchesDivide(UpTo(|ts|), ts, paths, limit);
    CountUpTo(|ts|, i);
  }

  lemma {:induction false} CountUpTo(n: nat, i: nat)
    ensures multiset(UpTo(n))[i] == if i < n then 1 else 0
  {
    if n == 0 {
      assert UpTo(0) == [];
    } else {
      CountUpTo(n - 1, i);
      assert UpTo(n) == UpTo(n - 1) + [n - 1];
    }
  }

  /// Every batch fits

  lemma {:induction false} TotalIsSum(picked: seq<TagDesc>, paths: Paths, limit: nat, sel: seq<nat>)
    requires Costs(picked, paths, limit).Ok? && Within(sel, |picked|)
    ensures |Costs(picked, paths, limit).value| == |picked| && Between(sel, 0, |picked|)
    ensures Costs(Pick(picked, sel), paths, limit).Ok?
    ensures Total(Costs(Pick(picked, sel), paths, limit).value) == SumOf(Costs(picked, paths, limit).value, sel)
    decreases |sel|
  {
    hide CostOf;
    if |picked| > 0 {
      CostsAt(picked, paths, limit, 0);
    }
    if sel != [] {
      CostsAt(picked, paths, limit, sel[0]);
      TotalIsSum(picked, paths, limit, sel[1..]);
      var chosen := Pick(picked, sel);
      assert chosen[1..] == Pick(picked, sel[1..]);
      var costs := Costs(chosen, paths, limit).value;
      assert costs[1..] == Costs(chosen[1..], paths, limit).value;
    }
  }

  lemma {:induction false} PickPick(ts: seq<TagDesc>, pending: seq<nat>, sel: seq<nat>)
    requires Within(pending, |ts|) && Within(sel, |pending|)
    ensures Within(Pick(pending, sel), |ts|)
    ensures Pick(ts, Pick(pending, sel)) == Pick(Pick(ts, pending), sel)
  {
  }

  predicate SomeFits(pending: seq<nat>, ts: seq<TagDesc>, paths: Paths, limit: nat)
    requires Within(pending, |ts|)
  {
    exists k :: 0 <= k < |pending| && paths(ts[pending[k]]).Ok? &&
      Fits(1, CostOf(ts[pending[k]], paths(ts[pending[k]]).value, limit), limit)
  }

  lemma {:induction false} BatchSelection(
      pending: seq<nat>, ts: seq<TagDesc>, paths: Paths, limit: nat)
    returns (sel: seq<nat>)
    requires Within(pending, |ts|) && pending != [] && BatchOf(pending, ts, paths, limit).Ok?
    ensures var costs := Costs(Pick(ts, pending), paths, limit);
      costs.Ok? && costs.value != [] && |costs.value| == |pending| && sel == Selected(costs.value, limit)
    ensures Within(sel, |pending|) && BatchOf(pending, ts, paths, limit).value.0 == Pick(pending, sel)
  {
    hide Costs, Selected, Taken, Remaining, Increasing;
    CostsAt(Pick(ts, pending), paths, limit, 0);
    var costs := Costs(Pick(ts, pending), paths, limit).value;
    sel := Selected(costs, limit);
    SelectionShape(costs, limit);
    TakenIsPick(pending, sel, 0, 0);
    assert sel[0..] == sel;
  }

  lemma {:induction false} SomeCostFits(pending: seq<nat>, ts: seq<TagDesc>, paths: Paths, limit: nat)
    requires Within(pending, |ts|) && Costs(Pick(ts, pending), paths, limit).Ok?
    ensures var costs := Costs(Pick(ts, pending), paths, limit).value;
      SomeFits(pending, ts, paths, limit) <==> exists k :: 0 <= k < |costs| && Fits(1, costs[k], limit)
  {
    hide Costs, CostOf, Fits;
    var picked := Pick(ts, pending);
    var costs := Costs(picked, paths, limit).value;
    CostsLength(picked, paths, limit);
    forall k | 0 <= k < |pending|
      ensures paths(ts[pending[k]]).Ok? && costs[k] == CostOf(ts[pending[k]], paths(ts[pending[k]]).value, limit)
    {
      CostsAt(picked, paths, limit, k);
    }
  }

  lemma {:induction false} CostsLength(ts: seq<TagDesc>, paths: Paths, limit: nat)
    requires Costs(ts, paths, limit).Ok?
    ensures |Costs(ts, paths, limit).value| == |ts|
  {
    if ts != [] {
      CostsAt(ts, paths, limit, 0);
    }
  }

  lemma {:induction false} CostsPaths(ts: seq<TagDesc>, paths: Paths, limit: nat)
    requires Costs(ts, paths, limit).Ok?
    ensures forall i :: 0 <= i < |ts| ==> paths(ts[i]).Ok?
  {
    forall i | 0 <= i < |ts| ensures paths(ts[i]).Ok? {
      CostsAt(ts, paths, limit, i);
    }
  }

  /** The estimated entries of a reply, without the framing. */
  function EstimatedReplies(ts: seq<TagDesc>): nat {
    if ts == [] then 0 else ResponseSize(ts[0]) + EstimatedReplies(ts[1..])
  }

  lemma {:induction false} TotalReplies(ts: seq<TagDesc>, paths: Paths, limit: nat)
    requires Costs(ts, paths, limit).Ok?
    ensures Total(Costs(ts, paths, limit).value).reply == EstimatedReplies(ts)
    decreases |ts|
  {
    hide ServiceFor, ResponseSize;
    if ts != [] {
      TotalReplies(ts[1..], paths, limit);
      var costs := Costs(ts, paths, limit).value;
      assert costs[1..] == Costs(ts[1..], paths, limit).value;
    }
  }

  /**
   The message of a batch, framed and with its connection header, is shorter than the connection
   size, and so is the reply by its estimate; only when no pending tag fits alone, the first one is
   sent alone all the same.
   */
  lemma {:induction false} BatchBelowLimit(
      pending: seq<nat>, ts: seq<TagDesc>, paths: Paths, limit: nat, connection: nat, sequence: nat, offsets: seq<nat>)
    requires Within(pending, |ts|) && pending != [] && BatchOf(pending, ts, paths, limit).Ok?
    requires |offsets| == |BatchOf(pending, ts, paths, limit).value.0|
    ensures var batch := BatchOf(pending, ts, paths, limit).value.0;
      && Within(batch, |ts|)
      && (forall i :: 0 <= i < |batch| ==> paths(Pick(ts, batch)[i]).Ok?)
      && var qs := BatchRequests(Pick(ts, batch), paths, limit, offsets);
        if SomeFits(pending, ts, paths, limit)
        then |Framed(ConnectedItems(connection, RequestData(sequence, qs)))| < limit
          && ReplyOverhead(|batch|) + EstimatedReplies(Pick(ts, batch)) < limit
        else batch == [pending[0]]
  {
    hide Costs, CostOf, BatchOf, Selected, Framed, ConnectedItems, RequestData, SomeFits, SumOf, Total;
    var sel := BatchSelection(pending, ts, paths, limit);
    var picked := Pick(ts, pending);
    var costs := Costs(picked, paths, limit).value;
    PickPick(ts, pending, sel);
    TotalIsSum(picked, paths, limit, sel);
    SelectionFits(costs, limit);
    SomeCostFits(pending, ts, paths, limit);
    var chosen := Pick(picked, sel);
    CostsPaths(chosen, paths, limit);
    RequestEstimateIsExact(connection, sequence, chosen, paths, limit, offsets);
    TotalReplies(chosen, paths, limit);
    if !SomeFits(pending, ts, paths, limit) {
      assert Pick(pending, [0]) == [pending[0]];
    }
  }

  /// Results

  function Store<V>(results: seq<Maybe<V>>, batch: seq<nat>, vals: seq<V>): (rs: seq<Maybe<V>>)
    requires Within(batch, |results|) && |vals| == |batch|
    ensures |rs| == |results|
    decreases |batch|
  {
    if batch == [] then results else Store(results[batch[0] := Some(vals[0])], batch[1..], vals[1..])
  }

  /** Reads the tags of one batch; as many values come back as tags are asked for. */
  type Reader<V> = seq<TagDesc> -> Result<seq<V>>

  ghost predicate Complete<V(!new)>(reader: Reader<V>) {
    forall ts: seq<TagDesc> :: reader(ts).Ok? ==> |reader(ts).value| == |ts|
  }

  ghost function ReadFrom<V(!new)>(
      pending: seq<nat>, ts: seq<TagDesc>, paths: Paths, limit: nat, reader: Reader<V>, results: seq<Maybe<V>>)
    : Result<seq<Maybe<V>>>
    requires Within(pending, |ts|) && |results| == |ts| && Complete(reader)
    decreases |pending|
  {
    if pending == [] then Ok(results)
    else
      var (batch, next) :- BatchOf(pending, ts, paths, limit);
      BatchDivides(pending, ts, paths, limit);
      var vals :- reader(Pick(ts, batch));
      ReadFrom(next, ts, paths, limit, reader, Store(results, batch, vals))
  }

  /** `ReadMap`, from the tag list on. */
  method ReadAll<V(!new)>(ts: seq<TagDesc>, paths: Paths, limit: nat, reader: Reader<V>)
    returns (r: Result<seq<Maybe<V>>>)
    requires Complete(reader)
    ensures r == ReadFrom(UpTo(|ts|), ts, paths, limit, reader, NoResults(|ts|))
  {
    hide BatchOf;
    var results: seq<Maybe<V>> := NoResults(|ts|);
    var pending := UpTo(|ts|);
    ghost var spec := ReadFrom(pending, ts, paths, limit, reader, results);
    while pending != []
      invariant Within(pending, |ts|) && |results| == |ts|
      invariant spec == ReadFrom(pending, ts, paths, limit, reader, results)
      decreases |pending|
    {
      var selected := SelectBatch(pending, ts, paths, limit);
      if selected.Err? {
        return Err(selected.error);
      }
      BatchDivides(pending, ts, paths, limit);
      var (selectedOrig, chosenTags, nextPending) := selected.value;
      var subResults := reader(chosenTags);
      if subResults.Err? {
        return Err(subResults.error);
      }
      ghost var before := results;
      assert Store(results, selectedOrig[0..], subResults.value[0..]) ==
        Store(before, selectedOrig, subResults.value) by {
        assert selectedOrig[0..] == selectedOrig && subResults.value[0..] == subResults.value;
      }
      for i := 0 to |selectedOrig|
        invariant |results| == |ts|
        invariant Store(results, selectedOrig[i..], subResults.value[i..]) ==
          Store(before, selectedOrig, subResults.value)
      {
        assert selectedOrig[i..][1..] == selectedOrig[i + 1..]
          && subResults.value[i..][1..] == subResults.value[i + 1..];
        results := results[selectedOrig[i] := Some(subResults.value[i])];
      }
      pending := nextPending;
    }
    return Ok(results);
  }

  /// Batched reading is reading one by one

  /** What a reader gives for a list is what it gives for every tag of it. */
  ghost predicate Reads<V(!new)>(reader: Reader<V>, value: TagDesc -> V) {
    forall ts: seq<TagDesc>, i: nat :: reader(ts).Ok? && i < |ts| && i < |reader(ts).value| ==>
      reader(ts).value[i] == value(ts[i])
  }

  /** Lists that the packer makes of these tags. */
  ghost predicate IsBatch(us: seq<TagDesc>, ts: seq<TagDesc>, paths: Paths, limit: nat) {
    exists pending: seq<nat> :: BatchFrom(us, pending, ts, paths, limit)
  }

  predicate BatchFrom(us: seq<TagDesc>, pending: seq<nat>, ts: seq<TagDesc>, paths: Paths, limit: nat) {
    && pending != [] && Within(pending, |ts|) && BatchOf(pending, ts, paths, limit).Ok?
    && Within(BatchOf(pending, ts, paths, limit).value.0, |ts|)
    && us == Pick(ts, BatchOf(pending, ts, paths, limit).value.0)
  }

  /** The same for those lists only. */
  ghost predicate ReadsBatches<V(
      !new)>(reader: Reader<V>, value: TagDesc -> V, ts: seq<TagDesc>, paths: Paths, limit: nat) {
    forall us: seq<TagDesc>, i: nat ::
      IsBatch(us, ts, paths, limit) && reader(us).Ok? && i < |us| && i < |reader(us).value| ==>
      reader(us).value[i] == value(us[i])
  }

  lemma {:induction false} StoreAt<V>(
      results: seq<Maybe<V>>, batch: seq<nat>, vals: seq<V>, ts: seq<TagDesc>, value: TagDesc -> V, j: nat)
    requires Within(batch, |results|) && |vals| == |batch| && |ts| == |results| && j < |ts|
    requires forall k :: 0 <= k < |batch| ==> vals[k] == value(ts[batch[k]])
    ensures Store(results, batch, vals)[j] == if j in batch then Some(value(ts[j])) else results[j]
    decreases |batch|
  {
    if batch != [] {
      StoreAt(results[batch[0] := Some(vals[0])], batch[1..], vals[1..], ts, value, j);
    }
  }

  ghost predicate Done<V(!new)>(results: seq<Maybe<V>>, pending: seq<nat>, ts: seq<TagDesc>, value: TagDesc -> V)
    requires |results| == |ts|
  {
    forall j: nat :: j < |ts| && j !in pending ==> results[j] == Some(value(ts[j]))
  }

  lemma {:induction false} BatchDone<V(!new)>(
      results: seq<Maybe<V>>, pending: seq<nat>, batch: seq<nat>, next: seq<nat>,
      vals: seq<V>, ts: seq<TagDesc>, value: TagDesc -> V)
    requires |results| == |ts| && Within(batch, |ts|) && |vals| == |batch| && Done(results, pending, ts, value)
    requires multiset(pending) == multiset(batch) + multiset(next)
    requires forall k :: 0 <= k < |batch| ==> vals[k] == value(ts[batch[k]])
    ensures Done(Store(results, batch, vals), next, ts, value)
  {
    forall j: nat | j < |ts| && j !in next ensures Store(results, batch, vals)[j] == Some(value(ts[j])) {
      StoreAt(results, batch, vals, ts, value, j);
      if j !in batch {
        assert j !in multiset(pending);
      }
    }
  }

  lemma {:induction false} RunDone<V(!new)>(
      pending: seq<nat>, ts: seq<TagDesc>, paths: Paths, limit: nat, reader: Reader<V>, results: seq<Maybe<V>>,
      value: TagDesc -> V)
    requires Within(pending, |ts|) && |results| == |ts| && Complete(reader)
      && ReadsBatches(reader, value, ts, paths, limit)
    requires Done(results, pending, ts, value)
    ensures var r := ReadFrom(pending, ts, paths, limit, reader, results);
      r.Ok? ==> |r.value| == |ts| && Done(r.value, [], ts, value)
    decreases |pending|
  {
    hide BatchOf, Store;
    if pending != [] && BatchOf(pending, ts, paths, limit).Ok? {
      BatchDivides(pending, ts, paths, limit);
      var (batch, next) := BatchOf(pending, ts, paths, limit).value;
      var us := Pick(ts, batch);
      assert BatchFrom(us, pending, ts, paths, limit);
      if reader(us).Ok? {
        BatchDone(results, pending, batch, next, reader(us).value, ts, value);
        RunDone(next, ts, paths, limit, reader, Store(results, batch, reader(us).value), value);
      }
    }
  }

  /** Every path can be built and every batch can be read. */
  ghost predicate AllReadable<V(!new)>(ts: seq<TagDesc>, paths: Paths, limit: nat, reader: Reader<V>) {
    && (forall i :: 0 <= i < |ts| ==> paths(ts[i]).Ok?)
    && (forall us: seq<TagDesc> :: IsBatch(us, ts, paths, limit) ==> reader(us).Ok?)
  }

  lemma {:induction false} Succeeds<V(!new)>(
      pending: seq<nat>, ts: seq<TagDesc>, paths: Paths, limit: nat, reader: Reader<V>, results: seq<Maybe<V>>)
    requires Within(pending, |ts|) && |results| == |ts| && Complete(reader)
    requires AllReadable(ts, paths, limit, reader)
    ensures ReadFrom(pending, ts, paths, limit, reader, results).Ok?
    decreases |pending|
  {
    hide Selected, Costs, Taken, Remaining;
    if pending != [] {
      CostsFail(Pick(ts, pending), paths, limit, |pending|);
      BatchDivides(pending, ts, paths, limit);
      var (batch, next) := BatchOf(pending, ts, paths, limit).value;
      assert BatchFrom(Pick(ts, batch), pending, ts, paths, limit);
      Succeeds(next, ts, paths, limit, reader, Store(results, batch, reader(Pick(ts, batch)).value));
    }
  }

  function NoResults<V>(n: nat): (rs: seq<Maybe<V>>)
    ensures |rs| == n
  {
    seq(n, _ => None)
  }

  /**
   A batched read that succeeds gives every tag the value that reading it alone would give, and it
   succeeds whenever every path can be built and every batch can be read.
   */
  lemma {:induction false} ReadsEachTag<V(!new)>(
      ts: seq<TagDesc>, paths: Paths, limit: nat, reader: Reader<V>, value: TagDesc -> V)
    requires Complete(reader) && ReadsBatches(reader, value, ts, paths, limit)
    ensures var r := ReadFrom(UpTo(|ts|), ts, paths, limit, reader, NoResults(|ts|));
      && (r.Ok? ==> |r.value| == |ts| && forall j :: 0 <= j < |ts| ==> r.value[j] == Some(value(ts[j])))
      && (AllReadable(ts, paths, limit, reader) ==> r.Ok?)
  {
    hide ReadFrom, ReadsBatches, Complete, AllReadable;
    forall j: nat | j < |ts| ensures j in UpTo(|ts|) {
      assert UpTo(|ts|)[j] == j;
    }
    RunDone(UpTo(|ts|), ts, paths, limit, reader, NoResults(|ts|), value);
    if AllReadable(ts, paths, limit, reader) {
      Succeeds(UpTo(|ts|), ts, paths, limit, reader, NoResults(|ts|));
    }
  }

  /** A batched read succeeds exactly when every tag can be put into a batch and every batch can be read. */
  lemma {:induction false} ReadsIff<V(!new)>(
      pending: seq<nat>, ts: seq<TagDesc>, paths: Paths, limit: nat, reader: Reader<V>, results: seq<Maybe<V>>)
    requires Within(pending, |ts|) && |results| == |ts| && Complete(reader)
    ensures ReadFrom(pending, ts, paths, limit, reader, results).Ok? <==>
      Batches(pending, ts, paths, limit).Ok? && AllRead(Batches(pending, ts, paths, limit).value, ts, reader)
    decreases |pending|
  {
    hide BatchOf;
    if pending != [] {
      var one := BatchOf(pending, ts, paths, limit);
      if one.Ok? {
        BatchDivides(pending, ts, paths, limit);
        var (batch, next) := one.value;
        var vals := reader(Pick(ts, batch));
        if vals.Ok? {
          ReadsIff(next, ts, paths, limit, reader, Store(results, batch, vals.value));
        }
        var more := Batches(next, ts, paths, limit);
        if more.Ok? {
          assert Batches(pending, ts, paths, limit) == Ok([batch] + more.value);
          AllReadCons(batch, more.value, ts, reader);
        }
      }
    }
  }

  ghost predicate AllRead<V(!new)>(batches: seq<seq<nat>>, ts: seq<TagDesc>, reader: Reader<V>) {
    forall i :: 0 <= i < |batches| ==> Within(batches[i], |ts|) ==> reader(Pick(ts, batches[i])).Ok?
  }

  lemma {:induction false} AllReadCons<V(!new)>(
      batch: seq<nat>, more: seq<seq<nat>>, ts: seq<TagDesc>, reader: Reader<V>)
    requires Within(batch, |ts|)
    ensures AllRead([batch] + more, ts, reader) <==> reader(Pick(ts, batch)).Ok? && AllRead(more, ts, reader)
  {
    var all := [batch] + more;
    assert all[0] == batch && forall i :: 0 <= i < |more| ==> more[i] == all[i + 1];
    assert forall i :: 0 < i < |all| ==> all[i] == more[i - 1];
  }
}
