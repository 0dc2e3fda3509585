/** What the greedy packer guarantees. */
module BatchingLaws {
  import opened Wire
  import opened Sequences
  import opened Items
  import opened MultiMessage
  import opened Batching

  /// The selection

  predicate Between(sel: seq<nat>, lo: nat, hi: nat) {
    forall k :: 0 <= k < |sel| ==> lo <= sel[k] < hi
  }

  lemma {:induction false} GreedyShape(costs: seq<Cost>, limit: nat, i: nat, n: nat, sum: Cost)
    requires i <= |costs|
    ensures Increasing(Greedy(costs, limit, i, n, sum))
    ensures Between(Greedy(costs, limit, i, n, sum), i, |costs|)
    decreases |costs| - i
  {
    if i < |costs| {
      var next := Add(sum, costs[i]);
      if Fits(n + 1, next, limit) {
        GreedyShape(costs, limit, i + 1, n + 1, next);
        var more := Greedy(costs, limit, i + 1, n + 1, next);
        var sel := [i] + more;
        forall k | 0 <= k < |sel| ensures i <= sel[k] < |costs| && (k > 0 ==> sel[k] == more[k - 1]) {
        }
      } else {
        GreedyShape(costs, limit, i + 1, n, sum);
      }
    }
  }

  /** Never empty, in order, without repetition, in range. */
  lemma {:induction false} SelectionShape(costs: seq<Cost>, limit: nat)
    requires costs != []
    ensures var sel := Selected(costs, limit);
      sel != [] && Increasing(sel) && Between(sel, 0, |costs|)
  {
    GreedyShape(costs, limit, 0, 0, NO_COST);
  }

  /** The sum of the selected costs. */
  function SumOf(costs: seq<Cost>, sel: seq<nat>): Cost
    requires Between(sel, 0, |costs|)
  {
    if sel == [] then NO_COST else Add(costs[sel[0]], SumOf(costs, sel[1..]))
  }

  lemma {:induction false} GreedyFits(costs: seq<Cost>, limit: nat, i: nat, n: nat, sum: Cost)
    requires i <= |costs|
    ensures Between(Greedy(costs, limit, i, n, sum), 0, |costs|)
    ensures var sel := Greedy(costs, limit, i, n, sum);
      sel != [] ==> Fits(n + |sel|, Add(sum, SumOf(costs, sel)), limit)
    decreases |costs| - i
  {
    GreedyShape(costs, limit, i, n, sum);
    if i < |costs| {
      var next := Add(sum, costs[i]);
      if Fits(n + 1, next, limit) {
        GreedyFits(costs, limit, i + 1, n + 1, next);
        var sel := Greedy(costs, limit, i, n, sum);
        assert sel[1..] == Greedy(costs, limit, i + 1, n + 1, next);
      } else {
        GreedyFits(costs, limit, i + 1, n, sum);
      }
    }
  }

  lemma {:induction false} GreedyMaximal(costs: seq<Cost>, limit: nat, i: nat, n: nat, sum: Cost, j: nat)
    requires i <= j < |costs| && j !in Greedy(costs, limit, i, n, sum)
    ensures Between(Greedy(costs, limit, i, n, sum), 0, |costs|)
    ensures var sel := Greedy(costs, limit, i, n, sum);
      !Fits(n + |sel| + 1, Add(Add(sum, SumOf(costs, sel)), costs[j]), limit)
    decreases |costs| - i
  {
    GreedyShape(costs, limit, i, n, sum);
    var next := Add(sum, costs[i]);
    var sel := Greedy(costs, limit, i, n, sum);
    if Fits(n + 1, next, limit) {
      var more := Greedy(costs, limit, i + 1, n + 1, next);
      assert sel[0] == i && sel[1..] == more;
      assert j !in more;
      GreedyMaximal(costs, limit, i + 1, n + 1, next, j);
    } else if j > i {
      GreedyMaximal(costs, limit, i + 1, n, sum, j);
    }
  }

  /** The batch is one the limits allow, unless no tag fits even alone; then the first tag goes alone. */
  lemma {:induction false} SelectionFits(costs: seq<Cost>, limit: nat)
    requires costs != []
    ensures Between(Selected(costs, limit), 0, |costs|)
    ensures var sel := Selected(costs, limit);
      if exists j :: 0 <= j < |costs| && Fits(1, costs[j], limit)
      then Fits(|sel|, SumOf(costs, sel), limit)
      else sel == [0]
  {
    hide Fits;
    GreedyFits(costs, limit, 0, 0, NO_COST);
    var sel := Greedy(costs, limit, 0, 0, NO_COST);
    forall j | 0 <= j < |costs| && sel == [] ensures !Fits(1, costs[j], limit) {
      GreedyMaximal(costs, limit, 0, 0, NO_COST, j);
    }
    if sel != [] {
      FirstFits(costs, limit, 0);
    }
  }

  /** What is taken first fits alone. */
  lemma {:induction false} FirstFits(costs: seq<Cost>, limit: nat, i: nat)
    requires i <= |costs| && Greedy(costs, limit, i, 0, NO_COST) != []
    ensures var j := Greedy(costs, limit, i, 0, NO_COST)[0]; i <= j < |costs| && Fits(1, costs[j], limit)
    decreases |costs| - i
  {
    if i < |costs| && !Fits(1, Add(NO_COST, costs[i]), limit) {
      FirstFits(costs, limit, i + 1);
    }
  }

  lemma {:induction false} SomethingFits(costs: seq<Cost>, limit: nat, k: nat)
    requires k < |costs| && Fits(1, costs[k], limit)
    ensures Greedy(costs, limit, 0, 0, NO_COST) != []
  {
    hide Fits;
    if Greedy(costs, limit, 0, 0, NO_COST) == [] {
      GreedyMaximal(costs, limit, 0, 0, NO_COST, k);
    }
  }

  /** No tag left out could be added: the batch is maximal, though batches need not be fewest. */
  lemma {:induction false} SelectionMaximal(costs: seq<Cost>, limit: nat, j: nat)
    requires j < |costs| && j !in Selected(costs, limit)
    requires exists k :: 0 <= k < |costs| && Fits(1, costs[k], limit)
    ensures Between(Selected(costs, limit), 0, |costs|)
    ensures var sel := Selected(costs, limit);
      !Fits(|sel| + 1, Add(SumOf(costs, sel), costs[j]), limit)
  {
    hide Fits, SumOf;
    var k :| 0 <= k < |costs| && Fits(1, costs[k], limit);
    SomethingFits(costs, limit, k);
    GreedyShape(costs, limit, 0, 0, NO_COST);
    GreedyMaximal(costs, limit, 0, 0, NO_COST, j);
    var sum := SumOf(costs, Greedy(costs, limit, 0, 0, NO_COST));
    assert Add(NO_COST, sum) == sum;
  }

  /// The prefix counter

  function PrefixLength(costs: seq<Cost>, limit: nat, i: nat, sum: Cost): (n: nat)
    requires i <= |costs|
    ensures i <= n <= |costs|
    decreases |costs| - i
  {
    if i == |costs| || !Fits(i + 1, Add(sum, costs[i]), limit) then i
    else PrefixLength(costs, limit, i + 1, Add(sum, costs[i]))
  }

  /** The counter counts the costs of the same tags. */
  lemma {:induction false} CountIsPrefix(ts: seq<TagDesc>, paths: Paths, limit: nat, i: nat, sum: Cost)
    requires Costs(ts, paths, limit).Ok? && i <= |ts|
    ensures |Costs(ts, paths, limit).value| == |ts|
    ensures CountFrom(ts, paths, limit, i, sum) == Ok(PrefixLength(Costs(ts, paths, limit).value, limit, i, sum))
    decreases |ts| - i
  {
    hide CostOf, Fits;
    if ts == [] {
    } else if i < |ts| {
      CostsAt(ts, paths, limit, i);
      CountIsPrefix(ts, paths, limit, i + 1, Add(sum, Costs(ts, paths, limit).value[i]));
    } else {
      CostsAt(ts, paths, limit, 0);
    }
  }

  /** As long as everything fits, the packer takes everything. */
  lemma {:induction false} GreedyTakesPrefix(costs: seq<Cost>, limit: nat, i: nat, sum: Cost)
    requires i <= |costs|
    ensures var sel, n := Greedy(costs, limit, i, i, sum), PrefixLength(costs, limit, i, sum) - i;
      |sel| >= n && forall k :: 0 <= k < n ==> sel[k] == i + k
    decreases |costs| - i
  {
    hide Fits;
    if i < |costs| && Fits(i + 1, Add(sum, costs[i]), limit) {
      GreedyTakesPrefix(costs, limit, i + 1, Add(sum, costs[i]));
      var sel := Greedy(costs, limit, i, i, sum);
      assert sel[1..] == Greedy(costs, limit, i + 1, i + 1, Add(sum, costs[i]));
      assert forall k :: 0 < k < |sel| ==> sel[k] == sel[1..][k - 1];
    }
  }

  predicate TakesPrefix(sel: seq<nat>, n: nat) {
    |sel| >= n && forall k :: 0 <= k < n ==> sel[k] == k
  }

  /**
   The packer never takes fewer tags than the prefix counter counts, and it takes those very tags
   unless the first one does not fit while a later one does.
   */
  lemma {:induction false} PacksThePrefix(costs: seq<Cost>, limit: nat)
    requires costs != []
    ensures var sel, n := Selected(costs, limit), Max(PrefixLength(costs, limit, 0, NO_COST), 1);
      |sel| >= n && (TakesPrefix(sel, n) <==> Fits(1, costs[0], limit) || Greedy(costs, limit, 0, 0, NO_COST) == [])
  {
    hide Fits;
    GreedyTakesPrefix(costs, limit, 0, NO_COST);
    assert Add(NO_COST, costs[0]) == costs[0];
    var sel := Greedy(costs, limit, 0, 0, NO_COST);
    if sel != [] {
      FirstFits(costs, limit, 0);
    }
  }

  /// The estimates

  /** The requests of a batch, each from its continuation offset on. */
  function BatchRequests(ts: seq<TagDesc>, paths: Paths, limit: nat, offsets: seq<nat>): (qs: seq<Request>)
    requires |offsets| == |ts| && forall i :: 0 <= i < |ts| ==> paths(ts[i]).Ok?
    ensures |qs| == |ts|
  {
    if ts == [] then []
    else
      var q := Request(ServiceFor(ts[0], limit), paths(ts[0]).value, ts[0].elements, offsets[0]);
      [q] + BatchRequests(ts[1..], paths, limit, offsets[1..])
  }

  function Total(costs: seq<Cost>): Cost {
    if costs == [] then NO_COST else Add(costs[0], Total(costs[1..]))
  }

  lemma {:induction false} TableLength(at: nat, parts: seq<seq<byte>>)
    ensures |Packed(parts)| == 2 + 2 * |parts| + |Concat(parts)|
  {
  }

  lemma {:induction false} OneRequest(t: TagDesc, path: seq<byte>, limit: nat, offset: nat)
    ensures |RequestBytes(Request(ServiceFor(t, limit), path, t.elements, offset))| == CostOf(t, path, limit).request
  {
    hide ServiceFor, ResponseSize;
  }

  lemma {:induction false} BatchLength(ts: seq<TagDesc>, paths: Paths, limit: nat, offsets: seq<nat>)
    requires |offsets| == |ts| && forall i :: 0 <= i < |ts| ==> paths(ts[i]).Ok?
    requires Costs(ts, paths, limit).Ok?
    ensures |Concat(AllRequestBytes(BatchRequests(ts, paths, limit, offsets)))| ==
      Total(Costs(ts, paths, limit).value).request
    decreases |ts|
  {
    hide RequestBytes, CostOf, ServiceFor;
    if ts != [] {
      BatchLength(ts[1..], paths, limit, offsets[1..]);
      OneRequest(ts[0], paths(ts[0]).value, limit, offsets[0]);
      var qs := BatchRequests(ts, paths, limit, offsets);
      assert qs[1..] == BatchRequests(ts[1..], paths, limit, offsets[1..]);
      assert AllRequestBytes(qs)[1..] == AllRequestBytes(qs[1..]);
      var costs := Costs(ts, paths, limit).value;
      assert costs[1..] == Costs(ts[1..], paths, limit).value;
    }
  }

  lemma {:induction false} FrameLength(connection: nat, data: seq<byte>)
    ensures |Framed(ConnectedItems(connection, data))| == 20 + |data|
  {
    var vs := ConnectedItems(connection, data);
    assert vs[1..] == [vs[1]] && vs[1..][1..] == [];
    assert AllItemBytes(vs[1..]) == ItemBytes(vs[1]) + AllItemBytes([]);
    assert AllItemBytes(vs) == ItemBytes(vs[0]) + AllItemBytes(vs[1..]);
  }

  /** The request estimate is exact: it is the length of the framed message. */
  lemma {:induction false} RequestEstimateIsExact(
      connection: nat, sequence: nat, ts: seq<TagDesc>, paths: Paths, limit: nat, offsets: seq<nat>)
    requires |offsets| == |ts| && forall i :: 0 <= i < |ts| ==> paths(ts[i]).Ok?
    requires Costs(ts, paths, limit).Ok?
    ensures var qs := BatchRequests(ts, paths, limit, offsets);
      |Framed(ConnectedItems(connection, RequestData(sequence, qs)))| ==
      RequestOverhead(|ts|) + Total(Costs(ts, paths, limit).value).request
  {
    hide Framed, ConnectedItems, Packed, AllRequestBytes, Concat, Total, Costs;
    var qs := BatchRequests(ts, paths, limit, offsets);
    FrameLength(connection, RequestData(sequence, qs));
    TableLength(0, AllRequestBytes(qs));
    BatchLength(ts, paths, limit, offsets);
  }
}
