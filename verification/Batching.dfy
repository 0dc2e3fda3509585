/** Which tags go into one message: the estimates and the greedy packer of read.go. */
module Batching {
  import opened Wire
  import opened Text
  import opened MultiMessage
  import TagPath
  import CipTypes

  const LARGE_CONNECTION: nat := 4000

  /** `structSize` is what packing the Go value takes, 0 when it cannot be packed. */
  datatype TagDesc = TagDesc(name: text, cipType: byte, elements: nat, structSize: nat)

  /** The path a client sends for a tag. */
  type Paths = TagDesc -> Result<seq<byte>>

  /** The path without listed tags; names are taken in lower case. */
  function SymbolicPath(t: TagDesc): Result<seq<byte>> {
    match TagPath.SymbolicIoi(Lower(t.name), t.cipType == CipTypes.BOOL)
    case Ok(ioi) => Ok(ioi.buffer)
    case Err(e) => Err(e)
  }

  /// Estimates

  /** CPF framing, connection address, item header and multiple service header. */
  function RequestOverhead(services: nat): nat {
    30 + 2 * services
  }

  function ReplyOverhead(replies: nat): nat {
    28 + 2 * replies
  }

  function RoundUp8(n: nat): nat {
    if n % 8 == 0 then n else n + (8 - n % 8)
  }

  /** `estimateTagResponseSize` */
  function ResponseSize(t: TagDesc): nat {
    var elements := if t.elements < 1 then 1 else t.elements;
    if t.cipType != CipTypes.STRUCT then 6 + CipTypes.Size(t.cipType) * elements
    else 8 + RoundUp8(if t.structSize == 0 then CipTypes.Size(t.cipType) else t.structSize) * elements
  }

  /** `readServiceForTag` */
  function ServiceFor(t: TagDesc, connectionSize: nat): byte {
    if t.cipType == CipTypes.STRUCT || t.elements > 1 then FRAG_READ
    else
      var limit := if connectionSize > 0 then connectionSize else LARGE_CONNECTION;
      if ReplyOverhead(1) + ResponseSize(t) >= limit then FRAG_READ else READ
  }

  /** What a tag adds to the request and to the reply. */
  datatype Cost = Cost(request: nat, reply: nat)

  function CostOf(t: TagDesc, path: seq<byte>, connectionSize: nat): Cost {
    Cost(2 + |path| + (if ServiceFor(t, connectionSize) == FRAG_READ then 6 else 2), ResponseSize(t))
  }

  function Costs(ts: seq<TagDesc>, paths: Paths, connectionSize: nat): Result<seq<Cost>>
    decreases |ts|
  {
    if ts == [] then Ok([])
    else
      var path :- paths(ts[0]);
      var more :- Costs(ts[1..], paths, connectionSize);
      Ok([CostOf(ts[0], path, connectionSize)] + more)
  }

  /// The greedy packer

  /** `n` services with these sums stay below the connection size both ways. */
  predicate Fits(n: nat, sum: Cost, limit: nat) {
    RequestOverhead(n) + sum.request < limit && ReplyOverhead(n) + sum.reply < limit
  }

  function Add(a: Cost, b: Cost): Cost {
    Cost(a.request + b.request, a.reply + b.reply)
  }

  const NO_COST := Cost(0, 0)

  /** From tag `i` on, with `n` tags of sum `sum` packed: every tag that still fits is taken. */
  function Greedy(costs: seq<Cost>, limit: nat, i: nat, n: nat, sum: Cost): (sel: seq<nat>)
    requires i <= |costs|
    decreases |costs| - i
  {
    if i == |costs| then []
    else if Fits(n + 1, Add(sum, costs[i]), limit) then [i] + Greedy(costs, limit, i + 1, n + 1, Add(sum, costs[i]))
    else Greedy(costs, limit, i + 1, n, sum)
  }

  /** When nothing fits, the first tag goes alone. */
  function Selected(costs: seq<Cost>, limit: nat): seq<nat> {
    if costs == [] then []
    else
      var sel := Greedy(costs, limit, 0, 0, NO_COST);
      if sel == [] then [0] else sel
  }

  lemma {:induction false} CostsAt(ts: seq<TagDesc>, paths: Paths, connectionSize: nat, i: nat)
    requires Costs(ts, paths, connectionSize).Ok? && i < |ts|
    ensures paths(ts[i]).Ok? && |Costs(ts, paths, connectionSize).value| == |ts|
    ensures Costs(ts, paths, connectionSize).value[i] == CostOf(ts[i], paths(ts[i]).value, connectionSize)
    decreases |ts|
  {
    hide CostOf;
    if i > 0 {
      CostsAt(ts[1..], paths, connectionSize, i - 1);
    } else if |ts| > 1 {
      CostsAt(ts[1..], paths, connectionSize, 0);
    }
  }

  /** The first path that cannot be built decides. */
  lemma {:induction false} CostsFail(ts: seq<TagDesc>, paths: Paths, connectionSize: nat, i: nat)
    requires i <= |ts| && forall k :: 0 <= k < i ==> paths(ts[k]).Ok?
    ensures i < |ts| && paths(ts[i]).Err? ==> Costs(ts, paths, connectionSize) == Err(paths(ts[i]).error)
    ensures i == |ts| ==> Costs(ts, paths, connectionSize).Ok?
    decreases |ts|
  {
    hide CostOf;
    if i > 0 {
      CostsFail(ts[1..], paths, connectionSize, i - 1);
    }
  }

  /** `selectPackedTagIndexes` */
  method SelectIndexes(ts: seq<TagDesc>, paths: Paths, limit: nat) returns (r: Result<seq<nat>>)
    ensures r.Ok? <==> Costs(ts, paths, limit).Ok?
    ensures r.Ok? ==> r.value == Selected(Costs(ts, paths, limit).value, limit)
    ensures r.Err? ==> r.error == Costs(ts, paths, limit).error
  {
    hide Costs, CostOf, Greedy, ServiceFor, ResponseSize;
    if ts == [] {
      CostsFail(ts, paths, limit, 0);
      NoCosts(ts, paths, limit);
      return Ok([]);
    }
    var selected: seq<nat> := [];
    var packedBytes, responseSize := 0, 0;
    ghost var all := Costs(ts, paths, limit);
    if all.Ok? {
      CostsAt(ts, paths, limit, 0);
      GreedyStart(all.value, limit);
    }
    for i := 0 to |ts|
      invariant packedBytes >= 0 && responseSize >= 0
      invariant forall k :: 0 <= k < i ==> paths(ts[k]).Ok?
      invariant all.Ok? ==>
        Greedy(all.value, limit, 0, 0, NO_COST) ==
        selected + Greedy(all.value, limit, i, |selected|, Cost(packedBytes, responseSize))
    {
      CostsFail(ts, paths, limit, i);
      var path := paths(ts[i]);
      if path.Err? {
        return Err(path.error);
      }
      if all.Ok? {
        CostsAt(ts, paths, limit, i);
      }
      var footer := if ServiceFor(ts[i], limit) == FRAG_READ then 6 else 2;
      var messageSize := RequestOverhead(|selected| + 1) + packedBytes + 2 + |path.value| + footer;
      var replySize := ReplyOverhead(|selected| + 1) + responseSize + ResponseSize(ts[i]);
      CostParts(ts[i], path.value, limit);
      ghost var before, sum := selected, Cost(packedBytes, responseSize);
      if !(messageSize >= limit || replySize >= limit) {
        selected := selected + [i];
        packedBytes := packedBytes + 2 + |path.value| + footer;
        responseSize := responseSize + ResponseSize(ts[i]);
      }
      if all.Ok? {
        GreedyStep(before, all.value, limit, i, sum);
      }
    }
    CostsFail(ts, paths, limit, |ts|);
    GreedyEnd(selected, all.value, limit, Cost(packedBytes, responseSize));
    if selected == [] {
      selected := [0];
    }
    return Ok(selected);
  }

  lemma {:induction false} NoCosts(ts: seq<TagDesc>, paths: Paths, limit: nat)
    requires ts == []
    ensures Costs(ts, paths, limit) == Ok([])
  {
  }

  lemma {:induction false} CostParts(t: TagDesc, path: seq<byte>, limit: nat)
    ensures CostOf(t, path, limit) ==
      Cost(2 + |path| + (if ServiceFor(t, limit) == FRAG_READ then 6 else 2), ResponseSize(t))
  {
  }

  lemma {:induction false} GreedyEnd(before: seq<nat>, costs: seq<Cost>, limit: nat, sum: Cost)
    ensures before + Greedy(costs, limit, |costs|, |before|, sum) == before
  {
  }

  lemma {:induction false} GreedyStart(costs: seq<Cost>, limit: nat)
    ensures [] + Greedy(costs, limit, 0, 0, NO_COST) == Greedy(costs, limit, 0, 0, NO_COST)
  {
  }

  lemma {:induction false} GreedyStep(before: seq<nat>, costs: seq<Cost>, limit: nat, i: nat, sum: Cost)
    requires i < |costs|
    ensures var n, next := |before|, Add(sum, costs[i]);
      before + Greedy(costs, limit, i, n, sum) ==
      if Fits(n + 1, next, limit) then (before + [i]) + Greedy(costs, limit, i + 1, n + 1, next)
      else before + Greedy(costs, limit, i + 1, n, sum)
  {
  }

  /// The prefix counter

  /** How many tags fit before the first that does not; tags behind that one are not looked at. */
  function CountFrom(ts: seq<TagDesc>, paths: Paths, limit: nat, i: nat, sum: Cost): Result<nat>
    requires i <= |ts|
    decreases |ts| - i
  {
    if i == |ts| then Ok(i)
    else
      var path :- paths(ts[i]);
      var next := Add(sum, CostOf(ts[i], path, limit));
      if Fits(i + 1, next, limit) then CountFrom(ts, paths, limit, i + 1, next) else Ok(i)
  }

  /** `countFragIOIsThatFit` */
  method CountThatFit(ts: seq<TagDesc>, paths: Paths, limit: nat) returns (r: Result<nat>)
    ensures r.Ok? <==> CountFrom(ts, paths, limit, 0, NO_COST).Ok?
    ensures r.Ok? ==> r.value == Max(CountFrom(ts, paths, limit, 0, NO_COST).value, 1)
    ensures r.Err? ==> r.error == CountFrom(ts, paths, limit, 0, NO_COST).error
  {
    hide CostOf, ServiceFor, ResponseSize;
    var n := 1;
    var bytes, responseSize := 0, 0;
    for i := 0 to |ts|
      invariant bytes >= 0 && responseSize >= 0
      invariant n == Max(i, 1)
      invariant CountFrom(ts, paths, limit, 0, NO_COST) == CountFrom(ts, paths, limit, i, Cost(bytes, responseSize))
    {
      var path := paths(ts[i]);
      if path.Err? {
        return Err(path.error);
      }
      var footer := if ServiceFor(ts[i], limit) == FRAG_READ then 6 else 2;
      CostParts(ts[i], path.value, limit);
      var newSize := RequestOverhead(i + 1) + bytes + 2 + |path.value| + footer;
      var replySize := ReplyOverhead(i + 1) + responseSize + ResponseSize(ts[i]);
      if newSize >= limit || replySize >= limit {
        break;
      }
      responseSize := responseSize + ResponseSize(ts[i]);
      bytes := bytes + 2 + |path.value| + footer;
      n := i + 1;
    }
    return Ok(n);
  }

  /// One batch

  function Pick<T>(xs: seq<T>, ks: seq<nat>): (ys: seq<T>)
    requires forall k :: 0 <= k < |ks| ==> ks[k] < |xs|
    ensures |ys| == |ks| && forall k :: 0 <= k < |ks| ==> ys[k] == xs[ks[k]]
  {
    if ks == [] then [] else [xs[ks[0]]] + Pick(xs, ks[1..])
  }

  /** The entries of `pending` from `pos` on whose positions the selection lists from `k` on. */
  function Taken(pending: seq<nat>, sel: seq<nat>, pos: nat, k: nat): seq<nat>
    requires pos <= |pending|
    decreases |pending| - pos
  {
    if pos == |pending| then []
    else if k < |sel| && sel[k] == pos then [pending[pos]] + Taken(pending, sel, pos + 1, k + 1)
    else Taken(pending, sel, pos + 1, k)
  }

  function Remaining(pending: seq<nat>, sel: seq<nat>, pos: nat, k: nat): seq<nat>
    requires pos <= |pending|
    decreases |pending| - pos
  {
    if pos == |pending| then []
    else if k < |sel| && sel[k] == pos then Remaining(pending, sel, pos + 1, k + 1)
    else [pending[pos]] + Remaining(pending, sel, pos + 1, k)
  }

  predicate Within(ks: seq<nat>, n: nat) {
    forall k :: 0 <= k < |ks| ==> ks[k] < n
  }

  lemma {:induction false} TakenWithin(pending: seq<nat>, sel: seq<nat>, pos: nat, k: nat, n: nat)
    requires pos <= |pending| && Within(pending, n)
    ensures Within(Taken(pending, sel, pos, k), n) && Within(Remaining(pending, sel, pos, k), n)
    decreases |pending| - pos
  {
    if pos < |pending| {
      var k1 := if k < |sel| && sel[k] == pos then k + 1 else k;
      TakenWithin(pending, sel, pos + 1, k1, n);
    }
  }

  /** The chosen entries and the ones left over. */
  function BatchOf(pending: seq<nat>, ts: seq<TagDesc>, paths: Paths, limit: nat): Result<(seq<nat>, seq<nat>)>
    requires Within(pending, |ts|)
  {
    var costs :- Costs(Pick(ts, pending), paths, limit);
    var sel := Selected(costs, limit);
    Ok((Taken(pending, sel, 0, 0), Remaining(pending, sel, 0, 0)))
  }

  /** `selectPackedTagBatch` */
  method SelectBatch(pending: seq<nat>, ts: seq<TagDesc>, paths: Paths, limit: nat)
    returns (r: Result<(seq<nat>, seq<TagDesc>, seq<nat>)>)
    requires Within(pending, |ts|)
    ensures r.Ok? <==> BatchOf(pending, ts, paths, limit).Ok?
    ensures r.Ok? ==> (r.value.0, r.value.2) == BatchOf(pending, ts, paths, limit).value
    ensures r.Ok? ==> Within(r.value.0, |ts|) && r.value.1 == Pick(ts, r.value.0)
    ensures r.Err? ==> r.error == BatchOf(pending, ts, paths, limit).error
  {
    hide Costs, Selected, Taken, Remaining, Pick;
    var local := SelectIndexes(Pick(ts, pending), paths, limit);
    if local.Err? {
      return Err(local.error);
    }
    var sel := local.value;
    var selectedOrig: seq<nat>, nextPending: seq<nat> := [], [];
    var chosenTags: seq<TagDesc> := [];
    var selPos := 0;
    assert [] + Taken(pending, sel, 0, 0) == Taken(pending, sel, 0, 0);
    assert [] + Remaining(pending, sel, 0, 0) == Remaining(pending, sel, 0, 0);
    for pos := 0 to |pending|
      invariant 0 <= selPos <= |sel|
      invariant Taken(pending, sel, 0, 0) == selectedOrig + Taken(pending, sel, pos, selPos)
      invariant Remaining(pending, sel, 0, 0) == nextPending + Remaining(pending, sel, pos, selPos)
      invariant |chosenTags| == |selectedOrig| && Within(selectedOrig, |ts|)
      invariant forall k :: 0 <= k < |selectedOrig| ==> chosenTags[k] == ts[selectedOrig[k]]
    {
      PartStep(selectedOrig, nextPending, pending, sel, pos, selPos);
      if selPos < |sel| && sel[selPos] == pos {
        selectedOrig := selectedOrig + [pending[pos]];
        chosenTags := chosenTags + [ts[pending[pos]]];
        selPos := selPos + 1;
      } else {
        nextPending := nextPending + [pending[pos]];
      }
    }
    PartEnd(selectedOrig, nextPending, pending, sel, selPos);
    return Ok((selectedOrig, chosenTags, nextPending));
  }

  /** One pending entry goes to one of the two lists. */
  lemma {:induction false} PartStep(a: seq<nat>, b: seq<nat>, pending: seq<nat>, sel: seq<nat>, pos: nat, k: nat)
    requires pos < |pending|
    ensures var taken := k < |sel| && sel[k] == pos;
      var x, k1 := pending[pos], if taken then k + 1 else k;
      && a + Taken(pending, sel, pos, k) == (if taken then a + [x] else a) + Taken(pending, sel, pos + 1, k1)
      && b + Remaining(pending, sel, pos, k) == (if taken then b else b + [x]) + Remaining(pending, sel, pos + 1, k1)
  {
  }

  lemma {:induction false} PartEnd(a: seq<nat>, b: seq<nat>, pending: seq<nat>, sel: seq<nat>, k: nat)
    ensures a + Taken(pending, sel, |pending|, k) == a && b + Remaining(pending, sel, |pending|, k) == b
  {
  }
}
