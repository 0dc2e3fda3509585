/** How many messages the greedy packer needs, compared with any other way to divide the tags. */
module BatchCount {
  import opened Wire
  import opened Sequences
  import opened Text
  import opened TagPath
  import opened TagPathLaws
  import opened PathTexts
  import opened Batching
  import opened BatchingLaws
  import opened ReadMap
  import CipTypes

  /// Loads

  /** What tag `i` adds to the two messages, its place in the jump tables included. */
  function LoadOf(ts: seq<TagDesc>, paths: Paths, limit: nat, i: nat): Cost {
    if i < |ts| && paths(ts[i]).Ok? then Add(Cost(2, 2), CostOf(ts[i], paths(ts[i]).value, limit)) else Cost(2, 2)
  }

  function Load(ts: seq<TagDesc>, paths: Paths, limit: nat, group: seq<nat>): Cost {
    if group == [] then NO_COST else Add(LoadOf(ts, paths, limit, group[0]), Load(ts, paths, limit, group[1..]))
  }

  /** Both messages of the group stay below the connection size. */
  predicate Light(ts: seq<TagDesc>, paths: Paths, limit: nat, group: seq<nat>) {
    Fits(0, Load(ts, paths, limit, group), limit)
  }

  lemma {:induction false} LoadCons(ts: seq<TagDesc>, paths: Paths, limit: nat, x: nat, group: seq<nat>)
    ensures Load(ts, paths, limit, [x] + group) == Add(LoadOf(ts, paths, limit, x), Load(ts, paths, limit, group))
  {
    hide LoadOf;
    assert ([x] + group)[1..] == group;
  }

  lemma {:induction false} LoadOfBoth(ts: seq<TagDesc>, paths: Paths, limit: nat, a: seq<nat>, b: seq<nat>)
    ensures Load(ts, paths, limit, a + b) == Add(Load(ts, paths, limit, a), Load(ts, paths, limit, b))
  {
    if a == [] {
      assert a + b == b;
    } else {
      hide Load, LoadOf;
      var x, more := a[0], a[1..];
      assert a == [x] + more && a + b == [x] + (more + b);
      LoadCons(ts, paths, limit, x, more);
      LoadCons(ts, paths, limit, x, more + b);
      LoadOfBoth(ts, paths, limit, more, b);
    }
  }

  lemma {:induction false} TakeOut(b: seq<nat>, x: nat, more: multiset<nat>) returns (l: seq<nat>, r: seq<nat>)
    requires multiset(b) == multiset{x} + more
    ensures b == l + ([x] + r) && multiset(l + r) == more
  {
    assert x in multiset(b);
    var j :| 0 <= j < |b| && b[j] == x;
    l, r := b[..j], b[j + 1..];
    assert b == l + ([x] + r);
    assert multiset(l + r) == multiset(b) - multiset{x};
    assert (multiset{x} + more) - multiset{x} == more;
  }

  /** The order of a group does not matter. */
  lemma {:induction false} LoadOfMultiset(ts: seq<TagDesc>, paths: Paths, limit: nat, a: seq<nat>, b: seq<nat>)
    requires multiset(a) == multiset(b)
    ensures Load(ts, paths, limit, a) == Load(ts, paths, limit, b)
    decreases |a|
  {
    hide Load, LoadOf;
    if a == [] {
      assert |multiset(b)| == 0;
    } else {
      var x, more := a[0], a[1..];
      assert a == [x] + more;
      var l, r := TakeOut(b, x, multiset(more));
      LoadOfMultiset(ts, paths, limit, more, l + r);
      LoadCons(ts, paths, limit, x, more);
      LoadOfBoth(ts, paths, limit, l, r);
      LoadOfBoth(ts, paths, limit, l, [x] + r);
      LoadCons(ts, paths, limit, x, r);
    }
  }

  /// Loads and the packer's sums

  /** The jump table entries of `n` tags, and their costs. */
  function WithEntries(n: nat, cost: Cost): Cost {
    Add(Cost(2 * n, 2 * n), cost)
  }

  lemma {:induction false} OneMoreEntry(n: nat, a: Cost, b: Cost)
    ensures Add(Add(Cost(2, 2), a), WithEntries(n, b)) == WithEntries(n + 1, Add(a, b))
  {
  }

  lemma {:induction false} PickCons<T>(xs: seq<T>, k: nat, more: seq<nat>)
    requires k < |xs| && Within(more, |xs|)
    ensures Within([k] + more, |xs|) && Pick(xs, [k] + more) == [xs[k]] + Pick(xs, more)
  {
    assert ([k] + more)[1..] == more;
  }

  lemma {:induction false} SumCons(costs: seq<Cost>, k: nat, sel: seq<nat>)
    requires k < |costs| && Between(sel, 0, |costs|)
    ensures SumOf(costs, [k] + sel) == Add(costs[k], SumOf(costs, sel))
  {
    assert ([k] + sel)[1..] == sel;
  }

  lemma {:induction false} LoadIsSum(
      pending: seq<nat>, ts: seq<TagDesc>, paths: Paths, limit: nat, sel: seq<nat>)
    requires Within(pending, |ts|) && Costs(Pick(ts, pending), paths, limit).Ok? && Within(sel, |pending|)
    ensures |Costs(Pick(ts, pending), paths, limit).value| == |pending| && Between(sel, 0, |pending|)
    ensures Load(ts, paths, limit, Pick(pending, sel)) ==
      WithEntries(|sel|, SumOf(Costs(Pick(ts, pending), paths, limit).value, sel))
    decreases |sel|
  {
    hide CostOf, Costs, LoadOf, Pick;
    var picked := Pick(ts, pending);
    CostsLength(picked, paths, limit);
    if sel == [] {
      assert Pick(pending, sel) == [];
    } else {
      hide Load, SumOf, Add, WithEntries;
      var k, more := sel[0], sel[1..];
      assert sel == [k] + more;
      CostsAt(picked, paths, limit, k);
      LoadIsSum(pending, ts, paths, limit, more);
      PickCons(pending, k, more);
      LoadCons(ts, paths, limit, pending[k], Pick(pending, more));
      LoadIsCost(ts, paths, limit, pending[k]);
      var costs := Costs(picked, paths, limit).value;
      SumCons(costs, k, more);
      OneMoreEntry(|more|, costs[k], SumOf(costs, more));
    }
  }

  /** Tags that one message can carry, by the packer's own estimate. */
  predicate FitTogether(ts: seq<TagDesc>, paths: Paths, limit: nat, group: seq<nat>) {
    Within(group, |ts|) && Costs(Pick(ts, group), paths, limit).Ok? &&
    Fits(|group|, Total(Costs(Pick(ts, group), paths, limit).value), limit)
  }

  lemma {:induction false} TotalCons(t: TagDesc, more: seq<TagDesc>, paths: Paths, limit: nat)
    requires Costs([t] + more, paths, limit).Ok?
    ensures paths(t).Ok? && Costs(more, paths, limit).Ok?
    ensures Total(Costs([t] + more, paths, limit).value) ==
      Add(CostOf(t, paths(t).value, limit), Total(Costs(more, paths, limit).value))
  {
    hide CostOf;
    assert ([t] + more)[1..] == more;
    var costs := Costs([t] + more, paths, limit).value;
    assert costs[1..] == Costs(more, paths, limit).value;
  }

  lemma {:induction false} TotalIsLoad(ts: seq<TagDesc>, paths: Paths, limit: nat, group: seq<nat>)
    requires Within(group, |ts|) && Costs(Pick(ts, group), paths, limit).Ok?
    ensures Load(ts, paths, limit, group) ==
      WithEntries(|group|, Total(Costs(Pick(ts, group), paths, limit).value))
    decreases |group|
  {
    hide CostOf, LoadOf, Pick;
    if group == [] {
      assert Pick(ts, group) == [];
    } else {
      hide Costs, Load, Total, Add, WithEntries;
      var x, more := group[0], group[1..];
      assert group == [x] + more;
      PickCons(ts, x, more);
      TotalCons(ts[x], Pick(ts, more), paths, limit);
      TotalIsLoad(ts, paths, limit, more);
      LoadCons(ts, paths, limit, x, more);
      LoadIsCost(ts, paths, limit, x);
      OneMoreEntry(|more|, CostOf(ts[x], paths(ts[x]).value, limit), Total(Costs(Pick(ts, more), paths, limit).value));
    }
  }

  lemma {:induction false} FitTogetherIsLight(ts: seq<TagDesc>, paths: Paths, limit: nat, group: seq<nat>)
    requires Within(group, |ts|) && Costs(Pick(ts, group), paths, limit).Ok?
    ensures FitTogether(ts, paths, limit, group) <==> Light(ts, paths, limit, group)
  {
    hide Costs, Load, Total;
    TotalIsLoad(ts, paths, limit, group);
  }

  /// A batch leaves nothing behind that it had room for

  lemma {:induction false} LeftOver(pending: seq<nat>, sel: seq<nat>, pos: nat, k: nat, x: nat) returns (j: nat)
    requires pos <= |pending| && k <= |sel| && Increasing(sel)
    requires forall i :: 0 <= i < k ==> sel[i] < pos
    requires forall i :: k <= i < |sel| ==> sel[i] >= pos
    requires x in Remaining(pending, sel, pos, k)
    ensures pos <= j < |pending| && pending[j] == x && j !in sel
    decreases |pending| - pos
  {
    if k < |sel| && sel[k] == pos {
      j := LeftOver(pending, sel, pos + 1, k + 1, x);
    } else if pending[pos] == x && pos !in sel {
      j := pos;
    } else {
      j := LeftOver(pending, sel, pos + 1, k, x);
    }
  }

  lemma {:induction false} BatchIsFull(pending: seq<nat>, ts: seq<TagDesc>, paths: Paths, limit: nat, x: nat)
    requires Within(pending, |ts|) && pending != [] && BatchOf(pending, ts, paths, limit).Ok?
    requires x in BatchOf(pending, ts, paths, limit).value.1
    ensures !Light(ts, paths, limit, BatchOf(pending, ts, paths, limit).value.0 + [x])
  {
    hide Costs, Selected, Load, SumOf, CostOf, LoadOf;
    var sel := BatchSelection(pending, ts, paths, limit);
    var costs := Costs(Pick(ts, pending), paths, limit).value;
    SelectionShape(costs, limit);
    LoadIsSum(pending, ts, paths, limit, sel);
    var batch := Pick(pending, sel);
    LoadOfBoth(ts, paths, limit, batch, [x]);
    var j := LeftOver(pending, sel, 0, 0, x);
    LoadOfOne(ts, paths, limit, x);
    CostsAt(Pick(ts, pending), paths, limit, j);
    LoadIsCost(ts, paths, limit, x);
    if exists k :: 0 <= k < |costs| && Fits(1, costs[k], limit) {
      SelectionMaximal(costs, limit, j);
    } else {
      SelectionFits(costs, limit);
      SumOfOne(costs);
      assert !Fits(1, costs[0], limit);
    }
  }

  lemma {:induction false} LoadOfOne(ts: seq<TagDesc>, paths: Paths, limit: nat, x: nat)
    ensures Load(ts, paths, limit, [x]) == LoadOf(ts, paths, limit, x)
  {
    hide LoadOf;
    assert [x][1..] == [];
  }

  lemma {:induction false} LoadIsCost(ts: seq<TagDesc>, paths: Paths, limit: nat, x: nat)
    requires x < |ts| && paths(ts[x]).Ok?
    ensures LoadOf(ts, paths, limit, x) == Add(Cost(2, 2), CostOf(ts[x], paths(ts[x]).value, limit))
  {
  }

  lemma {:induction false} SumOfOne(costs: seq<Cost>)
    requires costs != []
    ensures SumOf(costs, [0]) == costs[0]
  {
    assert [0][1..] == [];
  }

  /// All batches

  lemma {:induction false} LoadGrows(ts: seq<TagDesc>, paths: Paths, limit: nat, a: seq<nat>, x: nat, b: seq<nat>)
    requires x in b && !Light(ts, paths, limit, a + [x])
    ensures !Light(ts, paths, limit, a + b)
  {
    hide Load, LoadOf;
    var j :| 0 <= j < |b| && b[j] == x;
    var l, r := b[..j], b[j + 1..];
    assert multiset(b) == multiset([x] + (l + r)) by {
      assert b == l + ([x] + r);
    }
    LoadOfMultiset(ts, paths, limit, b, [x] + (l + r));
    LoadOfBoth(ts, paths, limit, a, [x]);
    LoadOfBoth(ts, paths, limit, [x], l + r);
    LoadOfBoth(ts, paths, limit, a, b);
  }

  lemma {:induction false} InFlatten(bs: seq<seq<nat>>, j: nat, x: nat)
    requires j < |bs| && x in bs[j]
    ensures x in Flatten(bs)
  {
    if j > 0 {
      InFlatten(bs[1..], j - 1, x);
    }
  }

  lemma {:induction false} NoRoomLeft(
      pending: seq<nat>, ts: seq<TagDesc>, paths: Paths, limit: nat, i: nat, j: nat, x: nat)
    requires Within(pending, |ts|) && Increasing(pending) && Batches(pending, ts, paths, limit).Ok?
    requires i < j < |Batches(pending, ts, paths, limit).value|
    requires x in Batches(pending, ts, paths, limit).value[j]
    ensures !Light(ts, paths, limit, Batches(pending, ts, paths, limit).value[i] + [x])
    decreases |pending|
  {
    hide BatchOf, Light, Increasing;
    BatchDivides(pending, ts, paths, limit);
    var (batch, next) := BatchOf(pending, ts, paths, limit).value;
    var more := Batches(next, ts, paths, limit).value;
    assert Batches(pending, ts, paths, limit).value == [batch] + more;
    if i > 0 {
      NoRoomLeft(next, ts, paths, limit, i - 1, j - 1, x);
    } else {
      InFlatten(more, j - 1, x);
      BatchesDivide(next, ts, paths, limit);
      assert x in multiset(next);
      BatchIsFull(pending, ts, paths, limit, x);
    }
  }

  /** No two of the messages could have been one. */
  lemma {:induction false} NoTwoMerge(pending: seq<nat>, ts: seq<TagDesc>, paths: Paths, limit: nat, i: nat, j: nat)
    requires Within(pending, |ts|) && Increasing(pending) && Batches(pending, ts, paths, limit).Ok?
    requires i < j < |Batches(pending, ts, paths, limit).value|
    ensures var bs := Batches(pending, ts, paths, limit).value; !FitTogether(ts, paths, limit, bs[i] + bs[j])
  {
    hide Batches, Light, Increasing, Costs, Total;
    BatchesDivide(pending, ts, paths, limit);
    var bs := Batches(pending, ts, paths, limit).value;
    NoRoomLeft(pending, ts, paths, limit, i, j, bs[j][0]);
    LoadGrows(ts, paths, limit, bs[i], bs[j][0], bs[j]);
    if Within(bs[i] + bs[j], |ts|) && Costs(Pick(ts, bs[i] + bs[j]), paths, limit).Ok? {
      FitTogetherIsLight(ts, paths, limit, bs[i] + bs[j]);
    }
  }

  /// One message

  lemma {:induction false} AtLeastOne(pending: seq<nat>, ts: seq<TagDesc>, paths: Paths, limit: nat)
    requires Within(pending, |ts|) && pending != [] && Batches(pending, ts, paths, limit).Ok?
    ensures var bs := Batches(pending, ts, paths, limit).value;
      |bs| > 0 && (|pending| == 1 ==> |bs| == 1)
      && bs[0] == BatchOf(pending, ts, paths, limit).value.0
  {
    hide BatchOf;
    BatchDivides(pending, ts, paths, limit);
  }

  lemma {:induction false} LoadOfPart(
      ts: seq<TagDesc>, paths: Paths, limit: nat, part: seq<nat>, rest: multiset<nat>, all: seq<nat>)
    requires multiset(part) + rest == multiset(all) && Light(ts, paths, limit, all)
    ensures Light(ts, paths, limit, part)
  {
    hide Load;
    var more := Listed(rest);
    LoadOfMultiset(ts, paths, limit, all, part + more);
    LoadOfBoth(ts, paths, limit, part, more);
  }

  lemma {:induction false} Listed(m: multiset<nat>) returns (xs: seq<nat>)
    ensures multiset(xs) == m
    decreases |m|
  {
    if m == multiset{} {
      xs := [];
    } else {
      var x :| x in m;
      var more := Listed(m - multiset{x});
      xs := [x] + more;
    }
  }

  /** One message is enough exactly when there is one tag, or all of them fit together. */
  lemma {:induction false} OneMessage(pending: seq<nat>, ts: seq<TagDesc>, paths: Paths, limit: nat)
    requires Within(pending, |ts|) && Increasing(pending) && pending != []
    requires Batches(pending, ts, paths, limit).Ok?
    ensures |Batches(pending, ts, paths, limit).value| == 1 <==>
      |pending| == 1 || FitTogether(ts, paths, limit, pending)
  {
    hide Batches, BatchOf, Light, Costs, Total, Increasing;
    var bs := Batches(pending, ts, paths, limit).value;
    AtLeastOne(pending, ts, paths, limit);
    BatchesDivide(pending, ts, paths, limit);
    PendingCosts(pending, ts, paths, limit);
    FitTogetherIsLight(ts, paths, limit, pending);
    if |bs| == 1 {
      OnlyBatch(bs);
      AllInOne(pending, ts, paths, limit);
    } else if Light(ts, paths, limit, pending) {
      NoRoomLeft(pending, ts, paths, limit, 0, 1, bs[1][0]);
      LoadGrows(ts, paths, limit, bs[0], bs[1][0], bs[1]);
      LoadOfPart(ts, paths, limit, bs[0] + bs[1], multiset(Flatten(bs[1..][1..])), pending);
    }
  }

  lemma {:induction false} OnlyBatch(bs: seq<seq<nat>>)
    requires |bs| == 1
    ensures Flatten(bs) == bs[0]
  {
    assert bs[1..] == [];
  }

  lemma {:induction false} PendingCosts(pending: seq<nat>, ts: seq<TagDesc>, paths: Paths, limit: nat)
    requires Within(pending, |ts|) && pending != [] && Batches(pending, ts, paths, limit).Ok?
    ensures BatchOf(pending, ts, paths, limit).Ok? && Costs(Pick(ts, pending), paths, limit).Ok?
  {
  }

  /** A batch of all that is pending fits, unless it is a single tag. */
  lemma {:induction false} AllInOne(pending: seq<nat>, ts: seq<TagDesc>, paths: Paths, limit: nat)
    requires Within(pending, |ts|) && pending != [] && BatchOf(pending, ts, paths, limit).Ok?
    requires multiset(BatchOf(pending, ts, paths, limit).value.0) == multiset(pending)
    ensures |pending| == 1 || Light(ts, paths, limit, pending)
  {
    hide Costs, Selected, Load, SumOf;
    var sel := BatchSelection(pending, ts, paths, limit);
    var costs := Costs(Pick(ts, pending), paths, limit).value;
    var batch := Pick(pending, sel);
    assert |multiset(batch)| == |batch| && |multiset(pending)| == |pending|;
    SelectionFits(costs, limit);
    LoadIsSum(pending, ts, paths, limit, sel);
    LoadOfMultiset(ts, paths, limit, batch, pending);
  }

  /// Any other way to divide the tags

  /** Another way to send the pending tags: groups that fit, together all of them. */
  predicate IsDivision(groups: seq<seq<nat>>, pending: seq<nat>, ts: seq<TagDesc>, paths: Paths, limit: nat) {
    multiset(Flatten(groups)) == multiset(pending) &&
    forall k :: 0 <= k < |groups| ==> FitTogether(ts, paths, limit, groups[k])
  }

  predicate AllLight(ts: seq<TagDesc>, paths: Paths, limit: nat, groups: seq<seq<nat>>) {
    forall k :: 0 <= k < |groups| ==> Light(ts, paths, limit, groups[k])
  }

  lemma {:induction false} DivisionIsLight(
      groups: seq<seq<nat>>, pending: seq<nat>, ts: seq<TagDesc>, paths: Paths, limit: nat)
    requires IsDivision(groups, pending, ts, paths, limit)
    ensures AllLight(ts, paths, limit, groups)
  {
    hide Light, Costs, Total;
    forall k | 0 <= k < |groups| ensures Light(ts, paths, limit, groups[k]) {
      FitTogetherIsLight(ts, paths, limit, groups[k]);
    }
  }

  function Times(n: nat, c: int): int {
    n * c
  }

  lemma {:induction false} OnceMore(n: nat, c: int)
    ensures Times(n + 1, c) == Times(n, c) + c
  {
  }

  lemma {:induction false} LightTail(ts: seq<TagDesc>, paths: Paths, limit: nat, groups: seq<seq<nat>>)
    requires AllLight(ts, paths, limit, groups) && groups != []
    ensures Light(ts, paths, limit, groups[0]) && AllLight(ts, paths, limit, groups[1..])
  {
    hide Light;
  }

  /** With room for `c` bytes in a request and `d` bytes in a reply. */
  lemma {:induction false} LightGroups(
      ts: seq<TagDesc>, paths: Paths, limit: nat, groups: seq<seq<nat>>, c: int, d: int)
    requires AllLight(ts, paths, limit, groups) && c == limit - 31 && d == limit - 29
    ensures Load(ts, paths, limit, Flatten(groups)).request <= Times(|groups|, c)
    ensures Load(ts, paths, limit, Flatten(groups)).reply <= Times(|groups|, d)
    decreases |groups|
  {
    hide Load, Light, Times, AllLight, LoadOf;
    if groups == [] {
      NoGroups(ts, paths, limit, c, d);
    } else {
      var more := groups[1..];
      LightTail(ts, paths, limit, groups);
      LightMeans(ts, paths, limit, groups[0]);
      LightGroups(ts, paths, limit, more, c, d);
      LoadOfBoth(ts, paths, limit, groups[0], Flatten(more));
      OnceMore(|more|, c);
      OnceMore(|more|, d);
    }
  }

  lemma {:induction false} NoGroups(ts: seq<TagDesc>, paths: Paths, limit: nat, c: int, d: int)
    ensures Flatten([]) == [] && Load(ts, paths, limit, []) == NO_COST && Times(0, c) == 0 == Times(0, d)
  {
  }

  lemma {:induction false} LightMeans(ts: seq<TagDesc>, paths: Paths, limit: nat, group: seq<nat>)
    ensures Light(ts, paths, limit, group) <==>
      Load(ts, paths, limit, group).request <= limit - 31 && Load(ts, paths, limit, group).reply <= limit - 29
  {
  }

  lemma {:induction false} Multiple(n: nat, c: int)
    requires n > 0
    ensures n * c == (n - 1) * c + c
  {
  }

  /** No two of the groups go together. */
  predicate NoneMerge(ts: seq<TagDesc>, paths: Paths, limit: nat, bs: seq<seq<nat>>) {
    forall i, j :: 0 <= i < j < |bs| ==> !Light(ts, paths, limit, bs[i] + bs[j])
  }

  /** Two by two the groups fill a request or a reply: `p` and `q` times. */
  lemma {:induction false} HeavyPairs(ts: seq<TagDesc>, paths: Paths, limit: nat, bs: seq<seq<nat>>)
    returns (p: nat, q: nat)
    requires NoneMerge(ts, paths, limit, bs)
    ensures 2 * (p + q) + 1 >= |bs|
    ensures var load := Load(ts, paths, limit, Flatten(bs));
      p * (limit - 30) <= load.request && q * (limit - 28) <= load.reply
    decreases |bs|
  {
    hide Load;
    p, q := 0, 0;
    if |bs| > 1 {
      var a, b, more := bs[0], bs[1], bs[2..];
      assert bs[1..][1..] == more && bs[1..][0] == b;
      assert Flatten(bs) == a + (b + Flatten(more));
      LoadOfBoth(ts, paths, limit, a, b);
      LoadOfBoth(ts, paths, limit, b, Flatten(more));
      LoadOfBoth(ts, paths, limit, a, b + Flatten(more));
      forall i, j | 0 <= i < j < |more| ensures !Light(ts, paths, limit, more[i] + more[j]) {
        assert more[i] == bs[i + 2] && more[j] == bs[j + 2];
      }
      assert !Light(ts, paths, limit, bs[0] + bs[1]);
      p, q := HeavyPairs(ts, paths, limit, more);
      if 30 + Load(ts, paths, limit, a + b).request >= limit {
        p := p + 1;
        Multiple(p, limit - 30);
      } else {
        q := q + 1;
        Multiple(q, limit - 28);
      }
    }
  }

  lemma {:induction false} Fewer(p: nat, n: nat, c: int)
    requires n > 0 && c > 0 && p * c <= n * (c - 1)
    ensures p < n
  {
    if p >= n {
      NotFewer(p, n, c);
    }
  }

  lemma {:induction false} NotFewer(p: nat, n: nat, c: int)
    requires p >= n > 0 && c > 0
    ensures p * c > n * (c - 1)
  {
    assert p * c >= n * c;
    assert n * (c - 1) == n * c - n;
  }

  lemma {:induction false} SomeGroup(groups: seq<seq<nat>>, pending: seq<nat>)
    requires multiset(Flatten(groups)) == multiset(pending) && pending != []
    ensures groups != []
  {
    assert |multiset(pending)| == |pending|;
  }

  /**
   The packer sends fewer than four times as many messages as any other way to divide the tags into
   groups that fit.
   */
  lemma {:induction false} FewMessages(
      pending: seq<nat>, ts: seq<TagDesc>, paths: Paths, limit: nat, groups: seq<seq<nat>>)
    requires Within(pending, |ts|) && Increasing(pending) && pending != []
    requires Batches(pending, ts, paths, limit).Ok? && IsDivision(groups, pending, ts, paths, limit)
    ensures |Batches(pending, ts, paths, limit).value| <= 4 * |groups| - 3
  {
    hide Batches, Load, FitTogether, Increasing;
    var bs := Batches(pending, ts, paths, limit).value;
    BatchesDivide(pending, ts, paths, limit);
    forall i, j | 0 <= i < j < |bs| ensures !Light(ts, paths, limit, bs[i] + bs[j]) {
      NoRoomLeft(pending, ts, paths, limit, i, j, bs[j][0]);
      LoadGrows(ts, paths, limit, bs[i], bs[j][0], bs[j]);
    }
    var p, q := HeavyPairs(ts, paths, limit, bs);
    DivisionIsLight(groups, pending, ts, paths, limit);
    LightGroups(ts, paths, limit, groups, limit - 31, limit - 29);
    LoadOfMultiset(ts, paths, limit, Flatten(bs), Flatten(groups));
    SomeGroup(groups, pending);
    assert Light(ts, paths, limit, groups[0]);
    Fewer(p, |groups|, limit - 30);
    Fewer(q, |groups|, limit - 28);
  }

  /// Tags that cost the same

  predicate CostTheSame(ts: seq<TagDesc>, paths: Paths, limit: nat, pending: seq<nat>, cost: Cost) {
    forall i :: 0 <= i < |pending| ==> LoadOf(ts, paths, limit, pending[i]) == cost
  }

  lemma {:induction false} LoadOfSame(ts: seq<TagDesc>, paths: Paths, limit: nat, group: seq<nat>, cost: Cost)
    requires CostTheSame(ts, paths, limit, group, cost)
    ensures Load(ts, paths, limit, group) == Cost(|group| * cost.request, |group| * cost.reply)
    decreases |group|
  {
    hide LoadOf;
    if group != [] {
      LoadOfSame(ts, paths, limit, group[1..], cost);
      Multiple(|group|, cost.request);
      Multiple(|group|, cost.reply);
    }
  }

  lemma {:induction false} More(a: nat, b: nat, c: nat)
    requires a <= b
    ensures a * c <= b * c
  {
  }

  /** Among tags of the same cost, what fits is no larger than what is full. */
  lemma {:induction false} FullIsLargest(
      ts: seq<TagDesc>, paths: Paths, limit: nat, full: seq<nat>, x: nat, group: seq<nat>, cost: Cost)
    requires CostTheSame(ts, paths, limit, full + [x], cost) && CostTheSame(ts, paths, limit, group, cost)
    requires !Light(ts, paths, limit, full + [x]) && Light(ts, paths, limit, group)
    ensures |group| <= |full|
  {
    hide LoadOf, Load;
    LoadOfSame(ts, paths, limit, full + [x], cost);
    LoadOfSame(ts, paths, limit, group, cost);
    if |group| > |full| {
      More(|full + [x]|, |group|, cost.request);
      More(|full + [x]|, |group|, cost.reply);
    }
  }

  lemma {:induction false} SizeAtLeast(bs: seq<seq<nat>>, m: nat)
    requires bs != [] && bs[|bs| - 1] != []
    requires forall i :: 0 <= i < |bs| - 1 ==> |bs[i]| >= m
    ensures |Flatten(bs)| >= (|bs| - 1) * m + 1
    decreases |bs|
  {
    if |bs| > 1 {
      SizeAtLeast(bs[1..], m);
      Multiple(|bs| - 1, m);
    } else {
      OnlyBatch(bs);
    }
  }

  lemma {:induction false} SizeAtMost(groups: seq<seq<nat>>, m: nat)
    requires forall k :: 0 <= k < |groups| ==> |groups[k]| <= m
    ensures |Flatten(groups)| <= |groups| * m
    decreases |groups|
  {
    if groups != [] {
      SizeAtMost(groups[1..], m);
      Multiple(|groups|, m);
    }
  }

  lemma {:induction false} Largest(groups: seq<seq<nat>>) returns (k: nat)
    requires groups != []
    ensures k < |groups| && forall i :: 0 <= i < |groups| ==> |groups[i]| <= |groups[k]|
    decreases |groups|
  {
    k := 0;
    if |groups| > 1 {
      var j := Largest(groups[1..]);
      assert forall i :: 1 <= i < |groups| ==> groups[i] == groups[1..][i - 1];
      k := if |groups[0]| >= |groups[j + 1]| then 0 else j + 1;
    }
  }

  lemma {:induction false} SameInPart(
      ts: seq<TagDesc>, paths: Paths, limit: nat, pending: seq<nat>, part: seq<nat>, cost: Cost)
    requires CostTheSame(ts, paths, limit, pending, cost)
    requires forall x :: x in part ==> x in multiset(pending)
    ensures CostTheSame(ts, paths, limit, part, cost)
  {
    hide LoadOf;
    forall i | 0 <= i < |part| ensures LoadOf(ts, paths, limit, part[i]) == cost {
      assert part[i] in part;
      assert part[i] in pending;
    }
  }

  /** When all tags cost the same, no division that fits has fewer groups than there are messages. */
  lemma {:induction false} FewestForSameCost(
      pending: seq<nat>, ts: seq<TagDesc>, paths: Paths, limit: nat, groups: seq<seq<nat>>, cost: Cost)
    requires Within(pending, |ts|) && Increasing(pending) && CostTheSame(ts, paths, limit, pending, cost)
    requires Batches(pending, ts, paths, limit).Ok? && IsDivision(groups, pending, ts, paths, limit)
    ensures |Batches(pending, ts, paths, limit).value| <= |groups|
  {
    hide BatchOf, Light, FitTogether, CostTheSame, Increasing, Batches;
    var bs := Batches(pending, ts, paths, limit).value;
    if pending == [] {
      NoBatches(ts, paths, limit);
    } else {
      BatchesDivide(pending, ts, paths, limit);
      SomeGroup(bs, pending);
      SomeGroup(groups, pending);
      assert |multiset(Flatten(bs))| == |Flatten(bs)| && |multiset(Flatten(groups))| == |Flatten(groups)|;
      DivisionIsLight(groups, pending, ts, paths, limit);
      var k := Largest(groups);
      forall x | x in groups[k] ensures x in multiset(pending) {
        InFlatten(groups, k, x);
      }
      SameInPart(ts, paths, limit, pending, groups[k], cost);
      forall i | 0 <= i < |bs| - 1 ensures |bs[i]| >= |groups[k]| {
        LeftRoom(pending, ts, paths, limit, i, groups[k], cost);
      }
      SizeAtLeast(bs, |groups[k]|);
      SizeAtMost(groups, |groups[k]|);
      if |bs| - 1 >= |groups| {
        More(|groups|, |bs| - 1, |groups[k]|);
      }
    }
  }

  lemma {:induction false} NoBatches(ts: seq<TagDesc>, paths: Paths, limit: nat)
    ensures Batches([], ts, paths, limit) == Ok([])
  {
  }

  /** A batch that is not the last is as large as any group that fits. */
  lemma {:induction false} LeftRoom(
      pending: seq<nat>, ts: seq<TagDesc>, paths: Paths, limit: nat, i: nat, group: seq<nat>, cost: Cost)
    requires Within(pending, |ts|) && Increasing(pending) && CostTheSame(ts, paths, limit, pending, cost)
    requires Batches(pending, ts, paths, limit).Ok? && i < |Batches(pending, ts, paths, limit).value| - 1
    requires CostTheSame(ts, paths, limit, group, cost) && Light(ts, paths, limit, group)
    ensures |Batches(pending, ts, paths, limit).value[i]| >= |group|
  {
    hide BatchOf, Light, CostTheSame, Increasing, Batches;
    var bs := Batches(pending, ts, paths, limit).value;
    BatchesDivide(pending, ts, paths, limit);
    var x := bs[i + 1][0];
    NoRoomLeft(pending, ts, paths, limit, i, i + 1, x);
    forall y | y in bs[i] + [x] ensures y in multiset(pending) {
      InFlatten(bs, if y in bs[i] then i else i + 1, y);
      assert y in multiset(Flatten(bs));
    }
    SameInPart(ts, paths, limit, pending, bs[i] + [x], cost);
    FullIsLargest(ts, paths, limit, bs[i], x, group, cost);
  }

  /// The fewest messages are not always found

  const INT_COST := Cost(8, 8)

  const DINT_COST := Cost(8, 10)

  lemma {:induction false} StepTakes(costs: seq<Cost>, i: nat, before: seq<nat>, sum: Cost, next: Cost)
    requires i < |costs| && next == Add(sum, costs[i]) && Fits(|before| + 1, next, 51)
    ensures before + Greedy(costs, 51, i, |before|, sum) ==
      (before + [i]) + Greedy(costs, 51, i + 1, |before + [i]|, next)
  {
    hide Greedy, Fits;
    GreedyStep(before, costs, 51, i, sum);
  }

  lemma {:induction false} StepSkips(costs: seq<Cost>, i: nat, before: seq<nat>, sum: Cost)
    requires i < |costs| && !Fits(|before| + 1, Add(sum, costs[i]), 51)
    ensures before + Greedy(costs, 51, i, |before|, sum) == before + Greedy(costs, 51, i + 1, |before|, sum)
  {
    hide Greedy, Fits;
    GreedyStep(before, costs, 51, i, sum);
  }

  lemma {:induction false} TakesBothInts(costs: seq<Cost>)
    requires costs == [INT_COST, INT_COST, DINT_COST, DINT_COST]
    ensures Selected(costs, 51) == [0, 1]
  {
    hide Greedy;
    var empty: seq<nat> := [];
    assert empty + [0] == [0] && [0] + [1] == [0, 1];
    GreedyStart(costs, 51);
    StepTakes(costs, 0, empty, NO_COST, Cost(8, 8));
    StepTakes(costs, 1, [0], Cost(8, 8), Cost(16, 16));
    StepSkips(costs, 2, [0, 1], Cost(16, 16));
    StepSkips(costs, 3, [0, 1], Cost(16, 16));
    GreedyEnd([0, 1], costs, 51, Cost(16, 16));
  }

  /** A tag with a one-letter name. */
  function Letter(c: byte, cipType: byte): TagDesc {
    TagDesc([c], cipType, 1, 0)
  }

  lemma {:induction false} LetterPath(c: byte, cipType: byte)
    requires 97 <= c <= 122 && cipType != CipTypes.BOOL
    ensures SymbolicPath(Letter(c, cipType)) == Ok(NameBytes([c])) && |NameBytes([c])| == 4
  {
    hide AppendPart, SymbolicIoi;
    assert Lower([c]) == [c];
    OnePart([c], false);
    assert Atoi([c]).Err?;
    AppendPlain(EMPTY_IOI, false, [c]);
    assert [] + NameBytes([c]) == NameBytes([c]);
  }

  lemma {:induction false} LetterCost(c: byte, cipType: byte)
    requires 97 <= c <= 122 && (cipType == CipTypes.INT || cipType == CipTypes.DINT)
    ensures CostOf(Letter(c, cipType), NameBytes([c]), 51) == if cipType == CipTypes.INT then INT_COST else DINT_COST
  {
  }

  /** Two INT and two DINT tags with one-letter names. */
  const FOUR_TAGS := [
    Letter(97, CipTypes.INT), Letter(98, CipTypes.INT), Letter(99, CipTypes.DINT), Letter(100, CipTypes.DINT)
  ]

  function CostAt(i: nat): Cost {
    if i < 2 then INT_COST else DINT_COST
  }

  lemma {:induction false} TagCost(i: nat)
    requires i < 4
    ensures SymbolicPath(FOUR_TAGS[i]).Ok?
    ensures CostOf(FOUR_TAGS[i], SymbolicPath(FOUR_TAGS[i]).value, 51) == CostAt(i)
  {
    hide SymbolicPath, CostOf;
    var c: byte := 97 + i;
    var cipType := if i < 2 then CipTypes.INT else CipTypes.DINT;
    assert FOUR_TAGS[i] == Letter(c, cipType);
    LetterPath(c, cipType);
    LetterCost(c, cipType);
  }

  lemma {:induction false} PickedPath(group: seq<nat>, i: nat)
    requires Within(group, 4) && i < |group|
    ensures SymbolicPath(Pick(FOUR_TAGS, group)[i]).Ok?
    ensures CostOf(Pick(FOUR_TAGS, group)[i], SymbolicPath(Pick(FOUR_TAGS, group)[i]).value, 51) == CostAt(group[i])
  {
    hide SymbolicPath, CostOf, CostAt;
    TagCost(group[i]);
  }

  lemma {:induction false} PickedCosts(group: seq<nat>)
    requires Within(group, 4)
    ensures var costs := Costs(Pick(FOUR_TAGS, group), SymbolicPath, 51);
      costs.Ok? && |costs.value| == |group| && forall i :: 0 <= i < |group| ==> costs.value[i] == CostAt(group[i])
  {
    hide SymbolicPath, CostOf, Costs, CostAt, Pick;
    var picked := Pick(FOUR_TAGS, group);
    forall i | 0 <= i < |picked| ensures SymbolicPath(picked[i]).Ok? {
      PickedPath(group, i);
    }
    CostsFail(picked, SymbolicPath, 51, |picked|);
    CostsLength(picked, SymbolicPath, 51);
    forall i | 0 <= i < |group| ensures Costs(picked, SymbolicPath, 51).value[i] == CostAt(group[i]) {
      CostsAt(picked, SymbolicPath, 51, i);
      PickedPath(group, i);
    }
  }

  lemma {:induction false} PairFits(a: nat, b: nat)
    requires a < 4 && b < 4
    ensures FitTogether(FOUR_TAGS, SymbolicPath, 51, [a, b]) <==> CostAt(a).reply + CostAt(b).reply < 19
  {
    hide Costs, SymbolicPath, Total, Pick;
    PickedCosts([a, b]);
    assert Costs(Pick(FOUR_TAGS, [a, b]), SymbolicPath, 51).value == [CostAt(a), CostAt(b)];
    TotalOfTwo(CostAt(a), CostAt(b));
  }

  lemma {:induction false} TotalOfTwo(a: Cost, b: Cost)
    ensures Total([a, b]) == Add(a, b)
  {
    assert [a, b][1..] == [b] && [b][1..] == [];
    assert Total([b]) == Add(b, Total([]));
  }

  lemma {:induction false} FirstBatch()
    ensures BatchOf([0, 1, 2, 3], FOUR_TAGS, SymbolicPath, 51) == Ok(([0, 1], [2, 3]))
  {
    hide Costs, Selected, SymbolicPath;
    var pending: seq<nat>, sel: seq<nat> := [0, 1, 2, 3], [0, 1];
    PickedCosts(pending);
    TakesBothInts(Costs(Pick(FOUR_TAGS, pending), SymbolicPath, 51).value);
    assert Taken(pending, sel, 2, 2) == [] && Remaining(pending, sel, 2, 2) == [2, 3] by {
      assert Remaining(pending, sel, 3, 2) == [3];
      assert Taken(pending, sel, 3, 2) == [];
    }
    assert Taken(pending, sel, 1, 1) == [1] && Remaining(pending, sel, 1, 1) == [2, 3];
    assert Taken(pending, sel, 0, 0) == [0, 1] && Remaining(pending, sel, 0, 0) == [2, 3];
  }

  /** The packer needs three messages for these tags, although pairing an INT with a DINT makes two. */
  lemma {:induction false} BatchesNeedNotBeFewest()
    ensures var bs := Batches(UpTo(4), FOUR_TAGS, SymbolicPath, 51); bs.Ok? && |bs.value| == 3
    ensures IsDivision([[0, 2], [1, 3]], UpTo(4), FOUR_TAGS, SymbolicPath, 51)
  {
    hide BatchOf, FitTogether, SymbolicPath, IsDivision;
    assert UpTo(4) == [0, 1, 2, 3];
    FirstBatch();
    TwoDints();
    PairsDivide();
  }

  lemma {:induction false} PairsDivide()
    ensures IsDivision([[0, 2], [1, 3]], [0, 1, 2, 3], FOUR_TAGS, SymbolicPath, 51)
  {
    hide FitTogether, SymbolicPath, Flatten;
    FlattenTwo([0, 2], [1, 3]);
    PairFits(0, 2);
    PairFits(1, 3);
  }

  lemma {:induction false} FlattenTwo(a: seq<nat>, b: seq<nat>)
    ensures Flatten([a, b]) == a + b
  {
    assert [a, b][1..] == [b];
    OnlyBatch([b]);
  }

  lemma {:induction false} TwoDints()
    ensures var bs := Batches([2, 3], FOUR_TAGS, SymbolicPath, 51); bs.Ok? && |bs.value| == 2
  {
    hide FitTogether, SymbolicPath;
    AllBatches([2, 3]);
    var bs := Batches([2, 3], FOUR_TAGS, SymbolicPath, 51).value;
    OneMessage([2, 3], FOUR_TAGS, SymbolicPath, 51);
    PairFits(2, 3);
    BatchesDivide([2, 3], FOUR_TAGS, SymbolicPath, 51);
    AtLeastOne([2, 3], FOUR_TAGS, SymbolicPath, 51);
    SizeAtLeast(bs, 1);
    assert |multiset(Flatten(bs))| == |Flatten(bs)|;
  }

  /** These tags can be packed, whichever of them are pending. */
  lemma {:induction false} AllBatches(pending: seq<nat>)
    requires Within(pending, 4)
    ensures Batches(pending, FOUR_TAGS, SymbolicPath, 51).Ok?
    decreases |pending|
  {
    hide SymbolicPath, Costs, Selected;
    if pending != [] {
      PickedCosts(pending);
      BatchDivides(pending, FOUR_TAGS, SymbolicPath, 51);
      AllBatches(BatchOf(pending, FOUR_TAGS, SymbolicPath, 51).value.1);
    }
  }
}
