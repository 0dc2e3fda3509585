/** A tag group from its definitions through the buffer and the controller to its values. */
module GroupRead {
  import opened Wire
  import opened Text
  import opened DataTable
  import G = TagGroup
  import L = DataTableLaws

  /** The tags of a group in the order in which they are added, each once. */
  predicate ListsTypes(names: seq<(text, byte)>, types: map<text, byte>) {
    && (forall i :: 0 <= i < |names| ==> names[i].0 in types && types[names[i].0] == names[i].1)
    && (forall n :: n in types ==> exists i :: 0 <= i < |names| && names[i].0 == n)
    && (forall i, j :: 0 <= i < j < |names| ==> names[i].0 != names[j].0)
  }

  lemma {:induction false} SetAllKeeps(types: map<text, byte>, names: seq<text>, t: byte)
    ensures forall n :: n in G.SetAll(types, names, t) <==> n in types || n in names
    decreases |names|
  {
    if names != [] {
      SetAllKeeps(types[names[0] := t], names[1..], t);
      assert forall n :: n in names <==> n == names[0] || n in names[1..];
    }
  }

  /** Every expanded name gets a type. */
  lemma {:induction false} ExpandedHaveTypes(defs: seq<G.TagDef>, base: text)
    ensures base in G.Expansions(defs) ==>
      forall j :: 0 <= j < |G.Expansions(defs)[base]| ==> G.Expansions(defs)[base][j] in G.Types(defs)
    decreases |defs|
  {
    hide G.SetAll, G.Expanded;
    if defs != [] {
      var last, init := defs[|defs| - 1], defs[..|defs| - 1];
      ExpandedHaveTypes(init, base);
      SetAllKeeps(G.Types(init), G.Expanded(last), last.cipType);
      if base == last.name {
        assert G.Expansions(defs)[base] == G.Expanded(last);
      }
    }
  }

  lemma {:induction false} NewTagsAt(names: seq<(text, byte)>, position: nat, l: Lookup, i: nat)
    requires NewTags(names, position, l).Ok? && i < |names|
    ensures |NewTags(names, position, l).value| == |names|
    ensures NewTag(names[i].0, names[i].1, position + 1 + i, l) == Ok(NewTags(names, position, l).value[i])
    decreases |names|
  {
    hide NewTag;
    if i > 0 {
      NewTagsAt(names[1..], position + 1, l, i - 1);
    } else if |names| > 1 {
      NewTagsAt(names[1..], position + 1, l, 0);
    }
  }

  /** The buffer after a group was added to an empty one and synced. */
  function Added(names: seq<(text, byte)>, l: Lookup): L.State {
    L.Run(L.EMPTY, [L.AddMany(names), L.Sync(true)], l)
  }

  lemma {:induction false} TwoSteps(s: L.State, a: L.Op, b: L.Op, l: Lookup)
    ensures L.Run(s, [a, b], l) == L.Step(L.Step(s, a, l), b, l)
  {
    hide L.Step;
    assert [a, b][1..] == [b] && [b][1..] == [];
    assert L.Run(L.Step(s, a, l), [b], l) == L.Run(L.Step(L.Step(s, a, l), b, l), [], l);
  }

  lemma {:induction false} AddedState(names: seq<(text, byte)>, l: Lookup)
    requires NewTags(names, 0, l).Ok? && Added(names, l).synced
    ensures |Added(names, l).tags| == |NewTags(names, 0, l).value|
    ensures forall i :: 0 <= i < |Added(names, l).tags| ==>
      Added(names, l).tags[i] == MarkOne(NewTags(names, 0, l).value[i], 1)
  {
    hide NewTags, Mark, Accepts, AddMessage, ParseAdd, Unsynced, MarkOne;
    var s := L.Step(L.EMPTY, L.AddMany(names), l);
    assert s.tags == NewTags(names, 0, l).value;
    TwoSteps(L.EMPTY, L.AddMany(names), L.Sync(true), l);
    BatchIsOne(s, l);
  }

  lemma {:induction false} BatchIsOne(s: L.State, l: Lookup)
    requires s.batches == [] && L.Step(s, L.Sync(true), l).synced && !s.synced
    ensures L.Step(s, L.Sync(true), l).tags == Mark(s.tags, 1)
  {
  }

  /** The value that the controller holds for a tag. */
  function Held<V>(name: text, t: byte, l: Lookup, memory: Memory, decode: Decoder<V>): Result<V> {
    var path :- l.paths(name, t);
    var size :- SlotSize(name, t, l);
    decode(t, SlotValue(memory, Slot(size, path)))
  }

  lemma {:induction false} TagHolds<V>(
      names: seq<(text, byte)>, l: Lookup, memory: Memory, decode: Decoder<V>, i: nat)
    requires NewTags(names, 0, l).Ok? && Added(names, l).synced && i < |names|
    ensures i < |Added(names, l).tags| && Added(names, l).tags[i].name == names[i].0
    ensures L.ValueOf(Added(names, l).tags[i], memory, decode) == Held(names[i].0, names[i].1, l, memory, decode)
  {
    hide NewTags, SlotValue, Added, SlotSize;
    AddedState(names, l);
    NewTagsAt(names, 0, l, i);
  }

  /**
   A group added to a new buffer: when the read succeeds it has the value of every tag of the group,
   so every definition collapses.
   */
  lemma {:induction false} GroupIsComplete<V>(
      defs: seq<G.TagDef>, names: seq<(text, byte)>, l: Lookup, memory: Memory, decode: Decoder<V>)
    returns (raw: map<text, V>)
    requires L.ShortPaths(l) && ListsTypes(names, G.Types(defs)) && |names| < 65536
    requires NewTags(names, 0, l).Ok? && Added(names, l).synced
    requires forall i :: 0 <= i < |names| ==> Held(names[i].0, names[i].1, l, memory, decode).Ok?
    ensures ReadResult(Added(names, l).tags, ReadMessage(memory, Added(names, l).batches, 1), decode) == Ok(raw)
    ensures forall n :: n in G.Types(defs) ==> n in raw && Ok(raw[n]) == Held(n, G.Types(defs)[n], l, memory, decode)
    ensures G.AllComplete(raw, G.Expansions(defs))
  {
    hide NewTags, Added, L.Run, ReadResult, ReadMessage, L.ValueOf, Held, G.Types, G.Expansions, SlotValue;
    var s := Added(names, l);
    AddedState(names, l);
    if names != [] {
      NewTagsAt(names, 0, l, 0);
    } else {
      NoNewTags(l);
    }
    assert s == L.Run(L.EMPTY, [L.AddMany(names), L.Sync(true)], l) by { AddedIsRun(names, l); }
    forall i | 0 <= i < |names|
      ensures s.tags[i].name == names[i].0
      ensures L.ValueOf(s.tags[i], memory, decode) == Held(names[i].0, names[i].1, l, memory, decode)
    {
      TagHolds(names, l, memory, decode, i);
    }
    L.RunReadsEverySlot([L.AddMany(names), L.Sync(true)], l, memory, decode);
    raw := ReadResult(s.tags, ReadMessage(memory, s.batches, 1), decode).value;
    forall n | n in G.Types(defs) ensures n in raw && Ok(raw[n]) == Held(n, G.Types(defs)[n], l, memory, decode) {
      var i :| 0 <= i < |names| && names[i].0 == n;
      assert L.LastOfName(s.tags, i);
    }
    forall base | base in G.Expansions(defs)
      ensures G.Expansions(defs)[base] != [] && G.Complete(raw, G.Expansions(defs)[base])
    {
      ExpandedHaveTypes(defs, base);
      NotEmpty(defs, base);
    }
  }

  lemma {:induction false} AddedIsRun(names: seq<(text, byte)>, l: Lookup)
    ensures Added(names, l) == L.Run(L.EMPTY, [L.AddMany(names), L.Sync(true)], l)
  {
  }

  lemma {:induction false} NoNewTags(l: Lookup)
    ensures NewTags([], 0, l) == Ok([])
  {
  }

  lemma {:induction false} NotEmpty(defs: seq<G.TagDef>, base: text)
    requires base in G.Expansions(defs)
    ensures G.Expansions(defs)[base] != []
    decreases |defs|
  {
    hide G.Element;
    if base != defs[|defs| - 1].name {
      NotEmpty(defs[..|defs| - 1], base);
    }
  }

  /** An array tag of the group, written canonically, comes back with what its slots held, in order. */
  lemma {:induction false} GroupReadsBack<V>(
      defs: seq<G.TagDef>, names: seq<(text, byte)>, l: Lookup, memory: Memory, decode: Decoder<V>,
      raw: map<text, V>, result: map<text, G.Typed<V>>, d: G.TagDef)
    requires L.ShortPaths(l) && ListsTypes(names, G.Types(defs)) && |names| < 65536
    requires NewTags(names, 0, l).Ok? && Added(names, l).synced
    requires forall i :: 0 <= i < |names| ==> Held(names[i].0, names[i].1, l, memory, decode).Ok?
    requires ReadResult(Added(names, l).tags, ReadMessage(memory, Added(names, l).batches, 1), decode) == Ok(raw)
    requires G.AllComplete(raw, G.Expansions(defs)) ==> G.IsTyped(raw, G.Expansions(defs), result)
    requires d.elements > 1 && G.IsArrayTag(d.name) && G.IsCanonical(d.name)
    requires d.name in G.Expansions(defs) && G.Expansions(defs)[d.name] == G.Expanded(d)
    ensures d.name in result && result[d.name].Many? && |result[d.name].vs| == d.elements
    ensures forall j :: 0 <= j < d.elements ==>
      var name := G.Element(d.name, j);
      name in G.Types(defs) && Ok(result[d.name].vs[j]) == Held(name, G.Types(defs)[name], l, memory, decode)
  {
    hide NewTags, Added, L.Run, ReadResult, ReadMessage, Held, G.Types, G.Expansions, G.Element, G.IsTyped, SlotValue;
    hide G.IsArrayTag, G.IsCanonical, G.AllComplete, L.ShortPaths, ListsTypes;
    var read := GroupIsComplete(defs, names, l, memory, decode);
    assert read == raw;
    G.ExpandThenCollapse(raw, G.Expansions(defs), result, d);
    ExpandedHaveTypes(defs, d.name);
    forall j | 0 <= j < d.elements ensures G.Element(d.name, j) in G.Types(defs) {
      assert G.Expanded(d)[j] == G.Element(d.name, j);
    }
  }
}
