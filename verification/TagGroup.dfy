/** Array tags expanded into single tags and collapsed again: taggroup.go and datatable.go. */
module TagGroup {
  import opened Wire
  import opened Text
  import opened TagPath
  import opened TagPathLaws

  /// Expanding

  /** The text of indexes in brackets behind a prefix. */
  function Indexed(prefix: text, order: seq<nat>): text {
    prefix + [OPEN_BRACKET] + Join(Texts(order), COMMA) + [CLOSE_BRACKET]
  }

  /** The indexes with the last one raised by `j`. */
  function Raised(order: seq<nat>, j: nat): seq<nat>
    requires order != []
  {
    order[..|order| - 1] + [order[|order| - 1] + j]
  }

  predicate IsArrayTag(name: text) {
    ParseTag(name).Ok? && ParseTag(name).value.order != [] && LastIndexOf(name, OPEN_BRACKET) >= 0
  }

  /** The names that are expanded are those that parse with indexes. */
  lemma {:induction false} ArrayTagIff(name: text)
    ensures IsArrayTag(name) <==> ParseTag(name).Ok? && ParseTag(name).value.order != []
  {
    hide HasBit, LastIndexOf, IndexChars;
  }

  function Prefix(name: text): text
    requires IsArrayTag(name)
  {
    name[..LastIndexOf(name, OPEN_BRACKET)]
  }

  /** Element `j` of an expanded tag; a name without indexes is repeated. */
  function Element(name: text, j: nat): text {
    if IsArrayTag(name) then Indexed(Prefix(name), Raised(ParseTag(name).value.order, j)) else name
  }

  /** `expandArrayTag` */
  method ExpandArrayTag(name: text, count: nat) returns (names: seq<text>)
    ensures if count <= 1 then names == [name]
      else |names| == count && forall j :: 0 <= j < count ==> names[j] == Element(name, j)
  {
    hide ParseTag, Join, Texts;
    if count <= 1 {
      return [name];
    }
    var tag := Parse(name);
    if tag.Err? || tag.value.order == [] || LastIndexOf(name, OPEN_BRACKET) < 0 {
      return seq(count, _ => name);
    }
    var prefix := name[..LastIndexOf(name, OPEN_BRACKET)];
    var order := tag.value.order;
    var lastDim := |order| - 1;
    names := [];
    for i := 0 to count
      invariant |names| == i && forall j :: 0 <= j < i ==> names[j] == Element(name, j)
    {
      var indices := FormatIndexes(order[..lastDim] + [order[lastDim] + i]);
      names := names + [prefix + [OPEN_BRACKET] + Join(indices, COMMA) + [CLOSE_BRACKET]];
    }
  }

  method FormatIndexes(order: seq<nat>) returns (indices: seq<text>)
    ensures indices == Texts(order)
  {
    hide Digits;
    indices := [];
    for d := 0 to |order|
      invariant |indices| == d && forall k :: 0 <= k < d ==> indices[k] == Digits(order[k])
    {
      indices := indices + [Digits(order[d])];
    }
    assert indices == Texts(order);
  }

  lemma {:induction false} NoBitAtBracket(t: text)
    requires EndsWith(t, CLOSE_BRACKET)
    ensures !HasBit(t)
  {
    if LastIndexOf(t, DOT) >= 0 {
      LastIndexIsLast(t, DOT);
      assert t[LastIndexOf(t, DOT) + 1..] != [] ==> BitText(t)[|BitText(t)| - 1] == CLOSE_BRACKET;
    }
  }

  lemma {:induction false} IndexFound(prefix: text, inner: text)
    requires Lacks(inner, OPEN_BRACKET) && IndexChars(inner)
    ensures var t := prefix + [OPEN_BRACKET] + inner + [CLOSE_BRACKET]; HasIndex(t) && IndexText(t) == inner
  {
    hide LastIndexOf, IndexChars;
    var t := prefix + [OPEN_BRACKET] + inner + [CLOSE_BRACKET];
    assert t == prefix + [OPEN_BRACKET] + (inner + [CLOSE_BRACKET]);
    LackJoin(inner);
    LastIndexOfBefore(prefix, OPEN_BRACKET, inner + [CLOSE_BRACKET]);
    assert t[|prefix| + 1..|t| - 1] == inner;
  }

  lemma {:induction false} LackJoin(inner: text)
    requires Lacks(inner, OPEN_BRACKET)
    ensures Lacks(inner + [CLOSE_BRACKET], OPEN_BRACKET)
  {
  }

  /** Indexes in brackets are read back as they are, whatever is before them. */
  lemma {:induction false} IndexedParses(prefix: text, order: seq<nat>)
    requires order != [] && AllBelow(order, MAX_INT + 1)
    ensures ParseTag(Indexed(prefix, order)).Ok? && ParseTag(Indexed(prefix, order)).value.order == order
    ensures LastIndexOf(Indexed(prefix, order), OPEN_BRACKET) == |prefix|
  {
    hide ParseTag, HasIndex, HasBit, IndexText, IndexNumbers, Without, IndexChars, AllBelow, LastIndexOf;
    var inner := Join(Texts(order), COMMA);
    var t := Indexed(prefix, order);
    NumbersOfJoin(order);
    IndexCharsLack(inner);
    IndexFound(prefix, inner);
    NoBitAtBracket(t);
    ParseIndexed(t, order);
    LackJoin(inner);
    assert t == prefix + [OPEN_BRACKET] + (inner + [CLOSE_BRACKET]);
    LastIndexOfBefore(prefix, OPEN_BRACKET, inner + [CLOSE_BRACKET]);
  }

  lemma {:induction false} BelowRaised(order: seq<nat>, j: nat)
    requires order != [] && AllBelow(order, MAX_INT + 1) && order[|order| - 1] + j <= MAX_INT
    ensures AllBelow(Raised(order, j), MAX_INT + 1)
  {
    if |order| > 1 {
      BelowRaised(order[1..], j);
      assert Raised(order, j)[1..] == Raised(order[1..], j);
    }
  }

  lemma {:induction false} ParsedBelow(parts: seq<text>)
    requires forall i :: 0 <= i < |parts| ==> IndexChars(parts[i])
    ensures NatsOf(parts).Ok? ==> AllBelow(NatsOf(parts).value, MAX_INT + 1)
  {
    if parts != [] {
      ParsedBelow(parts[1..]);
      if NatsOf(parts).Ok? {
        assert NatsOf(parts).value[1..] == NatsOf(parts[1..]).value;
      }
    }
  }

  lemma {:induction false} OrderBelow(name: text)
    requires ParseTag(name).Ok?
    ensures AllBelow(ParseTag(name).value.order, MAX_INT + 1)
  {
    hide HasBit, Atoi, Without;
    if HasIndex(name) {
      hide HasIndex;
      SplitIndexChars(IndexText(name));
      ParsedBelow(Split(IndexText(name), COMMA));
    }
  }

  /** Each expanded name parses to the base indexes with the last one raised by its position. */
  lemma {:induction false} ElementParses(name: text, j: nat)
    requires IsArrayTag(name) && ParseTag(name).value.order[|ParseTag(name).value.order| - 1] + j <= MAX_INT
    ensures var order := ParseTag(name).value.order;
      ParseTag(Element(name, j)).Ok? && ParseTag(Element(name, j)).value.order == Raised(order, j)
    ensures IsArrayTag(Element(name, j)) && Prefix(Element(name, j)) == Prefix(name)
  {
    hide ParseTag, AllBelow, Join, Texts;
    var order := ParseTag(name).value.order;
    OrderBelow(name);
    BelowRaised(order, j);
    IndexedParses(Prefix(name), Raised(order, j));
    var t := Element(name, j);
    assert t[..|Prefix(name)|] == Prefix(name);
  }

  /** So no two of them are the same. */
  lemma {:induction false} ElementsDistinct(name: text, i: nat, j: nat)
    requires IsArrayTag(name) && i < j
    requires ParseTag(name).value.order[|ParseTag(name).value.order| - 1] + j <= MAX_INT
    ensures Element(name, i) != Element(name, j)
  {
    hide ParseTag, Element;
    ElementParses(name, i);
    ElementParses(name, j);
    var order := ParseTag(name).value.order;
    assert Raised(order, i)[|order| - 1] != Raised(order, j)[|order| - 1];
  }

  lemma {:induction false} ReadBelow(ks: seq<nat>)
    requires forall i :: 0 <= i < |Texts(ks)| ==> IndexChars(Texts(ks)[i])
    requires NatsOf(Texts(ks)).Ok?
    ensures AllBelow(ks, MAX_INT + 1)
  {
    if ks != [] {
      AtoiOfDigits(ks[0]);
      assert Texts(ks)[1..] == Texts(ks[1..]);
      assert forall i :: 0 <= i < |ks| - 1 ==> Texts(ks[1..])[i] == Texts(ks)[i + 1];
      ReadBelow(ks[1..]);
    }
  }

  /** A canonical name that parses at all parses to the indexes it was written from. */
  lemma {:induction false} CanonicalParses(prefix: text, ks: seq<nat>)
    requires ks != [] && IsArrayTag(Indexed(prefix, ks))
    ensures ParseTag(Indexed(prefix, ks)).value.order == ks && Prefix(Indexed(prefix, ks)) == prefix
  {
    hide HasBit, Atoi, Without, AllBelow, LastIndexOf, HasIndex;
    var inner := Join(Texts(ks), COMMA);
    JoinChars(ks);
    IndexCharsLack(inner);
    IndexFound(prefix, inner);
    SplitIndexChars(inner);
    SplitOfJoin(Texts(ks), COMMA);
    assert IndexNumbers(inner).Ok?;
    ReadBelow(ks);
    IndexedParses(prefix, ks);
    assert Indexed(prefix, ks)[..|prefix|] == prefix;
  }

  /** Written as the source writes expanded names: no blanks, no leading zeros. */
  ghost predicate IsCanonical(name: text) {
    exists prefix, order: seq<nat> :: order != [] && name == Indexed(prefix, order)
  }

  /** The first expanded name is the base name exactly when the base name is written canonically. */
  lemma {:induction false} FirstIsBase(name: text)
    requires IsArrayTag(name)
    ensures Element(name, 0) == name <==> IsCanonical(name)
  {
    hide ParseTag, Join, Texts, AllBelow;
    var order := ParseTag(name).value.order;
    assert Raised(order, 0) == order;
    if Element(name, 0) == name {
      assert name == Indexed(Prefix(name), order);
    }
    if IsCanonical(name) {
      var prefix, ks: seq<nat> :| ks != [] && name == Indexed(prefix, ks);
      CanonicalParses(prefix, ks);
    }
  }

  /// Groups

  /** A tag definition whose placeholders are filled in. */
  datatype TagDef = TagDef(name: text, cipType: byte, elements: nat)

  /** The tags that stand for a definition. */
  function Expanded(d: TagDef): (names: seq<text>)
    ensures |names| == if d.elements > 1 then d.elements else 1
    ensures forall j :: 0 <= j < |names| ==> names[j] == if d.elements > 1 then Element(d.name, j) else d.name
  {
    if d.elements > 1 then seq(d.elements, (j: nat) => Element(d.name, j)) else [d.name]
  }

  /** Name by name; of two definitions of one name the later one wins. */
  function Expansions(defs: seq<TagDef>): map<text, seq<text>>
    decreases |defs|
  {
    if defs == [] then map[]
    else
      var d := defs[|defs| - 1];
      Expansions(defs[..|defs| - 1])[d.name := Expanded(d)]
  }

  function SetAll(types: map<text, byte>, names: seq<text>, t: byte): map<text, byte>
    decreases |names|
  {
    if names == [] then types else SetAll(types[names[0] := t], names[1..], t)
  }

  function Types(defs: seq<TagDef>): map<text, byte>
    decreases |defs|
  {
    if defs == [] then map[]
    else
      var d := defs[|defs| - 1];
      SetAll(Types(defs[..|defs| - 1]), Expanded(d), d.cipType)
  }

  /** The first half of `AddTagGroup`; the tags then go to `AddTags` in any order. */
  method ExpandGroup(defs: seq<TagDef>) returns (expansions: map<text, seq<text>>, types: map<text, byte>)
    ensures expansions == Expansions(defs) && types == Types(defs)
  {
    hide Element, SetAll;
    expansions, types := map[], map[];
    for i := 0 to |defs|
      invariant expansions == Expansions(defs[..i]) && types == Types(defs[..i])
    {
      assert defs[..i + 1][..i] == defs[..i];
      var names := ExpandArrayTag(defs[i].name, defs[i].elements);
      assert names == Expanded(defs[i]);
      expansions := expansions[defs[i].name := names];
      types := AddTypes(types, names, defs[i].cipType);
    }
    assert defs[..|defs|] == defs;
  }

  method AddTypes(types0: map<text, byte>, names: seq<text>, t: byte) returns (types: map<text, byte>)
    ensures types == SetAll(types0, names, t)
  {
    types := types0;
    assert names[0..] == names;
    for k := 0 to |names|
      invariant SetAll(types, names[k..], t) == SetAll(types0, names, t)
    {
      assert names[k..][0] == names[k] && names[k..][1..] == names[k + 1..];
      types := types[names[k] := t];
    }
  }

  /// Collapsing

  datatype Typed<V> = One(v: V) | Many(vs: seq<V>)

  /** Some definition stands for this tag. */
  ghost predicate Consumed(expansions: map<text, seq<text>>, name: text) {
    exists base :: base in expansions && name in expansions[base]
  }

  predicate Complete<V>(raw: map<text, V>, names: seq<text>) {
    forall j :: 0 <= j < |names| ==> names[j] in raw
  }

  function Collapse<V>(raw: map<text, V>, names: seq<text>): Typed<V>
    requires Complete(raw, names) && names != []
  {
    if |names| > 1 then Many(seq(|names|, j requires 0 <= j < |names| => raw[names[j]])) else One(raw[names[0]])
  }

  ghost predicate Alone<V>(raw: map<text, V>, expansions: map<text, seq<text>>, name: text) {
    name in raw && !Consumed(expansions, name)
  }

  ghost predicate AllComplete<V>(raw: map<text, V>, expansions: map<text, seq<text>>) {
    forall base :: base in expansions ==> expansions[base] != [] && Complete(raw, expansions[base])
  }

  /** Every definition collapsed, every other tag as it is; a tag of the name of a definition takes its place. */
  ghost predicate IsTyped<V>(raw: map<text, V>, expansions: map<text, seq<text>>, result: map<text, Typed<V>>)
    requires AllComplete(raw, expansions)
  {
    && (forall n :: n in result <==> n in expansions || Alone(raw, expansions, n))
    && (forall n :: Alone(raw, expansions, n) ==> n in result && result[n] == One(raw[n]))
    && (forall n :: n in expansions && !Alone(raw, expansions, n) ==>
      n in result && result[n] == Collapse(raw, expansions[n]))
  }

  /** The result does not depend on the order in which the maps are walked. */
  lemma {:induction false} TypedIsUnique<V>(
      raw: map<text, V>, expansions: map<text, seq<text>>, a: map<text, Typed<V>>, b: map<text, Typed<V>>)
    requires AllComplete(raw, expansions) && IsTyped(raw, expansions, a) && IsTyped(raw, expansions, b)
    ensures a == b
  {
    hide Collapse, Alone, AllComplete;
    assert a.Keys == b.Keys;
    forall n | n in a ensures a[n] == b[n] {
      assert n in expansions || Alone(raw, expansions, n);
    }
  }

  ghost predicate Lists(order: seq<text>, keys: set<text>) {
    forall k :: k in order <==> k in keys
  }

  /** `ReadAllTyped` on the values read, walking both maps in any order. */
  method Retype<V>(raw: map<text, V>, expansions: map<text, seq<text>>, bases: seq<text>, names: seq<text>)
    returns (r: Result<map<text, Typed<V>>>)
    requires Lists(bases, expansions.Keys) && Lists(names, raw.Keys)
    requires forall base :: base in expansions ==> expansions[base] != []
    ensures r.Ok? <==> AllComplete(raw, expansions)
    ensures r.Ok? ==> IsTyped(raw, expansions, r.value)
  {
    hide Collapse;
    var result: map<text, Typed<V>> := map[];
    var consumed: set<text> := {};
    for i := 0 to |bases|
      invariant forall k :: 0 <= k < i ==> Complete(raw, expansions[bases[k]])
      invariant forall n :: n in result <==> n in bases[..i]
      invariant forall n :: n in result ==>
        n in expansions && Complete(raw, expansions[n]) && result[n] == Collapse(raw, expansions[n])
      invariant forall n :: n in consumed <==> exists k :: 0 <= k < i && n in expansions[bases[k]]
    {
      assert bases[i] in bases;
      assert bases[..i + 1] == bases[..i] + [bases[i]];
      var one := CollapseOne(raw, expansions[bases[i]]);
      if one.Err? {
        assert !Complete(raw, expansions[bases[i]]);
        return Err(one.error);
      }
      result := result[bases[i] := one.value];
      consumed := consumed + (set n | n in expansions[bases[i]]);
    }
    assert bases[..|bases|] == bases;
    AllBases(raw, expansions, bases);
    ConsumedIff(expansions, bases, consumed);
    result := AddRest(raw, expansions, names, result, consumed);
    return Ok(result);
  }

  lemma {:induction false} AllBases<V>(raw: map<text, V>, expansions: map<text, seq<text>>, bases: seq<text>)
    requires Lists(bases, expansions.Keys) && forall base :: base in expansions ==> expansions[base] != []
    requires forall k :: 0 <= k < |bases| ==> bases[k] in expansions && Complete(raw, expansions[bases[k]])
    ensures AllComplete(raw, expansions)
  {
    forall base | base in expansions ensures Complete(raw, expansions[base]) {
      assert base in bases;
    }
  }

  lemma {:induction false} ConsumedIff(expansions: map<text, seq<text>>, bases: seq<text>, consumed: set<text>)
    requires Lists(bases, expansions.Keys)
    requires forall k :: 0 <= k < |bases| ==> bases[k] in expansions
    requires forall n :: n in consumed <==> exists k :: 0 <= k < |bases| && n in expansions[bases[k]]
    ensures forall n :: n in consumed <==> Consumed(expansions, n)
  {
    forall n ensures n in consumed <==> Consumed(expansions, n) {
      if Consumed(expansions, n) {
        var base :| base in expansions && n in expansions[base];
        assert base in bases;
      }
    }
  }

  method CollapseOne<V>(raw: map<text, V>, names: seq<text>) returns (r: Result<Typed<V>>)
    requires names != []
    ensures r.Ok? <==> Complete(raw, names)
    ensures r.Ok? ==> r.value == Collapse(raw, names)
  {
    var slice: seq<V> := [];
    for i := 0 to |names|
      invariant |slice| == i && forall j :: 0 <= j < i ==> names[j] in raw && slice[j] == raw[names[j]]
    {
      if names[i] !in raw {
        return Err(Malformed);
      }
      slice := slice + [raw[names[i]]];
    }
    if |names| > 1 {
      assert slice == seq(|names|, j requires 0 <= j < |names| => raw[names[j]]);
      return Ok(Many(slice));
    } else {
      return Ok(One(slice[0]));
    }
  }

  /** The tags that no definition stands for. */
  method AddRest<V>(
      raw: map<text, V>, expansions: map<text, seq<text>>, names: seq<text>, groups: map<text, Typed<V>>,
      consumed: set<text>)
    returns (result: map<text, Typed<V>>)
    requires AllComplete(raw, expansions) && Lists(names, raw.Keys)
    requires forall n :: n in groups <==> n in expansions
    requires forall n :: n in groups ==> groups[n] == Collapse(raw, expansions[n])
    requires forall n :: n in consumed <==> Consumed(expansions, n)
    ensures IsTyped(raw, expansions, result)
  {
    hide Collapse, Consumed;
    result := groups;
    for i := 0 to |names|
      invariant forall n :: n in result <==> n in groups || (n in names[..i] && n !in consumed)
      invariant forall n :: n in names[..i] && n !in consumed ==> n in raw && result[n] == One(raw[n])
      invariant forall n :: n in groups && !(n in names[..i] && n !in consumed) ==> result[n] == groups[n]
    {
      assert names[i] in names;
      assert names[..i + 1] == names[..i] + [names[i]];
      if names[i] !in consumed {
        result := result[names[i] := One(raw[names[i]])];
      }
    }
    assert names[..|names|] == names;
  }

  /** Some other definition stands for a tag of this name. */
  ghost predicate CoveredByOther(expansions: map<text, seq<text>>, name: text) {
    exists base :: base in expansions && base != name && name in expansions[base]
  }

  /** An array tag's own expansion holds its name only as the first element, and only if canonical. */
  lemma {:induction false} OwnElement(name: text, j: nat)
    requires IsArrayTag(name)
    ensures Element(name, j) == name <==> j == 0 && IsCanonical(name)
  {
    hide ParseTag, Join, Texts;
    FirstIsBase(name);
    if Element(name, j) == name {
      CanonicalParses(Prefix(name), Raised(ParseTag(name).value.order, j));
    }
  }

  lemma {:induction false} CoversItself(d: TagDef)
    requires d.elements > 1
    ensures d.name in Expanded(d) <==> !IsArrayTag(d.name) || IsCanonical(d.name)
  {
    hide IsArrayTag, Element, IsCanonical;
    if IsArrayTag(d.name) {
      OwnElement(d.name, 0);
      forall j | 0 <= j < d.elements ensures Expanded(d)[j] == d.name <==> j == 0 && IsCanonical(d.name) {
        OwnElement(d.name, j);
      }
    } else {
      PlainElement(d.name);
      assert Expanded(d)[0] == d.name;
    }
  }

  lemma {:induction false} PlainElement(name: text)
    requires !IsArrayTag(name)
    ensures Element(name, 0) == name
  {
  }

  lemma {:induction false} ConsumedBy(expansions: map<text, seq<text>>, name: text)
    requires name in expansions
    ensures Consumed(expansions, name) <==> name in expansions[name] || CoveredByOther(expansions, name)
  {
  }

  /**
   A group of several elements comes back unless a plain tag of its name was read too, which nothing
   else stands for, and the name is that of an array element but not canonical.
   */
  lemma {:induction false} GroupIntact<V>(
      raw: map<text, V>, expansions: map<text, seq<text>>, result: map<text, Typed<V>>, d: TagDef)
    requires AllComplete(raw, expansions) && IsTyped(raw, expansions, result)
    requires d.elements > 1 && d.name in expansions && expansions[d.name] == Expanded(d)
    ensures d.name in result
    ensures result[d.name] == Collapse(raw, Expanded(d)) <==>
      d.name !in raw || !IsArrayTag(d.name) || IsCanonical(d.name) || CoveredByOther(expansions, d.name)
  {
    hide IsArrayTag, IsCanonical, CoveredByOther, Consumed;
    CoversItself(d);
    ConsumedBy(expansions, d.name);
  }

  /** The text `A[01]`, and the texts that stand for it. */
  const A_01: text := [65, OPEN_BRACKET, 48, 49, CLOSE_BRACKET]

  lemma {:induction false} NumberOfTwo(a: byte, b: byte)
    requires IsDigit(a) && IsDigit(b)
    ensures Number([a, b]) == 10 * (a - 48) + (b - 48)
  {
    assert [a, b][..1] == [a] && [a][..0] == [];
    assert Number([a]) == 10 * Number([]) + (a - 48);
  }

  lemma {:induction false} OneIndexText(t: text, k: nat)
    requires Lacks(t, COMMA) && AllDigits(t) && Atoi(t) == Ok(k)
    ensures IndexChars(t) && IndexNumbers(t) == Ok([k])
  {
    hide Atoi;
    SplitPlain(t, COMMA);
    var parts := Split(t, COMMA);
    assert parts[1..] == [];
    assert parts[0] == t && NatOf(t) == Ok(k);
    assert NatsOf(parts[1..]) == Ok([]);
    assert NatsOf(parts) == Ok([k] + []);
    assert [k] + [] == [k];
    assert IndexNumbers(t) == NatsOf(parts);
  }

  lemma {:induction false} ZeroOne()
    ensures IndexChars([48, 49]) && IndexNumbers([48, 49]) == Ok([1])
  {
    hide IndexChars, IndexNumbers, Number;
    NumberOfTwo(48, 49);
    OneIndexText([48, 49], 1);
  }

  lemma {:induction false} A01Parses()
    ensures IsArrayTag(A_01) && Prefix(A_01) == [65] && ParseTag(A_01).value.order == [1]
  {
    hide HasIndex, HasBit, Without, IndexNumbers, IndexChars, LastIndexOf, Number, IndexText, Atoi;
    var inner: text := [48, 49];
    ZeroOne();
    IndexFound([65], inner);
    NoBitAtBracket(A_01);
    assert A_01 == [65] + [OPEN_BRACKET] + inner + [CLOSE_BRACKET];
    LackJoin(inner);
    LastIndexOfBefore([65], OPEN_BRACKET, inner + [CLOSE_BRACKET]);
    assert A_01 == [65] + [OPEN_BRACKET] + (inner + [CLOSE_BRACKET]);
    assert A_01[..1] == [65];
  }

  /** `A[01]` with two elements is displaced by a plain tag `A[01]`. */
  lemma {:induction false} GroupDisplaced<V>(raw: map<text, V>, result: map<text, Typed<V>>, d: TagDef)
    requires d.name == A_01 && d.elements == 2 && A_01 in raw
    requires AllComplete(raw, map[A_01 := Expanded(d)]) && IsTyped(raw, map[A_01 := Expanded(d)], result)
    ensures Expanded(d) == [[65, OPEN_BRACKET, 49, CLOSE_BRACKET], [65, OPEN_BRACKET, 50, CLOSE_BRACKET]]
    ensures A_01 in result && result[A_01] == One(raw[A_01]) && result[A_01] != Collapse(raw, Expanded(d))
  {
    hide ParseTag, IsArrayTag;
    A01Parses();
    A01Elements();
    assert A_01 !in Expanded(d);
    assert !Consumed(map[A_01 := Expanded(d)], A_01);
    assert Alone(raw, map[A_01 := Expanded(d)], A_01);
  }

  lemma {:induction false} OneDigitIndex(prefix: text, k: nat)
    requires k < 10
    ensures Indexed(prefix, [k]) == prefix + [OPEN_BRACKET, 48 + k, CLOSE_BRACKET]
  {
    assert Digits(k) == [48 + k];
    assert Texts([k]) == [Digits(k)];
    assert Join([Digits(k)], COMMA) == Digits(k);
  }

  lemma {:induction false} A01Elements()
    ensures Element(A_01, 0) == [65, OPEN_BRACKET, 49, CLOSE_BRACKET]
    ensures Element(A_01, 1) == [65, OPEN_BRACKET, 50, CLOSE_BRACKET]
  {
    hide ParseTag, IsArrayTag, Indexed;
    A01Parses();
    assert Raised([1], 0) == [1] && Raised([1], 1) == [2];
    OneDigitIndex([65], 1);
    OneDigitIndex([65], 2);
  }

  ghost predicate Holds<V>(t: Typed<V>, v: V) {
    match t
    case One(w) => w == v
    case Many(vs) => v in vs
  }

  /** No value that was read is lost, unless with a group that is. */
  lemma {:induction false} NothingLost<V>(
      raw: map<text, V>, expansions: map<text, seq<text>>, result: map<text, Typed<V>>, name: text)
    requires AllComplete(raw, expansions) && IsTyped(raw, expansions, result) && name in raw
    requires forall base :: base in expansions && name in expansions[base] ==> !Alone(raw, expansions, base)
    ensures exists key :: key in result && Holds(result[key], raw[name])
  {
    if Consumed(expansions, name) {
      var base :| base in expansions && name in expansions[base];
      var j :| 0 <= j < |expansions[base]| && expansions[base][j] == name;
      var c := Collapse(raw, expansions[base]);
      assert result[base] == c;
      if c.Many? {
        assert c.vs[j] == raw[name];
      }
      assert Holds(result[base], raw[name]);
    } else {
      assert Alone(raw, expansions, name);
      assert Holds(result[name], raw[name]);
    }
  }

  /** Expanding and collapsing: an array tag written canonically comes back whole and in order. */
  lemma {:induction false} ExpandThenCollapse<V>(
      raw: map<text, V>, expansions: map<text, seq<text>>, result: map<text, Typed<V>>, d: TagDef)
    requires AllComplete(raw, expansions) && IsTyped(raw, expansions, result)
    requires d.elements > 1 && IsArrayTag(d.name) && d.name in expansions && expansions[d.name] == Expanded(d)
    requires IsCanonical(d.name)
    ensures d.name in result && result[d.name].Many? && |result[d.name].vs| == d.elements
    ensures forall j :: 0 <= j < d.elements ==>
      Element(d.name, j) in raw && result[d.name].vs[j] == raw[Element(d.name, j)]
  {
    hide ParseTag, Element;
    FirstIsBase(d.name);
    assert Expanded(d)[0] == d.name;
    assert Consumed(expansions, d.name);
    forall j | 0 <= j < d.elements ensures Element(d.name, j) in raw {
      assert Expanded(d)[j] == Element(d.name, j);
    }
  }
}
