/** Instance-addressed paths mean what the symbolic ones mean; cached paths stay good. */
module KnownTagLaws {
  import opened Wire
  import opened Text
  import opened TagPath
  import opened TagPathLaws
  import opened KnownTags

  /// The lookup key of a path

  function Elements(ps: seq<Part>): seq<Part> {
    if ps == [] then []
    else if ps[0].BitOf? then Elements(ps[1..])
    else [ps[0]] + Elements(ps[1..])
  }

  predicate NoIndexes(ps: seq<Part>) {
    ps == [] || ((ps[0].BitOf? || ps[0].indexes == []) && NoIndexes(ps[1..]))
  }

  lemma {:induction false} WithoutKeeps(t: text, o: text, c: byte)
    requires Lacks(o, c) && !Lacks(t, c)
    ensures !Lacks(Without(t, o), c)
    decreases |t|
  {
    if o != [] && |t| >= |o| {
      if HasPrefix(t, o) {
        LackSplit(o, t[|o|..], c);
        assert t == o + t[|o|..];
        WithoutKeeps(t[|o|..], o, c);
      } else if t[0] != c {
        LackSplit([t[0]], t[1..], c);
        assert t == [t[0]] + t[1..];
        WithoutKeeps(t[1..], o, c);
        LackSplit([t[0]], Without(t[1..], o), c);
      }
    }
  }

  lemma {:induction false} LackSplit(a: text, b: text, c: byte)
    ensures Lacks(a + b, c) <==> Lacks(a, c) && Lacks(b, c)
  {
    if Lacks(a + b, c) {
      forall i | 0 <= i < |a| ensures a[i] != c {
        assert (a + b)[i] == a[i];
      }
      forall i | 0 <= i < |b| ensures b[i] != c {
        assert (a + b)[|a| + i] == b[i];
      }
    }
  }

  /** The key of an indexed part keeps its brackets. */
  lemma {:induction false} BaseOfIndexed(n: text, ks: seq<nat>)
    requires IsPart(Element(n, ks)) && ks != []
    ensures var t := PartText(Element(n, ks));
      !IsBitPart(t) && ParseTag(t).Ok? && !Lacks(ParseTag(t).value.base, OPEN_BRACKET)
  {
    hide ParseTag, Without, AllBelow, IsName;
    var inner := Join(Texts(ks), COMMA);
    var t := n + [OPEN_BRACKET] + inner + [CLOSE_BRACKET];
    ParseElement(n, ks);
    JoinChars(ks);
    IndexCharsLack(inner);
    assert t[|n|] == OPEN_BRACKET;
    WithoutKeeps(t, inner, OPEN_BRACKET);
    assert t[|t| - 1] == CLOSE_BRACKET && |t| >= 2;
  }

  lemma {:induction false} BaseOfPlain(n: text)
    requires IsPart(Element(n, []))
    ensures !IsBitPart(n) && ParseTag(n) == Ok(Parts(n, [], false, 0))
  {
    LastIndexOfNone(n, DOT);
  }

  lemma {:induction false} BitReads(bit: nat)
    requires bit <= 31
    ensures IsBitPart(Digits(bit))
  {
    AtoiOfDigits(bit);
  }

  lemma {:induction false} JoinCons(x: text, more: seq<text>)
    ensures Join([x] + more, DOT) == x + if more == [] then [] else [DOT] + Join(more, DOT)
  {
    assert ([x] + more)[1..] == more;
  }

  lemma {:induction false} JoinLacks(x: text, more: seq<text>)
    ensures Lacks(Join([x] + more, DOT), OPEN_BRACKET) ==>
      Lacks(x, OPEN_BRACKET) && Lacks(Join(more, DOT), OPEN_BRACKET)
  {
    JoinCons(x, more);
    assert Join([], DOT) == [];
    LackSplit(x, if more == [] then [] else [DOT] + Join(more, DOT), OPEN_BRACKET);
    LackSplit([DOT], Join(more, DOT), OPEN_BRACKET);
  }

  lemma {:induction false} SkipBit(parts: seq<text>)
    requires parts != [] && IsBitPart(parts[0])
    ensures Bases(parts) == Bases(parts[1..])
  {
    hide ParseTag, IsBitPart;
  }

  lemma {:induction false} TakeBase(parts: seq<text>, base: text)
    requires parts != [] && !IsBitPart(parts[0]) && base != []
    requires ParseTag(parts[0]).Ok? && ParseTag(parts[0]).value.base == base
    requires Bases(parts[1..]).Ok?
    ensures Bases(parts) == Ok([base] + Bases(parts[1..]).value)
  {
    hide ParseTag, IsBitPart;
  }

  /** What the first part adds to the lookup key. */
  lemma {:induction false} FirstBase(ps: seq<Part>) returns (base: text)
    requires ps != [] && IsPart(ps[0]) && ps[0].Element?
    ensures var t := PartText(ps[0]);
      base != [] && !IsBitPart(t) && ParseTag(t).Ok? && ParseTag(t).value.base == base
    ensures if ps[0].indexes == [] then base == PartText(ps[0]) else !Lacks(base, OPEN_BRACKET)
  {
    hide ParseTag, Lacks, IsBitPart;
    if ps[0].indexes == [] {
      BaseOfPlain(ps[0].name);
      base := ps[0].name;
    } else {
      BaseOfIndexed(ps[0].name, ps[0].indexes);
      EmptyLacks();
      base := ParseTag(PartText(ps[0])).value.base;
    }
  }

  lemma {:induction false} EmptyLacks()
    ensures Lacks([], OPEN_BRACKET)
  {
  }

  /** The lookup key of a path without indexes is the path without its bit numbers. */
  lemma {:induction false} BasesOf(ps: seq<Part>)
    requires AreParts(ps)
    ensures Bases(PartTexts(ps)).Ok?
    ensures NoIndexes(ps) ==> Bases(PartTexts(ps)).value == PartTexts(Elements(ps))
    ensures !NoIndexes(ps) ==> !Lacks(Join(Bases(PartTexts(ps)).value, DOT), OPEN_BRACKET)
    decreases |ps|
  {
    if ps != [] {
      BasesOf(ps[1..]);
      hide ParseTag, PartText, Lacks, Join, IsBitPart, Bases;
      assert PartTexts(ps)[1..] == PartTexts(ps[1..]);
      if ps[0].BitOf? {
        TextOfBit(ps[0].bit);
        BitReads(ps[0].bit);
        SkipBit(PartTexts(ps));
      } else {
        var base := FirstBase(ps);
        TakeBase(PartTexts(ps), base);
        JoinLacks(base, Bases(PartTexts(ps[1..])).value);
      }
    }
  }

  lemma {:induction false} TextOfBit(bit: nat)
    ensures PartText(BitOf(bit)) == Digits(bit)
  {
  }

  /// The known prefix

  predicate Bracketless(known: map<text, KnownTag>) {
    forall name :: name in known ==> Lacks(name, OPEN_BRACKET)
  }

  lemma {:induction false} SplitRender(ps: seq<Part>)
    requires AreParts(ps) && ps != []
    ensures Split(Render(ps), DOT) == PartTexts(ps)
  {
    PartTextsLackDots(ps);
    SplitOfJoin(PartTexts(ps), DOT);
  }

  lemma {:induction false} PartTextsTake(ps: seq<Part>, k: nat)
    requires k <= |ps|
    ensures PartTexts(ps)[..k] == PartTexts(ps[..k])
  {
    if k > 0 {
      PartTextsTake(ps[1..], k - 1);
      assert ps[..k][1..] == ps[1..][..k - 1];
      assert PartTexts(ps)[1..] == PartTexts(ps[1..]);
    }
  }

  lemma {:induction false} PartsTake(ps: seq<Part>, k: nat)
    requires k <= |ps| && AreParts(ps)
    ensures AreParts(ps[..k]) && AreParts(ps[k..])
  {
    if k > 0 {
      PartsTake(ps[1..], k - 1);
      assert ps[..k][1..] == ps[1..][..k - 1];
      assert ps[k..] == ps[1..][k - 1..];
    }
  }

  /** What was found for a prefix of `e` parts. */
  predicate FoundAt(known: map<text, KnownTag>, ps: seq<Part>, e: nat, m: Match) {
    && e <= |ps| && NoIndexes(ps[..e]) && Elements(ps[..e]) != []
    && m.name == Render(Elements(ps[..e]))
    && m.name in known && m.tag == known[m.name]
    && m.remainder == Trimmed(Render(ps), m.name)
  }

  /** The first `j` parts, bit numbers left out, name a listed tag. */
  predicate Listed(known: map<text, KnownTag>, ps: seq<Part>, j: nat)
    requires j <= |ps|
  {
    NoIndexes(ps[..j]) && Elements(ps[..j]) != [] && Render(Elements(ps[..j])) in known
  }

  predicate NoneListed(known: map<text, KnownTag>, ps: seq<Part>, lo: nat, hi: nat)
    requires hi <= |ps|
  {
    forall j :: lo < j <= hi ==> !Listed(known, ps, j)
  }

  lemma {:induction false} FindsPrefix(known: map<text, KnownTag>, ps: seq<Part>, end: nat) returns (e: nat)
    requires AreParts(ps) && ps != [] && Bracketless(known)
    requires Split(Render(ps), DOT) == PartTexts(ps) && end <= |ps|
    ensures var r := FindPrefix(known, Render(ps), end);
      r.Ok? && (r.value.Some? ==> FoundAt(known, ps, e, r.value.value))
    ensures e <= end && NoneListed(known, ps, e, end)
    ensures FindPrefix(known, Render(ps), end).value.None? ==> e == 0
    decreases end
  {
    hide Bases, PartText, Join, Lacks, AreParts, NoIndexes, Elements, HasPrefix;
    e := end;
    if end > 0 {
      PartTextsTake(ps, end);
      PartsTake(ps, end);
      BasesOf(ps[..end]);
      var bases := Bases(PartTexts(ps[..end])).value;
      var name := Join(bases, DOT);
      if !(bases != [] && name in known) {
        e := FindsPrefix(known, ps, end - 1);
      }
    }
  }

  /** `FindKnownTagPrefix` finds the longest run of leading parts that names a listed tag, if there is one. */
  lemma {:induction false} FindsLongest(known: map<text, KnownTag>, ps: seq<Part>) returns (e: nat)
    requires AreParts(ps) && ps != [] && Bracketless(known)
    ensures e <= |ps| && NoneListed(known, ps, e, |ps|)
    ensures var r := FindPrefix(known, Render(ps), |Split(Render(ps), DOT)|);
      r.Ok? && (if e == 0 then r.value.None?
                else
                  Listed(known, ps, e) && r.value.Some? && r.value.value.name == Render(Elements(ps[..e])) &&
                  r.value.value.tag == known[Render(Elements(ps[..e]))])
  {
    hide AreParts, NoIndexes, Elements, Render, FindPrefix;
    SplitRender(ps);
    e := FindsPrefix(known, ps, |ps|);
    if e == 0 && FindPrefix(known, Render(ps), |ps|).value.Some? {
      NoElements(ps);
    }
  }

  lemma {:induction false} NoElements(ps: seq<Part>)
    ensures Elements(ps[..0]) == []
  {
  }

  /// When the prefix can be cut off

  lemma {:induction false} BitDigits(bit: nat, k: nat)
    requires bit <= 31 && 0 < k <= |Digits(bit)|
    ensures IsBitPart(Digits(bit)[..k])
  {
    var t := Digits(bit);
    if bit >= 10 {
      assert t == Digits(bit / 10) + [48 + bit % 10] && |Digits(bit / 10)| == 1;
    }
    if k == |t| {
      assert t[..k] == t;
      BitReads(bit);
    } else {
      assert t[..k] == Digits(bit / 10);
      BitReads(bit / 10);
    }
  }

  lemma {:induction false} DotInside(t: text, k: nat, j: nat)
    requires k < j <= |t| && t[k] == DOT
    ensures !Lacks(t[..j], DOT)
  {
    assert t[..j][k] == DOT;
  }

  /** A bit number does not start like a name. */
  lemma {:induction false} BitIsNoName(bit: nat, x: text, n: text, y: text)
    requires bit <= 31 && IsPart(Element(n, []))
    requires x == [] || x[0] == DOT
    ensures !HasPrefix(Digits(bit) + x, n + y)
  {
    hide IsBitPart;
    var t, p := Digits(bit) + x, n + y;
    if HasPrefix(t, p) {
      assert n == p[..|n|] == t[..|n|];
      if |n| <= |Digits(bit)| {
        assert n == Digits(bit)[..|n|];
        BitDigits(bit, |n|);
      } else {
        DotInside(t, |Digits(bit)|, |n|);
      }
    }
  }

  lemma {:induction false} SamePrefix(n: text, x: text, y: text)
    ensures HasPrefix(n + x, n + y) <==> HasPrefix(x, y)
  {
    if |y| <= |x| {
      assert (n + x)[..|n + y|] == n + x[..|y|];
      if HasPrefix(n + x, n + y) {
        assert (n + y)[|n|..] == (n + x[..|y|])[|n|..];
      }
    }
  }

  /** The key is a textual prefix only if no bit number comes before its last name. */
  lemma {:induction false} PrefixIsParts(ps: seq<Part>, e: nat)
    requires AreParts(ps) && e <= |ps| && NoIndexes(ps[..e]) && Elements(ps[..e]) != []
    requires HasPrefix(Render(ps), Render(Elements(ps[..e])))
    ensures var qs := Elements(ps[..e]); |qs| <= |ps| && qs == ps[..|qs|]
    decreases |ps|
  {
    hide IsPart, HasPrefix, PartText, Render;
    var qs := Elements(ps[..e]);
    assert ps[..e][1..] == ps[1..][..e - 1];
    var more := Elements(ps[1..][..e - 1]);
    RenderCons(ps);
    if ps[0].BitOf? {
      FirstClash(ps, e);
    } else {
      assert qs == [ps[0]] + more;
      RenderCons(qs);
      assert qs[1..] == more;
      if more != [] {
        SamePrefix(PartText(ps[0]), if |ps| == 1 then [] else [DOT] + Render(ps[1..]), [DOT] + Render(more));
        assert |ps| > 1 by {
          assert HasPrefix([], [DOT] + Render(more)) == false by { NoEmptyPrefix(Render(more)); }
        }
        SamePrefix([DOT], Render(ps[1..]), Render(more));
        PrefixIsParts(ps[1..], e - 1);
      }
    }
  }

  lemma {:induction false} NoEmptyPrefix(x: text)
    ensures !HasPrefix([], [DOT] + x)
  {
  }

  lemma {:induction false} ElementsPlain(ps: seq<Part>)
    requires AreParts(ps) && NoIndexes(ps)
    ensures forall i :: 0 <= i < |Elements(ps)| ==>
      Elements(ps)[i].Element? && Elements(ps)[i].indexes == [] && IsPart(Elements(ps)[i])
    decreases |ps|
  {
    if ps != [] {
      ElementsPlain(ps[1..]);
    }
  }

  lemma {:induction false} FirstClash(ps: seq<Part>, e: nat)
    requires AreParts(ps) && e <= |ps| && NoIndexes(ps[..e]) && Elements(ps[..e]) != [] && ps[0].BitOf?
    ensures !HasPrefix(Render(ps), Render(Elements(ps[..e])))
  {
    hide Render, HasPrefix;
    var qs := Elements(ps[..e]);
    PartsTake(ps, e);
    ElementsPlain(ps[..e]);
    RenderCons(ps);
    RenderCons(qs);
    BitIsNoName(ps[0].bit, if |ps| == 1 then [] else [DOT] + Render(ps[1..]),
                qs[0].name, if |qs| == 1 then [] else [DOT] + Render(qs[1..]));
  }

  /// Two forms of one path

  lemma {:induction false} RenderSplit(ps: seq<Part>, m: nat)
    requires 0 < m <= |ps|
    ensures Render(ps) == Render(ps[..m]) + if m == |ps| then [] else [DOT] + Render(ps[m..])
    decreases m
  {
    hide Render, PartText;
    RenderCons(ps);
    RenderCons(ps[..m]);
    if m == |ps| {
      assert ps[..m] == ps;
    } else if m > 1 {
      RenderSplit(ps[1..], m - 1);
      assert ps[1..][..m - 1] == ps[..m][1..];
      assert ps[1..][m - 1..] == ps[m..];
    }
  }

  lemma {:induction false} ExtendSplit(ioi: Ioi, isBool: bool, ps: seq<Part>, m: nat)
    requires m <= |ps|
    ensures ExtendAll(ioi, isBool, ps) == ExtendAll(ExtendAll(ioi, isBool, ps[..m]), isBool, ps[m..])
    decreases m
  {
    hide Extend;
    if m == 0 {
      assert ps[m..] == ps;
    } else {
      ExtendSplit(Extend(ioi, isBool, ps[0]), isBool, ps[1..], m - 1);
      assert ps[..m][1..] == ps[1..][..m - 1] && ps[1..][m - 1..] == ps[m..];
    }
  }

  predicate SameBit(a: Ioi, b: Ioi) {
    a.bitAccess == b.bitAccess && a.bitPosition == b.bitPosition
  }

  lemma {:induction false} ExtendSameBit(a: Ioi, b: Ioi, isBool: bool, ps: seq<Part>)
    requires SameBit(a, b)
    ensures SameBit(ExtendAll(a, isBool, ps), ExtendAll(b, isBool, ps))
    decreases |ps|
  {
    if ps != [] {
      ExtendSameBit(Extend(a, isBool, ps[0]), Extend(b, isBool, ps[0]), isBool, ps[1..]);
    }
  }

  /** A plain name selects no bit. */
  lemma {:induction false} PlainKeepsBit(ioi: Ioi, isBool: bool, ps: seq<Part>)
    requires forall i :: 0 <= i < |ps| ==> ps[i].Element? && ps[i].indexes == []
    ensures SameBit(ExtendAll(ioi, isBool, ps), ioi)
    decreases |ps|
  {
    if ps != [] {
      PlainKeepsBit(Extend(ioi, isBool, ps[0]), isBool, ps[1..]);
    }
  }

  lemma {:induction false} AppendRendered(ioi: Ioi, isBool: bool, ps: seq<Part>)
    requires AreParts(ps) && ps != []
    ensures Render(ps) != [] && Render(ps)[0] != DOT
    ensures AppendParts(ioi, isBool, Split(Render(ps), DOT)) == Ok(ExtendAll(ioi, isBool, ps))
  {
    SplitRender(ps);
    AppendTexts(ioi, isBool, ps);
    RenderCons(ps);
    if ps[0].BitOf? {
      assert IsDigit(Digits(ps[0].bit)[0]);
    }
  }

  lemma {:induction false} NamesHaveBytes(ps: seq<Part>, isBool: bool)
    requires ps != [] && ps[0].Element?
    ensures PathBytes(Visible(ps, isBool)) != []
  {
  }

  /**
   `ioi`, the path that starts with `prefix`, is the symbolic path with the segments of the known
   name replaced by that prefix, and selects the same bit.
   */
  predicate SameTarget(ioi: Ioi, prefix: seq<byte>, name: Ioi, symbolic: Ioi) {
    && SameBit(ioi, symbolic)
    && prefix <= ioi.buffer
    && symbolic.buffer == name.buffer + ioi.buffer[|prefix|..]
  }

  lemma {:induction false} CutPrefix(ps: seq<Part>, isBool: bool, m: nat, prefix: seq<byte>) returns (ioi: Ioi)
    requires AreParts(ps) && 0 < m <= |ps|
    requires forall i :: 0 <= i < m ==> ps[i].Element? && ps[i].indexes == []
    ensures var rest := Trimmed(Trimmed(Render(ps), Render(ps[..m])), [DOT]);
      FromPrefix(prefix, rest, isBool) == Ok(ioi)
    ensures SymbolicIoi(Render(ps), isBool).Ok? && SymbolicIoi(Render(ps[..m]), isBool).Ok?
    ensures SameTarget(ioi, prefix, SymbolicIoi(Render(ps[..m]), isBool).value, SymbolicIoi(Render(ps), isBool).value)
  {
    hide AreParts, Render, SymbolicIoi, ExtendAll, AppendParts, PathBytes, Visible;
    PartsTake(ps, m);
    RenderSplit(ps, m);
    PartByPart(ps, isBool);
    PartByPart(ps[..m], isBool);
    ExtendSplit(EMPTY_IOI, isBool, ps, m);
    PlainKeepsBit(EMPTY_IOI, isBool, ps[..m]);
    var start := Ioi(prefix, false, 0);
    var name := ExtendAll(EMPTY_IOI, isBool, ps[..m]);
    ioi := ExtendAll(start, isBool, ps[m..]);
    ExtendSameBit(start, name, isBool, ps[m..]);
    ExtendBytes(start, isBool, ps[m..]);
    ExtendBytes(name, isBool, ps[m..]);
    var cut := Trimmed(Render(ps), Render(ps[..m]));
    assert cut == if m == |ps| then [] else [DOT] + Render(ps[m..]);
    if m < |ps| {
      AppendRendered(start, isBool, ps[m..]);
      assert Trimmed(cut, [DOT]) == Render(ps[m..]);
    } else {
      NothingToExtend(start, isBool, ps[m..]);
    }
  }

  lemma {:induction false} NothingToExtend(ioi: Ioi, isBool: bool, ps: seq<Part>)
    requires ps == []
    ensures ExtendAll(ioi, isBool, ps) == ioi
  {
  }

  /** The whole path behind the prefix: the names of the prefix are then said twice. */
  lemma {:induction false} KeepPrefix(ps: seq<Part>, qs: seq<Part>, isBool: bool, prefix: seq<byte>) returns (ioi: Ioi)
    requires AreParts(ps) && ps != [] && AreParts(qs) && qs != [] && qs[0].Element?
    ensures FromPrefix(prefix, Trimmed(Render(ps), [DOT]), isBool) == Ok(ioi)
    ensures SymbolicIoi(Render(ps), isBool).Ok? && SymbolicIoi(Render(qs), isBool).Ok?
    ensures !SameTarget(ioi, prefix, SymbolicIoi(Render(qs), isBool).value, SymbolicIoi(Render(ps), isBool).value)
  {
    hide AreParts, Render, SymbolicIoi, ExtendAll, AppendParts, PathBytes, Visible;
    var start := Ioi(prefix, false, 0);
    PartByPart(ps, isBool);
    PartByPart(qs, isBool);
    AppendRendered(start, isBool, ps);
    ioi := ExtendAll(start, isBool, ps);
    ExtendBytes(start, isBool, ps);
    ExtendBytes(EMPTY_IOI, isBool, ps);
    ExtendBytes(EMPTY_IOI, isBool, qs);
    NamesHaveBytes(qs, isBool);
    assert ioi.buffer[|prefix|..] == PathBytes(Visible(ps, isBool));
  }

  lemma {:induction false} ElementsAreParts(ps: seq<Part>)
    requires AreParts(ps)
    ensures AreParts(Elements(ps))
    decreases |ps|
  {
    if ps != [] {
      ElementsAreParts(ps[1..]);
    }
  }

  lemma {:induction false} CutOrKeep(ps: seq<Part>, isBool: bool, known: map<text, KnownTag>, e: nat, m: Match)
    returns (ioi: Ioi)
    requires AreParts(ps) && ps != [] && FoundAt(known, ps, e, m)
    ensures FromPrefix(TagBytes(m.tag), Trimmed(m.remainder, [DOT]), isBool) == Ok(ioi)
    ensures SymbolicIoi(Render(ps), isBool).Ok? && SymbolicIoi(m.name, isBool).Ok?
    ensures SameTarget(ioi, TagBytes(m.tag), SymbolicIoi(m.name, isBool).value, SymbolicIoi(Render(ps), isBool).value)
      <==> HasPrefix(Render(ps), m.name)
  {
    hide TagBytes, SymbolicIoi, FromPrefix, Render, HasPrefix, SameTarget;
    PartsTake(ps, e);
    ElementsPlain(ps[..e]);
    ElementsAreParts(ps[..e]);
    var qs := Elements(ps[..e]);
    if HasPrefix(Render(ps), m.name) {
      PrefixIsParts(ps, e);
      ioi := CutPrefix(ps, isBool, |qs|, TagBytes(m.tag));
    } else {
      ioi := KeepPrefix(ps, qs, isBool, TagBytes(m.tag));
    }
  }

  /**
   An instance-addressed path selects what the symbolic path selects exactly when the known name
   is a textual prefix of the path, so that it can be cut off.
   */
  lemma {:induction false} InstanceMeansSymbolic(known: map<text, KnownTag>, ps: seq<Part>, isBool: bool)
    requires AreParts(ps) && ps != [] && Bracketless(known)
    ensures KnownIoi(Some(known), Render(ps), isBool).Ok?
    ensures match KnownIoi(Some(known), Render(ps), isBool).value
      case None => true
      case Some(ioi) => InstanceFits(known, Render(ps), isBool, ioi)
  {
    hide AreParts, FromPrefix, TagBytes, SymbolicIoi, SameTarget, HasPrefix, FindPrefix, Bracketless;
    SplitRender(ps);
    var e := FindsPrefix(known, ps, |ps|);
    var m := FindPrefix(known, Render(ps), |ps|).value;
    if m.Some? {
      var ioi := CutOrKeep(ps, isBool, known, e, m.value);
    }
  }

  predicate InstanceFits(known: map<text, KnownTag>, path: text, isBool: bool, ioi: Ioi) {
    var found := FindPrefix(known, path, |Split(path, DOT)|);
    && found.Ok? && found.value.Some?
    && var m := found.value.value;
      && SymbolicIoi(m.name, isBool).Ok? && SymbolicIoi(path, isBool).Ok?
      && (SameTarget(ioi, TagBytes(m.tag), SymbolicIoi(m.name, isBool).value, SymbolicIoi(path, isBool).value)
          <==> HasPrefix(path, m.name))
  }

  predicate BitLast(ps: seq<Part>) {
    forall i :: 0 <= i < |ps| - 1 ==> ps[i].Element?
  }

  lemma {:induction false} ElementsAll(ps: seq<Part>)
    requires forall i :: 0 <= i < |ps| ==> ps[i].Element?
    ensures Elements(ps) == ps
  {
    if ps != [] {
      ElementsAll(ps[1..]);
      assert ps == [ps[0]] + ps[1..];
    }
  }

  lemma {:induction false} ElementsInit(ps: seq<Part>)
    requires ps != [] && ps[|ps| - 1].BitOf?
    ensures Elements(ps) == Elements(ps[..|ps| - 1])
  {
    if |ps| > 1 {
      ElementsInit(ps[1..]);
      assert ps[1..][..|ps| - 2] == ps[..|ps| - 1][1..];
    }
  }

  /** With a bit number in last place only, as in every valid tag path, the prefix always comes off. */
  lemma {:induction false} BitLastFits(known: map<text, KnownTag>, ps: seq<Part>, isBool: bool)
    requires AreParts(ps) && ps != [] && Bracketless(known) && BitLast(ps)
    ensures var found := FindPrefix(known, Render(ps), |Split(Render(ps), DOT)|);
      found.Ok? && (found.value.Some? ==> HasPrefix(Render(ps), found.value.value.name))
  {
    hide AreParts, FindPrefix, Bracketless, PartText, Render;
    SplitRender(ps);
    var e := FindsPrefix(known, ps, |ps|);
    var m := FindPrefix(known, Render(ps), |ps|).value;
    if m.Some? {
      var k := if ps[e - 1].BitOf? then e - 1 else e;
      ElementsAll(ps[..k]);
      if k < e {
        ElementsInit(ps[..e]);
        assert ps[..e][..e - 1] == ps[..k];
      }
      assert Elements(ps[..e]) == ps[..k];
      RenderSplit(ps, k);
    }
  }

  lemma {:induction false} WholeKey(known: map<text, KnownTag>, ps: seq<Part>)
    requires AreParts(ps) && ps != [] && NoIndexes(ps) && Elements(ps) != []
    requires Render(Elements(ps)) in known
    ensures var name := Render(Elements(ps));
      FindPrefix(known, Render(ps), |Split(Render(ps), DOT)|) ==
      Ok(Some(Match(known[name], name, Trimmed(Render(ps), name))))
  {
    hide PartText, AreParts, NoIndexes, Elements, Bases, Join, Trimmed;
    SplitRender(ps);
    BasesOf(ps);
    assert PartTexts(ps)[..|ps|] == PartTexts(ps);
  }

  /** `a.5.b` with `a.b` known: the key skips the bit number, and nothing is cut off. */
  lemma {:induction false} BitInTheMiddle(a: Part, bit: Part, b: Part, known: map<text, KnownTag>)
    requires AreParts([a, bit, b]) && a.Element? && a.indexes == [] && b.Element? && b.indexes == [] && bit.BitOf?
    requires Render([a, b]) in known
    ensures var path := Render([a, bit, b]);
      FindPrefix(known, path, |Split(path, DOT)|) == Ok(Some(Match(known[Render([a, b])], Render([a, b]), path)))
  {
    hide PartText, IsPart, FindPrefix, Render;
    var ps := [a, bit, b];
    assert ps[1..] == [bit, b] && [bit, b][1..] == [b] && ps[..3] == ps;
    assert Elements([]) == [] && [b][1..] == [];
    assert Elements([b]) == [b] && NoIndexes([b]);
    assert Elements([bit, b]) == [b] && NoIndexes([bit, b]);
    assert Elements(ps) == [a, b];
    WholeKey(known, ps);
    if HasPrefix(Render(ps), Render([a, b])) {
      PrefixIsParts(ps, 3);
    }
  }

  /// Runs of the cache

  function Results(entries: map<text, Ioi>, qs: seq<Request>): (rs: seq<Result<Ioi>>)
    ensures |rs| == |qs|
    decreases |qs|
  {
    if qs == [] then []
    else [CacheStep(entries, qs[0]).0] + Results(CacheStep(entries, qs[0]).1, qs[1..])
  }

  /** Every entry stays and none gets longer. */
  predicate Shrinks(a: map<text, Ioi>, b: map<text, Ioi>) {
    forall t :: t in a ==> t in b && |b[t].buffer| <= |a[t].buffer|
  }

  lemma {:induction false} StepShrinks(entries: map<text, Ioi>, q: Request)
    ensures Shrinks(entries, CacheStep(entries, q).1)
    ensures CacheStep(entries, q).0.Ok? ==>
      Lower(q.path) in CacheStep(entries, q).1
        && CacheStep(entries, q).1[Lower(q.path)] == CacheStep(entries, q).0.value
  {
    hide KnownIoi, SymbolicIoi, Lower;
  }

  lemma {:induction false} NotLongerThanEntry(entries: map<text, Ioi>, qs: seq<Request>, j: nat)
    requires j < |qs| && Lower(qs[j].path) in entries && Results(entries, qs)[j].Ok?
    ensures |Results(entries, qs)[j].value.buffer| <= |entries[Lower(qs[j].path)].buffer|
    decreases |qs|
  {
    hide CacheStep, Lower;
    StepShrinks(entries, qs[0]);
    if j > 0 {
      NotLongerThanEntry(CacheStep(entries, qs[0]).1, qs[1..], j - 1);
    }
  }

  /** Over any run, whatever tags get known in between, the path returned for a tag never gets longer. */
  lemma {:induction false} NeverLonger(entries: map<text, Ioi>, qs: seq<Request>, i: nat, j: nat)
    requires i < j < |qs| && Lower(qs[i].path) == Lower(qs[j].path)
    requires Results(entries, qs)[i].Ok? && Results(entries, qs)[j].Ok?
    ensures |Results(entries, qs)[j].value.buffer| <= |Results(entries, qs)[i].value.buffer|
    decreases |qs|
  {
    hide CacheStep, Lower;
    var next := CacheStep(entries, qs[0]).1;
    if i > 0 {
      NeverLonger(next, qs[1..], i - 1, j - 1);
    } else {
      StepShrinks(entries, qs[0]);
      NotLongerThanEntry(next, qs[1..], j - 1);
    }
  }

  /** The path computed without a cache: the shorter form, symbolic on a tie. */
  function Fresh(q: Request): Result<Ioi> {
    var known :- if q.newFirmware then KnownIoi(q.known, Lower(q.path), q.isBool) else Ok(None);
    var symbolic :- SymbolicIoi(Lower(q.path), q.isBool);
    Ok(if known.Some? && |known.value.buffer| < |symbolic.buffer| then known.value else symbolic)
  }

  /** Requests of one client whose listed tags stay the same and whose tags keep their types. */
  predicate Steady(qs: seq<Request>, known: Maybe<map<text, KnownTag>>, newFirmware: bool, bools: set<text>) {
    forall i :: 0 <= i < |qs| ==>
      qs[i].known == known && qs[i].newFirmware == newFirmware && qs[i].isBool == (Lower(qs[i].path) in bools)
  }

  ghost predicate Good(
      entries: map<text, Ioi>, known: Maybe<map<text, KnownTag>>, newFirmware: bool, bools: set<text>) {
    forall t, q: Request :: t in entries && Lower(q.path) == t && Steady([q], known, newFirmware, bools) ==>
      Fresh(q) == Ok(entries[t])
  }

  lemma {:induction false} StepIsFresh(entries: map<text, Ioi>, q: Request)
    requires Lower(q.path) in entries ==> Fresh(q) == Ok(entries[Lower(q.path)])
    ensures CacheStep(entries, q).0 == Fresh(q)
    ensures CacheStep(entries, q).1 == if Fresh(q).Ok? then entries[Lower(q.path) := Fresh(q).value] else entries
  {
    hide KnownIoi, SymbolicIoi, Lower;
  }

  /** Two requests for the same path in a steady run compute the same. */
  lemma {:induction false} FreshOfPath(p: Request, q: Request)
    requires Lower(p.path) == Lower(q.path)
    requires p.known == q.known && p.newFirmware == q.newFirmware && p.isBool == q.isBool
    ensures Fresh(p) == Fresh(q)
  {
    hide KnownIoi, SymbolicIoi, Lower;
  }

  lemma {:induction false} StepStaysGood(
      entries: map<text, Ioi>, q: Request, known: Maybe<map<text, KnownTag>>, newFirmware: bool,
      bools: set<text>)
    requires Good(entries, known, newFirmware, bools) && Steady([q], known, newFirmware, bools)
    ensures CacheStep(entries, q).0 == Fresh(q)
    ensures Good(CacheStep(entries, q).1, known, newFirmware, bools)
  {
    hide CacheStep, Fresh, Lower;
    assert [q][0] == q;
    StepIsFresh(entries, q);
    var next := CacheStep(entries, q).1;
    forall t, p: Request | t in next && Lower(p.path) == t && Steady([p], known, newFirmware, bools)
      ensures Fresh(p) == Ok(next[t])
    {
      assert [p][0] == p;
      if t == Lower(q.path) {
        FreshOfPath(p, q);
      }
    }
  }

  /** In a steady run from an empty cache every result is the one computed without a cache. */
  lemma {:induction false} HitsAreFresh(
      qs: seq<Request>, known: Maybe<map<text, KnownTag>>, newFirmware: bool, bools: set<text>, i: nat)
    requires Steady(qs, known, newFirmware, bools) && i < |qs|
    ensures Results(map[], qs)[i] == Fresh(qs[i])
  {
    GoodRun(map[], qs, known, newFirmware, bools, i);
  }

  /**
   In every steady run of a client on new firmware, a path with an instance form gets it exactly when
   it is the shorter one: what is returned has the length of the shorter form, and of two forms of the
   same length it is the symbolic one.
   */
  lemma {:induction false} ShorterFormWins(
      qs: seq<Request>, known: Maybe<map<text, KnownTag>>, bools: set<text>, i: nat, instance: Ioi,
      symbolic: Ioi)
    requires Steady(qs, known, true, bools) && i < |qs|
    requires KnownIoi(known, Lower(qs[i].path), qs[i].isBool) == Ok(Some(instance))
    requires SymbolicIoi(Lower(qs[i].path), qs[i].isBool) == Ok(symbolic)
    ensures var r := Results(map[], qs)[i];
      && r.Ok?
      && |r.value.buffer| == Min(|instance.buffer|, |symbolic.buffer|)
      && (|instance.buffer| < |symbolic.buffer| ==> r.value == instance)
      && (|instance.buffer| >= |symbolic.buffer| ==> r.value == symbolic)
  {
    hide Results, KnownIoi, SymbolicIoi, Lower;
    HitsAreFresh(qs, known, true, bools, i);
  }

  /** In any run, whatever is listed when, no result is longer than the instance form at that moment. */
  lemma {:induction false} NeverLongerThanInstance(entries: map<text, Ioi>, qs: seq<Request>, i: nat)
    requires i < |qs| && qs[i].newFirmware && Results(entries, qs)[i].Ok?
    ensures var k := KnownIoi(qs[i].known, Lower(qs[i].path), qs[i].isBool);
      k.Ok? && (k.value.Some? ==> |Results(entries, qs)[i].value.buffer| <= |k.value.value.buffer|)
    decreases |qs|
  {
    hide KnownIoi, SymbolicIoi, Lower;
    if i > 0 {
      NeverLongerThanInstance(CacheStep(entries, qs[0]).1, qs[1..], i - 1);
    }
  }

  lemma {:induction false} OneName(n: text, isBool: bool)
    requires IsPart(Element(n, []))
    ensures var ps := [Element(n, [])];
      && AreParts(ps) && NoIndexes(ps) && Elements(ps) == ps && Render(ps) == n
      && Visible(ps, isBool) == ps && PathBytes(ps) == NameBytes(n) && SelectedBit(ps, isBool) == (false, 0)
  {
    hide IsPart, NameBytes;
    var ps := [Element(n, [])];
    assert ps[0] == Element(n, []) && ps[1..] == [] && ps[..0] == [];
    assert AreParts([]) && NoIndexes([]) && Elements([]) == [] && Visible([], isBool) == [];
    assert PartTexts(ps) == [n];
    assert PathBytes(ps) == (NameBytes(n) + []) + [] == NameBytes(n);
  }

  lemma {:induction false} ListedNameForms(known: map<text, KnownTag>, n: text, isBool: bool)
    requires IsPart(Element(n, [])) && n in known && !(known[n].isStruct && known[n].isArray)
    ensures KnownIoi(Some(known), n, isBool) == Ok(Some(Ioi(TagBytes(known[n]), false, 0)))
    ensures SymbolicIoi(n, isBool) == Ok(Ioi(NameBytes(n), false, 0))
  {
    hide IsPart, AreParts, NoIndexes, Elements, Render, Visible, PathBytes, SelectedBit;
    hide TagBytes, NameBytes, SymbolicIoi, FindPrefix, Bases;
    var ps := [Element(n, [])];
    OneName(n, isBool);
    WholeKey(known, ps);
    assert Trimmed(n, n) == [] && Trimmed([], [DOT]) == [];
    SymbolicMeaning(ps, isBool);
  }

  /** Arrays of structures are never addressed by instance. */
  lemma {:induction false} StructArrayByName(
      qs: seq<Request>, known: map<text, KnownTag>, bools: set<text>, i: nat, n: text)
    requires Steady(qs, Some(known), true, bools) && i < |qs| && Lower(qs[i].path) == n
    requires IsPart(Element(n, [])) && n in known && known[n].isStruct && known[n].isArray
    ensures Results(map[], qs)[i] == Ok(Ioi(NameBytes(n), false, 0))
  {
    hide IsPart, AreParts, NoIndexes, Elements, Render, Visible, PathBytes, SelectedBit, Results, Lower, Steady;
    hide TagBytes, NameBytes, SymbolicIoi, FindPrefix, Bases;
    OneName(n, qs[i].isBool);
    WholeKey(known, [Element(n, [])]);
    SymbolicMeaning([Element(n, [])], qs[i].isBool);
    HitsAreFresh(qs, Some(known), true, bools, i);
    SteadyKnown(qs, Some(known), true, bools, i);
  }

  lemma {:induction false} SteadyKnown(
      qs: seq<Request>, known: Maybe<map<text, KnownTag>>, newFirmware: bool, bools: set<text>, i: nat)
    requires Steady(qs, known, newFirmware, bools) && i < |qs|
    ensures qs[i].known == known && qs[i].newFirmware == newFirmware
  {
    hide Lower;
  }

  /**
   A listed tag asked for by its plain name: in every steady run its instance path is used, just when
   that is shorter than the name. Without a program and with an instance below 256 it has four bytes.
   */
  lemma {:induction false} ListedNameGoesByInstance(
      qs: seq<Request>, known: map<text, KnownTag>, bools: set<text>, i: nat, n: text)
    requires Steady(qs, Some(known), true, bools) && i < |qs| && Lower(qs[i].path) == n
    requires IsPart(Element(n, [])) && n in known && !(known[n].isStruct && known[n].isArray)
    ensures Results(map[], qs)[i].Ok?
    ensures Results(map[], qs)[i].value.buffer ==
      if |TagBytes(known[n])| < |NameBytes(n)| then TagBytes(known[n]) else NameBytes(n)
    ensures known[n].program.None? && known[n].instance < 256 && |n| > 2 ==>
      Results(map[], qs)[i].value.buffer == [0x20, 0x6B, 0x24, known[n].instance]
  {
    hide IsPart, Results, KnownIoi, SymbolicIoi, Lower, Steady;
    ListedNameForms(known, n, qs[i].isBool);
    ShorterFormWins(qs, Some(known), bools, i, Ioi(TagBytes(known[n]), false, 0), Ioi(NameBytes(n), false, 0));
  }

  lemma {:induction false} GoodRun(
      entries: map<text, Ioi>, qs: seq<Request>,
      known: Maybe<map<text, KnownTag>>, newFirmware: bool, bools: set<text>, i: nat)
    requires Good(entries, known, newFirmware, bools) && Steady(qs, known, newFirmware, bools) && i < |qs|
    ensures Results(entries, qs)[i] == Fresh(qs[i])
    decreases |qs|
  {
    hide CacheStep, Fresh, Lower, Good;
    assert Steady([qs[0]], known, newFirmware, bools);
    StepStaysGood(entries, qs[0], known, newFirmware, bools);
    if i > 0 {
      GoodRun(CacheStep(entries, qs[0]).1, qs[1..], known, newFirmware, bools, i - 1);
    }
  }
}
