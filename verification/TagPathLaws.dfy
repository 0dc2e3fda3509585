/** What a symbolic path means: tag texts, their bytes and the texts the server reads back. */
module TagPathLaws {
  import opened Wire
  import opened Sequences
  import opened Text
  import opened TagPath

  /// Tag paths as lists of parts

  datatype Part =
    | Element(name: text, indexes: seq<nat>)
    | BitOf(bit: nat)

  predicate IsName(n: text) {
    n != [] && Lacks(n, DOT) && Lacks(n, OPEN_BRACKET) && Lacks(n, CLOSE_BRACKET)
  }

  /** A name alone must not read as a bit number; indexes must fit Go's `int`. */
  predicate IsPart(p: Part) {
    match p
    case Element(n, ks) => IsName(n) && (ks == [] ==> !IsBitPart(n)) && AllBelow(ks, MAX_INT + 1)
    case BitOf(bit) => bit <= 31
  }

  predicate AllBelow(ks: seq<nat>, bound: nat) {
    ks == [] || (ks[0] < bound && AllBelow(ks[1..], bound))
  }

  predicate AreParts(ps: seq<Part>) {
    ps == [] || (IsPart(ps[0]) && AreParts(ps[1..]))
  }

  function Texts(ks: seq<nat>): (ts: seq<text>)
    ensures |ts| == |ks|
    ensures forall i :: 0 <= i < |ts| ==> ts[i] == Digits(ks[i])
  {
    if ks == [] then [] else [Digits(ks[0])] + Texts(ks[1..])
  }

  function PartText(p: Part): text {
    match p
    case Element(n, ks) => if ks == [] then n else n + [OPEN_BRACKET] + Join(Texts(ks), COMMA) + [CLOSE_BRACKET]
    case BitOf(bit) => Digits(bit)
  }

  function PartTexts(ps: seq<Part>): (ts: seq<text>)
    ensures |ts| == |ps|
  {
    if ps == [] then [] else [PartText(ps[0])] + PartTexts(ps[1..])
  }

  /** The tag text, `name[1,2].member.3`. */
  function Render(ps: seq<Part>): text {
    Join(PartTexts(ps), DOT)
  }

  /// What goes on the wire

  /** Bit numbers leave no bytes; the last index of a BOOL element becomes the index of its word. */
  function Visible(ps: seq<Part>, isBool: bool): seq<Part> {
    if ps == [] then []
    else if ps[0].BitOf? then Visible(ps[1..], isBool)
    else [Element(ps[0].name, WordIndex(ps[0].indexes, isBool))] + Visible(ps[1..], isBool)
  }

  function PathBytes(ps: seq<Part>): seq<byte> {
    if ps == [] then []
    else if ps[0].BitOf? then PathBytes(ps[1..])
    else (NameBytes(ps[0].name) + IndexesBytes(ps[0].indexes)) + PathBytes(ps[1..])
  }

  /** The bit a path selects: the last part that names one decides. */
  function SelectedBit(ps: seq<Part>, isBool: bool): (bool, int) {
    if ps == [] then (false, 0)
    else
      var p := ps[|ps| - 1];
      if p.BitOf? then (true, p.bit)
      else if isBool && p.indexes != [] then (true, p.indexes[|p.indexes| - 1] % 32)
      else SelectedBit(ps[..|ps| - 1], isBool)
  }

  /// Encoding

  lemma {:induction false} JoinChars(ks: seq<nat>)
    ensures IndexChars(Join(Texts(ks), COMMA))
  {
    if |ks| > 1 {
      JoinChars(ks[1..]);
      assert Texts(ks)[1..] == Texts(ks[1..]);
    }
  }

  lemma {:induction false} NatsOfTexts(ks: seq<nat>)
    requires AllBelow(ks, MAX_INT + 1)
    ensures forall i :: 0 <= i < |ks| ==> IndexChars(Texts(ks)[i])
    ensures NatsOf(Texts(ks)) == Ok(ks)
  {
    if ks != [] {
      NatsOfTexts(ks[1..]);
      AtoiOfDigits(ks[0]);
      assert Texts(ks)[1..] == Texts(ks[1..]);
      assert [ks[0]] + ks[1..] == ks;
    }
  }

  lemma {:induction false} NumbersOfJoin(ks: seq<nat>)
    requires ks != [] && AllBelow(ks, MAX_INT + 1)
    ensures IndexChars(Join(Texts(ks), COMMA))
    ensures IndexNumbers(Join(Texts(ks), COMMA)) == Ok(ks)
  {
    JoinChars(ks);
    SplitOfJoin(Texts(ks), COMMA);
    NatsOfTexts(ks);
  }

  lemma {:induction false} IndexOfAfter(n: text, c: byte, x: text)
    requires Lacks(n, c)
    ensures IndexOf(n + [c] + x, c) == |n|
    decreases |n|
  {
    if n == [] {
      assert n + [c] + x == [c] + x;
    } else {
      IndexOfAfter(n[1..], c, x);
      assert (n + [c] + x)[1..] == n[1..] + [c] + x;
    }
  }

  lemma {:induction false} LastIndexOfBefore(n: text, c: byte, x: text)
    requires Lacks(x, c)
    ensures LastIndexOf(n + [c] + x, c) == |n|
    decreases |x|
  {
    var t := n + [c] + x;
    if x == [] {
      assert t == n + [c];
    } else {
      LastIndexOfBefore(n, c, x[..|x| - 1]);
      assert t[..|t| - 1] == n + [c] + x[..|x| - 1];
    }
  }

  lemma {:induction false} LastIndexOfNone(t: text, c: byte)
    requires Lacks(t, c)
    ensures LastIndexOf(t, c) == -1
    decreases |t|
  {
    if t != [] {
      LastIndexOfNone(t[..|t| - 1], c);
    }
  }

  lemma {:induction false} MarshalName(n: text)
    requires IsName(n)
    ensures MarshalPart(n) == Ok(NameBytes(n))
  {
    LastIndexOfNone(n, DOT);
  }

  lemma {:induction false} ElementHasIndex(n: text, inner: text)
    requires Lacks(inner, OPEN_BRACKET) && IndexChars(inner)
    ensures var t := n + [OPEN_BRACKET] + inner + [CLOSE_BRACKET]; HasIndex(t) && IndexText(t) == inner
  {
    hide LastIndexOf, IndexChars;
    var t := n + [OPEN_BRACKET] + inner + [CLOSE_BRACKET];
    assert t == n + [OPEN_BRACKET] + (inner + [CLOSE_BRACKET]);
    LastIndexOfBefore(n, OPEN_BRACKET, inner + [CLOSE_BRACKET]);
    assert t[|n| + 1..|t| - 1] == inner;
  }

  lemma {:induction false} NoBit(t: text)
    requires Lacks(t, DOT)
    ensures !HasBit(t)
  {
    LastIndexOfNone(t, DOT);
  }

  lemma {:induction false} ParseIndexed(t: text, ks: seq<nat>)
    requires HasIndex(t) && !HasBit(t) && IndexNumbers(IndexText(t)) == Ok(ks)
    ensures ParseTag(t) == Ok(Parts(Without(t, IndexText(t)), ks, false, 0))
  {
    hide HasIndex, HasBit, IndexText, IndexNumbers, Without, Atoi;
  }

  lemma {:induction false} IndexCharsLack(t: text)
    requires IndexChars(t)
    ensures Lacks(t, OPEN_BRACKET) && Lacks(t, DOT)
  {
  }

  lemma {:induction false} ParseElement(n: text, ks: seq<nat>)
    requires IsName(n) && ks != [] && AllBelow(ks, MAX_INT + 1)
    ensures var t := PartText(Element(n, ks));
      ParseTag(t) == Ok(Parts(Without(t, Join(Texts(ks), COMMA)), ks, false, 0))
  {
    hide ParseTag, HasIndex, HasBit, IndexText, IndexNumbers, Without, IndexChars, AllBelow;
    var inner := Join(Texts(ks), COMMA);
    NumbersOfJoin(ks);
    IndexCharsLack(inner);
    ElementHasIndex(n, inner);
    NoBit(n + [OPEN_BRACKET] + inner + [CLOSE_BRACKET]);
    ParseIndexed(n + [OPEN_BRACKET] + inner + [CLOSE_BRACKET], ks);
  }

  lemma {:induction false} AppendPlain(ioi: Ioi, isBool: bool, n: text)
    requires IsPart(Element(n, []))
    ensures AppendPart(ioi, isBool, n) == Ok(ioi.(buffer := ioi.buffer + NameBytes(n)))
  {
    MarshalName(n);
  }

  lemma {:induction false} LeadingNameOf(n: text, ks: seq<nat>)
    requires IsName(n) && ks != []
    ensures LeadingName(PartText(Element(n, ks))) == Ok(NameBytes(n))
  {
    var x := Join(Texts(ks), COMMA) + [CLOSE_BRACKET];
    var t := PartText(Element(n, ks));
    assert t == n + [OPEN_BRACKET] + x;
    IndexOfAfter(n, OPEN_BRACKET, x);
    assert t[..|n|] == n;
    MarshalName(n);
  }

  lemma {:induction false} AppendElement(ioi: Ioi, isBool: bool, n: text, ks: seq<nat>)
    requires IsPart(Element(n, ks)) && ks != []
    ensures AppendPart(ioi, isBool, PartText(Element(n, ks))) ==
      Ok(AppendIndexes(ioi.(buffer := ioi.buffer + NameBytes(n)), isBool, ks))
  {
    LeadingNameOf(n, ks);
    ParseElement(n, ks);
    assert EndsWith(PartText(Element(n, ks)), CLOSE_BRACKET);
  }

  lemma {:induction false} AppendBit(ioi: Ioi, isBool: bool, bit: nat)
    requires bit <= 31
    ensures AppendPart(ioi, isBool, Digits(bit)) == Ok(ioi.(bitAccess := true, bitPosition := bit))
  {
    AtoiOfDigits(bit);
  }

  /** The effect of one part on the path built so far. */
  function Extend(ioi: Ioi, isBool: bool, p: Part): Ioi {
    match p
    case Element(n, ks) => AppendIndexes(ioi.(buffer := ioi.buffer + NameBytes(n)), isBool, ks)
    case BitOf(bit) => ioi.(bitAccess := true, bitPosition := bit)
  }

  lemma {:induction false} AppendOne(ioi: Ioi, isBool: bool, p: Part)
    requires IsPart(p)
    ensures AppendPart(ioi, isBool, PartText(p)) == Ok(Extend(ioi, isBool, p))
  {
    if p.BitOf? {
      AppendBit(ioi, isBool, p.bit);
    } else if p.indexes == [] {
      AppendPlain(ioi, isBool, p.name);
      assert ioi.buffer + NameBytes(p.name) + [] == ioi.buffer + NameBytes(p.name);
    } else {
      AppendElement(ioi, isBool, p.name, p.indexes);
    }
  }

  function ExtendAll(ioi: Ioi, isBool: bool, ps: seq<Part>): Ioi
    decreases |ps|
  {
    if ps == [] then ioi else ExtendAll(Extend(ioi, isBool, ps[0]), isBool, ps[1..])
  }

  lemma {:induction false} AppendTexts(ioi: Ioi, isBool: bool, ps: seq<Part>)
    requires AreParts(ps)
    ensures AppendParts(ioi, isBool, PartTexts(ps)) == Ok(ExtendAll(ioi, isBool, ps))
    decreases |ps|
  {
    if ps != [] {
      AppendOne(ioi, isBool, ps[0]);
      AppendTexts(Extend(ioi, isBool, ps[0]), isBool, ps[1..]);
      assert PartTexts(ps)[1..] == PartTexts(ps[1..]);
    }
  }

  lemma {:induction false} ExtendBytes(ioi: Ioi, isBool: bool, ps: seq<Part>)
    ensures ExtendAll(ioi, isBool, ps).buffer == ioi.buffer + PathBytes(Visible(ps, isBool))
    decreases |ps|
  {
    if ps != [] {
      var p := ps[0];
      ExtendBytes(Extend(ioi, isBool, p), isBool, ps[1..]);
      if p.Element? {
        var more := PathBytes(Visible(ps[1..], isBool));
        var one := IndexesBytes(WordIndex(p.indexes, isBool));
        assert Visible(ps, isBool)[1..] == Visible(ps[1..], isBool);
        assert PathBytes(Visible(ps, isBool)) == (NameBytes(p.name) + one) + more;
        Associate(ioi.buffer, NameBytes(p.name), one);
        Associate(ioi.buffer, NameBytes(p.name) + one, more);
      }
    }
  }

  lemma {:induction false} ExtendLast(ioi: Ioi, isBool: bool, ps: seq<Part>)
    requires ps != []
    ensures ExtendAll(ioi, isBool, ps) == Extend(ExtendAll(ioi, isBool, ps[..|ps| - 1]), isBool, ps[|ps| - 1])
    decreases |ps|
  {
    if |ps| > 1 {
      ExtendLast(Extend(ioi, isBool, ps[0]), isBool, ps[1..]);
      assert ps[1..][..|ps| - 2] == ps[..|ps| - 1][1..];
    }
  }

  lemma {:induction false} ExtendBit(isBool: bool, ps: seq<Part>)
    ensures var r := ExtendAll(EMPTY_IOI, isBool, ps); (r.bitAccess, r.bitPosition) == SelectedBit(ps, isBool)
    decreases |ps|
  {
    if ps != [] {
      ExtendLast(EMPTY_IOI, isBool, ps);
      ExtendBit(isBool, ps[..|ps| - 1]);
    }
  }

  lemma {:induction false} PartTextsLackDots(ps: seq<Part>)
    requires AreParts(ps)
    ensures forall i :: 0 <= i < |ps| ==> Lacks(PartTexts(ps)[i], DOT)
  {
    if ps != [] {
      PartTextsLackDots(ps[1..]);
      if ps[0].Element? && ps[0].indexes != [] {
        JoinChars(ps[0].indexes);
      }
    }
  }

  lemma {:induction false} NoParts(isBool: bool)
    ensures SymbolicIoi([], isBool) == Ok(EMPTY_IOI)
  {
    var parts: seq<text> := [[]];
    assert Split([], DOT) == parts;
    assert parts[1..] == [];
  }

  lemma {:induction false} PartByPart(ps: seq<Part>, isBool: bool)
    requires AreParts(ps)
    ensures SymbolicIoi(Render(ps), isBool) == Ok(ExtendAll(EMPTY_IOI, isBool, ps))
  {
    AppendTexts(EMPTY_IOI, isBool, ps);
    if ps == [] {
      NoParts(isBool);
    } else {
      PartTextsLackDots(ps);
      SplitOfJoin(PartTexts(ps), DOT);
    }
  }

  /** The symbolic form of a tag path: its bytes, and the bit it selects. */
  lemma {:induction false} SymbolicMeaning(ps: seq<Part>, isBool: bool)
    requires AreParts(ps)
    ensures SymbolicIoi(Render(ps), isBool) ==
      Ok(Ioi(PathBytes(Visible(ps, isBool)), SelectedBit(ps, isBool).0, SelectedBit(ps, isBool).1))
  {
    PartByPart(ps, isBool);
    ExtendBytes(EMPTY_IOI, isBool, ps);
    ExtendBit(isBool, ps);
    assert [] + PathBytes(Visible(ps, isBool)) == PathBytes(Visible(ps, isBool));
  }

  /// Decoding

  /** The bytes with which the path parser goes on. */
  predicate IsSentinel(c: byte) {
    c == ELEMENT_8 || c == ELEMENT_16 || c == SYMBOLIC
  }

  predicate StartsFree(x: seq<byte>) {
    x == [] || !IsSentinel(x[0])
  }

  function AddIndexes(t: text, ks: seq<nat>): (r: text)
    requires t != []
    ensures r != []
    decreases |ks|
  {
    if ks == [] then t else AddIndexes(AddIndex(t, ks[0]), ks[1..])
  }

  function CommaList(ks: seq<nat>): text {
    if ks == [] then [] else [COMMA] + Digits(ks[0]) + CommaList(ks[1..])
  }

  lemma {:induction false} JoinIsCommaList(ks: seq<nat>)
    requires ks != []
    ensures Join(Texts(ks), COMMA) == Digits(ks[0]) + CommaList(ks[1..])
    decreases |ks|
  {
    assert Texts(ks)[1..] == Texts(ks[1..]);
    if |ks| > 1 {
      JoinIsCommaList(ks[1..]);
    }
  }

  lemma {:induction false} AddToList(t: text, ks: seq<nat>)
    requires EndsWith(t, CLOSE_BRACKET)
    ensures AddIndexes(t, ks) == t[..|t| - 1] + CommaList(ks) + [CLOSE_BRACKET]
    decreases |ks|
  {
    if ks != [] {
      var t1 := AddIndex(t, ks[0]);
      AddToList(t1, ks[1..]);
      assert t1[..|t1| - 1] == t[..|t| - 1] + [COMMA] + Digits(ks[0]);
    }
  }

  lemma {:induction false} Bracketed(t: text, d: text, c: text)
    ensures (t + [OPEN_BRACKET] + d) + c + [CLOSE_BRACKET] == t + ([OPEN_BRACKET] + (d + c) + [CLOSE_BRACKET])
  {
  }

  lemma {:induction false} AddFirst(t: text, ks: seq<nat>)
    requires t != [] && !EndsWith(t, CLOSE_BRACKET) && ks != []
    ensures AddIndexes(t, ks) == t + ([OPEN_BRACKET] + Join(Texts(ks), COMMA) + [CLOSE_BRACKET])
  {
    var d := Digits(ks[0]);
    var t1 := t + [OPEN_BRACKET] + d + [CLOSE_BRACKET];
    assert t1[..|t1| - 1] == t + [OPEN_BRACKET] + d;
    AddToList(t1, ks[1..]);
    JoinIsCommaList(ks);
    Bracketed(t, d, CommaList(ks[1..]));
  }

  lemma {:induction false} AddAll(t: text, n: text, ks: seq<nat>)
    requires IsName(n)
    ensures AddName(t, n) != []
    ensures AddIndexes(AddName(t, n), ks) == AddName(t, PartText(Element(n, ks)))
  {
    var t0 := AddName(t, n);
    assert t0[|t0| - 1] == n[|n| - 1];
    if ks != [] {
      AddFirst(t0, ks);
      var x := [OPEN_BRACKET] + Join(Texts(ks), COMMA) + [CLOSE_BRACKET];
      assert PartText(Element(n, ks)) == n + x;
      assert AddName(t, n + x) == AddName(t, n) + x;
    }
  }

  lemma {:induction false} ShortIndexStep(t: text, k: byte, x: seq<byte>)
    requires t != []
    ensures DecodeStep(t, [ELEMENT_8, k] + x) == Ok(More(AddIndex(t, k), x))
  {
    hide AddIndex;
    var b := [ELEMENT_8, k] + x;
    assert b[1..] == [k] + x;
    assert ([k] + x)[..1] == [k] && ([k] + x)[1..] == x;
  }

  lemma {:induction false} LongIndexStep(t: text, pad: byte, k: seq<byte>, x: seq<byte>)
    requires t != [] && |k| == 2
    ensures DecodeStep(t, [ELEMENT_16, pad] + k + x) == Ok(More(AddIndex(t, FromU16(k)), x))
  {
    hide AddIndex, FromU16;
    var b := [ELEMENT_16, pad] + k + x;
    assert b[1..] == [pad] + (k + x);
    assert ([pad] + (k + x))[1..] == k + x;
    assert (k + x)[..2] == k && (k + x)[2..] == x;
  }

  lemma {:induction false} DecodeIndex(t: text, k: nat, x: seq<byte>)
    requires t != [] && k < 65536
    ensures DecodeFrom(t, IndexBytes(k) + x) == DecodeFrom(AddIndex(t, k), x)
  {
    hide AddIndex, DecodeStep, FromU16;
    if k < 256 {
      ShortIndexStep(t, k, x);
    } else {
      LongIndexStep(t, 0, U16(k), x);
      U16Value(k);
      assert IndexBytes(k) == [ELEMENT_16, 0] + U16(k);
    }
  }

  lemma {:induction false} DecodeIndexes(t: text, ks: seq<nat>, x: seq<byte>)
    requires t != [] && AllBelow(ks, 65536)
    ensures DecodeFrom(t, IndexesBytes(ks) + x) == DecodeFrom(AddIndexes(t, ks), x)
    decreases |ks|
  {
    if ks == [] {
      assert IndexesBytes(ks) + x == x;
    } else {
      Associate(IndexBytes(ks[0]), IndexesBytes(ks[1..]), x);
      DecodeIndex(t, ks[0], IndexesBytes(ks[1..]) + x);
      DecodeIndexes(AddIndex(t, ks[0]), ks[1..], x);
    }
  }

  lemma {:induction false} DecodeOneName(t: text, n: text, x: seq<byte>)
    requires |n| < 256
    ensures DecodeFrom(t, NameBytes(n) + x) == DecodeFrom(AddName(t, n), x)
  {
    hide DecodeFrom, DecodeStep, AddName;
    var y := n + (NamePad(n) + x);
    NameSplit(n, x);
    assert [SYMBOLIC, |n| % 256] + y == [SYMBOLIC, |n|] + y;
    DecodeNameStep(t, |n|, y);
    assert y[..|n|] == n && y[|n| + |n| % 2..] == x;
  }

  predicate Compact(ps: seq<Part>) {
    ps == [] || (CompactPart(ps[0]) && Compact(ps[1..]))
  }

  predicate CompactPart(p: Part) {
    p.Element? && |p.name| < 256 && AllBelow(p.indexes, 65536)
  }

  predicate AreNamed(ps: seq<Part>) {
    ps == [] || (ps[0].Element? && IsName(ps[0].name) && AreNamed(ps[1..]))
  }

  function RenderFrom(t: text, ps: seq<Part>): text
    decreases |ps|
  {
    if ps == [] then t else RenderFrom(AddName(t, PartText(ps[0])), ps[1..])
  }

  lemma {:induction false} RenderCons(ps: seq<Part>)
    requires ps != []
    ensures Render(ps) == PartText(ps[0]) + if |ps| == 1 then [] else [DOT] + Render(ps[1..])
  {
    assert PartTexts(ps)[1..] == PartTexts(ps[1..]);
  }

  lemma {:induction false} NamedText(p: Part)
    requires p.Element? && IsName(p.name)
    ensures PartText(p) != []
  {
  }

  lemma {:induction false} RenderedAll(t: text, ps: seq<Part>)
    requires AreNamed(ps)
    ensures RenderFrom(t, ps) == if ps == [] then t else AddName(t, Render(ps))
    decreases |ps|
  {
    hide PartText, Render, PartTexts, IsName;
    if ps != [] {
      var t1 := AddName(t, PartText(ps[0]));
      NamedText(ps[0]);
      assert t1 != [];
      RenderedAll(t1, ps[1..]);
      RenderCons(ps);
      assert AddName(t, PartText(ps[0]) + ([DOT] + Render(ps[1..]))) == t1 + ([DOT] + Render(ps[1..]));
    }
  }

  lemma {:induction false} DecodeElement(t: text, n: text, ks: seq<nat>, x: seq<byte>)
    requires IsName(n) && |n| < 256 && AllBelow(ks, 65536)
    ensures DecodeFrom(t, NameBytes(n) + (IndexesBytes(ks) + x)) ==
      DecodeFrom(AddName(t, PartText(Element(n, ks))), x)
  {
    DecodeOneName(t, n, IndexesBytes(ks) + x);
    AddAll(t, n, ks);
    DecodeIndexes(AddName(t, n), ks, x);
  }

  lemma {:induction false} DecodePath(t: text, ps: seq<Part>, x: seq<byte>)
    requires AreNamed(ps) && Compact(ps)
    ensures DecodeFrom(t, PathBytes(ps) + x) == DecodeFrom(RenderFrom(t, ps), x)
    decreases |ps|
  {
    if ps == [] {
      assert PathBytes(ps) + x == x;
    } else {
      var n, ks, more := ps[0].name, ps[0].indexes, PathBytes(ps[1..]);
      assert PathBytes(ps) + x == NameBytes(n) + (IndexesBytes(ks) + (more + x));
      DecodeElement(t, n, ks, more + x);
      DecodePath(AddName(t, PartText(ps[0])), ps[1..], x);
    }
  }

  /** A sentinel byte is never handed back: either decoding fails or it eats into the rest. */
  lemma {:induction false} DecodeEats(t: text, x: seq<byte>)
    ensures DecodeFrom(t, x).Ok? ==> |DecodeFrom(t, x).value.1| <= |x|
    ensures StartsFree(x) ==> DecodeFrom(t, x) == Ok((t, x))
    ensures !StartsFree(x) && DecodeFrom(t, x).Ok? ==> |DecodeFrom(t, x).value.1| < |x|
    decreases |x|
  {
    var step := DecodeStep(t, x);
    if step.Ok? && step.value.More? {
      DecodeEats(step.value.t, step.value.rest);
    }
  }

  lemma {:induction false} VisibleNamed(ps: seq<Part>, isBool: bool)
    requires AreParts(ps)
    ensures AreNamed(Visible(ps, isBool))
    decreases |ps|
  {
    if ps != [] {
      VisibleNamed(ps[1..], isBool);
      assert ps[0].Element? ==> Visible(ps, isBool)[1..] == Visible(ps[1..], isBool);
    }
  }

  /**
   The server reads back the text of the path (bit numbers gone, BOOL indexes as word indexes) and
   stops right behind it exactly when what follows does not look like more path.
   */
  lemma {:induction false} PathRoundTrip(ps: seq<Part>, isBool: bool, rest: seq<byte>)
    requires AreParts(ps) && Compact(Visible(ps, isBool))
    ensures SymbolicIoi(Render(ps), isBool).Ok?
    ensures var b := SymbolicIoi(Render(ps), isBool).value.buffer;
      DecodeFrom([], b + rest) == Ok((Render(Visible(ps, isBool)), rest)) <==> StartsFree(rest)
  {
    var vs := Visible(ps, isBool);
    SymbolicMeaning(ps, isBool);
    VisibleNamed(ps, isBool);
    DecodePath([], vs, rest);
    RenderedAll([], vs);
    DecodeEats(Render(vs), rest);
  }

  /// Where the round trip ends

  /** Names of ordinary characters: none reads as a sentinel. */
  predicate ArePlain(ps: seq<Part>) {
    ps == [] || (ps[0].Element? && IsPlain(ps[0].name) && ArePlain(ps[1..]))
  }

  predicate IsPlain(n: text) {
    forall i :: 0 <= i < |n| ==> !IsSentinel(n[i])
  }

  /** Decoding stops before `x` is reached. */
  predicate StopsBefore(t: text, b: seq<byte>, x: seq<byte>) {
    DecodeFrom(t, b).Ok? ==> |DecodeFrom(t, b).value.1| > |x|
  }

  lemma {:induction false} DecodeNameAt(k: byte, y: seq<byte>)
    requires |y| >= k + k % 2
    ensures DecodeName([k] + y) == Ok((y[..k], y[k + k % 2..]))
  {
    var b := [k] + y;
    assert b[..1] == [k] && b[1..] == y;
    assert y[k..][k % 2..] == y[k + k % 2..];
  }

  lemma {:induction false} DecodeNameStep(t: text, k: byte, y: seq<byte>)
    requires |y| >= k + k % 2
    ensures DecodeFrom(t, [SYMBOLIC, k] + y) == DecodeFrom(AddName(t, y[..k]), y[k + k % 2..])
  {
    DecodeNameAt(k, y);
    var b: seq<byte> := [SYMBOLIC, k] + y;
    assert b[0] == SYMBOLIC && b[1..] == [k] + y;
  }

  function NamePad(n: text): seq<byte> {
    if |n| % 2 == 1 then [0] else []
  }

  lemma {:induction false} NameSplit(n: text, x: seq<byte>)
    ensures NameBytes(n) + x == [SYMBOLIC, |n| % 256] + (n + (NamePad(n) + x))
  {
  }

  lemma {:induction false} LongNameStops(t: text, n: text, x: seq<byte>)
    requires IsPlain(n) && |n| >= 256
    ensures StopsBefore(t, NameBytes(n) + x, x)
  {
    NameSplit(n, x);
    ShortReadStops(t, n, |n| % 256, NamePad(n) + x, x);
  }

  lemma {:induction false} ShortReadStops(t: text, n: text, k: byte, tail: seq<byte>, x: seq<byte>)
    requires IsPlain(n) && |n| >= 256 + k && |tail| >= |x|
    ensures StopsBefore(t, [SYMBOLIC, k] + (n + tail), x)
  {
    var y := n + tail;
    DecodeNameStep(t, k, y);
    var left := y[k + k % 2..];
    assert left == n[k + k % 2..] + tail;
    DecodeEats(AddName(t, y[..k]), left);
  }

  lemma {:induction false} LongIndexStops(t: text, ks: seq<nat>, x: seq<byte>)
    requires t != [] && !AllBelow(ks, 65536)
    ensures StopsBefore(t, IndexesBytes(ks) + x, x)
    decreases |ks|
  {
    var more := IndexesBytes(ks[1..]);
    Associate(IndexBytes(ks[0]), more, x);
    if ks[0] < 65536 {
      DecodeIndex(t, ks[0], more + x);
      LongIndexStops(AddIndex(t, ks[0]), ks[1..], x);
    } else {
      DecodeEats(t, IndexesBytes(ks) + x);
    }
  }

  lemma {:induction false} LongStops(t: text, ps: seq<Part>, x: seq<byte>)
    requires AreNamed(ps) && ArePlain(ps) && !Compact(ps)
    ensures StopsBefore(t, PathBytes(ps) + x, x)
    decreases |ps|
  {
    var n, ks, more := ps[0].name, ps[0].indexes, PathBytes(ps[1..]);
    assert PathBytes(ps) + x == NameBytes(n) + (IndexesBytes(ks) + (more + x));
    if |n| >= 256 {
      LongNameStops(t, n, IndexesBytes(ks) + (more + x));
    } else if !AllBelow(ks, 65536) {
      DecodeOneName(t, n, IndexesBytes(ks) + (more + x));
      LongIndexStops(AddName(t, n), ks, more + x);
    } else {
      DecodeElement(t, n, ks, more + x);
      LongStops(AddName(t, PartText(ps[0])), ps[1..], x);
    }
  }

  /** Names of 256 bytes or more and indexes of 65536 or more do not come back. */
  lemma {:induction false} PathRoundTripExactly(ps: seq<Part>, isBool: bool, rest: seq<byte>)
    requires AreParts(ps) && ArePlain(Visible(ps, isBool))
    ensures SymbolicIoi(Render(ps), isBool).Ok?
    ensures var b := SymbolicIoi(Render(ps), isBool).value.buffer;
      DecodeFrom([], b + rest) == Ok((Render(Visible(ps, isBool)), rest)) <==>
      Compact(Visible(ps, isBool)) && StartsFree(rest)
  {
    SymbolicMeaning(ps, isBool);
    if Compact(Visible(ps, isBool)) {
      PathRoundTrip(ps, isBool, rest);
    } else {
      VisibleNamed(ps, isBool);
      LongStops([], Visible(ps, isBool), rest);
    }
  }

  /// Every encoding is whole 16-bit words

  predicate Words(b: seq<byte>) {
    b == [] || (|b| >= 2 && Words(b[2..]))
  }

  lemma {:induction false} WordsAdd(a: seq<byte>, b: seq<byte>)
    requires Words(a) && Words(b)
    ensures Words(a + b)
    decreases |a|
  {
    if a == [] {
      assert a + b == b;
    } else {
      WordsAdd(a[2..], b);
      assert (a + b)[2..] == a[2..] + b;
    }
  }

  lemma {:induction false} WordsEven(b: seq<byte>)
    ensures Words(b) <==> |b| % 2 == 0
    decreases |b|
  {
    if |b| >= 2 {
      WordsEven(b[2..]);
    }
  }

  lemma {:induction false} NameWords(n: text)
    ensures Words(NameBytes(n))
  {
    hide Words;
    var pad: seq<byte> := if |n| % 2 == 1 then [0] else [];
    assert |NameBytes(n)| == 2 + |n| + |pad|;
    WordsEven(NameBytes(n));
  }

  lemma {:induction false} IndexesWords(ks: seq<nat>)
    ensures Words(IndexesBytes(ks))
    decreases |ks|
  {
    if ks != [] {
      IndexesWords(ks[1..]);
      WordsEven(IndexBytes(ks[0]));
      WordsAdd(IndexBytes(ks[0]), IndexesBytes(ks[1..]));
    }
  }

  lemma {:induction false} MarshalWords(part: text)
    requires MarshalPart(part).Ok?
    ensures Words(MarshalPart(part).value)
  {
    NameWords(ParseTag(part).value.base);
  }

  lemma {:induction false} LeadingWords(part: text)
    requires LeadingName(part).Ok?
    ensures Words(LeadingName(part).value)
  {
    var start := IndexOf(part, OPEN_BRACKET);
    if start > 0 {
      MarshalWords(part[..start]);
    }
  }

  lemma {:induction false} IndexedWords(ioi: Ioi, isBool: bool, part: text)
    requires Words(ioi.buffer) && AppendIndexed(ioi, isBool, part).Ok?
    ensures Words(AppendIndexed(ioi, isBool, part).value.buffer)
  {
    var name := LeadingName(part).value;
    LeadingWords(part);
    WordsAdd(ioi.buffer, name);
    var order := WordIndex(ParseTag(part).value.order, isBool);
    IndexesWords(order);
    WordsAdd(ioi.buffer + name, IndexesBytes(order));
  }

  lemma {:induction false} AppendWords(ioi: Ioi, isBool: bool, part: text)
    requires Words(ioi.buffer) && AppendPart(ioi, isBool, part).Ok?
    ensures Words(AppendPart(ioi, isBool, part).value.buffer)
  {
    if part != [] && EndsWith(part, CLOSE_BRACKET) {
      IndexedWords(ioi, isBool, part);
    } else if part != [] && !IsBitPart(part) {
      MarshalWords(part);
      WordsAdd(ioi.buffer, MarshalPart(part).value);
    }
  }

  lemma {:induction false} AppendAllWords(ioi: Ioi, isBool: bool, parts: seq<text>)
    requires Words(ioi.buffer) && AppendParts(ioi, isBool, parts).Ok?
    ensures Words(AppendParts(ioi, isBool, parts).value.buffer)
    decreases |parts|
  {
    if parts != [] {
      AppendWords(ioi, isBool, parts[0]);
      AppendAllWords(AppendPart(ioi, isBool, parts[0]).value, isBool, parts[1..]);
    }
  }

  /** Whatever text the compiler accepts, its path is whole words, so the halved length loses nothing. */
  lemma {:induction false} PathIsEven(path: text, isBool: bool)
    requires SymbolicIoi(path, isBool).Ok?
    ensures |SymbolicIoi(path, isBool).value.buffer| % 2 == 0
  {
    AppendAllWords(EMPTY_IOI, isBool, Split(path, DOT));
    WordsEven(SymbolicIoi(path, isBool).value.buffer);
  }
}
