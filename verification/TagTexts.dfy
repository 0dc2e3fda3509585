/** How tag texts of any form are parsed: bits, indexes, blanks and stray brackets. */
module TagTexts {
  import opened Wire
  import opened Text
  import opened TagPath
  import opened TagPathLaws
  import opened PathTexts

  /// Bits

  /** `t` ends with a dot at `k` and digits behind it. */
  predicate IsBitAt(t: text, k: nat) {
    k < |t| && t[k] == DOT && k + 1 < |t| && AllDigits(t[k + 1..])
  }

  lemma {:induction false} LastDot(t: text, k: nat)
    requires IsBitAt(t, k)
    ensures LastIndexOf(t, DOT) == k
  {
    assert t == t[..k] + [DOT] + t[k + 1..];
    LastIndexOfBefore(t[..k], DOT, t[k + 1..]);
  }

  /** A tag text names a bit exactly when it ends with a dot and a number, and that number is the bit. */
  lemma {:induction false} BitIff(t: text)
    requires ParseTag(t).Ok?
    ensures ParseTag(t).value.bitAccess <==> exists k: nat :: IsBitAt(t, k)
    ensures forall k: nat :: IsBitAt(t, k) ==> ParseTag(t).value.bit == Number(t[k + 1..]) <= MAX_INT
  {
    hide Number, AllDigits, LastIndexOf, Without, HasIndex;
    LastIndexIsLast(t, DOT);
    if HasBit(t) {
      assert IsBitAt(t, LastIndexOf(t, DOT));
    }
    forall k: nat | IsBitAt(t, k)
      ensures HasBit(t) && ParseTag(t).value.bit == Number(t[k + 1..]) <= MAX_INT
    {
      LastDot(t, k);
      DigitsRead(t[k + 1..]);
    }
  }

  lemma {:induction false} DigitsRead(d: text)
    requires d != [] && AllDigits(d)
    ensures Atoi(d) == if Number(d) <= MAX_INT then Ok(Number(d)) else Err(Malformed)
  {
    assert IsDigit(d[0]);
  }

  /// Indexes

  function Indexed(b: text, inner: text): text {
    b + [OPEN_BRACKET] + inner + [CLOSE_BRACKET]
  }

  /** Digits, commas and the five blank characters. */
  predicate AreIndexChars(t: text) {
    forall i :: 0 <= i < |t| ==> 48 <= t[i] <= 57 || t[i] == 44 || t[i] in {9, 10, 12, 13, 32}
  }

  lemma {:induction false} IndexedParses(b: text, inner: text)
    requires Lacks(b, DOT) && AreIndexChars(inner)
    ensures HasIndex(Indexed(b, inner)) && IndexText(Indexed(b, inner)) == inner && !HasBit(Indexed(b, inner))
  {
    hide HasIndex, IndexText, HasBit;
    assert IndexChars(inner);
    IndexCharsLack(inner);
    ElementHasIndex(b, inner);
    NoBit(Indexed(b, inner));
  }

  lemma {:induction false} PieceOf(t: text, i: nat) returns (j: nat)
    requires i < |t| && t[i] != COMMA
    ensures j < |Split(t, COMMA)| && t[i] in Split(t, COMMA)[j]
    decreases |t|
  {
    assert t == [t[0]] + t[1..];
    SplitStep(t[0], t[1..], COMMA);
    if i == 0 {
      j := 0;
    } else {
      j := PieceOf(t[1..], i - 1);
      if t[0] == COMMA {
        j := j + 1;
      }
    }
  }

  lemma {:induction false} BadPiece(parts: seq<text>, j: nat)
    requires forall i :: 0 <= i < |parts| ==> IndexChars(parts[i])
    requires j < |parts| && Atoi(parts[j]).Err?
    ensures NatsOf(parts).Err?
    decreases j
  {
    hide Atoi, IndexChars;
    if j > 0 {
      BadPiece(parts[1..], j - 1);
    }
  }

  lemma {:induction false} BlankIsNoNumber(t: text, c: byte)
    requires c in t && IsBlank(c)
    ensures Atoi(t).Err?
  {
    var i :| 0 <= i < |t| && t[i] == c;
    assert i > 0 ==> t[1..][i - 1] == c;
  }

  predicate IsBlank(c: byte) {
    c in {9, 10, 12, 13, 32}
  }

  /** Blanks may stand between the brackets, but no index with a blank is a number: the text is refused. */
  lemma {:induction false} BlankIsRefused(b: text, inner: text, i: nat)
    requires Lacks(b, DOT) && AreIndexChars(inner) && i < |inner| && IsBlank(inner[i])
    ensures ParseTag(Indexed(b, inner)).Err?
  {
    hide HasIndex, IndexText, HasBit, Atoi, NatsOf, Split, Without, Lacks;
    IndexedParses(b, inner);
    assert IndexChars(inner);
    SplitIndexChars(inner);
    var j := PieceOf(inner, i);
    BlankIsNoNumber(Split(inner, COMMA)[j], inner[i]);
    BadPiece(Split(inner, COMMA), j);
  }

  /// Brackets

  /** Any other character between the brackets makes them part of the name. */
  lemma {:induction false} OtherIsName(b: text, inner: text, i: nat)
    requires Lacks(b, DOT) && Lacks(inner, DOT) && Lacks(inner, OPEN_BRACKET)
    requires i < |inner| && !AreIndexChars([inner[i]])
    ensures ParseTag(Indexed(b, inner)) == Ok(Parts(Indexed(b, inner), [], false, 0))
  {
    hide LastIndexOf, Lacks, AreIndexChars;
    var t := Indexed(b, inner);
    assert t == b + [OPEN_BRACKET] + (inner + [CLOSE_BRACKET]);
    NoBracketBehind(inner);
    LastIndexOfBefore(b, OPEN_BRACKET, inner + [CLOSE_BRACKET]);
    assert t[|b| + 1..|t| - 1] == inner;
    OtherChar(inner, i);
    NoDotIndexed(b, inner);
    NoBit(t);
  }

  lemma {:induction false} NoBracketBehind(inner: text)
    requires Lacks(inner, OPEN_BRACKET)
    ensures Lacks(inner + [CLOSE_BRACKET], OPEN_BRACKET)
  {
  }

  lemma {:induction false} NoDotIndexed(b: text, inner: text)
    requires Lacks(b, DOT) && Lacks(inner, DOT)
    ensures Lacks(Indexed(b, inner), DOT)
  {
  }

  lemma {:induction false} OtherChar(inner: text, i: nat)
    requires i < |inner| && !AreIndexChars([inner[i]])
    ensures !IndexChars(inner)
  {
    assert [inner[i]][0] == inner[i];
  }

  lemma {:induction false} AppendsOne(ioi: Ioi, isBool: bool, t: text)
    ensures AppendParts(ioi, isBool, [t]) == AppendPart(ioi, isBool, t)
  {
    hide AppendPart;
    var one := [t];
    assert one[0] == t && |one[1..]| == 0;
    var first := AppendPart(ioi, isBool, t);
    if first.Ok? {
      assert AppendParts(first.value, isBool, one[1..]) == Ok(first.value);
    }
  }

  lemma {:induction false} OnePart(t: text, isBool: bool)
    requires Lacks(t, DOT)
    ensures SymbolicIoi(t, isBool) == AppendPart(EMPTY_IOI, isBool, t)
  {
    hide AppendPart, Split, AppendParts;
    SplitPlain(t, DOT);
    AppendsOne(EMPTY_IOI, isBool, t);
  }

  lemma {:induction false} TwoParts(t: text, u: text, isBool: bool)
    requires Lacks(t, DOT) && Lacks(u, DOT) && AppendPart(EMPTY_IOI, isBool, t).Ok?
    ensures SymbolicIoi(t + [DOT] + u, isBool) == AppendPart(AppendPart(EMPTY_IOI, isBool, t).value, isBool, u)
  {
    hide AppendPart, Split, AppendParts;
    SplitOfAppend(t, DOT, u);
    SplitPlain(t, DOT);
    SplitPlain(u, DOT);
    AppendBoth(EMPTY_IOI, isBool, [t], [u]);
    AppendsOne(EMPTY_IOI, isBool, t);
    AppendsOne(AppendPart(EMPTY_IOI, isBool, t).value, isBool, u);
  }

  /** A bracket that was not opened belongs to the name. */
  lemma {:induction false} UnopenedIsName(n: text, isBool: bool)
    requires Lacks(n, DOT) && Lacks(n, OPEN_BRACKET)
    ensures SymbolicIoi(n + [CLOSE_BRACKET], isBool) == Ok(Ioi(NameBytes(n + [CLOSE_BRACKET]), false, 0))
  {
    hide NameBytes, SymbolicIoi;
    var t := n + [CLOSE_BRACKET];
    assert Lacks(t, DOT) && Lacks(t, OPEN_BRACKET);
    OnePart(t, isBool);
    LastIndexOfNone(t, DOT);
    LastIndexOfNone(t, OPEN_BRACKET);
    NoOpening(t);
    assert t[..|t|] == t;
    assert AppendPart(EMPTY_IOI, isBool, t) == Ok(Ioi(NameBytes(t), false, 0)) by {
      assert WordIndex([], isBool) == [];
      assert [] + NameBytes(t) + IndexesBytes([]) == NameBytes(t);
    }
  }

  lemma {:induction false} NoOpening(t: text)
    requires Lacks(t, OPEN_BRACKET)
    ensures IndexOf(t, OPEN_BRACKET) == |t|
  {
    if t != [] {
      NoOpening(t[1..]);
    }
  }

  lemma {:induction false} BareAppends(ioi: Ioi, isBool: bool, ks: seq<nat>)
    requires ks != [] && AllBelow(ks, MAX_INT + 1)
    ensures AppendPart(ioi, isBool, Indexed([], Join(Texts(ks), COMMA))) == Ok(AppendIndexes(ioi, isBool, ks))
  {
    hide ParseTag, HasIndex, HasBit, IndexText, IndexNumbers, Without, IndexChars, AllBelow, AppendIndexes;
    var inner := Join(Texts(ks), COMMA);
    var t := Indexed([], inner);
    NumbersOfJoin(ks);
    IndexCharsLack(inner);
    ElementHasIndex([], inner);
    NoBit(t);
    ParseIndexed(t, ks);
    assert t[0] == OPEN_BRACKET;
    assert ioi.buffer + [] == ioi.buffer;
  }

  /** Indexes may stand behind a dot of their own: `a.[5]` is sent as `a[5]`. */
  lemma {:induction false} BareIndex(n: text, ks: seq<nat>, isBool: bool)
    requires IsPart(Element(n, [])) && ks != [] && AllBelow(ks, MAX_INT + 1)
    ensures SymbolicIoi(n + [DOT] + Indexed([], Join(Texts(ks), COMMA)), isBool) ==
      SymbolicIoi(PartText(Element(n, ks)), isBool)
  {
    hide AppendPart, AllBelow, NameBytes, AppendIndexes, SymbolicIoi, Texts, Join, Indexed, PartText, IsBitPart;
    var x := Indexed([], Join(Texts(ks), COMMA));
    BareDots(n, ks);
    AppendPlain(EMPTY_IOI, isBool, n);
    TwoParts(n, x, isBool);
    OnePart(PartText(Element(n, ks)), isBool);
    BareAppends(EMPTY_IOI.(buffer := [] + NameBytes(n)), isBool, ks);
    AppendElement(EMPTY_IOI, isBool, n, ks);
  }

  lemma {:induction false} BareDots(n: text, ks: seq<nat>)
    requires IsName(n) && ks != []
    ensures Lacks(Indexed([], Join(Texts(ks), COMMA)), DOT) && Lacks(PartText(Element(n, ks)), DOT)
  {
    JoinChars(ks);
  }
}
