/** Symbolic paths of arbitrary tag texts, well-formed or not. */
module PathTexts {
  import opened Wire
  import opened Text
  import opened TagPath
  import opened TagPathLaws

  /// Parts add up

  /** A path followed by another: the bytes in a row, and the last bit that was named. */
  function Behind(a: Ioi, b: Ioi): Ioi {
    Ioi(a.buffer + b.buffer, a.bitAccess || b.bitAccess, if b.bitAccess then b.bitPosition else a.bitPosition)
  }

  /** The first error, if there is one. */
  function Then(a: Result<Ioi>, b: Result<Ioi>): Result<Ioi> {
    var x :- a;
    var y :- b;
    Ok(Behind(x, y))
  }

  lemma {:induction false} BehindTwice(a: Ioi, b: Ioi, c: Result<Ioi>)
    ensures Then(Ok(Behind(a, b)), c) == Then(Ok(a), Then(Ok(b), c))
  {
    if c.Ok? {
      assert (a.buffer + b.buffer) + c.value.buffer == a.buffer + (b.buffer + c.value.buffer);
    }
  }

  lemma {:induction false} AppendedBehind(ioi: Ioi, isBool: bool, part: text)
    ensures AppendPart(ioi, isBool, part) == Then(Ok(ioi), AppendPart(EMPTY_IOI, isBool, part))
  {
    hide LeadingName, ParseTag, MarshalPart, Atoi;
    assert ioi.buffer + [] == ioi.buffer;
    if EndsWith(part, CLOSE_BRACKET) && LeadingName(part).Ok? && ParseTag(part).Ok? {
      var name, order := LeadingName(part).value, ParseTag(part).value.order;
      var b := IndexesBytes(WordIndex(order, isBool));
      assert ioi.buffer + name + b == ioi.buffer + ([] + name + b);
    } else if MarshalPart(part).Ok? {
      assert [] + MarshalPart(part).value == MarshalPart(part).value;
    }
  }

  lemma {:induction false} AllBehind(ioi: Ioi, isBool: bool, parts: seq<text>)
    ensures AppendParts(ioi, isBool, parts) == Then(Ok(ioi), AppendParts(EMPTY_IOI, isBool, parts))
    decreases |parts|
  {
    hide AppendPart;
    assert ioi.buffer + [] == ioi.buffer;
    if parts != [] {
      var first := AppendPart(EMPTY_IOI, isBool, parts[0]);
      AppendedBehind(ioi, isBool, parts[0]);
      if first.Ok? {
        AllBehind(Behind(ioi, first.value), isBool, parts[1..]);
        AllBehind(first.value, isBool, parts[1..]);
        BehindTwice(ioi, first.value, AppendParts(EMPTY_IOI, isBool, parts[1..]));
      }
    }
  }

  lemma {:induction false} AppendBoth(ioi: Ioi, isBool: bool, a: seq<text>, b: seq<text>)
    ensures AppendParts(ioi, isBool, a + b) ==
      if AppendParts(ioi, isBool, a).Ok? then AppendParts(AppendParts(ioi, isBool, a).value, isBool, b)
      else AppendParts(ioi, isBool, a)
    decreases |a|
  {
    hide AppendPart;
    if a == [] {
      assert a + b == b;
    } else {
      assert (a + b)[0] == a[0] && (a + b)[1..] == a[1..] + b;
      if AppendPart(ioi, isBool, a[0]).Ok? {
        AppendBoth(AppendPart(ioi, isBool, a[0]).value, isBool, a[1..], b);
      }
    }
  }

  /**
   For any two texts: the path of both with a dot in between is the path of the first followed by
   the path of the second, or the error of the first of them that has one.
   */
  lemma {:induction false} PathsCompose(a: text, b: text, isBool: bool)
    ensures SymbolicIoi(a + [DOT] + b, isBool) == Then(SymbolicIoi(a, isBool), SymbolicIoi(b, isBool))
  {
    hide Split, AppendParts, Then;
    SplitOfAppend(a, DOT, b);
    AppendBoth(EMPTY_IOI, isBool, Split(a, DOT), Split(b, DOT));
    PickFirst(SymbolicIoi(a, isBool), SymbolicIoi(b, isBool));
    if SymbolicIoi(a, isBool).Ok? {
      AllBehind(SymbolicIoi(a, isBool).value, isBool, Split(b, DOT));
    }
  }

  lemma {:induction false} PickFirst(a: Result<Ioi>, b: Result<Ioi>)
    ensures Then(a, b) == if a.Ok? then Then(Ok(a.value), b) else a
  {
  }

  /** The paths of several texts, one behind the other. */
  function AllPaths(parts: seq<text>, isBool: bool): Result<Ioi>
    requires parts != []
  {
    if |parts| == 1 then SymbolicIoi(parts[0], isBool)
    else Then(SymbolicIoi(parts[0], isBool), AllPaths(parts[1..], isBool))
  }

  lemma {:induction false} PathOfJoin(parts: seq<text>, isBool: bool)
    requires parts != []
    ensures SymbolicIoi(Join(parts, DOT), isBool) == AllPaths(parts, isBool)
    decreases |parts|
  {
    hide SymbolicIoi, Then;
    if |parts| > 1 {
      PathsCompose(parts[0], Join(parts[1..], DOT), isBool);
      PathOfJoin(parts[1..], isBool);
    }
  }

  /** The path of any text is the paths of its parts between the dots. */
  lemma {:induction false} PathOfParts(path: text, isBool: bool)
    ensures SymbolicIoi(path, isBool) == AllPaths(Split(path, DOT), isBool)
  {
    hide SymbolicIoi, AllPaths;
    JoinOfSplit(path, DOT);
    PathOfJoin(Split(path, DOT), isBool);
  }

  /// The bit of a path

  /** A minus sign and digits that are not all zeros. */
  predicate IsNegative(part: text) {
    part != [] && part[0] == MINUS && AllDigits(part[1..]) && !AllZeros(part[1..])
  }

  predicate AllZeros(t: text) {
    forall i :: 0 <= i < |t| ==> t[i] == 48
  }

  /** Numbers up to 31, and indexes of a BOOL array. */
  predicate NamesBit(part: text, isBool: bool) {
    if EndsWith(part, CLOSE_BRACKET) then isBool && HasIndex(part) else IsBitPart(part)
  }

  /** The last part that names a bit; empty if there is none. */
  function LastBit(parts: seq<text>, isBool: bool): text
    decreases |parts|
  {
    if parts == [] then []
    else if LastBit(parts[1..], isBool) != [] then LastBit(parts[1..], isBool)
    else if NamesBit(parts[0], isBool) then parts[0]
    else []
  }

  lemma {:induction false} ZeroNumber(t: text)
    requires AllDigits(t)
    ensures Number(t) == 0 <==> AllZeros(t)
  {
    if t != [] {
      ZeroNumber(t[..|t| - 1]);
      assert t == t[..|t| - 1] + [t[|t| - 1]];
    }
  }

  lemma {:induction false} NegativeBit(part: text)
    requires IsBitPart(part)
    ensures part != [] && (Atoi(part).value < 0 <==> IsNegative(part))
  {
    if part[0] == MINUS {
      ZeroNumber(part[1..]);
    }
  }

  lemma {:induction false} AsManyNats(parts: seq<text>)
    requires forall i :: 0 <= i < |parts| ==> IndexChars(parts[i])
    ensures NatsOf(parts).Ok? ==> |NatsOf(parts).value| == |parts|
  {
    if parts != [] {
      AsManyNats(parts[1..]);
    }
  }

  lemma {:induction false} IndexedBit(ioi: Ioi, isBool: bool, part: text)
    requires EndsWith(part, CLOSE_BRACKET) && AppendIndexed(ioi, isBool, part).Ok?
    ensures ParseTag(part).value.order != [] <==> HasIndex(part)
  {
    if HasIndex(part) {
      SplitIndexChars(IndexText(part));
      AsManyNats(Split(IndexText(part), COMMA));
    }
  }

  lemma {:induction false} PartBit(isBool: bool, part: text)
    requires AppendPart(EMPTY_IOI, isBool, part).Ok?
    ensures var r := AppendPart(EMPTY_IOI, isBool, part).value;
      && (r.bitAccess <==> NamesBit(part, isBool))
      && (r.bitAccess ==> part != [] && (0 <= r.bitPosition <= 31 <==> !IsNegative(part)))
  {
    hide LeadingName, ParseTag, MarshalPart, Atoi;
    if EndsWith(part, CLOSE_BRACKET) {
      IndexedBit(EMPTY_IOI, isBool, part);
      assert IsNegative(part) ==> IsDigit(part[1..][|part| - 2]);
    } else if IsBitPart(part) {
      NegativeBit(part);
    }
  }

  lemma {:induction false} PartsBit(isBool: bool, parts: seq<text>)
    requires AppendParts(EMPTY_IOI, isBool, parts).Ok?
    ensures var r := AppendParts(EMPTY_IOI, isBool, parts).value;
      && (r.bitAccess <==> LastBit(parts, isBool) != [])
      && (r.bitAccess ==> (0 <= r.bitPosition <= 31 <==> !IsNegative(LastBit(parts, isBool))))
    decreases |parts|
  {
    hide AppendPart, NamesBit, IsNegative;
    if parts != [] {
      PartBit(isBool, parts[0]);
      AllBehind(AppendPart(EMPTY_IOI, isBool, parts[0]).value, isBool, parts[1..]);
      PartsBit(isBool, parts[1..]);
    }
  }

  /**
   Any accepted text: a bit is selected exactly when a part names one, and its position is a bit of a
   32-bit word exactly when the last such part is no negative number.
   */
  lemma {:induction false} BitInWord(path: text, isBool: bool)
    requires SymbolicIoi(path, isBool).Ok?
    ensures var ioi, bit := SymbolicIoi(path, isBool).value, LastBit(Split(path, DOT), isBool);
      && (ioi.bitAccess <==> bit != [])
      && (ioi.bitAccess ==> (0 <= ioi.bitPosition <= 31 <==> !IsNegative(bit)))
  {
    PartsBit(isBool, Split(path, DOT));
  }

  lemma {:induction false} OnePart(part: text, isBool: bool)
    requires Lacks(part, DOT)
    ensures SymbolicIoi(part, isBool) == AppendPart(EMPTY_IOI, isBool, part)
  {
    hide AppendPart;
    SplitPlain(part, DOT);
    var first := AppendPart(EMPTY_IOI, isBool, part);
    assert [part][0] == part && [part][1..] == [];
    if first.Ok? {
      assert AppendParts(first.value, isBool, []) == first;
    }
  }

  lemma {:induction false} MinusThreePart()
    ensures AppendPart(EMPTY_IOI, false, [MINUS, 51]) == Ok(Ioi([], true, -3))
  {
    var b: text := [MINUS, 51];
    assert b[1..] == [51] && b[1..][..0] == [] && Number(b[1..]) == 3;
    assert Atoi(b) == Ok(-3);
  }

  /** `a.-3` asks for bit -3. */
  lemma {:induction false} MinusThree()
    ensures SymbolicIoi([97, DOT, MINUS, 51], false) == Ok(Ioi(NameBytes([97]), true, -3))
  {
    hide SymbolicIoi, AppendPart, NameBytes;
    OnePart([97], false);
    OnePart([MINUS, 51], false);
    AppendPlain(EMPTY_IOI, false, [97]);
    MinusThreePart();
    PathsCompose([97], [MINUS, 51], false);
    assert [97] + [DOT] + [MINUS, 51] == [97, DOT, MINUS, 51];
    assert [] + NameBytes([97]) + [] == NameBytes([97]);
  }
}
