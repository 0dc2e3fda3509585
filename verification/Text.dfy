/** Tag texts, as Go sees them: byte strings, decimal numbers, splitting and joining. */
module Text {
  import opened Wire

  type text = seq<byte>

  const DOT: byte := 46
  const COMMA: byte := 44
  const OPEN_BRACKET: byte := 91     // [
  const CLOSE_BRACKET: byte := 93    // ]
  const PLUS: byte := 43
  const MINUS: byte := 45

  const MAX_INT: nat := 0x7FFF_FFFF_FFFF_FFFF

  predicate IsDigit(c: byte) {
    48 <= c <= 57
  }

  predicate AllDigits(t: text) {
    forall i :: 0 <= i < |t| ==> IsDigit(t[i])
  }

  /// Decimal numbers

  function Digits(n: nat): (t: text)
    ensures |t| > 0 && AllDigits(t)
  {
    if n < 10 then [48 + n] else Digits(n / 10) + [48 + n % 10]
  }

  function Number(t: text): nat
    requires AllDigits(t)
  {
    if t == [] then 0 else 10 * Number(t[..|t| - 1]) + (t[|t| - 1] - 48)
  }

  /** `strconv.Atoi` on a 64-bit target. */
  function Atoi(t: text): Result<int> {
    var signed := t != [] && (t[0] == PLUS || t[0] == MINUS);
    var d := if signed then t[1..] else t;
    if d == [] || !AllDigits(d) then Err(Malformed)
    else
      var n: int := Number(d);
      if signed && t[0] == MINUS then (if n <= MAX_INT + 1 then Ok(-n) else Err(Malformed))
      else if n <= MAX_INT then Ok(n) else Err(Malformed)
  }

  lemma {:induction false} NumberOfDigits(n: nat)
    ensures Number(Digits(n)) == n
  {
    var t := Digits(n);
    if n < 10 {
      assert t[..0] == [];
    } else {
      NumberOfDigits(n / 10);
      assert t[..|t| - 1] == Digits(n / 10);
    }
  }

  lemma {:induction false} AtoiOfDigits(n: nat)
    ensures Atoi(Digits(n)) == if n <= MAX_INT then Ok(n) else Err(Malformed)
  {
    NumberOfDigits(n);
    assert IsDigit(Digits(n)[0]);
  }

  /// Splitting and joining

  predicate Lacks(t: text, c: byte) {
    forall i :: 0 <= i < |t| ==> t[i] != c
  }

  /** `strings.Split` by a one-byte separator. */
  function Split(t: text, c: byte): (parts: seq<text>)
    ensures |parts| > 0
    ensures forall i :: 0 <= i < |parts| ==> Lacks(parts[i], c)
  {
    if t == [] then [[]]
    else
      var rest := Split(t[1..], c);
      if t[0] == c then [[]] + rest else [[t[0]] + rest[0]] + rest[1..]
  }

  /** `strings.Join` by a one-byte separator. */
  function Join(parts: seq<text>, c: byte): text {
    if parts == [] then []
    else if |parts| == 1 then parts[0]
    else parts[0] + [c] + Join(parts[1..], c)
  }

  lemma {:induction false} JoinOfSplit(t: text, c: byte)
    ensures Join(Split(t, c), c) == t
  {
    if t != [] {
      var rest := Split(t[1..], c);
      JoinOfSplit(t[1..], c);
      assert t == [t[0]] + t[1..];
      if t[0] != c && |rest| > 1 {
        assert Split(t, c)[1..] == rest[1..];
      }
    }
  }

  lemma {:induction false} SplitStep(x: byte, t: text, c: byte)
    ensures Split([x] + t, c) ==
      if x == c then [[]] + Split(t, c) else [[x] + Split(t, c)[0]] + Split(t, c)[1..]
  {
    assert ([x] + t)[1..] == t;
  }

  lemma {:induction false} SplitNothing(c: byte)
    ensures Split([], c) == [[]]
  {
  }

  /** One more character in front of two texts that are split alike. */
  lemma {:induction false} SplitBoth(x: byte, t: text, u: text, c: byte, more: seq<text>)
    requires Split(u, c) == Split(t, c) + more
    ensures Split([x] + u, c) == Split([x] + t, c) + more
  {
    hide Split;
    var rest := Split(t, c);
    SplitStep(x, t, c);
    SplitStep(x, u, c);
    if x == c {
      ListBehind([], rest, more);
    } else {
      ListBehind([x] + rest[0], rest[1..], more);
      assert (rest + more)[1..] == rest[1..] + more;
    }
  }

  lemma {:induction false} ListBehind(first: text, rest: seq<text>, more: seq<text>)
    ensures [first] + (rest + more) == ([first] + rest) + more
  {
  }

  lemma {:induction false} SplitOfAppend(a: text, c: byte, b: text)
    ensures Split(a + [c] + b, c) == Split(a, c) + Split(b, c)
  {
    hide Split;
    if a == [] {
      assert a + [c] + b == [c] + b;
      SplitStep(c, b, c);
      SplitNothing(c);
    } else {
      var t := a[1..];
      SplitOfAppend(t, c, b);
      SplitBoth(a[0], t, t + [c] + b, c, Split(b, c));
      assert a == [a[0]] + t;
      assert a + [c] + b == [a[0]] + (t + [c] + b);
    }
  }

  lemma {:induction false} SplitPlain(t: text, c: byte)
    requires Lacks(t, c)
    ensures Split(t, c) == [t]
  {
    if t != [] {
      SplitPlain(t[1..], c);
      assert t == [t[0]] + t[1..];
    }
  }

  lemma {:induction false} SplitOfJoin(parts: seq<text>, c: byte)
    requires parts != [] && forall i :: 0 <= i < |parts| ==> Lacks(parts[i], c)
    ensures Split(Join(parts, c), c) == parts
    decreases |parts|
  {
    SplitPlain(parts[0], c);
    if |parts| > 1 {
      SplitOfAppend(parts[0], c, Join(parts[1..], c));
      SplitOfJoin(parts[1..], c);
      assert parts == [parts[0]] + parts[1..];
    }
  }

  /** `strings.Index` of one byte; the length of the text when it does not occur. */
  function IndexOf(t: text, c: byte): (k: nat)
    ensures k <= |t| && Lacks(t[..k], c) && (k < |t| ==> t[k] == c)
  {
    if t == [] then 0 else if t[0] == c then 0 else 1 + IndexOf(t[1..], c)
  }

  /** `strings.LastIndex` of one byte; -1 when it does not occur. */
  function LastIndexOf(t: text, c: byte): (k: int)
    ensures -1 <= k < |t|
  {
    if t == [] then -1
    else if t[|t| - 1] == c then |t| - 1
    else LastIndexOf(t[..|t| - 1], c)
  }

  lemma {:induction false} LastIndexIsLast(t: text, c: byte)
    ensures var k := LastIndexOf(t, c); (k >= 0 ==> t[k] == c) && Lacks(t[k + 1..], c)
    decreases |t|
  {
    if t != [] && t[|t| - 1] != c {
      var init := t[..|t| - 1];
      LastIndexIsLast(init, c);
      assert t[LastIndexOf(t, c) + 1..] == init[LastIndexOf(t, c) + 1..] + [t[|t| - 1]];
    }
  }

  predicate HasPrefix(t: text, p: text) {
    |p| <= |t| && t[..|p|] == p
  }

  predicate EndsWith(t: text, c: byte) {
    t != [] && t[|t| - 1] == c
  }

  /** `strings.ReplaceAll(t, old, "")` */
  function Without(t: text, old_: text): text
    decreases |t|
  {
    if old_ == [] || |t| < |old_| then t
    else if HasPrefix(t, old_) then Without(t[|old_|..], old_)
    else [t[0]] + Without(t[1..], old_)
  }

  /** `strings.ToLower` on ASCII text. */
  function Lower(t: text): (r: text)
    ensures |r| == |t|
  {
    seq(|t|, i requires 0 <= i < |t| => if 65 <= t[i] <= 90 then (t[i] + 32) as byte else t[i])
  }
}
