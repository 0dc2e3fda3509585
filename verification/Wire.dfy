/** Bytes, little-endian words and the bits of one byte: the ground every codec stands on. */
module Wire {
  type byte = n: nat | n < 256

  type word = n: nat | n < 65536

  datatype Error =
    | EndOfData          // io.EOF: nothing left to read
    | ShortData          // io.ErrUnexpectedEOF, "item out of data" and other truncated reads
    | Malformed          // the bytes or the text do not have the expected form
    | BadStatus          // the peer answered with an error status
    | TooManyRounds      // a continuation loop used up its round budget
    | Panic              // the Go runtime stops the call (index out of range)
    | StackExhausted     // the Go runtime stops a recursion that does not end

  datatype Result<+T> = Ok(value: T) | Err(error: Error) {
    predicate IsFailure() {
      Err?
    }

    function PropagateFailure<U>(): Result<U>
      requires Err?
    {
      Err(error)
    }

    function Extract(): T
      requires Ok?
    {
      value
    }
  }

  datatype Maybe<+T> = None | Some(value: T)

  function Min(a: int, b: int): int {
    if a <= b then a else b
  }

  function Max(a: int, b: int): int {
    if a >= b then a else b
  }

  function Zeros(n: nat): (z: seq<byte>)
    ensures |z| == n && forall i :: 0 <= i < n ==> z[i] == 0
  {
    seq(n, i => 0)
  }

  /// Little-endian words of any width.

  function Pow256(k: nat): (p: nat)
    ensures p > 0
  {
    if k == 0 then 1 else 256 * Pow256(k - 1)
  }

  /** The low `width` bytes of `v`, least significant first (a wider value is truncated). */
  function LE(v: nat, width: nat): (b: seq<byte>)
    ensures |b| == width
  {
    if width == 0 then [] else [v % 256] + LE(v / 256, width - 1)
  }

  function FromLE(b: seq<byte>): nat {
    if b == [] then 0 else b[0] + 256 * FromLE(b[1..])
  }

  /** Reading back what was written gives the value modulo the width. */
  lemma {:induction false} LETruncates(v: nat, width: nat)
    ensures FromLE(LE(v, width)) == v % Pow256(width)
  {
    if width > 0 {
      LETruncates(v / 256, width - 1);
      assert LE(v, width)[1..] == LE(v / 256, width - 1);
      NextDigit(v, Pow256(width - 1));
    }
  }

  lemma {:induction false} NextDigit(v: nat, p: nat)
    requires p > 0
    ensures v % (256 * p) == v % 256 + 256 * (v / 256 % p)
  {
    var w := v / 256;
    var q, r := w / p, w % p;
    assert w == p * q + r;
    assert (256 * p) * q == 256 * (p * q);
    Remainder(v, 256 * p, q, v % 256 + 256 * r);
  }

  lemma {:induction false} LERoundTrip(v: nat, width: nat)
    requires v < Pow256(width)
    ensures FromLE(LE(v, width)) == v
  {
    LETruncates(v, width);
    Remainder(v, Pow256(width), 0, v);
  }

  /** Every byte string is the little-endian form of its value. */
  lemma {:induction false} LEOfFromLE(b: seq<byte>)
    ensures LE(FromLE(b), |b|) == b
  {
    if b != [] {
      LEOfFromLE(b[1..]);
      Remainder(FromLE(b), 256, FromLE(b[1..]), b[0]);
    }
  }

  function U16(v: nat): (b: seq<byte>)
    ensures |b| == 2
  {
    [v % 256, v / 256 % 256]
  }

  function U32(v: nat): (b: seq<byte>)
    ensures |b| == 4
  {
    [v % 256, v / 256 % 256, v / 65536 % 256, v / 16777216 % 256]
  }

  function FromU16(b: seq<byte>): (v: nat)
    requires |b| >= 2
    ensures v < 65536
  {
    b[0] as int + 256 * b[1] as int
  }

  function FromU32(b: seq<byte>): (v: nat)
    requires |b| >= 4
    ensures v < 0x1_0000_0000
  {
    b[0] as int + 256 * b[1] as int + 65536 * b[2] as int + 16777216 * b[3] as int
  }

  /** `U16` and `U32` are the two widths that frames are made of. */
  lemma {:induction false} U16IsLE(v: nat)
    ensures U16(v) == LE(v, 2)
  {
    assert LE(v, 2) == [v % 256] + ([v / 256 % 256] + LE(v / 256 / 256, 0));
  }

  lemma {:induction false} U32IsLE(v: nat)
    ensures U32(v) == LE(v, 4)
  {
    U16IsLE(v / 65536);
    assert v / 256 / 256 == v / 65536;
    assert LE(v, 4) == [v % 256] + ([v / 256 % 256] + LE(v / 256 / 256, 2));
  }

  lemma {:induction false} FromU16IsLE(b: seq<byte>)
    requires |b| == 2
    ensures FromU16(b) == FromLE(b)
  {
    assert FromLE(b[1..]) == b[1] + 256 * FromLE([]);
  }

  lemma {:induction false} FromU32IsLE(b: seq<byte>)
    requires |b| == 4
    ensures FromU32(b) == FromLE(b)
  {
    var high := b[1..][1..];
    FromU16IsLE(high);
    assert FromLE(b) == b[0] + 256 * (b[1] + 256 * FromLE(high));
  }

  lemma {:induction false} U16Value(v: nat)
    ensures FromU16(U16(v)) == v % 65536
  {
    U16IsLE(v);
    FromU16IsLE(U16(v));
    LETruncates(v, 2);
    assert Pow256(2) == 65536;
  }

  lemma {:induction false} U16OfValue(b: seq<byte>)
    requires |b| == 2
    ensures U16(FromU16(b)) == b
  {
    U16IsLE(FromU16(b));
    FromU16IsLE(b);
    LEOfFromLE(b);
  }

  lemma {:induction false} U32Value(v: nat)
    ensures FromU32(U32(v)) == v % 0x1_0000_0000
  {
    U32IsLE(v);
    FromU32IsLE(U32(v));
    LETruncates(v, 4);
    assert Pow256(4) == 0x1_0000_0000;
  }

  /// The bits of one byte.

  function Pow2(k: nat): (p: nat)
    requires k <= 8
    ensures p > 0
  {
    if k == 0 then 1 else if k == 1 then 2 else if k == 2 then 4 else if k == 3 then 8
    else if k == 4 then 16 else if k == 5 then 32 else if k == 6 then 64
    else if k == 7 then 128 else 256
  }

  /** `b & (1 << k) != 0` */
  predicate Bit(b: byte, k: nat)
    requires k < 8
  {
    b / Pow2(k) % 2 == 1
  }

  /** The bits of `b` below position `k`. */
  function Low(b: byte, k: nat): nat
    requires k <= 8
  {
    b % Pow2(k)
  }

  lemma {:induction false} LowStep(b: byte, k: nat)
    requires k < 8
    ensures Low(b, k + 1) == Low(b, k) + if Bit(b, k) then Pow2(k) else 0
  {
    HalfStep(b, Pow2(k));
  }

  lemma {:induction false} HalfStep(b: nat, m: nat)
    requires m > 0
    ensures b % (2 * m) == b % m + if b / m % 2 == 1 then m else 0
  {
    var q, s := b / m / 2, b / m % 2;
    var r := s * m + b % m;
    assert b == (2 * m) * q + r;
    Remainder(b, 2 * m, q, r);
  }

  lemma {:induction false} Remainder(b: nat, m: nat, q: nat, r: nat)
    requires m > 0 && b == m * q + r && r < m
    ensures b % m == r && b / m == q
  {
    var d := b / m - q;
    assert m * d == r - b % m by {
      assert b == m * (b / m) + b % m;
    }
    assert d >= 1 ==> m * d >= m;
    assert d <= -1 ==> m * d <= 0 - m;
  }

  /** `b | (v << k)` for a one-bit `v` */
  function OrBit(b: byte, k: nat, v: bool): (r: byte)
    requires k < 8
    ensures v && !Bit(b, k) ==> r == b + Pow2(k)
    ensures !v || Bit(b, k) ==> r == b
  {
    if v && !Bit(b, k) then
      OrFits(b, k);
      b + Pow2(k)
    else b
  }

  lemma {:induction false} OrFits(b: byte, k: nat)
    requires k < 8 && !Bit(b, k)
    ensures b + Pow2(k) < 256
  {
  }

  /** Setting bit `k` of a byte whose bits at and above `k` are clear. */
  lemma {:induction false} OrBitLow(b: byte, k: nat, v: bool)
    requires k < 8 && b < Pow2(k)
    ensures OrBit(b, k, v) == b + (if v then Pow2(k) else 0)
    ensures OrBit(b, k, v) < Pow2(k + 1)
    ensures Bit(OrBit(b, k, v), k) == v
    ensures Low(OrBit(b, k, v), k) == b == Low(b, k)
  {
    var p := Pow2(k);
    DoublePow2(k);
    Remainder(b, p, 0, b);
    Remainder(b + p, p, 1, b);
  }

  lemma {:induction false} DoublePow2(k: nat)
    requires k < 8
    ensures Pow2(k + 1) == 2 * Pow2(k) && Pow2(k) <= 128
  {
  }
}
