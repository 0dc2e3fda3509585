/** BOOLs inside integers: one bit by its path, or all of them at once. */
module BoolAccess {
  import opened Wire
  import opened Streams
  import opened TagPath
  import opened TagPathLaws
  import CipTypes
  import Text

  /** `w & (1 << i) != 0` */
  predicate WordBit(w: nat, i: nat) {
    if i == 0 then w % 2 == 1 else WordBit(w / 2, i - 1)
  }

  /// One bit

  /** The types whose Go value `getBit` asserts under its own type; a SINT is asserted as a byte and never is one. */
  predicate IsBits(t: byte) {
    t in {CipTypes.BYTE, CipTypes.USINT, CipTypes.INT, CipTypes.UINT, CipTypes.WORD,
          CipTypes.DINT, CipTypes.UDINT, CipTypes.DWORD, CipTypes.LINT, CipTypes.LWORD}
  }

  /** `getBit` of a value that `readValue` made of the bytes; a bit out of range is false, not an error. */
  function GetBit(t: byte, raw: seq<byte>, pos: int): Result<bool> {
    if t == CipTypes.BOOL then Ok(pos == 0 && FromLE(raw) != 0)
    else if t == CipTypes.SINT then (if 0 <= pos < 8 then Err(Malformed) else Ok(false))
    else if IsBits(t) then Ok(0 <= pos < 8 * CipTypes.ValueWidth(t) && WordBit(FromLE(raw), pos))
    else Err(Malformed)
  }

  /** The BOOL branch of `decodeReadTagValue`. */
  function DecodeBool(t: byte, payload: seq<byte>, pos: int): Result<bool> {
    if CipTypes.ValueWidth(t) == 0 then Err(Malformed)
    else
      var (raw, _) :- ReadFull(payload, CipTypes.ValueWidth(t));
      GetBit(t, raw, pos)
  }

  /// All bits

  /** 32-bit words of an array of BOOLs as it comes off the wire. */
  function WordsOf(raw: seq<byte>): (ws: seq<nat>)
    requires |raw| % 4 == 0
    ensures |ws| == |raw| / 4
    ensures forall i :: 0 <= i < |ws| ==> ws[i] == FromLE(raw[4 * i..4 * i + 4])
  {
    seq(|raw| / 4, i requires 0 <= i < |raw| / 4 => FromLE(raw[4 * i..4 * i + 4]))
  }

  /** Reading `words` into a `[]bool`: whole words only, and at least one, or the read panics. */
  method ReadBools(elements: nat, words: seq<nat>) returns (r: Result<seq<bool>>)
    ensures r.Ok? <==> elements % 32 == 0 && 0 < elements && |words| == elements / 32
    ensures r == Err(Panic) <==> elements == 0
    ensures r.Ok? ==> |r.value| == elements
    ensures r.Ok? ==> forall k :: 0 <= k < elements ==> r.value[k] == WordBit(words[k / 32], k % 32)
  {
    var count := elements / 32;
    if count * 32 != elements {
      return Err(Malformed);
    }
    if count == 0 {
      return Err(Panic);
    }
    if |words| != count {
      return Err(Malformed);
    }
    var data := new bool[elements];
    for word := 0 to count
      invariant forall k :: 0 <= k < 32 * word ==> data[k] == WordBit(words[k / 32], k % 32)
    {
      for i := 0 to 32
        invariant forall k :: 0 <= k < 32 * word + i ==> data[k] == WordBit(words[k / 32], k % 32)
      {
        var bit := word * 32 + i;
        Remainder(bit, 32, word, i);
        data[bit] := WordBit(words[word], i);
      }
    }
    return Ok(data[..]);
  }

  /// Both are the bits of the bytes

  lemma {:induction false} LowBits(x: nat, rest: nat, k: nat, i: nat)
    requires i < k <= 8
    ensures WordBit(x + Pow2(k) * rest, i) == WordBit(x, i)
    decreases i
  {
    var w := x + Pow2(k) * rest;
    assert Pow2(k) == 2 * Pow2(k - 1);
    Halves(x, Pow2(k - 1), rest);
    if i > 0 {
      LowBits(x / 2, rest, k - 1, i - 1);
    }
  }

  lemma {:induction false} Halves(x: nat, m: nat, rest: nat)
    ensures (x + 2 * m * rest) % 2 == x % 2 && (x + 2 * m * rest) / 2 == x / 2 + m * rest
  {
    var y := m * rest;
    assert 2 * m * rest == 2 * y;
  }

  lemma {:induction false} HighBits(x: nat, rest: nat, k: nat, i: nat)
    requires k <= 8 && x < Pow2(k) && i >= k
    ensures WordBit(x + Pow2(k) * rest, i) == WordBit(rest, i - k)
    decreases k
  {
    if k > 0 {
      assert Pow2(k) == 2 * Pow2(k - 1);
      Halves(x, Pow2(k - 1), rest);
      HighBits(x / 2, rest, k - 1, i - 1);
    }
  }

  lemma {:induction false} HalfPow(b: byte, i: nat)
    requires 0 < i < 8
    ensures b / 2 / Pow2(i - 1) == b / Pow2(i)
  {
  }

  lemma {:induction false} ByteBit(b: byte, i: nat)
    requires i < 8
    ensures WordBit(b, i) == Bit(b, i)
    decreases i
  {
    if i > 0 {
      HalfPow(b, i);
      ByteBit(b / 2, i - 1);
    }
  }

  lemma {:induction false} LowByte(b0: byte, rest: nat, i: nat)
    requires i < 8
    ensures WordBit(b0 + 256 * rest, i) == Bit(b0, i)
  {
    hide WordBit, Bit;
    LowBits(b0, rest, 8, i);
    ByteBit(b0, i);
  }

  lemma {:induction false} HighBytes(b0: byte, rest: nat, i: nat)
    requires i >= 8
    ensures WordBit(b0 + 256 * rest, i) == WordBit(rest, i - 8)
  {
    hide WordBit;
    HighBits(b0, rest, 8, i);
  }

  /** Bit `i` of a little-endian word is bit `i % 8` of its byte `i / 8`. */
  lemma {:induction false} WordBitIsByteBit(raw: seq<byte>, i: nat)
    requires i < 8 * |raw|
    ensures WordBit(FromLE(raw), i) == Bit(raw[i / 8], i % 8)
    decreases |raw|
  {
    hide WordBit, Bit;
    var rest := FromLE(raw[1..]);
    if i < 8 {
      LowByte(raw[0], rest, i);
    } else {
      HighBytes(raw[0], rest, i);
      WordBitIsByteBit(raw[1..], i - 8);
      Remainder(i - 8, 8, i / 8 - 1, i % 8);
    }
  }

  /** Which bit `getBit` finds, for every type and position. */
  lemma {:induction false} GetBitMeaning(t: byte, raw: seq<byte>, pos: int)
    requires |raw| == CipTypes.ValueWidth(t)
    ensures if t == CipTypes.BOOL then GetBit(t, raw, pos) == Ok(pos == 0 && raw != [0])
      else if IsBits(t) then GetBit(t, raw, pos) == Ok(0 <= pos < 8 * |raw| && Bit(raw[pos / 8], pos % 8))
      else if t == CipTypes.SINT && !(0 <= pos < 8) then GetBit(t, raw, pos) == Ok(false)
      else GetBit(t, raw, pos).Err?
  {
    hide WordBit, Bit;
    if t == CipTypes.BOOL {
      assert raw[1..] == [] && FromLE(raw) == raw[0];
      assert raw == [raw[0]];
    } else if 0 <= pos < 8 * |raw| {
      WordBitIsByteBit(raw, pos);
    }
  }

  lemma {:induction false} WordAt(raw: seq<byte>, k: nat)
    requires |raw| % 4 == 0 && k < 8 * |raw|
    ensures var w := k / 32;
      4 * w + 4 <= |raw| && w < |WordsOf(raw)| && WordsOf(raw)[w] == FromLE(raw[4 * w..4 * w + 4])
    ensures raw[4 * (k / 32)..4 * (k / 32) + 4][k % 32 / 8] == raw[k / 8] && k % 32 % 8 == k % 8
  {
  }

  /**
   Element `k` of a BOOL array, read by its path, is element `k` of the array read as a whole, and
   both are bit `k % 8` of byte `k / 8` of the controller's data.
   */
  lemma {:induction false} ElementIsBulk(n: Text.text, k: nat, raw: seq<byte>)
    requires IsName(n) && |raw| % 4 == 0 && k < 8 * |raw| && k <= Text.MAX_INT
    ensures var ioi := SymbolicIoi(Render([Element(n, [k])]), true);
      var w := k / 32;
      && ioi == Ok(Ioi(NameBytes(n) + IndexBytes(w), true, k % 32))
      && 4 * w + 4 <= |raw|
      && DecodeBool(CipTypes.DWORD, raw[4 * w..4 * w + 4], ioi.value.bitPosition) ==
        Ok(WordBit(WordsOf(raw)[w], k % 32))
      && WordBit(WordsOf(raw)[w], k % 32) == Bit(raw[k / 8], k % 8)
  {
    hide WordBit, Bit, SymbolicIoi, Render, GetBit, NameBytes, IndexBytes;
    ElementPath(n, k);
    WordAt(raw, k);
    var word := raw[4 * (k / 32)..4 * (k / 32) + 4];
    assert word[..4] == word && CipTypes.ValueWidth(CipTypes.DWORD) == 4;
    GetBitMeaning(CipTypes.DWORD, word, k % 32);
    WordBitIsByteBit(word, k % 32);
  }

  lemma {:induction false} ElementPath(n: Text.text, k: nat)
    requires IsName(n) && k <= Text.MAX_INT
    ensures SymbolicIoi(Render([Element(n, [k])]), true) == Ok(Ioi(NameBytes(n) + IndexBytes(k / 32), true, k % 32))
  {
    hide SymbolicIoi, Render, NameBytes, IndexBytes;
    var ps := [Element(n, [k])];
    assert ps[1..] == [] && [k][1..] == [] && [k][..0] == [];
    assert AllBelow([], Text.MAX_INT + 1) && AllBelow([k], Text.MAX_INT + 1);
    assert AreParts([]) && AreParts(ps);
    SymbolicMeaning(ps, true);
    assert WordIndex([k], true) == [k / 32];
    var vs := [Element(n, [k / 32])];
    assert Visible(ps, true) == vs;
    assert IndexesBytes([k / 32]) == IndexBytes(k / 32) + [];
    assert vs[1..] == [];
    assert PathBytes(vs) == (NameBytes(n) + IndexesBytes([k / 32])) + PathBytes([]);
    assert PathBytes(vs) == NameBytes(n) + IndexBytes(k / 32);
  }
}
