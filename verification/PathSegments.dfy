/**
 Tag paths read as the segments they are made of, by the rules of CIP (volume 1, appendix C-1.4):
 logical segments that name a class, an instance or a member in 8, 16 or 32 bits, and symbols.
 */
module PathSegments {
  import opened Wire
  import opened Sequences
  import opened Text
  import opened TagPath
  import opened TagPathLaws
  import opened KnownTags
  import opened KnownTagLaws

  datatype Segment = Class(n: nat) | Instance(n: nat) | Member(n: nat) | Symbol(name: text)

  function Logical(kind: nat, n: nat): Segment {
    if kind == 0 then Class(n) else if kind == 1 then Instance(n) else Member(n)
  }

  /** The lowest two bits give the size, the next three the kind; from 16 bits on a pad byte follows. */
  function ReadLogical(b: seq<byte>): Result<(Segment, seq<byte>)>
    requires b != [] && 0x20 <= b[0] < 0x2C
  {
    var kind := (b[0] - 0x20) / 4;
    if b[0] % 4 == 0 && |b| >= 2 then Ok((Logical(kind, b[1]), b[2..]))
    else if b[0] % 4 == 1 && |b| >= 4 then Ok((Logical(kind, FromLE(b[2..4])), b[4..]))
    else if b[0] % 4 == 2 && |b| >= 6 then Ok((Logical(kind, FromLE(b[2..6])), b[6..]))
    else Err(Malformed)
  }

  /** The length, the name and a pad byte behind an odd name. */
  function ReadSymbol(b: seq<byte>): Result<(Segment, seq<byte>)> {
    if |b| < 2 then Err(Malformed)
    else
      var n: nat := b[1];
      if |b| < 2 + n + n % 2 then Err(Malformed) else Ok((Symbol(b[2..2 + n]), b[2 + n + n % 2..]))
  }

  function ReadSegment(b: seq<byte>): (r: Result<(Segment, seq<byte>)>)
    requires b != []
    ensures r.Ok? ==> |r.value.1| < |b|
  {
    if b[0] == 0x91 then ReadSymbol(b)
    else if 0x20 <= b[0] < 0x2C then ReadLogical(b)
    else Err(Malformed)
  }

  function Segments(b: seq<byte>): Result<seq<Segment>>
    decreases |b|
  {
    if b == [] then Ok([])
    else
      var (s, rest) :- ReadSegment(b);
      var more :- Segments(rest);
      Ok([s] + more)
  }

  lemma {:induction false} SegmentsStep(b: seq<byte>, s: Segment, rest: seq<byte>)
    requires b != [] && ReadSegment(b) == Ok((s, rest))
    ensures Segments(b) == Ahead([s], Segments(rest))
  {
    hide ReadSegment;
  }

  /** Segments that can be read can be read in front of anything. */
  lemma {:induction false} SegmentsApart(a: seq<byte>, b: seq<byte>)
    requires Segments(a).Ok?
    ensures Segments(a + b) == Ahead(Segments(a).value, Segments(b))
    decreases |a|
  {
    hide ReadLogical, ReadSymbol;
    if a == [] {
      assert a + b == b;
      NothingAhead(Segments(b));
    } else {
      var (s, rest) := ReadSegment(a).value;
      SegmentReads(a, b);
      SegmentsStep(a + b, s, rest + b);
      SegmentsApart(rest, b);
      AheadTwice([s], Segments(rest).value, Segments(b));
    }
  }

  lemma {:induction false} SegmentReads(a: seq<byte>, b: seq<byte>)
    requires a != [] && ReadSegment(a).Ok?
    ensures a + b != [] && ReadSegment(a + b) == Ok((ReadSegment(a).value.0, ReadSegment(a).value.1 + b))
  {
    assert (a + b)[0] == a[0];
    if a[0] == 0x91 {
      var n: nat := a[1];
      var end := 2 + n + n % 2;
      assert (a + b)[2..2 + n] == a[2..2 + n] && (a + b)[end..] == a[end..] + b;
    } else {
      var n := if a[0] % 4 == 0 then 2 else if a[0] % 4 == 1 then 4 else 6;
      assert (a + b)[n..] == a[n..] + b;
      assert n > 2 ==> (a + b)[2..n] == a[2..n];
    }
  }

  /// Symbolic paths

  function Members(ks: seq<nat>): seq<Segment> {
    seq(|ks|, i requires 0 <= i < |ks| => Member(ks[i]))
  }

  /** The name of every part and, behind it, its indexes. */
  function SegmentsOf(ps: seq<Part>): seq<Segment> {
    if ps == [] then []
    else if ps[0].BitOf? then SegmentsOf(ps[1..])
    else [Symbol(ps[0].name)] + Members(ps[0].indexes) + SegmentsOf(ps[1..])
  }

  /** Names whose length is one byte and indexes of at most 32 bits. */
  predicate Sendable(ps: seq<Part>) {
    forall i :: 0 <= i < |ps| && ps[i].Element? ==>
      |ps[i].name| < 256 && forall k :: 0 <= k < |ps[i].indexes| ==> ps[i].indexes[k] < 0x1_0000_0000
  }

  lemma {:induction false} LastSegment(b: seq<byte>, s: Segment)
    requires b != [] && ReadSegment(b) == Ok((s, []))
    ensures Segments(b) == Ok([s])
  {
    hide ReadSegment, Segments;
    SegmentsStep(b, s, []);
    NoSegments();
    AheadOfNone([s]);
  }

  /** One number in the shortest of the three sizes, behind the byte of its kind. */
  lemma {:induction false} NumberSegment(b: seq<byte>, kind: byte, n: nat)
    requires kind < 3 && n < 0x1_0000_0000
    requires b == (if n < 256 then [0x20 + 4 * kind, n]
                   else if n < 65536 then [0x21 + 4 * kind, 0] + U16(n)
                   else [0x22 + 4 * kind, 0] + U32(n))
    ensures Segments(b) == Ok([Logical(kind, n)])
  {
    hide Segments, U16, U32, Logical, FromLE, LE;
    if 256 <= n < 65536 {
      U16IsLE(n);
      TwoAndFour();
      LERoundTrip(n, 2);
      assert b[2..4] == U16(n);
    } else if n >= 65536 {
      U32IsLE(n);
      TwoAndFour();
      LERoundTrip(n, 4);
      assert b[2..6] == U32(n);
    }
    LastSegment(b, Logical(kind, n));
  }

  lemma {:induction false} TwoAndFour()
    ensures Pow256(2) == 0x1_0000 && Pow256(4) == 0x1_0000_0000
  {
  }

  lemma {:induction false} IndexSegment(k: nat)
    requires k < 0x1_0000_0000
    ensures Segments(IndexBytes(k)) == Ok([Member(k)])
  {
    hide Segments, U32;
    assert U16(ELEMENT_16) == [0x29, 0] && U16(ELEMENT_32) == [0x2A, 0];
    NumberSegment(IndexBytes(k), 2, k);
  }

  lemma {:induction false} InstanceSegment(n: nat)
    requires n < 0x1_0000_0000
    ensures Segments(InstanceBytes(n)) == Ok([Instance(n)])
  {
    hide Segments, U32, U16;
    NumberSegment(InstanceBytes(n), 1, n);
  }

  lemma {:induction false} NameSegment(n: text)
    requires |n| < 256
    ensures Segments(NameBytes(n)) == Ok([Symbol(n)])
  {
    hide Segments;
    var b := NameBytes(n);
    assert b[2..2 + |n|] == n;
    LastSegment(b, Symbol(n));
  }

  lemma {:induction false} IndexSegments(ks: seq<nat>)
    requires forall k :: 0 <= k < |ks| ==> ks[k] < 0x1_0000_0000
    ensures Segments(IndexesBytes(ks)) == Ok(Members(ks))
    decreases |ks|
  {
    hide IndexBytes, Segments;
    if ks == [] {
      NoSegments();
      assert Members(ks) == [];
    } else {
      IndexSegment(ks[0]);
      IndexSegments(ks[1..]);
      SegmentsApart(IndexBytes(ks[0]), IndexesBytes(ks[1..]));
      assert Members(ks) == [Member(ks[0])] + Members(ks[1..]);
    }
  }

  lemma {:induction false} NoSegments()
    ensures Segments([]) == Ok([])
  {
  }

  /** The bytes of a path are the segments of its names and indexes. */
  lemma {:induction false} PathIsSegments(ps: seq<Part>)
    requires Sendable(ps)
    ensures Segments(PathBytes(ps)) == Ok(SegmentsOf(ps))
    decreases |ps|
  {
    hide NameBytes, IndexesBytes, Segments, Members;
    if ps == [] {
      NoSegments();
    } else {
      assert Sendable(ps[1..]) by { forall i | 0 <= i < |ps[1..]| ensures ps[1..][i] == ps[i + 1] { } }
      PathIsSegments(ps[1..]);
      if ps[0].Element? {
        var name, ks := NameBytes(ps[0].name), IndexesBytes(ps[0].indexes);
        NameSegment(ps[0].name);
        IndexSegments(ps[0].indexes);
        SegmentsApart(name, ks);
        SegmentsApart(name + ks, PathBytes(ps[1..]));
      }
    }
  }

  lemma {:induction false} VisibleSendable(ps: seq<Part>, isBool: bool)
    requires Sendable(ps)
    ensures Sendable(Visible(ps, isBool))
    decreases |ps|
  {
    if ps != [] {
      forall i | 0 <= i < |ps[1..]| ensures ps[1..][i] == ps[i + 1] { }
      VisibleSendable(ps[1..], isBool);
    }
  }

  lemma {:induction false} ElementsSendable(ps: seq<Part>, e: nat)
    requires Sendable(ps) && e <= |ps|
    ensures Sendable(Elements(ps[..e]))
    decreases e
  {
    if e > 0 {
      forall i | 0 <= i < |ps[1..]| ensures ps[1..][i] == ps[i + 1] { }
      assert ps[..e][1..] == ps[1..][..e - 1] && ps[..e][0] == ps[0];
      ElementsSendable(ps[1..], e - 1);
    }
  }

  /** What `newSymbolicIOI` sends for a tag text. */
  lemma {:induction false} SymbolicIsSegments(ps: seq<Part>, isBool: bool)
    requires AreParts(ps) && Sendable(ps)
    ensures var r := SymbolicIoi(Render(ps), isBool);
      r.Ok? && Segments(r.value.buffer) == Ok(SegmentsOf(Visible(ps, isBool)))
  {
    hide AreParts, SymbolicIoi, Render, PathBytes, Visible, Sendable, SegmentsOf, Segments;
    SymbolicMeaning(ps, isBool);
    VisibleSendable(ps, isBool);
    PathIsSegments(Visible(ps, isBool));
  }

  /// Listed tags

  /** The program of a tag, by its instance of class 0x68 or by its name, then the tag's instance of class 0x6B. */
  function TagSegments(k: KnownTag): seq<Segment> {
    (if k.program.None? then []
     else if k.program.value.id == 0 then [Symbol(PROGRAM_PREFIX + k.program.value.name)]
     else [Class(0x68), Instance(k.program.value.id)]) + [Class(0x6B), Instance(k.instance)]
  }

  /** 32-bit instances, and a program name of ordinary characters. */
  predicate IsListed(k: KnownTag) {
    && k.instance < 0x1_0000_0000
    && (k.program.Some? ==>
        && k.program.value.id < 0x1_0000_0000 && |k.program.value.name| < 248
        && IsPart(Element(PROGRAM_PREFIX + k.program.value.name, [])))
  }

  lemma {:induction false} ClassSegment(n: byte, instance: nat)
    requires instance < 0x1_0000_0000
    ensures Segments([0x20, n] + InstanceBytes(instance)) == Ok([Class(n), Instance(instance)])
  {
    hide InstanceBytes, Segments;
    InstanceSegment(instance);
    var b := [0x20, n] + InstanceBytes(instance);
    assert b[2..] == InstanceBytes(instance);
    assert ReadSegment(b) == Ok((Class(n), InstanceBytes(instance)));
    SegmentsStep(b, Class(n), InstanceBytes(instance));
    assert [Class(n)] + [Instance(instance)] == [Class(n), Instance(instance)];
  }

  lemma {:induction false} ProgramSegments(p: Program)
    requires p.id < 0x1_0000_0000 && |p.name| < 248 && IsPart(Element(PROGRAM_PREFIX + p.name, []))
    ensures Segments(ProgramBytes(p)) ==
      Ok(if p.id == 0 then [Symbol(PROGRAM_PREFIX + p.name)] else [Class(0x68), Instance(p.id)])
  {
    hide ParseTag, Segments, InstanceBytes, NameBytes, IsPart;
    if p.id != 0 {
      ClassSegment(0x68, p.id);
    } else {
      BaseOfPlain(PROGRAM_PREFIX + p.name);
      NameSegment(PROGRAM_PREFIX + p.name);
    }
  }

  lemma {:induction false} TagIsSegments(k: KnownTag)
    requires IsListed(k)
    ensures Segments(TagBytes(k)) == Ok(TagSegments(k))
  {
    hide Segments, ProgramBytes, InstanceBytes, IsPart;
    var own := [0x20, 0x6B] + InstanceBytes(k.instance);
    ClassSegment(0x6B, k.instance);
    if k.program.Some? {
      ProgramSegments(k.program.value);
      SegmentsApart(ProgramBytes(k.program.value), own);
    } else {
      assert [] + own == own;
      assert TagSegments(k) == [Class(0x6B), Instance(k.instance)];
    }
  }

  lemma {:induction false} InstanceSegments(
      ioi: Ioi, k: KnownTag, name: Ioi, symbolic: Ioi, named: seq<Segment>, whole: seq<Segment>)
    requires IsListed(k) && SameTarget(ioi, TagBytes(k), name, symbolic)
    requires Segments(name.buffer) == Ok(named) && Segments(symbolic.buffer) == Ok(whole)
    ensures named <= whole && Segments(ioi.buffer) == Ok(TagSegments(k) + whole[|named|..])
  {
    hide Segments, TagBytes, TagSegments, IsListed;
    var rest := ioi.buffer[|TagBytes(k)|..];
    SegmentsApart(name.buffer, rest);
    TagIsSegments(k);
    SegmentsApart(TagBytes(k), rest);
    assert ioi.buffer == TagBytes(k) + rest;
  }

  /** The names of the first `e` parts, bit numbers left out. */
  function NamesOf(ps: seq<Part>, e: nat, isBool: bool): seq<Segment>
    requires e <= |ps|
  {
    SegmentsOf(Visible(Elements(ps[..e]), isBool))
  }

  /**
   The instance path of a tag, read segment by segment: the program and the instance of the longest
   listed name that the path starts with, then the segments of the symbolic path behind that name.
   */
  lemma {:induction false} InstanceIsSegments(known: map<text, KnownTag>, ps: seq<Part>, isBool: bool, ioi: Ioi)
    returns (e: nat)
    requires AreParts(ps) && ps != [] && Sendable(ps) && Bracketless(known)
    requires forall name :: name in known ==> IsListed(known[name])
    requires KnownIoi(Some(known), Render(ps), isBool) == Ok(Some(ioi))
    requires HasPrefix(Render(ps), FindPrefix(known, Render(ps), |Split(Render(ps), DOT)|).value.value.name)
    ensures 0 < e <= |ps| && Listed(known, ps, e) && NoneListed(known, ps, e, |ps|)
    ensures var whole, named := SegmentsOf(Visible(ps, isBool)), NamesOf(ps, e, isBool);
      && named <= whole
      && Segments(ioi.buffer) == Ok(TagSegments(known[Render(Elements(ps[..e]))]) + whole[|named|..])
  {
    hide AreParts, SymbolicIoi, Render, HasPrefix, FindPrefix, FromPrefix, TagBytes, TagSegments, IsListed;
    hide SegmentsOf, Visible, Sendable, Bracketless, SameTarget, NoIndexes, Elements, Segments, Trimmed;
    InstanceMeansSymbolic(known, ps, isBool);
    e := FindsLongest(known, ps);
    PartsTake(ps, e);
    ElementsAreParts(ps[..e]);
    ElementsSendable(ps, e);
    SymbolicIsSegments(ps, isBool);
    SymbolicIsSegments(Elements(ps[..e]), isBool);
    var name := Render(Elements(ps[..e]));
    InstanceSegments(ioi, known[name], SymbolicIoi(name, isBool).value, SymbolicIoi(Render(ps), isBool).value,
      NamesOf(ps, e, isBool), SegmentsOf(Visible(ps, isBool)));
  }
}
