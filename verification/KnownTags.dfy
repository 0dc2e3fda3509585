/** Instance-addressed tag paths and the path cache: ioi.go and client.go. */
module KnownTags {
  import opened Wire
  import opened Sequences
  import opened Text
  import opened TagPath
  import CipTypes

  datatype Program = Program(name: text, id: nat)

  /** The part of a listed tag that path building looks at. */
  datatype KnownTag = KnownTag(isStruct: bool, isArray: bool, program: Maybe<Program>, instance: nat)

  /** The byte string "Program:". */
  const PROGRAM_PREFIX: text := [80, 114, 111, 103, 114, 97, 109, 58]

  /** `CIPInstance.Bytes` */
  function InstanceBytes(instance: nat): seq<byte> {
    if instance < 256 then [0x24, instance]
    else if instance < 65536 then [0x25, 0] + U16(instance)
    else [0x26, 0] + U32(instance)
  }

  /** `KnownProgram.Bytes` */
  function ProgramBytes(p: Program): seq<byte> {
    if p.id != 0 then [0x20, 0x68] + InstanceBytes(p.id)
    else match MarshalPart(PROGRAM_PREFIX + p.name)
      case Ok(b) => b
      case Err(_) => []
  }

  /** `KnownTag.Bytes` */
  function TagBytes(k: KnownTag): seq<byte> {
    (if k.program.Some? then ProgramBytes(k.program.value) else []) + ([0x20, 0x6B] + InstanceBytes(k.instance))
  }

  /** `strings.TrimPrefix` */
  function Trimmed(t: text, p: text): text {
    if HasPrefix(t, p) then t[|p|..] else t
  }

  /** The names that the parts contribute to the lookup key: bit numbers and empty names do not. */
  function Bases(parts: seq<text>): Result<seq<text>>
    decreases |parts|
  {
    if parts == [] then Ok([])
    else if IsBitPart(parts[0]) then Bases(parts[1..])
    else
      var p :- ParseTag(parts[0]);
      var more :- Bases(parts[1..]);
      Ok((if p.base == [] then [] else [p.base]) + more)
  }

  datatype Match = Match(tag: KnownTag, name: text, remainder: text)

  /** The longest run of leading parts, of at most `end`, whose key is known. */
  function FindPrefix(known: map<text, KnownTag>, path: text, end: nat): Result<Maybe<Match>>
    requires end <= |Split(path, DOT)|
  {
    if end == 0 then Ok(None)
    else
      var bases :- Bases(Split(path, DOT)[..end]);
      var name := Join(bases, DOT);
      if bases != [] && name in known then Ok(Some(Match(known[name], name, Trimmed(path, name))))
      else FindPrefix(known, path, end - 1)
  }

  function FromPrefix(prefix: seq<byte>, rest: text, isBool: bool): Result<Ioi> {
    if rest == [] then Ok(Ioi(prefix, false, 0))
    else AppendParts(Ioi(prefix, false, 0), isBool, Split(rest, DOT))
  }

  /** `newKnownTagIOI` */
  function KnownIoi(known: Maybe<map<text, KnownTag>>, path: text, isBool: bool): Result<Maybe<Ioi>> {
    if known.None? then Ok(None)
    else
      var m :- FindPrefix(known.value, path, |Split(path, DOT)|);
      if m.None? || (m.value.tag.isStruct && m.value.tag.isArray) then Ok(None)
      else
        var ioi :- FromPrefix(TagBytes(m.value.tag), Trimmed(m.value.remainder, [DOT]), isBool);
        Ok(Some(ioi))
  }

  lemma {:induction false} BasesCons(parts: seq<text>)
    requires parts != [] && !IsBitPart(parts[0])
    ensures Bases(parts) ==
      match ParseTag(parts[0])
      case Err(e) => Err(e)
      case Ok(p) => Ahead(if p.base == [] then [] else [p.base], Bases(parts[1..]))
  {
    hide ParseTag, IsBitPart;
  }

  method CandidateParts(parts: seq<text>) returns (r: Result<seq<text>>)
    ensures r == Bases(parts)
  {
    hide ParseTag, IsBitPart;
    var names: seq<text> := [];
    NothingAhead(Bases(parts));
    for i := 0 to |parts|
      invariant Bases(parts) == Ahead(names, Bases(parts[i..]))
    {
      ghost var rest := parts[i..];
      assert rest[0] == parts[i] && rest[1..] == parts[i + 1..];
      if !IsBitPart(parts[i]) {
        BasesCons(rest);
        var parsed := Parse(parts[i]);
        if parsed.Err? {
          return Err(parsed.error);
        }
        var base := parsed.value.base;
        AheadTwice(names, if base == [] then [] else [base], Bases(rest[1..]));
        if base != [] {
          names := names + [base];
        } else {
          assert names + [] == names;
        }
      }
    }
    assert names + [] == names;
    return Ok(names);
  }

  method FindKnownTagPrefix(known: map<text, KnownTag>, path: text) returns (r: Result<Maybe<Match>>)
    ensures r == FindPrefix(known, path, |Split(path, DOT)|)
  {
    hide Bases;
    var rawParts := Split(path, DOT);
    var end := |rawParts|;
    while end > 0
      invariant 0 <= end <= |rawParts|
      invariant FindPrefix(known, path, |rawParts|) == FindPrefix(known, path, end)
    {
      var names := CandidateParts(rawParts[..end]);
      if names.Err? {
        return Err(names.error);
      }
      if names.value != [] {
        var candidate := Join(names.value, DOT);
        if candidate in known {
          return Ok(Some(Match(known[candidate], candidate, Trimmed(path, candidate))));
        }
      }
      end := end - 1;
    }
    return Ok(None);
  }

  method NewKnownTagIoi(known: Maybe<map<text, KnownTag>>, path: text, cipType: byte)
    returns (r: Result<Maybe<TagIoi>>)
    ensures r.Ok? && r.value.Some? ==> fresh(r.value.value)
    ensures match KnownIoi(known, path, cipType == CipTypes.BOOL)
      case Err(e) => r == Err(e)
      case Ok(None) => r == Ok(None)
      case Ok(Some(v)) => r.Ok? && r.value.Some? && r.value.value.Value() == v
  {
    hide FindPrefix, AppendParts, TagBytes;
    if known.None? {
      return Ok(None);
    }
    var m := FindKnownTagPrefix(known.value, path);
    if m.Err? {
      return Err(m.error);
    }
    if m.value.None? || (m.value.value.tag.isStruct && m.value.value.tag.isArray) {
      return Ok(None);
    }
    var ioi := new TagIoi(path, cipType, TagBytes(m.value.value.tag));
    var rest := Trimmed(m.value.value.remainder, [DOT]);
    if rest != [] {
      var appended := AppendAll(ioi, Split(rest, DOT));
      if appended.Err? {
        return Err(appended.error);
      }
    }
    return Ok(Some(ioi));
  }

  /// The cache

  /** One call of `newIOI` on the lower-case path: its result and the cache it leaves. */
  function CacheStep(entries: map<text, Ioi>, q: Request): (Result<Ioi>, map<text, Ioi>) {
    var path := Lower(q.path);
    var known := if q.newFirmware then KnownIoi(q.known, path, q.isBool) else Ok(None);
    var cached := if path in entries then Ok(entries[path]) else SymbolicIoi(path, q.isBool);
    if known.Err? then (Err(known.error), entries)
    else if cached.Err? then (cached, entries)
    else
      var best := if known.value.Some? then Shorter(known.value.value, cached.value) else cached.value;
      (Ok(best), entries[path := best])
  }

  /** The instance-addressed form is taken only when it is strictly shorter. */
  function Shorter(known: Ioi, symbolic: Ioi): Ioi {
    if |known.buffer| < |symbolic.buffer| then known else symbolic
  }

  datatype Request = Request(path: text, isBool: bool, known: Maybe<map<text, KnownTag>>, newFirmware: bool)

  class IoiCache {
    var entries: map<text, Ioi>

    constructor ()
      ensures entries == map[]
    {
      entries := map[];
    }

    /** `newIOI` */
    method NewIoi(tagPath: text, cipType: byte, known: Maybe<map<text, KnownTag>>, newFirmware: bool)
      returns (r: Result<Ioi>)
      modifies this
      ensures (r, entries) ==
        CacheStep(old(entries), Request(tagPath, cipType == CipTypes.BOOL, known, newFirmware))
    {
      var path := Lower(tagPath);
      if newFirmware {
        var viaKnown := NewKnownTagIoi(known, path, cipType);
        if viaKnown.Err? {
          return Err(viaKnown.error);
        }
        if viaKnown.value.Some? {
          var cached := CachedOrSymbolic(path, cipType);
          if cached.Err? {
            return cached;
          }
          var candidate := viaKnown.value.value.Value();
          if |candidate.buffer| < |cached.value.buffer| {
            entries := entries[path := candidate];
            return Ok(candidate);
          }
        }
      }
      r := CachedOrSymbolic(path, cipType);
      if r.Ok? {
        entries := entries[path := r.value];
      }
    }

    method CachedOrSymbolic(path: text, cipType: byte) returns (r: Result<Ioi>)
      ensures r == if path in entries then Ok(entries[path]) else SymbolicIoi(path, cipType == CipTypes.BOOL)
    {
      if path in entries {
        return Ok(entries[path]);
      }
      var ioi := NewSymbolicIoi(path, cipType);
      r := if ioi.Ok? then Ok(ioi.value.Value()) else Err(ioi.error);
    }
  }
}
