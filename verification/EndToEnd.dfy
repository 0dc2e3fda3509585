/** Any number of tags read by `ReadMap` from this repository's own server. */
module EndToEnd {
  import opened Wire
  import opened Sequences
  import opened Text
  import opened Items
  import opened TagPath
  import opened TagPathLaws
  import opened MultiMessage
  import opened MultiServer
  import opened Batching
  import opened BatchingLaws
  import B = ReadMap
  import F = Fragments
  import M = MultiReadLaws
  import P = MultiReplyLaws
  import L = FragmentLaws
  import R = MultiReply
  import KnownTags
  import KnownTagLaws
  import V = ReadValue
  import W = MultiWriteLaws
  import BoolAccess
  import CipTypes

  /// The client

  /** The request for the path of a tag that a client with these settings makes. */
  function PathRequest(t: TagDesc, known: Maybe<map<text, KnownTags.KnownTag>>, newFirmware: bool): KnownTags.Request {
    KnownTags.Request(t.name, t.cipType == CipTypes.BOOL, known, newFirmware)
  }

  /** Without listed tags, or on old firmware, this is the path that the cache hands out in every steady run. */
  lemma {:induction false} CacheGivesSymbolicPath(
      t: TagDesc, qs: seq<KnownTags.Request>, i: nat, known: Maybe<map<text, KnownTags.KnownTag>>, newFirmware: bool,
      bools: set<text>)
    requires KnownTagLaws.Steady(qs, known, newFirmware, bools) && (known.None? || !newFirmware)
    requires i < |qs| && qs[i] == PathRequest(t, known, newFirmware)
    ensures var r := KnownTagLaws.Results(map[], qs)[i];
      SymbolicPath(t) == if r.Ok? then Ok(r.value.buffer) else Err(r.error)
  {
    hide KnownTagLaws.Results, KnownTagLaws.Steady, SymbolicIoi, Lower;
    KnownTagLaws.HitsAreFresh(qs, known, newFirmware, bools, i);
  }

  predicate HavePaths(us: seq<TagDesc>) {
    forall i :: 0 <= i < |us| ==> SymbolicPath(us[i]).Ok?
  }

  /** One message to the server and its reply. */
  function Exchange(us: seq<TagDesc>, offsets: seq<nat>, limit: nat, connection: nat, connections: map<nat, Connection>)
    : Result<seq<R.TagResult>>
  {
    if !HavePaths(us) || |offsets| != |us| then Err(Malformed)
    else
      var qs := BatchRequests(us, SymbolicPath, limit, offsets);
      var served :- ServeUnitData(Framed(ConnectedItems(connection, RequestData(0, qs))), connections);
      if served.Served? then R.SplitReply(served.reply) else Err(Malformed)
  }

  function RoundsOf(us: seq<TagDesc>, limit: nat, connection: nat, connections: map<nat, Connection>): F.RoundPeer {
    (round: nat, pending: seq<nat>, offsets: seq<nat>) =>
      if forall i :: 0 <= i < |pending| ==> pending[i] < |us|
      then Exchange(Pick(us, pending), offsets, limit, connection, connections)
      else Err(Panic)
  }

  /** Reads one batch, with continuation rounds. */
  function ReadBatch(
      us: seq<TagDesc>, limit: nat, connection: nat, connections: map<nat,
      Connection>): Result<seq<F.TagState>> {
    F.FragFrom(0, UpTo(|us|), seq(|us|, _ => F.UNTOUCHED), RoundsOf(us, limit, connection, connections))
  }

  function ReaderFor(limit: nat, connection: nat, connections: map<nat, Connection>): B.Reader<F.TagState> {
    us => ReadBatch(us, limit, connection, connections)
  }

  /// The server

  /** A provider whose answer depends on the request alone. */
  type Answers = Action -> Outcome

  function Answering(answer: Answers): Provider {
    (acts: seq<Action>) => answer(if acts == [] then ReadTag([], 0) else acts[|acts| - 1])
  }

  ghost predicate AnswersAll(answer: Answers) {
    forall a: Action :: answer(a).Atomic? || answer(a).Str?
  }

  lemma {:induction false} AnsweringHasAll(answer: Answers)
    requires AnswersAll(answer)
    ensures M.HasAll(Answering(answer))
  {
  }

  /// Tags and what they mean

  /** A lower-case tag name taken apart. */
  type Meaning = TagDesc -> seq<Part>

  function AsTag(t: TagDesc, meaning: Meaning, limit: nat): M.Tag {
    M.Tag(meaning(t), t.cipType == CipTypes.BOOL, t.elements, ServiceFor(t, limit) == FRAG_READ, 0)
  }

  function AsTags(us: seq<TagDesc>, meaning: Meaning, limit: nat): (ts: seq<M.Tag>)
    ensures |ts| == |us| && forall i :: 0 <= i < |us| ==> ts[i] == AsTag(us[i], meaning, limit)
  {
    if us == [] then [] else [AsTag(us[0], meaning, limit)] + AsTags(us[1..], meaning, limit)
  }

  /** The parts render to the lower-case name, its path can be sent, and its count does not look like path. */
  predicate Plain(t: TagDesc, meaning: Meaning, limit: nat) {
    && Lower(t.name) == Render(meaning(t))
    && M.Encodable(AsTag(t, meaning, limit)) && M.CountIsFree(AsTag(t, meaning, limit))
  }

  predicate AllPlain(us: seq<TagDesc>, meaning: Meaning, limit: nat) {
    us == [] || (Plain(us[0], meaning, limit) && AllPlain(us[1..], meaning, limit))
  }

  lemma {:induction false} PlainPath(t: TagDesc, meaning: Meaning, limit: nat)
    requires Plain(t, meaning, limit)
    ensures SymbolicPath(t) == Ok(M.PathOf(AsTag(t, meaning, limit)))
  {
    hide Render, Compact, Visible, AreParts, SymbolicIoi, Lower;
    SymbolicMeaning(meaning(t), t.cipType == CipTypes.BOOL);
  }

  /** The client's requests are the requests of the tags. */
  lemma {:induction false} RequestsAgree(us: seq<TagDesc>, meaning: Meaning, limit: nat, offsets: seq<nat>)
    requires AllPlain(us, meaning, limit) && offsets == L.NoOffsets(|us|)
    ensures HavePaths(us)
    ensures BatchRequests(us, SymbolicPath, limit, offsets) == M.ToRequests(AsTags(us, meaning, limit))
    ensures M.AllEncodable(AsTags(us, meaning, limit)) && M.CountsAreFree(AsTags(us, meaning, limit))
    decreases |us|
  {
    hide SymbolicPath, M.Encodable, M.CountIsFree, ServiceFor, M.PathOf;
    if us != [] {
      PlainPath(us[0], meaning, limit);
      ServiceIsRead(us[0], limit);
      RequestsAgree(us[1..], meaning, limit, offsets[1..]);
      var ts := AsTags(us, meaning, limit);
      assert ts[1..] == AsTags(us[1..], meaning, limit);
      assert forall i :: 0 < i < |us| ==> us[i] == us[1..][i - 1];
    }
  }

  lemma {:induction false} ServiceIsRead(t: TagDesc, limit: nat)
    ensures ServiceFor(t, limit) == FRAG_READ || ServiceFor(t, limit) == READ
  {
  }

  /** The answer to the request for a tag. */
  function AnswerFor(t: TagDesc, meaning: Meaning, limit: nat, answer: Answers): Outcome {
    answer(M.Asked(AsTag(t, meaning, limit)))
  }

  /** A read of a tag gives the type and the bytes that the provider gave, of a string its slot. */
  predicate Tells(v: F.TagState, o: Outcome) {
    match o
    case Atomic(t, data) => v.cipType == t && v.chunks == data && v.status == R.OK
    case Str(s) => v.cipType == CipTypes.STRUCT && v.chunks == StringData(s) && v.status == R.OK
    case _ => false
  }

  /** The state that tells it, with the offset behind the bytes. */
  function ValueOf(t: TagDesc, meaning: Meaning, limit: nat, answer: Answers): F.TagState {
    match AnswerFor(t, meaning, limit, answer)
    case Atomic(typ, data) => F.TagState(|data| % 0x1_0000_0000, data, typ, R.OK)
    case Str(s) => F.TagState(88, StringData(s), CipTypes.STRUCT, R.OK)
    case _ => F.UNTOUCHED
  }

  lemma {:induction false} ValueTells(t: TagDesc, meaning: Meaning, limit: nat, answer: Answers)
    requires AnswersAll(answer)
    ensures Tells(ValueOf(t, meaning, limit, answer), AnswerFor(t, meaning, limit, answer))
  {
    hide M.Asked, AsTag, StringData;
  }

  function ValueFor(meaning: Meaning, limit: nat, answer: Answers): TagDesc -> F.TagState {
    t => ValueOf(t, meaning, limit, answer)
  }

  /** The provider gives no more bytes for a tag than its type and count ask for. */
  predicate WithinEstimate(t: TagDesc, meaning: Meaning, limit: nat, answer: Answers) {
    var entry := ReadEntry(ServiceFor(t, limit), answer(M.Asked(AsTag(t, meaning, limit))));
    entry.Ok? ==> |entry.value| <= ResponseSize(t)
  }

  /// One exchange

  /** A connection whose provider answers by the request alone. */
  ghost predicate Serves(connection: nat, connections: map<nat, Connection>, answer: Answers, to: nat) {
    connection < 0x1_0000_0000 && connection in connections
    && connections[connection] == Connection(to, Answering(answer))
  }

  lemma {:induction false} LastAsked(ts: seq<M.Tag>, i: nat, answer: Answers)
    requires i < |ts|
    ensures Answering(answer)(M.AskedAll(ts)[..i + 1]) == answer(M.Asked(ts[i]))
  {
    hide M.Asked;
    var acts := M.AskedAll(ts)[..i + 1];
    assert acts[|acts| - 1] == M.Asked(ts[i]);
  }

  /** One message that is short enough brings the provider's answer for every tag. */
  lemma {:induction false} ExchangeAnswers(
      us: seq<TagDesc>, meaning: Meaning, limit: nat, connection: nat, connections: map<nat, Connection>,
      to: nat, answer: Answers)
    returns (rs: seq<R.TagResult>)
    requires AllPlain(us, meaning, limit) && AnswersAll(answer) && Serves(connection, connections, answer, to)
    requires |Packed(M.Parts(AsTags(us, meaning, limit)))| < 32768
    requires |M.ReplyFor(connections[connection], 0, AsTags(us, meaning, limit))| < 65536
    ensures Exchange(us, L.NoOffsets(|us|), limit, connection, connections) == Ok(rs)
    ensures |rs| == |us|
    ensures forall i :: 0 <= i < |us| ==> rs[i] == M.ResultOf(answer(M.Asked(AsTag(us[i], meaning, limit))))
  {
    hide Packed, M.Parts, M.ReplyFor, AllPlain, ServeUnitData, R.SplitReply, Framed, RequestData, M.Asked;
    hide AsTag, HavePaths, ConnectedItems;
    var ts := AsTags(us, meaning, limit);
    RequestsAgree(us, meaning, limit, L.NoOffsets(|us|));
    AnsweringHasAll(answer);
    rs := M.MultiReadEndToEnd(connection, 0, ts, connections);
    forall i | 0 <= i < |us| ensures rs[i] == M.ResultOf(answer(M.Asked(AsTag(us[i], meaning, limit)))) {
      LastAsked(ts, i, answer);
    }
  }

  /// One batch

  /** A tag after its one reply: a good reply leaves its type and bytes, any other its status alone. */
  function Received(r: R.TagResult): F.TagState {
    if r.status == R.OK then F.TagState(|r.data| % 0x1_0000_0000, r.data, r.cipType, R.OK)
    else F.TagState(0, [], 0, r.status)
  }

  lemma {:induction false} KeptFirst(r: R.TagResult)
    ensures F.Keep(F.UNTOUCHED, r) == Received(r)
  {
    assert [] + r.data == r.data;
  }

  /**
   When no reply is a partial transfer, the first round is the last. A tag that gets no reply is left
   as if it had been read without error and without a value; more replies than tags are a panic.
   */
  lemma {:induction false} OneRound(n: nat, peer: F.RoundPeer, rs: seq<R.TagResult>)
    requires peer(0, UpTo(n), L.NoOffsets(n)) == Ok(rs) && n > 0
    requires forall i :: 0 <= i < |rs| ==> rs[i].status != R.PARTIAL_TRANSFER
    ensures var r := F.FragFrom(0, UpTo(n), seq(n, _ => F.UNTOUCHED), peer);
      if |rs| > n then r == Err(Panic)
      else
        && r.Ok? && |r.value| == n
        && (forall i :: 0 <= i < |rs| ==> r.value[i] == Received(rs[i]))
        && (forall i :: |rs| <= i < n ==> r.value[i] == F.TagState(0, [], 0, R.OK))
  {
    hide F.Absorb, F.Keep, Received;
    var tags := seq(n, _ => F.UNTOUCHED);
    var pending := UpTo(n);
    assert F.Offsets(pending, tags) == L.NoOffsets(n);
    if |rs| <= n {
      F.AbsorbWithin(pending, tags, rs, 0);
      L.AbsorbAt(pending, tags, rs, 0);
      L.AbsorbNext(pending, tags, rs, 0);
      var (tags1, next) := F.Absorb(pending, tags, rs, 0);
      assert |next| > 0 ==> next[0] in next && L.Partial(pending, rs, 0, next[0]);
      assert next == [];
      forall i | 0 <= i < |rs| ensures tags1[i] == Received(rs[i]) {
        assert tags1[pending[i]] == F.Keep(tags[pending[i]], rs[i]);
        KeptFirst(rs[i]);
      }
      forall i | |rs| <= i < n ensures tags1[i] == F.UNTOUCHED {
        assert forall j :: 0 <= j < |rs| ==> pending[j] != i;
      }
    }
  }

  lemma {:induction false} NoTags(peer: F.RoundPeer)
    ensures F.FragFrom(0, UpTo(0), seq(0, _ => F.UNTOUCHED), peer) == Ok([])
  {
    var tags := seq(0, _ => F.UNTOUCHED);
    assert UpTo(0) == [] && tags == [];
  }

  /** A round that fails fails the read. */
  lemma {:induction false} RoundFails(n: nat, peer: F.RoundPeer)
    requires n > 0 && peer(0, UpTo(n), L.NoOffsets(n)).Err?
    ensures F.FragFrom(0, UpTo(n), seq(n, _ => F.UNTOUCHED), peer) ==
      Err(peer(0, UpTo(n), L.NoOffsets(n)).error)
  {
    assert F.Offsets(UpTo(n), seq(n, _ => F.UNTOUCHED)) == L.NoOffsets(n);
  }

  /**
   A batch read from any controller whose reply holds no partial transfers: a tag it has a value for
   gets type and bytes, a tag it refuses gets its own status, and neither disturbs the other.
   */
  lemma {:induction false} BatchReports(es: seq<P.Entry>, peer: F.RoundPeer, to: nat, sequence: nat, status: nat)
    requires forall i :: 0 <= i < |es| ==> P.IsEntry(es[i]) && !es[i].Piece?
    requires forall i :: 0 <= i < |es| ==> es[i].Refusal? ==> es[i].status != R.PARTIAL_TRANSFER
    requires (status == 0x00 || status == 0x1E) && |ReplyWith(sequence, status, P.AllBytes(es))| < 65536
    requires peer(0, UpTo(|es|), L.NoOffsets(|es|)) ==
      R.SplitReply(Framed(ConnectedItems(to, ReplyWith(sequence, status, P.AllBytes(es)))))
    ensures var r := F.FragFrom(0, UpTo(|es|), seq(|es|, _ => F.UNTOUCHED), peer);
      r.Ok? && |r.value| == |es| && forall i :: 0 <= i < |es| ==> Reports(r.value[i], es[i])
  {
    hide F.FragFrom, Framed, ConnectedItems, ReplyWith, R.SplitReply;
    var rs := P.ReplyReports(to, sequence, status, es);
    if es == [] {
      NoTags(peer);
    } else {
      OneRound(|es|, peer, rs);
    }
  }

  predicate Reports(v: F.TagState, e: P.Entry) {
    match e
    case Value(_, t, _, data) => v.status == R.OK && v.cipType == t && v.chunks == data
    case Refusal(_, status, _) => v.status == status && v.chunks == []
    case Piece(_, _, _, _) => false
  }

  lemma {:induction false} ReceivedTells(t: TagDesc, meaning: Meaning, limit: nat, answer: Answers)
    requires AnswersAll(answer)
    ensures var rr := M.ResultOf(AnswerFor(t, meaning, limit, answer));
      rr.status == R.OK && Received(rr) == ValueOf(t, meaning, limit, answer)
  {
    hide M.Asked, AsTag, StringData;
  }

  lemma {:induction false} BatchValues(
      us: seq<TagDesc>, meaning: Meaning, limit: nat, connection: nat, connections: map<nat, Connection>,
      to: nat, answer: Answers)
    requires AllPlain(us, meaning, limit) && AnswersAll(answer) && Serves(connection, connections, answer, to)
    requires |Packed(M.Parts(AsTags(us, meaning, limit)))| < 32768
    requires |M.ReplyFor(connections[connection], 0, AsTags(us, meaning, limit))| < 65536
    ensures var r := ReadBatch(us, limit, connection, connections);
      r.Ok? && |r.value| == |us| && forall i :: 0 <= i < |us| ==> r.value[i] == ValueOf(us[i], meaning, limit, answer)
  {
    hide Packed, M.Parts, M.ReplyFor, AllPlain, Exchange, F.FragFrom, F.Keep, AsTag, M.Asked, M.ResultOf;
    hide Received, ValueOf;
    var rs := ExchangeAnswers(us, meaning, limit, connection, connections, to, answer);
    forall i | 0 <= i < |us|
      ensures rs[i].status == R.OK && Received(rs[i]) == ValueOf(us[i], meaning, limit, answer)
    {
      ReceivedTells(us[i], meaning, limit, answer);
    }
    assert Pick(us, UpTo(|us|)) == us;
    var peer := RoundsOf(us, limit, connection, connections);
    assert peer(0, UpTo(|us|), L.NoOffsets(|us|)) == Ok(rs);
    if us == [] {
      NoTags(peer);
    } else {
      OneRound(|us|, peer, rs);
    }
  }

  /** One batch tells the provider's answer for every tag. */
  lemma {:induction false} BatchAnswers(
      us: seq<TagDesc>, meaning: Meaning, limit: nat, connection: nat, connections: map<nat, Connection>,
      to: nat, answer: Answers)
    requires AllPlain(us, meaning, limit) && AnswersAll(answer) && Serves(connection, connections, answer, to)
    requires |Packed(M.Parts(AsTags(us, meaning, limit)))| < 32768
    requires |M.ReplyFor(connections[connection], 0, AsTags(us, meaning, limit))| < 65536
    ensures var r := ReadBatch(us, limit, connection, connections);
      r.Ok? && |r.value| == |us| && forall i :: 0 <= i < |us| ==>
        Tells(r.value[i], AnswerFor(us[i], meaning, limit, answer))
  {
    hide AllPlain, AnswersAll, Serves, Packed, M.Parts, M.ReplyFor, ReadBatch, Tells, AnswerFor, ValueOf;
    BatchValues(us, meaning, limit, connection, connections, to, answer);
    forall i | 0 <= i < |us| ensures Tells(ValueOf(us[i], meaning, limit, answer),
                                           AnswerFor(us[i], meaning, limit, answer)) {
      ValueTells(us[i], meaning, limit, answer);
    }
  }

  /** Whatever comes back, there is one state per tag. */
  lemma {:induction false} FragLength(round: nat, pending: seq<nat>, tags: seq<F.TagState>, peer: F.RoundPeer)
    requires F.Pending(pending, tags)
    ensures F.FragFrom(round, pending, tags, peer).Ok? ==> |F.FragFrom(round, pending, tags, peer).value| == |tags|
    decreases F.LAST_ROUND + 1 - round
  {
    hide F.Absorb;
    if pending != [] && round <= F.LAST_ROUND {
      var rs := peer(round, pending, F.Offsets(pending, tags));
      if rs.Ok? && |rs.value| <= |pending| {
        F.AbsorbWithin(pending, tags, rs.value, 0);
        FragLength(round + 1, F.Absorb(pending, tags, rs.value, 0).1, F.Absorb(pending, tags, rs.value, 0).0, peer);
      }
    }
  }

  lemma {:induction false} ReaderIsComplete(limit: nat, connection: nat, connections: map<nat, Connection>)
    ensures B.Complete(ReaderFor(limit, connection, connections))
  {
    hide F.FragFrom, RoundsOf;
    var reader := ReaderFor(limit, connection, connections);
    forall us: seq<TagDesc> | reader(us).Ok? ensures |reader(us).value| == |us| {
      FragLength(0, UpTo(|us|), seq(|us|, _ => F.UNTOUCHED), RoundsOf(us, limit, connection, connections));
    }
  }

  /// Every batch is short enough

  lemma {:induction false} PacketSize(us: seq<TagDesc>, meaning: Meaning, limit: nat, offsets: seq<nat>)
    requires AllPlain(us, meaning, limit) && offsets == L.NoOffsets(|us|)
    ensures HavePaths(us)
    ensures |Framed(ConnectedItems(0, RequestData(0, BatchRequests(us, SymbolicPath, limit, offsets))))| ==
      28 + |Packed(M.Parts(AsTags(us, meaning, limit)))|
  {
    hide Packed, Framed, ConnectedItems, AllRequestBytes, AllPlain;
    RequestsAgree(us, meaning, limit, offsets);
    FrameLength(0, RequestData(0, BatchRequests(us, SymbolicPath, limit, offsets)));
  }

  predicate AllWithinEstimate(us: seq<TagDesc>, meaning: Meaning, limit: nat, answer: Answers) {
    forall i :: 0 <= i < |us| ==> WithinEstimate(us[i], meaning, limit, answer)
  }

  lemma {:induction false} EntriesBound(
      us: seq<TagDesc>, meaning: Meaning, limit: nat, done: seq<Action>, answer: Answers)
    requires AllWithinEstimate(us, meaning, limit, answer)
    ensures var r := M.Answers(AsTags(us, meaning, limit), done, Answering(answer));
      r.Ok? ==> |r.value.0| == |us| && |Concat(r.value.0)| <= B.EstimatedReplies(us)
    decreases |us|
  {
    hide ReadEntry, ServiceFor, ResponseSize, M.Asked;
    if us != [] {
      var ts := AsTags(us, meaning, limit);
      assert ts[1..] == AsTags(us[1..], meaning, limit);
      ServiceIsRead(us[0], limit);
      EntriesBound(us[1..], meaning, limit, done + [M.Asked(ts[0])], answer);
      var r := M.Answers(ts, done, Answering(answer));
      if r.Ok? {
        assert r.value.0[1..] == M.Answers(ts[1..], done + [M.Asked(ts[0])], Answering(answer)).value.0;
        assert WithinEstimate(us[0], meaning, limit, answer);
      }
    }
  }

  lemma {:induction false} ReplySize(us: seq<TagDesc>, meaning: Meaning, limit: nat, to: nat, answer: Answers)
    requires AllWithinEstimate(us, meaning, limit, answer)
    ensures |M.ReplyFor(Connection(to, Answering(answer)), 0, AsTags(us, meaning, limit))| <=
      8 + 2 * |us| + B.EstimatedReplies(us)
  {
    hide AllWithinEstimate, Packed, M.Answers, Concat, B.EstimatedReplies;
    EntriesBound(us, meaning, limit, [], answer);
    var entries := M.EntriesFor(AsTags(us, meaning, limit), Answering(answer));
    TableLength(0, entries);
    NoEntries();
  }

  lemma {:induction false} NoEntries()
    ensures Concat([]) == []
  {
  }

  lemma {:induction false} PlainAt(ts: seq<TagDesc>, meaning: Meaning, limit: nat, i: nat)
    requires AllPlain(ts, meaning, limit) && i < |ts|
    ensures Plain(ts[i], meaning, limit)
  {
    hide Plain;
    if i > 0 {
      PlainAt(ts[1..], meaning, limit, i - 1);
    }
  }

  lemma {:induction false} PickedPlain(ts: seq<TagDesc>, meaning: Meaning, limit: nat, ks: seq<nat>)
    requires AllPlain(ts, meaning, limit) && Within(ks, |ts|)
    ensures AllPlain(Pick(ts, ks), meaning, limit)
    decreases |ks|
  {
    hide Plain;
    if ks != [] {
      PlainAt(ts, meaning, limit, ks[0]);
      PickedPlain(ts, meaning, limit, ks[1..]);
      assert Pick(ts, ks)[1..] == Pick(ts, ks[1..]);
    } else {
      assert Pick(ts, ks) == [];
    }
  }

  predicate AllFitAlone(ts: seq<TagDesc>, limit: nat) {
    forall i :: 0 <= i < |ts| ==>
      SymbolicPath(ts[i]).Ok? && Fits(1, CostOf(ts[i], SymbolicPath(ts[i]).value, limit), limit)
  }

  lemma {:induction false} BatchIsShort(
      us: seq<TagDesc>, pending: seq<nat>, ts: seq<TagDesc>, meaning: Meaning, limit: nat, to: nat,
      answer: Answers)
    requires B.BatchFrom(us, pending, ts, SymbolicPath, limit) && AllFitAlone(ts, limit) && limit <= 32768
    requires AllPlain(ts, meaning, limit) && AllWithinEstimate(ts, meaning, limit, answer)
    ensures AllPlain(us, meaning, limit)
    ensures |Packed(M.Parts(AsTags(us, meaning, limit)))| < 32768
    ensures |M.ReplyFor(Connection(to, Answering(answer)), 0, AsTags(us, meaning, limit))| < 65536
  {
    hide Packed, M.Parts, M.ReplyFor, AllPlain, BatchOf, CostOf, SymbolicPath, Fits, Framed, ConnectedItems;
    hide RequestData, B.EstimatedReplies, WithinEstimate;
    var batch := BatchOf(pending, ts, SymbolicPath, limit).value.0;
    PickedPlain(ts, meaning, limit, batch);
    var offsets := L.NoOffsets(|us|);
    B.BatchBelowLimit(pending, ts, SymbolicPath, limit, 0, 0, offsets);
    assert SymbolicPath(ts[pending[0]]).Ok?;
    assert B.SomeFits(pending, ts, SymbolicPath, limit);
    PacketSize(us, meaning, limit, offsets);
    ReplySize(us, meaning, limit, to, answer);
  }

  lemma {:induction false} BatchReads(
      us: seq<TagDesc>, ts: seq<TagDesc>, meaning: Meaning, limit: nat, connection: nat, connections: map<nat,
      Connection>, to: nat, answer: Answers)
    requires B.IsBatch(us, ts, SymbolicPath, limit) && AllFitAlone(ts, limit) && limit <= 32768
    requires AllPlain(ts, meaning, limit) && AnswersAll(answer) && AllWithinEstimate(ts, meaning, limit, answer)
    requires Serves(connection, connections, answer, to)
    ensures var r := ReadBatch(us, limit, connection, connections);
      r.Ok? && |r.value| == |us| && forall i :: 0 <= i < |us| ==> r.value[i] == ValueOf(us[i], meaning, limit, answer)
  {
    hide AllPlain, B.BatchFrom, AllWithinEstimate, AllFitAlone, ReadBatch, ValueOf, Packed, M.Parts;
    hide M.ReplyFor, SymbolicPath;
    var pending :| B.BatchFrom(us, pending, ts, SymbolicPath, limit);
    BatchIsShort(us, pending, ts, meaning, limit, to, answer);
    BatchValues(us, meaning, limit, connection, connections, to, answer);
  }

  lemma {:induction false} PathsFit(ts: seq<TagDesc>, limit: nat)
    requires AllFitAlone(ts, limit)
    ensures forall i :: 0 <= i < |ts| ==> SymbolicPath(ts[i]).Ok?
  {
  }

  /**
   However many tags there are and however they are packed, `ReadMap` gives every tag what the
   server's provider answers for it: its type and its bytes.
   */
  lemma {:induction false} ReadMapEndToEnd(
      ts: seq<TagDesc>, meaning: Meaning, limit: nat, connection: nat, connections: map<nat, Connection>,
      to: nat, answer: Answers)
    requires AllPlain(ts, meaning, limit) && AllFitAlone(ts, limit) && limit <= 32768
    requires AnswersAll(answer) && AllWithinEstimate(ts, meaning, limit, answer)
    requires Serves(connection, connections, answer, to)
    ensures B.Complete(ReaderFor(limit, connection, connections))
    ensures var reader := ReaderFor(limit, connection, connections);
      var r := B.ReadFrom(UpTo(|ts|), ts, SymbolicPath, limit, reader, B.NoResults(|ts|));
      r.Ok? && |r.value| == |ts| && forall j :: 0 <= j < |ts| ==>
        r.value[j].Some? && Tells(r.value[j].value, AnswerFor(ts[j], meaning, limit, answer))
  {
    hide AllPlain, B.IsBatch, AllWithinEstimate, AllFitAlone, AnswersAll, Serves, ReadBatch, ValueOf;
    hide SymbolicPath, B.ReadFrom, Tells, AnswerFor;
    var reader := ReaderFor(limit, connection, connections);
    var value := ValueFor(meaning, limit, answer);
    ReaderIsComplete(limit, connection, connections);
    forall us: seq<TagDesc> | B.IsBatch(us, ts, SymbolicPath, limit)
      ensures reader(us).Ok? && |reader(us).value| == |us| && forall i :: 0 <= i < |us| ==>
        reader(us).value[i] == value(us[i])
    {
      BatchReads(us, ts, meaning, limit, connection, connections, to, answer);
    }
    PathsFit(ts, limit);
    B.ReadsEachTag(ts, SymbolicPath, limit, reader, value);
    forall j | 0 <= j < |ts| ensures Tells(value(ts[j]), AnswerFor(ts[j], meaning, limit, answer)) {
      ValueTells(ts[j], meaning, limit, answer);
    }
  }

  /// Decoded values

  /** An answer with as many values as were asked for, of a type that the client can read. */
  predicate IsFull(t: TagDesc, o: Outcome) {
    o.Str? ||
    (o.Atomic? && o.cipType != CipTypes.STRING && CipTypes.ValueWidth(o.cipType) > 0
     && |o.data| == t.elements * CipTypes.ValueWidth(o.cipType))
  }

  /** A bool asked for by a bit of a word, or by an element of an array of bools. */
  predicate IsBitOfWord(t: TagDesc, ps: seq<Part>, o: Outcome) {
    && o.Atomic? && t.elements == 1 && t.cipType == CipTypes.BOOL && o.cipType != CipTypes.BOOL
    && SelectedBit(ps, true).0
  }

  /**
   The value of a tag: the values that the provider gave, the first 82 characters of a string, or the
   one bit that the path names.
   */
  predicate Means(d: V.Decoded, t: TagDesc, ps: seq<Part>, o: Outcome) {
    if IsBitOfWord(t, ps, o) then
      var pos := SelectedBit(ps, true).1;
      BoolAccess.IsBits(o.cipType) ==> d == V.OneBit(0 <= pos < 8 * |o.data| && Bit(o.data[pos / 8], pos % 8))
    else if o.Atomic? && !(t.elements == 1 && t.cipType == CipTypes.STRING) then
      var data := CipTypes.Meant(o.cipType, o.data);
      d == if t.elements == 1 then V.One(o.cipType, data) else V.Many(o.cipType, t.elements, data)
    else if o.Str? && t.elements == 1 && t.cipType == CipTypes.STRING then
      d == V.Characters(o.s[..Min(|o.s|, 82)])
    else
      o.Str? && !(t.elements == 1 && t.cipType == CipTypes.BOOL && SelectedBit(ps, true).0) ==>
        d == V.RawBytes(StringData(o.s))
  }

  lemma {:induction false} BitDecodes(t: TagDesc, ps: seq<Part>, o: Outcome, ioi: TagPath.Ioi, v: F.TagState)
    requires Tells(v, o) && IsFull(t, o) && IsBitOfWord(t, ps, o)
    requires (ioi.bitAccess, ioi.bitPosition) == SelectedBit(ps, true)
    ensures Means(V.DecodeTag(t.cipType, t.elements, ioi, v), t, ps, o)
  {
    hide SelectedBit, Bit, CipTypes.ValueWidth, BoolAccess.GetBit;
    var w := CipTypes.ValueWidth(o.cipType);
    assert 1 * w == w;
    assert o.data[..w] == o.data;
    BoolAccess.GetBitMeaning(o.cipType, o.data, ioi.bitPosition);
  }

  lemma {:induction false} ValuesDecode(t: TagDesc, ps: seq<Part>, o: Outcome, ioi: TagPath.Ioi, v: F.TagState)
    requires Tells(v, o) && IsFull(t, o) && !IsBitOfWord(t, ps, o) && o.Atomic?
    requires !(t.elements == 1 && t.cipType == CipTypes.STRING)
    requires t.cipType == CipTypes.BOOL ==> ioi.bitAccess == SelectedBit(ps, true).0
    ensures Means(V.DecodeTag(t.cipType, t.elements, ioi, v), t, ps, o)
  {
    hide SelectedBit, Bit, CipTypes.Meant, BoolAccess.DecodeBool, ReadValues;
    W.ValuesRead(o.cipType, t.elements, o.data);
    assert o.data[..t.elements * CipTypes.ValueWidth(o.cipType)] == o.data;
  }

  lemma {:induction false} TextDecodes(t: TagDesc, ps: seq<Part>, o: Outcome, ioi: TagPath.Ioi, v: F.TagState)
    requires Tells(v, o) && o.Str?
    requires t.cipType == CipTypes.BOOL ==> ioi.bitAccess == SelectedBit(ps, true).0
    ensures Means(V.DecodeTag(t.cipType, t.elements, ioi, v), t, ps, o)
  {
    hide SelectedBit, Bit, BoolAccess.DecodeBool, StringData, V.StringOf;
    M.StringComesBack(o.s);
  }

  lemma {:induction false} AnswerDecodes(t: TagDesc, ps: seq<Part>, o: Outcome, ioi: TagPath.Ioi, v: F.TagState)
    requires Tells(v, o) && IsFull(t, o) && !(o.Atomic? && t.elements == 1 && t.cipType == CipTypes.STRING)
    requires t.cipType == CipTypes.BOOL ==> (ioi.bitAccess, ioi.bitPosition) == SelectedBit(ps, true)
    ensures Means(V.DecodeTag(t.cipType, t.elements, ioi, v), t, ps, o)
  {
    hide SelectedBit, V.DecodeTag, Means, Tells;
    if IsBitOfWord(t, ps, o) {
      BitDecodes(t, ps, o, ioi, v);
    } else if o.Atomic? {
      ValuesDecode(t, ps, o, ioi, v);
    } else {
      TextDecodes(t, ps, o, ioi, v);
    }
  }

  /** The path of a tag as the client built it, with its bit. */
  function IoiOf(t: TagDesc): TagPath.Ioi {
    match SymbolicIoi(Lower(t.name), t.cipType == CipTypes.BOOL)
    case Ok(ioi) => ioi
    case Err(_) => EMPTY_IOI
  }

  /** The Go value of a tag. */
  function Value(t: TagDesc, v: F.TagState): V.Decoded {
    V.DecodeTag(t.cipType, t.elements, IoiOf(t), v)
  }

  lemma {:induction false} IoiBit(t: TagDesc, meaning: Meaning, limit: nat)
    requires Plain(t, meaning, limit) && t.cipType == CipTypes.BOOL
    ensures (IoiOf(t).bitAccess, IoiOf(t).bitPosition) == SelectedBit(meaning(t), true)
  {
    hide Render, Compact, Visible, AreParts, SymbolicIoi, Lower, SelectedBit, PathBytes;
    SymbolicMeaning(meaning(t), true);
  }

  /** A string tag is not answered with a number. */
  predicate IsApt(t: TagDesc, o: Outcome) {
    IsFull(t, o) && !(o.Atomic? && t.elements == 1 && t.cipType == CipTypes.STRING)
  }

  /**
   `ReadMap` against this server, down to the Go values: every tag gets the numbers, the text or the
   bit that the provider has for it, however the tags are packed into messages.
   */
  lemma {:induction false} ReadMapValues(
      ts: seq<TagDesc>, meaning: Meaning, limit: nat, connection: nat, connections: map<nat, Connection>,
      to: nat, answer: Answers)
    requires AllPlain(ts, meaning, limit) && AllFitAlone(ts, limit) && limit <= 32768
    requires AnswersAll(answer) && AllWithinEstimate(ts, meaning, limit, answer)
    requires Serves(connection, connections, answer, to)
    requires forall j :: 0 <= j < |ts| ==> IsApt(ts[j], AnswerFor(ts[j], meaning, limit, answer))
    ensures var reader := ReaderFor(limit, connection, connections);
      B.Complete(reader) &&
      var r := B.ReadFrom(UpTo(|ts|), ts, SymbolicPath, limit, reader, B.NoResults(|ts|));
      r.Ok? && |r.value| == |ts| && forall j :: 0 <= j < |ts| ==>
        r.value[j].Some? && Means(Value(ts[j], r.value[j].value), ts[j], meaning(ts[j]),
                                  AnswerFor(ts[j], meaning, limit, answer))
  {
    hide AllPlain, AllWithinEstimate, AllFitAlone, AnswersAll, Serves, ReadBatch, SymbolicPath, B.ReadFrom, Tells;
    hide AnswerFor, IsFull, Means, V.DecodeTag, IoiOf, SelectedBit;
    ReadMapEndToEnd(ts, meaning, limit, connection, connections, to, answer);
    var reader := ReaderFor(limit, connection, connections);
    var r := B.ReadFrom(UpTo(|ts|), ts, SymbolicPath, limit, reader, B.NoResults(|ts|));
    forall j | 0 <= j < |ts|
      ensures Means(Value(ts[j], r.value[j].value), ts[j], meaning(ts[j]), AnswerFor(ts[j], meaning, limit, answer))
    {
      PlainAt(ts, meaning, limit, j);
      if ts[j].cipType == CipTypes.BOOL {
        IoiBit(ts[j], meaning, limit);
      }
      AnswerDecodes(ts[j], meaning(ts[j]), AnswerFor(ts[j], meaning, limit, answer), IoiOf(ts[j]), r.value[j].value);
    }
  }

  /// Replies are as long as estimated

  function Count(t: TagDesc): nat {
    if t.elements < 1 then 1 else t.elements
  }

  /** A value of the tag's own type and count, as controllers send it: structures and strings with type info. */
  predicate IsOwnValue(t: TagDesc, e: P.Entry) {
    e.Value? &&
    if t.cipType == CipTypes.STRUCT then
      e.info.Info? && t.structSize > 0 && |e.data| == t.structSize * Count(t)
    else if t.cipType == CipTypes.STRING then e.info.Info? && |e.data| == 88 * Count(t)
    else e.info.Plain? && |e.data| == CipTypes.Size(t.cipType) * Count(t)
  }

  /** Numbers, and single strings. */
  predicate IsPlainValue(t: TagDesc) {
    t.cipType != CipTypes.STRUCT && (t.cipType == CipTypes.STRING ==> t.elements <= 1)
  }

  /** The estimate is never too small, by less than 8 bytes an element too large, and exact for numbers. */
  lemma {:induction false} EntryEstimate(t: TagDesc, e: P.Entry)
    requires IsOwnValue(t, e)
    ensures |P.EntryBytes(e)| <= ResponseSize(t) < |P.EntryBytes(e)| + 8 * Count(t)
    ensures IsPlainValue(t) ==> |P.EntryBytes(e)| == ResponseSize(t)
  {
    hide CipTypes.Size;
    var n := Count(t);
    if t.cipType == CipTypes.STRUCT {
      RoundedTimes(t.structSize, n);
    } else if t.cipType == CipTypes.STRING {
      assert CipTypes.Size(t.cipType) == 90 by { StringSize(); }
    }
  }

  lemma {:induction false} StringSize()
    ensures CipTypes.Size(CipTypes.STRING) == 90
  {
  }

  lemma {:induction false} RoundedTimes(size: nat, n: nat)
    requires n > 0
    ensures size * n <= RoundUp8(size) * n < size * n + 8 * n
  {
    assert size <= RoundUp8(size) < size + 8;
    var more := RoundUp8(size) - size;
    assert RoundUp8(size) * n == size * n + more * n;
    assert 0 <= more * n < 8 * n;
  }

  lemma {:induction false} EntriesEstimate(us: seq<TagDesc>, es: seq<P.Entry>)
    requires |es| == |us| && forall i :: 0 <= i < |us| ==> IsOwnValue(us[i], es[i])
    ensures |Concat(P.AllBytes(es))| <= B.EstimatedReplies(us)
    ensures (forall i :: 0 <= i < |us| ==> IsPlainValue(us[i])) ==> |Concat(P.AllBytes(es))| == B.EstimatedReplies(us)
    decreases |us|
  {
    hide IsOwnValue, P.EntryBytes, ResponseSize, IsPlainValue;
    if us == [] {
      NoEntries();
      assert P.AllBytes(es) == [];
    } else {
      EntryEstimate(us[0], es[0]);
      EntriesEstimate(us[1..], es[1..]);
      var bs := P.AllBytes(es);
      assert bs[1..] == P.AllBytes(es[1..]);
      assert Concat(bs) == bs[0] + Concat(bs[1..]);
      assert forall i :: 0 <= i < |us| - 1 ==> us[1..][i] == us[i + 1];
    }
  }

  /**
   What a controller replies to a batch, if every tag has a value of its own type and count, is no
   longer than estimated; for numbers and single strings the estimate is the length of the message.
   */
  lemma {:induction false} ReplyEstimateHolds(
      us: seq<TagDesc>, es: seq<P.Entry>, to: nat, sequence: nat, status: nat)
    requires |es| == |us| && forall i :: 0 <= i < |us| ==> IsOwnValue(us[i], es[i])
    ensures var length := |Framed(ConnectedItems(to, ReplyWith(sequence, status, P.AllBytes(es))))|;
      && length <= ReplyOverhead(|us|) + B.EstimatedReplies(us)
      && ((forall i :: 0 <= i < |us| ==> IsPlainValue(us[i])) ==>
          length == ReplyOverhead(|us|) + B.EstimatedReplies(us))
  {
    hide IsOwnValue, IsPlainValue, Framed, ConnectedItems, Packed, Concat, P.AllBytes, B.EstimatedReplies;
    EntriesEstimate(us, es);
    FrameLength(to, ReplyWith(sequence, status, P.AllBytes(es)));
    TableLength(0, P.AllBytes(es));
  }

  /** The reply to a batch of the packer stays below the connection size, unless not even one tag fits. */
  lemma {:induction false} ReplyBelowLimit(
      us: seq<TagDesc>, pending: seq<nat>, ts: seq<TagDesc>, paths: Paths, limit: nat, es: seq<P.Entry>,
      to: nat, sequence: nat, status: nat)
    requires Within(pending, |ts|) && pending != [] && B.BatchFrom(us, pending, ts, paths, limit)
    requires B.SomeFits(pending, ts, paths, limit)
    requires |es| == |us| && forall i :: 0 <= i < |us| ==> IsOwnValue(us[i], es[i])
    ensures |Framed(ConnectedItems(to, ReplyWith(sequence, status, P.AllBytes(es))))| < limit
  {
    hide IsOwnValue, Framed, ConnectedItems, ReplyWith, P.AllBytes, B.EstimatedReplies, BatchOf, B.SomeFits;
    hide BatchRequests, RequestData;
    ReplyEstimateHolds(us, es, to, sequence, status);
    B.BatchBelowLimit(pending, ts, paths, limit, 0, 0, L.NoOffsets(|us|));
  }

  /** The answer of this server's provider for a number is as long as estimated. */
  lemma {:induction false} OwnAnswerIsExact(t: TagDesc, meaning: Meaning, limit: nat, answer: Answers)
    requires var o := AnswerFor(t, meaning, limit, answer);
      if o.Str? then t.cipType == CipTypes.STRING && t.elements <= 1
      else
        o.Atomic? && t.cipType != CipTypes.STRUCT && t.cipType != CipTypes.STRING
        && |o.data| == CipTypes.Size(t.cipType) * Count(t)
    ensures WithinEstimate(t, meaning, limit, answer)
    ensures |ReadEntry(ServiceFor(t, limit), AnswerFor(t, meaning, limit, answer)).value| == ResponseSize(t)
  {
    hide CipTypes.Size, M.Asked, AsTag, StringSlot, ServiceFor;
    StringSize();
  }

  /** The connection size that a client assumes before it is connected is the large one. */
  function SizeOr4000(connectionSize: nat): nat {
    if connectionSize == 0 then 4000 else connectionSize
  }

  /** A tag is read unfragmented only if the reply for it alone, whatever the controller sends, fits the connection. */
  lemma {:induction false} UnfragmentedFits(
      t: TagDesc, e: P.Entry, connectionSize: nat, to: nat, sequence: nat, status: nat)
    requires ServiceFor(t, connectionSize) == READ && IsOwnValue(t, e)
    ensures |Framed(ConnectedItems(to, ReplyWith(sequence, status, P.AllBytes([e]))))| < SizeOr4000(connectionSize)
  {
    hide IsOwnValue, Framed, ConnectedItems, ReplyWith, P.AllBytes, ResponseSize;
    ReplyEstimateHolds([t], [e], to, sequence, status);
    assert [t][1..] == [] && B.EstimatedReplies([]) == 0;
    assert B.EstimatedReplies([t]) == ResponseSize(t);
  }

  /** A single number or string whose reply fits is read unfragmented. */
  lemma {:induction false} FragmentedOnlyIfLong(
      t: TagDesc, e: P.Entry, connectionSize: nat, to: nat, sequence: nat, status: nat)
    requires IsOwnValue(t, e) && IsPlainValue(t) && t.elements <= 1
    requires |Framed(ConnectedItems(to, ReplyWith(sequence, status, P.AllBytes([e]))))| < SizeOr4000(connectionSize)
    ensures ServiceFor(t, connectionSize) == READ
  {
    hide IsOwnValue, Framed, ConnectedItems, ReplyWith, P.AllBytes, ResponseSize;
    ReplyEstimateHolds([t], [e], to, sequence, status);
    assert [t][1..] == [] && B.EstimatedReplies([]) == 0;
    assert B.EstimatedReplies([t]) == ResponseSize(t);
  }
}
