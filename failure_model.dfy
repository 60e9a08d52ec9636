/**
 * The bookkeeping state of `minitest::TestResult` as a value, and the
 * specification of each of its operations as a function of that value.
 *
 * The intrusive linked chain of `PredicateContext` frames is a sequence
 * (the root frame, id 0, is not stored), and a frame's `failure_` pointer and
 * the result's `messageTarget_` are indices into the failure sequence, which
 * only ever grows at its end (as `std::deque::push_back` keeps references
 * stable, an index denotes the same record for the life of the result).
 */
module FailureModel {
  import opened Wrappers

  /** One line item of the report: a failed assertion or a reported predicate frame. */
  datatype Failure = Failure(
    file: Option<string>,
    line: nat,
    expr: string,
    message: string,
    nestingLevel: nat)

  /** One in-flight predicate frame; `failure` is set once the frame is reported. */
  datatype Frame = Frame(
    id: nat,
    file: Option<string>,
    line: nat,
    expr: string,
    failure: Option<nat>)

  datatype ResultState = ResultState(
    name: string,
    failures: seq<Failure>,
    chain: seq<Frame>,
    predicateId: nat,
    lastUsedPredicateId: nat,
    messageTarget: Option<nat>)

  /**
   * The invariant every reachable state keeps:
   *  - frame ids strictly increase along the chain and stay below the next id;
   *  - the watermark is below the next id, so a newly pushed frame is unreported;
   *  - a frame has a record exactly when its id is at or below the watermark,
   *    and that record describes the frame at its chain depth;
   *  - the message target is set exactly when some record exists.
   */
  ghost predicate Valid(s: ResultState) {
    && s.lastUsedPredicateId < s.predicateId
    && (forall k :: 0 <= k < |s.chain| ==> s.chain[k].id < s.predicateId)
    && (forall i, j :: 0 <= i < j < |s.chain| ==> s.chain[i].id < s.chain[j].id)
    && (forall k :: 0 <= k < |s.chain| ==>
          (s.chain[k].failure.Some? <==> s.chain[k].id <= s.lastUsedPredicateId))
    && (forall k :: 0 <= k < |s.chain| && s.chain[k].failure.Some? ==>
          s.chain[k].failure.value < |s.failures|
          && Describes(s.failures[s.chain[k].failure.value], s.chain[k], k))
    && (s.messageTarget.Some? <==> s.failures != [])
    && (s.messageTarget.Some? ==> s.messageTarget.value < |s.failures|)
  }

  /** Record `f` was made from frame `fr` at depth `level` (its message may have grown since). */
  predicate Describes(f: Failure, fr: Frame, level: nat) {
    f.file == fr.file && f.line == fr.line && f.expr == fr.expr && f.nestingLevel == level
  }

  /**
   * The state of a newly constructed result: next id 1, watermark 0, no
   * frames, no records, no message target.
   */
  function Initial(): (s: ResultState)
    ensures Valid(s)
  {
    ResultState("", [], [], 1, 0, None)
  }

  predicate Failed(s: ResultState) {
    s.failures != []
  }

  // ---------------------------------------------------------------------------
  // addFailureInfo / addFailure

  /** The record `addFailureInfo` appends; a null expression gives an empty one. */
  function FailureInfo(file: Option<string>, line: nat, expr: Option<string>, level: nat): Failure {
    Failure(file, line, match expr case Some(e) => e case None => "", "", level)
  }

  /** The record made for frame `fr` reported at depth `level`. */
  function FrameRecord(fr: Frame, level: nat): Failure {
    Failure(fr.file, fr.line, fr.expr, "", level)
  }

  /** One step of the walk in `addFailure`: report frame `k` if it is above the watermark. */
  function Visit(s: ResultState, k: nat): (r: ResultState)
    requires k < |s.chain|
    ensures |r.chain| == |s.chain|
  {
    var fr := s.chain[k];
    if fr.id > s.lastUsedPredicateId then
      s.(lastUsedPredicateId := fr.id,
         failures := s.failures + [FrameRecord(fr, k)],
         chain := s.chain[k := fr.(failure := Some(|s.failures|))])
    else
      s
  }

  /** The walk of `addFailure` over frames `k..` of the chain. */
  function Walk(s: ResultState, k: nat): (r: ResultState)
    requires k <= |s.chain|
    ensures |r.chain| == |s.chain| && |s.failures| <= |r.failures|
    decreases |s.chain| - k
  {
    if k == |s.chain| then s else Walk(Visit(s, k), k + 1)
  }

  /**
   * `TestResult::addFailure`: report the frames not yet reported, then append
   * the failing assertion one level below the last frame and make it the
   * message target.
   */
  function AddFailure(s: ResultState, file: Option<string>, line: nat, expr: Option<string>): ResultState {
    var w := Walk(s, 0);
    w.(failures := w.failures + [FailureInfo(file, line, expr, |s.chain|)],
       messageTarget := Some(|w.failures|))
  }

  /** The number of leading frames already reported: the walk starts reporting here. */
  function FirstUnreported(chain: seq<Frame>, watermark: nat): (p: nat)
    ensures p <= |chain|
    ensures forall k :: 0 <= k < p ==> chain[k].id <= watermark
    ensures p < |chain| ==> chain[p].id > watermark
  {
    if chain == [] || chain[0].id > watermark then 0
    else 1 + FirstUnreported(chain[1..], watermark)
  }

  // ---------------------------------------------------------------------------
  // The predicate stack

  /** The push half of `JSONTEST_ASSERT_PRED`: a new unreported tail frame with the next id. */
  function Push(s: ResultState, file: Option<string>, line: nat, expr: string): ResultState {
    s.(chain := s.chain + [Frame(s.predicateId, file, line, expr, None)],
       predicateId := s.predicateId + 1)
  }

  /**
   * `TestResult::popPredicateContext`: unlink the tail; a tail that was
   * reported becomes the message target. With only the root left, nothing changes.
   */
  function Pop(s: ResultState): ResultState {
    if s.chain == [] then s
    else
      var tail := s.chain[|s.chain| - 1];
      s.(chain := s.chain[..|s.chain| - 1],
         messageTarget := if tail.failure.Some? then tail.failure else s.messageTarget)
  }

  // ---------------------------------------------------------------------------
  // Messages

  /** `TestResult::addToLastFailure`: grow the target's message; no target, no change. */
  function AddToLastFailure(s: ResultState, text: string): ResultState
    requires s.messageTarget.Some? ==> s.messageTarget.value < |s.failures|
  {
    match s.messageTarget
    case None => s
    case Some(t) =>
      s.(failures := s.failures[t := s.failures[t].(message := s.failures[t].message + text)])
  }

  // ---------------------------------------------------------------------------
  // Relations between an earlier and a later state

  /** The record sequence only grew at its end; old records only had text appended to their message. */
  ghost predicate Grows(before: seq<Failure>, after: seq<Failure>) {
    && |before| <= |after|
    && forall i :: 0 <= i < |before| ==>
         after[i] == before[i].(message := after[i].message)
         && before[i].message <= after[i].message
  }

  /** The same frames in the same order; a frame's record, once set, stays. */
  ghost predicate SameFrames(before: seq<Frame>, after: seq<Frame>) {
    && |before| == |after|
    && forall k :: 0 <= k < |before| ==>
         after[k] == before[k].(failure := after[k].failure)
         && (before[k].failure.Some? ==> after[k].failure == before[k].failure)
  }

  // ---------------------------------------------------------------------------
  // Lemmas about the walk

  lemma {:induction false} WalkSkipsReported(s: ResultState, k: nat, p: nat)
    requires k <= p <= |s.chain|
    requires forall i :: k <= i < p ==> s.chain[i].id <= s.lastUsedPredicateId
    ensures Walk(s, k) == Walk(s, p)
    decreases p - k
  {
    if k < p {
      assert Visit(s, k) == s;
      WalkSkipsReported(s, k + 1, p);
    }
  }

  /** The records the walk makes for frames `k..` of the chain, in chain order. */
  function NewRecords(chain: seq<Frame>, k: nat): (rs: seq<Failure>)
    requires k <= |chain|
    ensures |rs| == |chain| - k
  {
    seq(|chain| - k, i requires 0 <= i < |chain| - k => FrameRecord(chain[k + i], k + i))
  }

  /** The chain after the walk: frame `i` (k <= i) points at record `n + i - k`. */
  function Marked(chain: seq<Frame>, k: nat, n: nat): (c: seq<Frame>)
    requires k <= |chain|
    ensures |c| == |chain|
  {
    seq(|chain|, i requires 0 <= i < |chain| =>
      if i < k then chain[i] else chain[i].(failure := Some(n + i - k)))
  }

  /** Over frames that are all new, the walk reports each one, in chain order, at its depth. */
  lemma {:induction false} WalkReportsNew(s: ResultState, k: nat)
    requires k <= |s.chain|
    requires forall i :: k <= i < |s.chain| ==> s.chain[i].id > s.lastUsedPredicateId
    requires forall i, j :: k <= i < j < |s.chain| ==> s.chain[i].id < s.chain[j].id
    ensures var r := Walk(s, k);
      && r.name == s.name && r.predicateId == s.predicateId && r.messageTarget == s.messageTarget
      && r.failures == s.failures + NewRecords(s.chain, k)
      && r.chain == Marked(s.chain, k, |s.failures|)
      && r.lastUsedPredicateId == (if k < |s.chain| then s.chain[|s.chain| - 1].id else s.lastUsedPredicateId)
    decreases |s.chain| - k
  {
    if k == |s.chain| {
      assert s.chain == Marked(s.chain, k, |s.failures|);
    } else {
      var v := Visit(s, k);
      assert v.failures == s.failures + [FrameRecord(s.chain[k], k)];
      assert v.chain == s.chain[k := s.chain[k].(failure := Some(|s.failures|))];
      WalkReportsNew(v, k + 1);
      NewRecordsSuffix(v.chain, s.chain, k + 1);
      NewRecordsCons(s.chain, k);
      MarkedStep(s.chain, k, |s.failures|);
    }
  }

  lemma NewRecordsCons(chain: seq<Frame>, k: nat)
    requires k < |chain|
    ensures NewRecords(chain, k) == [FrameRecord(chain[k], k)] + NewRecords(chain, k + 1)
  {
  }

  lemma NewRecordsSuffix(a: seq<Frame>, b: seq<Frame>, k: nat)
    requires |a| == |b| && k <= |a| && a[k..] == b[k..]
    ensures NewRecords(a, k) == NewRecords(b, k)
  {
    forall j | k <= j < |a| ensures a[j] == b[j] {
      assert a[j] == a[k..][j - k];
    }
  }

  /** Marking frame `k` with record `n` and the rest from `n + 1` marks the chain from `k`. */
  lemma MarkedStep(chain: seq<Frame>, k: nat, n: nat)
    requires k < |chain|
    ensures Marked(chain[k := chain[k].(failure := Some(n))], k + 1, n + 1) == Marked(chain, k, n)
  {
  }

  // ---------------------------------------------------------------------------
  // Lemmas about addFailure

  /** On a valid state the walk from the root skips the `p` frames reported earlier and reports the rest. */
  lemma WalkFromRoot(s: ResultState)
    requires Valid(s)
    ensures var w, p := Walk(s, 0), FirstUnreported(s.chain, s.lastUsedPredicateId);
      && w.name == s.name && w.predicateId == s.predicateId && w.messageTarget == s.messageTarget
      && w.failures == s.failures + NewRecords(s.chain, p)
      && w.chain == Marked(s.chain, p, |s.failures|)
      && w.lastUsedPredicateId == (if p < |s.chain| then s.chain[|s.chain| - 1].id else s.lastUsedPredicateId)
  {
    var p := FirstUnreported(s.chain, s.lastUsedPredicateId);
    forall i | p < i < |s.chain| ensures s.chain[i].id > s.lastUsedPredicateId {
      assert s.chain[p].id < s.chain[i].id;
    }
    WalkSkipsReported(s, 0, p);
    WalkReportsNew(s, p);
  }

  /** The records and the chain after `addFailure`, read off the walk. */
  lemma AddFailureShape(s: ResultState, file: Option<string>, line: nat, expr: Option<string>)
    requires Valid(s)
    ensures var r := AddFailure(s, file, line, expr);
      var n, d, p := |s.failures|, |s.chain|, FirstUnreported(s.chain, s.lastUsedPredicateId);
      && r.failures == s.failures + NewRecords(s.chain, p) + [FailureInfo(file, line, expr, d)]
      && |r.failures| == n + (d - p) + 1
      && r.chain == Marked(s.chain, p, n)
      && r.messageTarget == Some(n + d - p)
      && r.lastUsedPredicateId == (if p < d then s.chain[d - 1].id else s.lastUsedPredicateId)
      && r.name == s.name && r.predicateId == s.predicateId
  {
    WalkFromRoot(s);
  }

  /** After `addFailure` every frame of the chain is reported. */
  lemma AddFailureReportsAll(s: ResultState, file: Option<string>, line: nat, expr: Option<string>)
    requires Valid(s)
    ensures var r := AddFailure(s, file, line, expr);
      && s.lastUsedPredicateId <= r.lastUsedPredicateId < r.predicateId
      && (forall k :: 0 <= k < |r.chain| ==> r.chain[k].id <= r.lastUsedPredicateId && r.chain[k].failure.Some?)
      && FirstUnreported(r.chain, r.lastUsedPredicateId) == |r.chain|
  {
    var d, p := |s.chain|, FirstUnreported(s.chain, s.lastUsedPredicateId);
    AddFailureShape(s, file, line, expr);
    var r := AddFailure(s, file, line, expr);
    forall k | 0 <= k < d ensures r.chain[k].id <= r.lastUsedPredicateId && r.chain[k].failure.Some? {
      assert r.chain[k] == Marked(s.chain, p, |s.failures|)[k];
      if k >= p && k < d - 1 { assert s.chain[k].id < s.chain[d - 1].id; }
    }
    FirstUnreportedAll(r.chain, r.lastUsedPredicateId);
  }

  /** `addFailure` only adds records and reports frames: nothing earlier is lost. */
  lemma AddFailureGrows(s: ResultState, file: Option<string>, line: nat, expr: Option<string>)
    requires Valid(s)
    ensures var r := AddFailure(s, file, line, expr);
      SameFrames(s.chain, r.chain) && Grows(s.failures, r.failures)
  {
    var n, d, p := |s.failures|, |s.chain|, FirstUnreported(s.chain, s.lastUsedPredicateId);
    AddFailureShape(s, file, line, expr);
    forall k | p <= k < d ensures s.chain[k].failure.None? {
      if k > p { assert s.chain[p].id < s.chain[k].id; }
    }
    MarkedSameFrames(s.chain, p, n);
    var added := NewRecords(s.chain, p) + [FailureInfo(file, line, expr, d)];
    GrowsByAppending(s.failures, added);
    assert AddFailure(s, file, line, expr).failures == s.failures + added;
  }

  /** After `addFailure`, frame `k` points at a record that describes it. */
  lemma AddFailureFrameRecord(s: ResultState, file: Option<string>, line: nat, expr: Option<string>, k: nat)
    requires Valid(s) && k < |s.chain|
    ensures var r := AddFailure(s, file, line, expr);
      && r.chain[k].id == s.chain[k].id
      && r.chain[k].failure.Some? && r.chain[k].failure.value < |r.failures|
      && Describes(r.failures[r.chain[k].failure.value], r.chain[k], k)
  {
    if k < FirstUnreported(s.chain, s.lastUsedPredicateId) {
      AddFailureKeepsRecord(s, file, line, expr, k);
    } else {
      AddFailureMakesRecord(s, file, line, expr, k);
    }
  }

  /** A frame reported earlier keeps its record. */
  lemma AddFailureKeepsRecord(s: ResultState, file: Option<string>, line: nat, expr: Option<string>, k: nat)
    requires Valid(s) && k < FirstUnreported(s.chain, s.lastUsedPredicateId)
    ensures var r := AddFailure(s, file, line, expr);
      && r.chain[k] == s.chain[k] && s.chain[k].failure.Some?
      && r.failures[s.chain[k].failure.value] == s.failures[s.chain[k].failure.value]
  {
    var n, p := |s.failures|, FirstUnreported(s.chain, s.lastUsedPredicateId);
    AddFailureShape(s, file, line, expr);
    var r := AddFailure(s, file, line, expr);
    assert r.chain[k] == Marked(s.chain, p, n)[k];
  }

  /** A frame not reported before points at the record made for it. */
  lemma AddFailureMakesRecord(s: ResultState, file: Option<string>, line: nat, expr: Option<string>, k: nat)
    requires Valid(s) && FirstUnreported(s.chain, s.lastUsedPredicateId) <= k < |s.chain|
    ensures var r, j := AddFailure(s, file, line, expr), |s.failures| + k - FirstUnreported(s.chain, s.lastUsedPredicateId);
      && r.chain[k] == s.chain[k].(failure := Some(j))
      && j < |r.failures| && r.failures[j] == FrameRecord(s.chain[k], k)
  {
    var r, p := AddFailure(s, file, line, expr), FirstUnreported(s.chain, s.lastUsedPredicateId);
    var last := FailureInfo(file, line, expr, |s.chain|);
    assert r.failures == s.failures + NewRecords(s.chain, p) + [last] && r.chain == Marked(s.chain, p, |s.failures|) by {
      AddFailureShape(s, file, line, expr);
    }
    MadeRecordAt(s.chain, s.failures, r.failures, r.chain, last, p, k);
  }

  /** Index arithmetic of the walk's output: frame `k` from `p` on and its record `n + k - p`. */
  lemma MadeRecordAt(chain: seq<Frame>, failures: seq<Failure>, rf: seq<Failure>, rc: seq<Frame>,
                     last: Failure, p: nat, k: nat)
    requires p <= k < |chain|
    requires rf == failures + NewRecords(chain, p) + [last]
    requires rc == Marked(chain, p, |failures|)
    ensures var j := |failures| + k - p;
      && rc[k] == chain[k].(failure := Some(j))
      && j < |rf| && rf[j] == FrameRecord(chain[k], k)
  {
    var n, nr := |failures|, NewRecords(chain, p);
    assert rf[n + k - p] == (failures + nr)[n + k - p] == nr[k - p];
  }

  /** `addFailure` keeps the state valid. */
  lemma AddFailureValid(s: ResultState, file: Option<string>, line: nat, expr: Option<string>)
    requires Valid(s)
    ensures Valid(AddFailure(s, file, line, expr))
  {
    AddFailureShape(s, file, line, expr);
    AddFailureReportsAll(s, file, line, expr);
    var r := AddFailure(s, file, line, expr);
    forall k | 0 <= k < |s.chain|
      ensures r.chain[k].id == s.chain[k].id
      ensures r.chain[k].failure.Some? && r.chain[k].failure.value < |r.failures|
      ensures Describes(r.failures[r.chain[k].failure.value], r.chain[k], k)
    {
      AddFailureFrameRecord(s, file, line, expr, k);
    }
  }

  /**
   * What one `addFailure` does to a valid state, with `p` the number of frames
   * reported earlier, `n` the number of records and `d` the chain depth:
   *  - it appends the records of frames p..d-1 (frame k at nesting level k) and
   *    then the failing assertion at level d, leaving earlier records as they were;
   *  - each newly reported frame points at its own record; frames reported
   *    earlier are untouched and get no second record;
   *  - the failing assertion's record becomes the message target;
   *  - the watermark does not decrease, every frame is now reported, and the state stays valid.
   */
  lemma AddFailureEffect(s: ResultState, file: Option<string>, line: nat, expr: Option<string>)
    requires Valid(s)
    ensures var r := AddFailure(s, file, line, expr);
      var n, d, p := |s.failures|, |s.chain|, FirstUnreported(s.chain, s.lastUsedPredicateId);
      && Valid(r)
      && r.failures == s.failures + NewRecords(s.chain, p) + [FailureInfo(file, line, expr, d)]
      && r.chain == Marked(s.chain, p, n)
      && r.messageTarget == Some(n + d - p)
      && s.lastUsedPredicateId <= r.lastUsedPredicateId
      && FirstUnreported(r.chain, r.lastUsedPredicateId) == d
      && r.name == s.name && r.predicateId == s.predicateId
      && SameFrames(s.chain, r.chain) && Grows(s.failures, r.failures)
  {
    AddFailureShape(s, file, line, expr);
    AddFailureReportsAll(s, file, line, expr);
    AddFailureGrows(s, file, line, expr);
    AddFailureValid(s, file, line, expr);
  }

  lemma MarkedSameFrames(chain: seq<Frame>, p: nat, n: nat)
    requires p <= |chain|
    requires forall k :: p <= k < |chain| ==> chain[k].failure.None?
    ensures SameFrames(chain, Marked(chain, p, n))
  {
  }

  lemma GrowsByAppending(a: seq<Failure>, b: seq<Failure>)
    ensures Grows(a, a + b)
  {
    forall i | 0 <= i < |a| ensures (a + b)[i] == a[i] { }
  }

  lemma FirstUnreportedAll(chain: seq<Frame>, watermark: nat)
    requires forall k :: 0 <= k < |chain| ==> chain[k].id <= watermark
    ensures FirstUnreported(chain, watermark) == |chain|
  {
  }

  /** With no predicate frame pushed, `addFailure` appends exactly one level-0 record and targets it. */
  lemma AddFailureWithoutFrames(s: ResultState, file: Option<string>, line: nat, expr: Option<string>)
    requires Valid(s) && s.chain == []
    ensures var r := AddFailure(s, file, line, expr);
      && r.failures == s.failures + [FailureInfo(file, line, expr, 0)]
      && r.failures[|s.failures|].nestingLevel == 0
      && r.messageTarget == Some(|s.failures|)
      && r.chain == [] && r.lastUsedPredicateId == s.lastUsedPredicateId
  {
    AddFailureEffect(s, file, line, expr);
    WalkFromRoot(s);
    assert NewRecords(s.chain, 0) == [];
  }

  /** On a chain with no frame reported yet, the walk starts at the first frame. */
  lemma NoneReported(s: ResultState)
    requires Valid(s)
    requires forall k :: 0 <= k < |s.chain| ==> s.chain[k].failure.None?
    ensures FirstUnreported(s.chain, s.lastUsedPredicateId) == 0
  {
    if s.chain != [] {
      assert s.chain[0].failure.None?;
    }
  }

  /**
   * A chain of D frames none of which is reported yet yields D + 1 records:
   * one per frame in chain order, each frame pointing at its own record, and
   * the failing assertion last, at level D.
   */
  lemma AddFailureNewChain(s: ResultState, file: Option<string>, line: nat, expr: Option<string>)
    requires Valid(s)
    requires forall k :: 0 <= k < |s.chain| ==> s.chain[k].failure.None?
    ensures var r := AddFailure(s, file, line, expr);
      var n, d := |s.failures|, |s.chain|;
      && |r.failures| == n + d + 1
      && (forall k :: 0 <= k < d ==>
            r.failures[n + k] == FrameRecord(s.chain[k], k) && r.chain[k].failure == Some(n + k))
      && r.failures[n + d] == FailureInfo(file, line, expr, d)
      && r.lastUsedPredicateId == (if d == 0 then s.lastUsedPredicateId else s.chain[d - 1].id)
  {
    var r, d := AddFailure(s, file, line, expr), |s.chain|;
    var last := FailureInfo(file, line, expr, d);
    assert r.failures == s.failures + NewRecords(s.chain, 0) + [last]
        && r.chain == Marked(s.chain, 0, |s.failures|)
        && r.lastUsedPredicateId == (if d == 0 then s.lastUsedPredicateId else s.chain[d - 1].id) by {
      NoneReported(s);
      AddFailureShape(s, file, line, expr);
    }
    NewChainRecords(s, r, last);
  }

  /** The walk's output over a chain reported from its first frame on. */
  lemma NewChainRecords(s: ResultState, r: ResultState, last: Failure)
    requires r.failures == s.failures + NewRecords(s.chain, 0) + [last]
    requires r.chain == Marked(s.chain, 0, |s.failures|)
    ensures var n, d := |s.failures|, |s.chain|;
      && |r.failures| == n + d + 1
      && (forall k :: 0 <= k < d ==>
            r.failures[n + k] == FrameRecord(s.chain[k], k) && r.chain[k].failure == Some(n + k))
      && r.failures[n + d] == last
  {
    var n := |s.failures|;
    forall k | 0 <= k < |s.chain|
      ensures r.failures[n + k] == FrameRecord(s.chain[k], k) && r.chain[k].failure == Some(n + k)
    {
      MadeRecordAt(s.chain, s.failures, r.failures, r.chain, last, 0, k);
    }
  }

  /** The nesting levels of the D + 1 records a fresh chain yields run 0..D in chain order. */
  lemma AddFailureNewChainLevels(s: ResultState, file: Option<string>, line: nat, expr: Option<string>)
    requires Valid(s)
    requires forall k :: 0 <= k < |s.chain| ==> s.chain[k].failure.None?
    ensures var r, n, d := AddFailure(s, file, line, expr), |s.failures|, |s.chain|;
      && |r.failures| == n + d + 1
      && forall i :: n <= i < |r.failures| ==> r.failures[i].nestingLevel == i - n
  {
    AddFailureNewChain(s, file, line, expr);
    var r, n, d := AddFailure(s, file, line, expr), |s.failures|, |s.chain|;
    forall i | n <= i < |r.failures| ensures r.failures[i].nestingLevel == i - n {
      if i < n + d {
        assert r.failures[n + (i - n)] == FrameRecord(s.chain[i - n], i - n);
      }
    }
  }

  /**
   * A second `addFailure` inside the same still-active chain adds exactly one
   * record: every ancestor frame was reported by the first one.
   */
  lemma SecondFailureAddsOne(s: ResultState, file1: Option<string>, line1: nat, expr1: Option<string>,
                             file2: Option<string>, line2: nat, expr2: Option<string>)
    requires Valid(s)
    ensures var r1 := AddFailure(s, file1, line1, expr1);
      var r2 := AddFailure(r1, file2, line2, expr2);
      && r2.failures == r1.failures + [FailureInfo(file2, line2, expr2, |s.chain|)]
      && r2.chain == r1.chain
      && r2.lastUsedPredicateId == r1.lastUsedPredicateId
      && r2.messageTarget == Some(|r1.failures|)
  {
    var r1 := AddFailure(s, file1, line1, expr1);
    AddFailureShape(s, file1, line1, expr1);
    AddFailureReportsAll(s, file1, line1, expr1);
    AddFailureValid(s, file1, line1, expr1);
    AddFailureShape(r1, file2, line2, expr2);
    assert NewRecords(r1.chain, |r1.chain|) == [];
    assert Marked(r1.chain, |r1.chain|, |r1.failures|) == r1.chain;
  }

  // ---------------------------------------------------------------------------
  // Lemmas about the predicate stack and messages

  /**
   * A push keeps the state valid; the pushed frame is the new tail, carries an
   * id above every frame below it and above the watermark, and is unreported.
   */
  lemma PushEffect(s: ResultState, file: Option<string>, line: nat, expr: string)
    requires Valid(s)
    ensures var r := Push(s, file, line, expr);
      && Valid(r)
      && r.chain[..|s.chain|] == s.chain
      && r.chain[|s.chain|].failure.None?
      && r.chain[|s.chain|].id > r.lastUsedPredicateId
      && (forall k :: 0 <= k < |s.chain| ==> s.chain[k].id < r.chain[|s.chain|].id)
  {
  }

  /**
   * A pop keeps the state valid and removes only the tail frame: the records
   * and counters stay; the target moves to the tail's record when the tail
   * was reported and stays otherwise; with no frame left nothing changes.
   */
  lemma PopEffect(s: ResultState)
    requires Valid(s)
    ensures var r := Pop(s);
      && Valid(r)
      && r.failures == s.failures && r.name == s.name
      && r.predicateId == s.predicateId && r.lastUsedPredicateId == s.lastUsedPredicateId
      && (s.chain == [] ==> r == s)
      && (s.chain != [] ==>
            && r.chain + [s.chain[|s.chain| - 1]] == s.chain
            && (s.chain[|s.chain| - 1].failure.None? ==> r.messageTarget == s.messageTarget)
            && (s.chain[|s.chain| - 1].failure.Some? ==> r.messageTarget == s.chain[|s.chain| - 1].failure))
  {
  }

  /** Popping right after a push undoes it, except that the id counter has moved on. */
  lemma PushThenPop(s: ResultState, file: Option<string>, line: nat, expr: string)
    ensures Pop(Push(s, file, line, expr)) == s.(predicateId := s.predicateId + 1)
  {
    var p := Push(s, file, line, expr);
    assert p.chain[..|p.chain| - 1] == s.chain;
  }

  /** `addToLastFailure` keeps the state valid and touches the target's message only. */
  lemma AddToLastFailureEffect(s: ResultState, text: string)
    requires Valid(s)
    ensures var r := AddToLastFailure(s, text);
      && Valid(r)
      && |r.failures| == |s.failures|
      && r.chain == s.chain && r.messageTarget == s.messageTarget
      && r.lastUsedPredicateId == s.lastUsedPredicateId && r.predicateId == s.predicateId
      && (forall i :: 0 <= i < |s.failures| && Some(i) != s.messageTarget ==> r.failures[i] == s.failures[i])
      && (s.messageTarget.Some? ==>
            r.failures[s.messageTarget.value]
            == s.failures[s.messageTarget.value].(message := s.failures[s.messageTarget.value].message + text))
      && Grows(s.failures, r.failures)
  {
  }

  /** Two appends in a row are one append of the concatenated text. */
  lemma AddToLastFailureTwice(s: ResultState, a: string, b: string)
    requires Valid(s)
    ensures AddToLastFailure(AddToLastFailure(s, a), b) == AddToLastFailure(s, a + b)
  {
    if s.messageTarget.Some? {
      var t := s.messageTarget.value;
      assert s.failures[t].message + a + b == s.failures[t].message + (a + b);
    }
  }

  /**
   * Text appended right after popping a frame that was reported lands on that
   * frame's own record, whatever failure came last.
   */
  lemma PopRetargetsMessages(s: ResultState, text: string)
    requires Valid(s) && s.chain != []
    requires s.chain[|s.chain| - 1].failure.Some?
    ensures var j := s.chain[|s.chain| - 1].failure.value;
      var r := AddToLastFailure(Pop(s), text);
      && r.failures == s.failures[j := s.failures[j].(message := s.failures[j].message + text)]
      && r.failures[j].nestingLevel == |s.chain| - 1
  {
  }

  lemma GrowsTransitive(a: seq<Failure>, b: seq<Failure>, c: seq<Failure>)
    requires Grows(a, b) && Grows(b, c)
    ensures Grows(a, c)
  {
    forall i | 0 <= i < |a|
      ensures a[i].message <= c[i].message
    {
      assert a[i].message == b[i].message[..|a[i].message|];
      assert b[i].message == c[i].message[..|b[i].message|];
    }
  }

  // ---------------------------------------------------------------------------
  // Steps of a test body

  /**
   * `r` can follow `s` within one test: the state is valid, the chain holds
   * the same frames, records only grew, the counters never went down, and if
   * a record was added, every frame still in the chain has been reported.
   */
  ghost predicate Follows(s: ResultState, r: ResultState) {
    && Valid(r)
    && SameFrames(s.chain, r.chain) && Grows(s.failures, r.failures)
    && s.lastUsedPredicateId <= r.lastUsedPredicateId && s.predicateId <= r.predicateId
    && r.name == s.name
    && (|s.failures| < |r.failures| ==> forall k :: 0 <= k < |r.chain| ==> r.chain[k].failure.Some?)
  }

  /** Once a test has failed it stays failed: no later step of its body removes a record. */
  lemma FollowsKeepsFailed(s: ResultState, r: ResultState)
    requires Follows(s, r) && Failed(s)
    ensures Failed(r) && r.messageTarget.Some?
  {
  }

  lemma FollowsTransitive(a: ResultState, b: ResultState, c: ResultState)
    requires Follows(a, b) && Follows(b, c)
    ensures Follows(a, c)
  {
    GrowsTransitive(a.failures, b.failures, c.failures);
  }

  /** `addFailure(file, line, expr) << text`: a failure and its first message text. */
  function FailWith(s: ResultState, file: Option<string>, line: nat, expr: Option<string>, text: string): ResultState
    requires Valid(s)
  {
    AddFailureValid(s, file, line, expr);
    AddToLastFailure(AddFailure(s, file, line, expr), text)
  }

  /** The failure's record receives the text, nothing else changes beyond `addFailure`. */
  lemma FailWithEffect(s: ResultState, file: Option<string>, line: nat, expr: Option<string>, text: string)
    requires Valid(s)
    ensures var f, r := AddFailure(s, file, line, expr), FailWith(s, file, line, expr, text);
      && Follows(s, r)
      && |r.failures| == |f.failures|
      && r.failures[..|f.failures| - 1] == f.failures[..|f.failures| - 1]
      && r.failures[|r.failures| - 1] == f.failures[|f.failures| - 1].(message := text)
      && r.chain == f.chain && r.messageTarget == f.messageTarget
      && r.lastUsedPredicateId == f.lastUsedPredicateId
  {
    var f := AddFailure(s, file, line, expr);
    AddFailureFollows(s, file, line, expr);
    AddToLastFailureFollows(f, text);
    AddToLastFailureEffect(f, text);
    FollowsTransitive(s, f, FailWith(s, file, line, expr, text));
  }

  /** `addFailure` is a step of a test body whose message target is the record it appended last. */
  lemma AddFailureFollows(s: ResultState, file: Option<string>, line: nat, expr: Option<string>)
    requires Valid(s)
    ensures var r := AddFailure(s, file, line, expr);
      && Follows(s, r) && |s.failures| < |r.failures| && r.messageTarget == Some(|r.failures| - 1)
  {
    AddFailureShape(s, file, line, expr);
    AddFailureReportsAll(s, file, line, expr);
    AddFailureGrows(s, file, line, expr);
    AddFailureValid(s, file, line, expr);
  }

  /** The record `addFailure` appends last is the failing assertion's, and it becomes the message target. */
  lemma AddFailureLastRecord(s: ResultState, file: Option<string>, line: nat, expr: Option<string>)
    requires Valid(s)
    ensures var f := AddFailure(s, file, line, expr);
      && |s.failures| < |f.failures|
      && f.messageTarget == Some(|f.failures| - 1)
      && f.failures[|f.failures| - 1] == FailureInfo(file, line, expr, |s.chain|)
  {
    AddFailureShape(s, file, line, expr);
  }

  lemma AddToLastFailureFollows(s: ResultState, text: string)
    requires Valid(s)
    ensures Follows(s, AddToLastFailure(s, text))
  {
    AddToLastFailureEffect(s, text);
  }

  /** A frame pushed and then popped, whatever happened in between, leaves the same frames. */
  lemma PushThenPopFollows(s: ResultState, file: Option<string>, line: nat, expr: string, b: ResultState)
    requires Valid(s)
    requires Follows(Push(s, file, line, expr), b)
    ensures Follows(s, Pop(b))
  {
    PushEffect(s, file, line, expr);
    PopEffect(b);
  }
}
