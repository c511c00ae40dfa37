/** The lab ports that may mark a failed reproduction as negative proof
    (scripts/validation_lab_negative_proof.py, scripts/validation_auth_lab.py).
    Marks are justified by earlier control calls of the same batch only. */
module NegativeProof {
  import opened Options

  // ----- What goes in and out of a port -----

  datatype AttemptKind = PositiveControl | NegativeControl | Target | OtherAttempt

  /** A detail that may be missing, null or text. */
  datatype Detail = Absent | Null | Text(text: string)

  datatype PathValue = Str(text: string) | NotText

  /** The target request of a runtime contract; an absent contract is the empty request. */
  datatype Runtime = Runtime(headers: map<string, string>, jsonBody: bool, textBody: string, pathParameters: map<string, PathValue>)

  /** The canonical digest of a runtime contract. */
  datatype Digest = CanonicalSha256(runtime: Runtime)

  datatype BlindCase = BlindCase(
    endpoint: string, attackSkillName: string, verb: string, requiredIdentityRoles: seq<string>,
    credentialReferences: seq<string>, runtime: Runtime, injectionLocation: string, parameterName: string)

  datatype BoundedMark = BoundedMark(proof: LabNegativeProof, negativeControlDigest: string)

  datatype Observation = Observation(
    outcome: string, signalObserved: Option<bool>, responseStatus: Option<int>, responseUrl: Option<string>,
    bodySha: Detail, explicitNonExploit: bool, boundedMark: Option<BoundedMark>, authMark: Option<string>)

  datatype LabNegativeProof = LabNegativeProof(
    candidateId: string, scanId: string, endpoint: string, attackSkillName: string, runtimeSha: Digest,
    targetUrl: string, expectedStatus: int, proofKind: string, sourceSha: string, sourceLine: nat, sourceAnchor: string)

  datatype Batch = Batch(stageRunId: string, caseId: string, batchNo: int)

  /** One call of a port, with what the plain HTTP port answers to it. */
  datatype Call = Call(blind: BlindCase, kind: AttemptKind, batch: Batch, scanId: string, answer: Observation)

  /** The plain HTTP port sets neither mark. */
  predicate Unmarked(o: Observation) {
    o.boundedMark.None? && o.authMark.None?
  }

  type Proofs = map<(string, string), LabNegativeProof>

  predicate AllDigits(s: string) {
    s != "" && forall c :: c in s ==> '0' <= c <= '9'
  }

  /** The pinned request, answered as pinned, without a signal, and like the negative control. */
  predicate IsBoundedNegativeResponse(
    proof: LabNegativeProof, blind: BlindCase, o: Observation, controlHash: Option<string>, scanId: string)
  {
    && scanId == proof.scanId && blind.endpoint == proof.endpoint && blind.attackSkillName == proof.attackSkillName
    && blind.verb == "GET" && blind.requiredIdentityRoles == [] && blind.credentialReferences == []
    && CanonicalSha256(blind.runtime) == proof.runtimeSha
    && blind.runtime.headers == map[] && !blind.runtime.jsonBody && blind.runtime.textBody == ""
    && o.outcome == "not_observed" && o.signalObserved == Some(false)
    && o.responseStatus == Some(proof.expectedStatus) && o.responseUrl == Some(proof.targetUrl)
    && controlHash.Some? && o.bodySha == Text(controlHash.value)
    && if proof.proofKind == "auth_denial" then
         blind.injectionLocation == "query" && blind.runtime.pathParameters == map[]
       else
         && proof.proofKind == "integer_route" && blind.injectionLocation == "path"
         && blind.parameterName in blind.runtime.pathParameters
         && blind.runtime.pathParameters[blind.parameterName].Str?
         && !AllDigits(blind.runtime.pathParameters[blind.parameterName].text)
  }

  // ----- The lab port on traces -----

  /** The hash a negative control leaves; an absent one counts as empty text, a null one as none. */
  function ControlHash(o: Observation): Option<string> {
    match o.bodySha case Absent => Some("") case Null => None case Text(t) => Some(t)
  }

  /** The call leaves a control hash for batch "b". */
  predicate LeavesHash(proofs: Proofs, c: Call, b: Batch) {
    && c.batch == b && (c.scanId, c.blind.endpoint) in proofs
    && c.kind.NegativeControl? && c.answer.outcome == "not_observed"
  }

  /** Call "i" is the latest one that leaves a hash for "b". */
  ghost predicate LatestControl(proofs: Proofs, calls: seq<Call>, b: Batch, i: nat) {
    && i < |calls| && LeavesHash(proofs, calls[i], b)
    && forall j :: i < j < |calls| ==> !LeavesHash(proofs, calls[j], b)
  }

  /** The hash the latest not-observed negative control of "b" left. */
  ghost predicate HashInForce(proofs: Proofs, calls: seq<Call>, b: Batch, hash: string) {
    exists i: nat :: LatestControl(proofs, calls, b, i) && ControlHash(calls[i].answer) == Some(hash)
  }

  /** After "calls", the call deserves the mark with control digest "hash". */
  ghost predicate DeservesMark(proofs: Proofs, calls: seq<Call>, c: Call, hash: string) {
    && c.kind.Target? && (c.scanId, c.blind.endpoint) in proofs
    && HashInForce(proofs, calls, c.batch, hash)
    && IsBoundedNegativeResponse(proofs[(c.scanId, c.blind.endpoint)], c.blind, c.answer, Some(hash), c.scanId)
  }

  function WithBoundedMark(o: Observation, proof: LabNegativeProof, hash: string): Observation {
    o.(explicitNonExploit := true, boundedMark := Some(BoundedMark(proof, hash)))
  }

  /** The answer is the plain one, marked exactly when deserved. */
  ghost predicate RightAnswer(proofs: Proofs, calls: seq<Call>, c: Call, r: Observation) {
    || (r == c.answer && forall hash :: !DeservesMark(proofs, calls, c, hash))
    || (exists hash :: DeservesMark(proofs, calls, c, hash)
                       && r == WithBoundedMark(c.answer, proofs[(c.scanId, c.blind.endpoint)], hash))
  }

  /** Every answer of a trace was right for the calls before it. */
  ghost predicate RightTrace(proofs: Proofs, calls: seq<Call>, answers: seq<Observation>) {
    && |answers| == |calls|
    && forall k :: 0 <= k < |calls| ==> RightAnswer(proofs, calls[..k], calls[k], answers[k])
  }

  /** The call makes the pinned request: its identity, skill and contract are the proof's, it is a plain GET without
      credentials, and its input is what the kind of proof asks for. */
  predicate PinnedRequest(c: Call, proof: LabNegativeProof) {
    && c.scanId == proof.scanId && c.blind.endpoint == proof.endpoint
    && c.blind.attackSkillName == proof.attackSkillName && c.blind.verb == "GET"
    && c.blind.requiredIdentityRoles == [] && c.blind.credentialReferences == []
    && CanonicalSha256(c.blind.runtime) == proof.runtimeSha
    && c.blind.runtime.headers == map[] && !c.blind.runtime.jsonBody && c.blind.runtime.textBody == ""
    && (proof.proofKind == "auth_denial" || proof.proofKind == "integer_route")
    && (proof.proofKind == "auth_denial" ==>
          c.blind.injectionLocation == "query" && c.blind.runtime.pathParameters == map[])
    && (proof.proofKind == "integer_route" ==>
          && c.blind.injectionLocation == "path" && c.blind.parameterName in c.blind.runtime.pathParameters
          && c.blind.runtime.pathParameters[c.blind.parameterName].Str?
          && var text := c.blind.runtime.pathParameters[c.blind.parameterName].text;
             text == "" || exists ch :: ch in text && !('0' <= ch <= '9'))
  }

  /** The pinned request, answered as the proof says, with this body hash. */
  predicate AnsweredAsPinned(c: Call, proof: LabNegativeProof, hash: string) {
    && PinnedRequest(c, proof) && c.answer.outcome == "not_observed" && c.answer.signalObserved == Some(false)
    && c.answer.responseStatus == Some(proof.expectedStatus) && c.answer.responseUrl == Some(proof.targetUrl)
    && c.answer.bodySha == Text(hash)
  }

  lemma BoundedIsPinned(c: Call, proof: LabNegativeProof, hash: string)
    ensures IsBoundedNegativeResponse(proof, c.blind, c.answer, Some(hash), c.scanId) <==> AnsweredAsPinned(c, proof, hash)
  {
  }

  lemma LeavesIsControl(proofs: Proofs, calls: seq<Call>, k: nat, b: Batch)
    requires k <= |calls|
    ensures forall i: nat :: LatestControl(proofs, calls[..k], b, i) <==>
              && i < k && NegativeControlOf(proofs, calls[i], b)
              && forall j :: i < j < k ==> !NegativeControlOf(proofs, calls[j], b)
  {
    assert forall j :: 0 <= j < k ==> calls[..k][j] == calls[j];
    assert forall j :: 0 <= j < k ==> (LeavesHash(proofs, calls[..k][j], b) <==> NegativeControlOf(proofs, calls[j], b));
  }

  /** The call is a not-observed negative control of "b" for a proof that is held. */
  predicate NegativeControlOf(proofs: Proofs, c: Call, b: Batch) {
    && c.batch == b && c.kind == NegativeControl && c.answer.outcome == "not_observed"
    && (c.scanId, c.blind.endpoint) in proofs
  }

  /** Over any sequence of calls, a marked observation is a not-observed target that makes and answers the request of its
      proof, and whose body hash is the one the latest not-observed negative control earlier in the same batch had. */
  lemma MarksAreJustified(proofs: Proofs, calls: seq<Call>, answers: seq<Observation>, k: nat) returns (i: nat)
    requires RightTrace(proofs, calls, answers) && k < |calls| && Unmarked(calls[k].answer)
    requires answers[k].boundedMark.Some?
    ensures var c, proof := calls[k], answers[k].boundedMark.value.proof;
            && (c.scanId, c.blind.endpoint) in proofs && proof == proofs[(c.scanId, c.blind.endpoint)] && c.kind == Target
            && c.answer.bodySha.Text? && AnsweredAsPinned(c, proof, c.answer.bodySha.text)
    ensures i < k && NegativeControlOf(proofs, calls[i], calls[k].batch)
    ensures forall j :: i < j < k ==> !NegativeControlOf(proofs, calls[j], calls[k].batch)
    ensures var hash := calls[k].answer.bodySha.text;
            && (calls[i].answer.bodySha == Text(hash) || (calls[i].answer.bodySha == Absent && hash == ""))
            && answers[k] == calls[k].answer.(
                 explicitNonExploit := true, boundedMark := Some(BoundedMark(answers[k].boundedMark.value.proof, hash)))
  {
    var before := calls[..k];
    assert RightAnswer(proofs, before, calls[k], answers[k]);
    var hash :| DeservesMark(proofs, before, calls[k], hash)
                && answers[k] == WithBoundedMark(calls[k].answer, proofs[(calls[k].scanId, calls[k].blind.endpoint)], hash);
    i :| LatestControl(proofs, before, calls[k].batch, i) && ControlHash(before[i].answer) == Some(hash);
    LeavesIsControl(proofs, calls, k, calls[k].batch);
    BoundedIsPinned(calls[k], proofs[(calls[k].scanId, calls[k].blind.endpoint)], hash);
  }

  /** And every such observation is marked. */
  lemma MarksAreGiven(proofs: Proofs, calls: seq<Call>, answers: seq<Observation>, k: nat, i: nat, hash: string)
    requires RightTrace(proofs, calls, answers) && k < |calls| && Unmarked(calls[k].answer)
    requires var c := calls[k];
             && (c.scanId, c.blind.endpoint) in proofs && c.kind == Target
             && AnsweredAsPinned(c, proofs[(c.scanId, c.blind.endpoint)], hash)
    requires i < k && NegativeControlOf(proofs, calls[i], calls[k].batch) && calls[i].answer.bodySha == Text(hash)
    requires forall j :: i < j < k ==> !NegativeControlOf(proofs, calls[j], calls[k].batch)
    ensures answers[k].boundedMark.Some?
  {
    var before, c := calls[..k], calls[k];
    assert RightAnswer(proofs, before, c, answers[k]);
    LeavesIsControl(proofs, calls, k, c.batch);
    BoundedIsPinned(c, proofs[(c.scanId, c.blind.endpoint)], hash);
    assert LatestControl(proofs, before, c.batch, i) && before[i] == calls[i];
    assert HashInForce(proofs, before, c.batch, hash);
    assert DeservesMark(proofs, before, c, hash);
  }

  /** Observations that are not marked come back as the plain port gave them. */
  lemma OthersAreUntouched(proofs: Proofs, calls: seq<Call>, answers: seq<Observation>, k: nat)
    requires RightTrace(proofs, calls, answers) && k < |calls| && answers[k].boundedMark.None?
    ensures answers[k] == calls[k].answer
  {
    assert RightAnswer(proofs, calls[..k], calls[k], answers[k]);
  }

  /** The table entry of "b": what its latest control left, no entry without one. */
  ghost predicate EntryRight(proofs: Proofs, calls: seq<Call>, table: map<Batch, Option<string>>, b: Batch) {
    && (b in table <==> exists i: nat :: LatestControl(proofs, calls, b, i))
    && (forall i: nat :: LatestControl(proofs, calls, b, i) ==> table[b] == ControlHash(calls[i].answer))
  }

  ghost predicate TableRight(proofs: Proofs, calls: seq<Call>, table: map<Batch, Option<string>>) {
    forall b :: EntryRight(proofs, calls, table, b)
  }

  lemma LatestOneMore(proofs: Proofs, calls: seq<Call>, c: Call, b: Batch)
    ensures LeavesHash(proofs, c, b) ==> forall i: nat :: LatestControl(proofs, calls + [c], b, i) <==> i == |calls|
    ensures !LeavesHash(proofs, c, b) ==>
              forall i: nat :: LatestControl(proofs, calls + [c], b, i) <==> LatestControl(proofs, calls, b, i)
  {
    var more := calls + [c];
    assert more[|calls|] == c;
    assert forall i :: 0 <= i < |calls| ==> more[i] == calls[i];
  }

  lemma TableOneMore(proofs: Proofs, calls: seq<Call>, table: map<Batch, Option<string>>, c: Call)
    requires TableRight(proofs, calls, table)
    ensures LeavesHash(proofs, c, c.batch) ==> TableRight(proofs, calls + [c], table[c.batch := ControlHash(c.answer)])
    ensures !LeavesHash(proofs, c, c.batch) ==> TableRight(proofs, calls + [c], table)
  {
    var leaves := LeavesHash(proofs, c, c.batch);
    var table' := if leaves then table[c.batch := ControlHash(c.answer)] else table;
    var more := calls + [c];
    assert more[|calls|] == c && forall i :: 0 <= i < |calls| ==> more[i] == calls[i];
    forall b
      ensures EntryRight(proofs, more, table', b)
    {
      LatestOneMore(proofs, calls, c, b);
      assert EntryRight(proofs, calls, table, b);
      if LeavesHash(proofs, c, b) {
        assert LatestControl(proofs, more, b, |calls|);
      }
    }
  }

  /** Looking the hash up in the table finds the hash in force. */
  lemma LookupRight(proofs: Proofs, calls: seq<Call>, table: map<Batch, Option<string>>, b: Batch)
    requires TableRight(proofs, calls, table)
    ensures forall hash :: HashInForce(proofs, calls, b, hash) <==> b in table && table[b] == Some(hash)
  {
    assert EntryRight(proofs, calls, table, b);
  }

  function Lookup(table: map<Batch, Option<string>>, b: Batch): Option<string> {
    if b in table then table[b] else None
  }

  /** Comparing with the table's hash gives the right answer. */
  lemma LookedUpAnswer(proofs: Proofs, calls: seq<Call>, table: map<Batch, Option<string>>, c: Call)
    requires TableRight(proofs, calls, table) && (c.scanId, c.blind.endpoint) in proofs
    ensures var proof, hash := proofs[(c.scanId, c.blind.endpoint)], Lookup(table, c.batch);
            if c.kind.Target? && IsBoundedNegativeResponse(proof, c.blind, c.answer, hash, c.scanId)
            then RightAnswer(proofs, calls, c, WithBoundedMark(c.answer, proof, hash.value))
            else RightAnswer(proofs, calls, c, c.answer)
  {
    LookupRight(proofs, calls, table, c.batch);
    var proof, hash := proofs[(c.scanId, c.blind.endpoint)], Lookup(table, c.batch);
    if c.kind.Target? && IsBoundedNegativeResponse(proof, c.blind, c.answer, hash, c.scanId) {
      assert DeservesMark(proofs, calls, c, hash.value);
    }
  }

  class LabPort {
    const proofs: Proofs
    var negativeHashes: map<Batch, Option<string>>
    ghost var calls: seq<Call>
    ghost var answers: seq<Observation>

    ghost predicate Valid()
      reads this
    {
      TableRight(proofs, calls, negativeHashes) && RightTrace(proofs, calls, answers)
    }

    constructor (proofs: Proofs)
      ensures Valid() && this.proofs == proofs && calls == []
    {
      this.proofs := proofs;
      negativeHashes, calls, answers := map[], [], [];
    }

    method Execute(c: Call) returns (r: Observation)
      requires Valid()
      modifies this
      ensures Valid() && calls == old(calls) + [c] && answers == old(answers) + [r]
      ensures RightAnswer(proofs, old(calls), c, r)
    {
      ghost var before, table := calls, negativeHashes;
      r := c.answer;
      var key := (c.scanId, c.blind.endpoint);
      if key in proofs {
        var proof := proofs[key];
        var hash := Lookup(negativeHashes, c.batch);
        if c.kind.NegativeControl? {
          if c.answer.outcome == "not_observed" {
            negativeHashes := negativeHashes[c.batch := ControlHash(c.answer)];
          }
        } else if c.kind.Target? && IsBoundedNegativeResponse(proof, c.blind, c.answer, hash, c.scanId) {
          r := WithBoundedMark(c.answer, proof, hash.value);
        }
      }
      TableOneMore(proofs, before, table, c);
      if key in proofs {
        LookedUpAnswer(proofs, before, table, c);
      }
      calls, answers := calls + [c], answers + [r];
      TraceOneMore(proofs, before, answers[..|before|], c, r);
      assert answers[..|before|] + [r] == answers;
    }
  }

  lemma TraceOneMore(proofs: Proofs, calls: seq<Call>, answers: seq<Observation>, c: Call, r: Observation)
    requires RightTrace(proofs, calls, answers) && RightAnswer(proofs, calls, c, r)
    ensures RightTrace(proofs, calls + [c], answers + [r])
  {
    var more := calls + [c];
    forall k | 0 <= k < |more|
      ensures RightAnswer(proofs, more[..k], more[k], (answers + [r])[k])
    {
      assert more[..k] == calls[..k];
    }
  }
}
