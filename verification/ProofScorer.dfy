/** Whether a stored decision carries its proof (_decision_has_proof in scripts/score_validation_lab.py):
    the latest complete batch of attempts decides, and it alone. */
module ProofScorer {
  import opened Options
  import opened Orders
  import opened NegativeProof

  /** The parts of a stored observation that are read; None stands for text that is not JSON. */
  datatype Stored = Stored(
    policyAllowed: bool, explicitNonExploit: bool, responseStatus: Option<int>, responseUrl: Option<string>,
    boundedProof: Option<Metadata>)

  datatype Metadata = Metadata(
    candidateId: string, proofKind: string, sourceSha: string, sourceLine: nat, sourceAnchor: string,
    negativeControlDigest: string)

  datatype Attempt = Attempt(
    attemptId: string, batchNo: int, kind: string, ordinal: int, outcome: string, signal: Option<int>,
    observation: Option<Stored>, finished: bool)

  datatype Evidence = Evidence(evidenceId: string, attemptId: string, digest: Option<string>)

  /** A decision as parsed, with the digest of its canonical form and the evidence it cites. */
  datatype Decision = Decision(canonicalSha: string, cited: set<string>)

  /** "underpowered" is the impact evaluation's verdict; None when it fails. */
  datatype Case = Case(decision: Option<Decision>, decisionSha: string, currentStatus: string, underpowered: Option<bool>)

  // ----- One batch -----

  type Slot = (string, int)

  const POSITIVE: Slot := ("positive_control", 1)
  const NEGATIVE: Slot := ("negative_control", 1)

  /** The attempts of a batch by kind and ordinal; of duplicates the last listed counts. */
  function Rows(attempts: seq<Attempt>, batchNo: int): map<Slot, Attempt> {
    if attempts == [] then map[]
    else
      var last := attempts[|attempts| - 1];
      var earlier := Rows(attempts[..|attempts| - 1], batchNo);
      if last.batchNo == batchNo then earlier[(last.kind, last.ordinal) := last] else earlier
  }

  function TargetOrdinals(rows: map<Slot, Attempt>): set<int> {
    set slot | slot in rows && slot.0 == "target" :: slot.1
  }

  /** Three or five numbered targets and both controls. */
  predicate Complete(rows: map<Slot, Attempt>) {
    && (TargetOrdinals(rows) == {1, 2, 3} || TargetOrdinals(rows) == {1, 2, 3, 4, 5})
    && POSITIVE in rows && NEGATIVE in rows
  }

  function TargetCount(rows: map<Slot, Attempt>): nat {
    if 4 in TargetOrdinals(rows) then 5 else 3
  }

  predicate Required(rows: map<Slot, Attempt>, slot: Slot) {
    slot == POSITIVE || slot == NEGATIVE || (slot.0 == "target" && 1 <= slot.1 <= TargetCount(rows))
  }

  /** Digests of the cited observations of an attempt. */
  function CitedDigests(evidence: seq<Evidence>, attemptId: string, cited: set<string>): seq<Option<string>> {
    if evidence == [] then []
    else
      var rest := CitedDigests(evidence[1..], attemptId, cited);
      if evidence[0].attemptId == attemptId && evidence[0].evidenceId in cited then [evidence[0].digest] + rest else rest
  }

  /** Finished, conclusive, allowed by policy, and cited exactly once. */
  predicate Grounded(row: Attempt, evidence: seq<Evidence>, cited: set<string>) {
    && row.finished && row.outcome != "outcome_unknown"
    && row.observation.Some? && row.observation.value.policyAllowed
    && |CitedDigests(evidence, row.attemptId, cited)| == 1
  }

  function DigestOf(row: Attempt, evidence: seq<Evidence>, cited: set<string>): Option<string>
    requires Grounded(row, evidence, cited)
  {
    CitedDigests(evidence, row.attemptId, cited)[0]
  }

  predicate IsSha256(s: string) {
    |s| == 64 && forall c :: c in s ==> '0' <= c <= '9' || 'a' <= c <= 'f'
  }

  function ExpectedMetadata(p: LabNegativeProof, digest: string): Metadata {
    Metadata(p.candidateId, p.proofKind, p.sourceSha, p.sourceLine, p.sourceAnchor, digest)
  }

  /** A target that shows the pinned denial, marked, with the control's digest. */
  predicate ShowsDenial(row: Attempt, digest: Option<string>, p: LabNegativeProof, controlDigest: string) {
    && row.outcome == "not_observed" && row.signal == Some(0)
    && row.observation.Some? && row.observation.value.explicitNonExploit
    && row.observation.value.responseStatus == Some(p.expectedStatus)
    && row.observation.value.responseUrl == Some(p.targetUrl)
    && digest == Some(controlDigest)
    && row.observation.value.boundedProof == Some(ExpectedMetadata(p, controlDigest))
  }

  predicate ShowsSignal(row: Attempt) {
    row.outcome == "observed" && row.signal == Some(1)
  }

  /** Both controls behave and every required attempt is grounded. */
  ghost predicate BatchGrounded(rows: map<Slot, Attempt>, evidence: seq<Evidence>, cited: set<string>) {
    && Complete(rows)
    && (forall slot :: Required(rows, slot) ==> slot in rows && Grounded(rows[slot], evidence, cited))
    && rows[POSITIVE].signal == Some(1) && rows[NEGATIVE].signal == Some(0)
  }

  /** The batch proves that the finding does not hold. */
  ghost predicate Disproves(rows: map<Slot, Attempt>, evidence: seq<Evidence>, cited: set<string>, expected: Option<LabNegativeProof>) {
    && BatchGrounded(rows, evidence, cited) && expected.Some?
    && var control := DigestOf(rows[NEGATIVE], evidence, cited);
       && control.Some? && IsSha256(control.value)
       && rows[NEGATIVE].observation.value.responseStatus == Some(expected.value.expectedStatus)
       && forall n :: 1 <= n <= TargetCount(rows) ==>
            ShowsDenial(rows[("target", n)], DigestOf(rows[("target", n)], evidence, cited), expected.value, control.value)
  }

  /** The batch proves that the finding holds, with enough impact. */
  ghost predicate Confirms(rows: map<Slot, Attempt>, evidence: seq<Evidence>, cited: set<string>, underpowered: Option<bool>) {
    && BatchGrounded(rows, evidence, cited) && TargetCount(rows) == 3 && underpowered == Some(false)
    && forall n :: 1 <= n <= 3 ==> ShowsSignal(rows[("target", n)])
  }

  ghost predicate Proves(c: Case, rows: map<Slot, Attempt>, evidence: seq<Evidence>, cited: set<string>, expected: Option<LabNegativeProof>) {
    || (c.currentStatus == "DISPROVEN" && Disproves(rows, evidence, cited, expected))
    || (c.currentStatus == "CONFIRMED" && Confirms(rows, evidence, cited, c.underpowered))
  }

  // ----- The latest complete batch -----

  ghost predicate LatestComplete(attempts: seq<Attempt>, b: int) {
    Complete(Rows(attempts, b)) && forall later: int :: later > b ==> !Complete(Rows(attempts, later))
  }

  /** The decision is untampered and the latest complete batch proves its status. */
  ghost predicate HasProof(c: Case, attempts: seq<Attempt>, evidence: seq<Evidence>, expected: Option<LabNegativeProof>) {
    && c.decision.Some? && c.decision.value.canonicalSha == c.decisionSha
    && exists b :: LatestComplete(attempts, b) && Proves(c, Rows(attempts, b), evidence, c.decision.value.cited, expected)
  }

  /** Older batches never matter: change everything below the latest complete batch and the verdict stays. */
  lemma OlderBatchesIrrelevant(
    c: Case, a: seq<Attempt>, a': seq<Attempt>, evidence: seq<Evidence>, expected: Option<LabNegativeProof>, b: int)
    requires LatestComplete(a, b) && forall n: int :: n >= b ==> Rows(a, n) == Rows(a', n)
    ensures HasProof(c, a, evidence, expected) <==> HasProof(c, a', evidence, expected)
  {
    assert LatestComplete(a', b);
    assert forall n :: LatestComplete(a, n) ==> n == b;
    assert forall n :: LatestComplete(a', n) ==> n == b;
  }

  // ----- In terms of attempts -----

  /** Attempt "i" is of that batch, kind and ordinal. */
  predicate Fills(a: seq<Attempt>, b: int, kind: string, ordinal: int, i: nat)
    requires i < |a|
  {
    a[i].batchNo == b && a[i].kind == kind && a[i].ordinal == ordinal
  }

  ghost predicate LastToFill(a: seq<Attempt>, b: int, kind: string, ordinal: int, i: nat) {
    i < |a| && Fills(a, b, kind, ordinal, i) && forall j: nat :: i < j < |a| ==> !Fills(a, b, kind, ordinal, j)
  }

  /** "row" is the last listed attempt of the batch with this kind and ordinal. */
  ghost predicate IsAttempt(a: seq<Attempt>, b: int, kind: string, ordinal: int, row: Attempt) {
    exists i: nat :: LastToFill(a, b, kind, ordinal, i) && a[i] == row
  }

  ghost predicate HasAttempt(a: seq<Attempt>, b: int, kind: string, ordinal: int) {
    exists row :: IsAttempt(a, b, kind, ordinal, row)
  }

  lemma FillsPrefix(a: seq<Attempt>, b: int, kind: string, ordinal: int, i: nat)
    requires a != [] && !Fills(a, b, kind, ordinal, |a| - 1)
    ensures LastToFill(a, b, kind, ordinal, i) <==> LastToFill(a[..|a| - 1], b, kind, ordinal, i)
  {
    var init := a[..|a| - 1];
    assert forall j: nat :: j < |init| ==> (Fills(a, b, kind, ordinal, j) <==> Fills(init, b, kind, ordinal, j));
  }

  lemma {:induction false} RowsAreAttempts(a: seq<Attempt>, b: int, kind: string, ordinal: int, row: Attempt)
    ensures (kind, ordinal) in Rows(a, b) && Rows(a, b)[(kind, ordinal)] == row <==> IsAttempt(a, b, kind, ordinal, row)
  {
    if a == [] {
    } else {
      var k := |a| - 1;
      RowsAreAttempts(a[..k], b, kind, ordinal, row);
      if Fills(a, b, kind, ordinal, k) {
        assert LastToFill(a, b, kind, ordinal, k);
        assert forall i: nat :: LastToFill(a, b, kind, ordinal, i) ==> i == k;
      } else {
        forall i: nat
          ensures LastToFill(a, b, kind, ordinal, i) <==> LastToFill(a[..k], b, kind, ordinal, i)
        {
          FillsPrefix(a, b, kind, ordinal, i);
        }
        assert IsAttempt(a, b, kind, ordinal, row) <==> IsAttempt(a[..k], b, kind, ordinal, row);
      }
    }
  }

  /** Evidence "i" is the only cited observation of the attempt. */
  ghost predicate OnlyCited(evidence: seq<Evidence>, attemptId: string, cited: set<string>, i: nat) {
    && i < |evidence| && evidence[i].attemptId == attemptId && evidence[i].evidenceId in cited
    && forall j :: 0 <= j < |evidence| && evidence[j].attemptId == attemptId && evidence[j].evidenceId in cited ==> j == i
  }

  lemma {:induction false} NoneCited(evidence: seq<Evidence>, attemptId: string, cited: set<string>)
    ensures CitedDigests(evidence, attemptId, cited) == [] <==>
              forall j :: 0 <= j < |evidence| ==> !(evidence[j].attemptId == attemptId && evidence[j].evidenceId in cited)
  {
    if evidence == [] {
    } else {
      var rest := evidence[1..];
      NoneCited(rest, attemptId, cited);
      assert forall j :: 0 <= j < |rest| ==> rest[j] == evidence[j + 1];
      assert forall j :: 0 < j < |evidence| ==> evidence[j] == rest[j - 1];
    }
  }

  lemma {:induction false} CitedOnce(evidence: seq<Evidence>, attemptId: string, cited: set<string>) returns (i: nat)
    requires |CitedDigests(evidence, attemptId, cited)| == 1
    ensures OnlyCited(evidence, attemptId, cited, i) && CitedDigests(evidence, attemptId, cited) == [evidence[i].digest]
  {
    var rest := evidence[1..];
    assert forall j :: 0 <= j < |rest| ==> rest[j] == evidence[j + 1];
    assert forall j :: 0 < j < |evidence| ==> evidence[j] == rest[j - 1];
    if evidence[0].attemptId == attemptId && evidence[0].evidenceId in cited {
      NoneCited(rest, attemptId, cited);
      i := 0;
    } else {
      var k := CitedOnce(rest, attemptId, cited);
      i := k + 1;
    }
  }

  /** The attempt is finished, conclusive and allowed, and evidence "i" is its only cited observation. */
  ghost predicate Usable(row: Attempt, evidence: seq<Evidence>, cited: set<string>, i: nat) {
    && row.finished && row.outcome != "outcome_unknown"
    && row.observation.Some? && row.observation.value.policyAllowed
    && OnlyCited(evidence, row.attemptId, cited, i)
  }

  /** A batch has both controls, and targets numbered 1 to 3 or 1 to 5 and no others. */
  ghost predicate HasAttempts(a: seq<Attempt>, b: int, targets: nat) {
    && (targets == 3 || targets == 5)
    && HasAttempt(a, b, "positive_control", 1) && HasAttempt(a, b, "negative_control", 1)
    && forall n: int :: HasAttempt(a, b, "target", n) <==> 1 <= n <= targets
  }

  lemma SlotIsAttempt(a: seq<Attempt>, b: int, kind: string, ordinal: int)
    ensures (kind, ordinal) in Rows(a, b) <==> HasAttempt(a, b, kind, ordinal)
    ensures (kind, ordinal) in Rows(a, b) ==> IsAttempt(a, b, kind, ordinal, Rows(a, b)[(kind, ordinal)])
  {
    if (kind, ordinal) in Rows(a, b) {
      RowsAreAttempts(a, b, kind, ordinal, Rows(a, b)[(kind, ordinal)]);
    }
    if row :| IsAttempt(a, b, kind, ordinal, row) {
      RowsAreAttempts(a, b, kind, ordinal, row);
    }
  }

  lemma OrdinalsAreTargets(a: seq<Attempt>, b: int)
    ensures forall n :: n in TargetOrdinals(Rows(a, b)) <==> HasAttempt(a, b, "target", n)
  {
    forall n
      ensures n in TargetOrdinals(Rows(a, b)) <==> HasAttempt(a, b, "target", n)
    {
      SlotIsAttempt(a, b, "target", n);
      assert n in TargetOrdinals(Rows(a, b)) <==> ("target", n) in Rows(a, b);
    }
  }

  lemma CompleteHasAttempts(a: seq<Attempt>, b: int)
    requires Complete(Rows(a, b))
    ensures HasAttempts(a, b, TargetCount(Rows(a, b)))
  {
    OrdinalsAreTargets(a, b);
    SlotIsAttempt(a, b, "positive_control", 1);
    SlotIsAttempt(a, b, "negative_control", 1);
  }

  lemma OrdinalsUpTo(ordinals: set<int>, targets: nat)
    requires forall n :: n in ordinals <==> 1 <= n <= targets
    ensures targets == 3 ==> ordinals == {1, 2, 3}
    ensures targets == 5 ==> ordinals == {1, 2, 3, 4, 5}
  {
    var three, five: set<int> := {1, 2, 3}, {1, 2, 3, 4, 5};
    assert forall n :: n in three <==> 1 <= n <= 3;
    assert forall n :: n in five <==> 1 <= n <= 5;
    assert targets == 3 ==> ordinals == three;
    assert targets == 5 ==> ordinals == five;
  }

  lemma HasAttemptsIsComplete(a: seq<Attempt>, b: int, targets: nat)
    requires HasAttempts(a, b, targets)
    ensures Complete(Rows(a, b)) && TargetCount(Rows(a, b)) == targets
  {
    OrdinalsAreTargets(a, b);
    SlotIsAttempt(a, b, "positive_control", 1);
    SlotIsAttempt(a, b, "negative_control", 1);
    forall n
      ensures n in TargetOrdinals(Rows(a, b)) <==> 1 <= n <= targets
    {
      assert HasAttempt(a, b, "target", n) <==> 1 <= n <= targets;
    }
    OrdinalsUpTo(TargetOrdinals(Rows(a, b)), targets);
  }

  /** Batch "b" has all attempts, and no later batch has. */
  ghost predicate DecidingBatch(a: seq<Attempt>, b: int, targets: nat) {
    HasAttempts(a, b, targets) && forall later: int, t: nat :: later > b ==> !HasAttempts(a, later, t)
  }

  lemma DecidingIsLatest(a: seq<Attempt>, b: int)
    requires LatestComplete(a, b)
    ensures DecidingBatch(a, b, TargetCount(Rows(a, b)))
  {
    CompleteHasAttempts(a, b);
    forall later: int, t: nat | later > b && HasAttempts(a, later, t)
      ensures false
    {
      HasAttemptsIsComplete(a, later, t);
    }
  }

  lemma LatestIsDeciding(a: seq<Attempt>, b: int, targets: nat)
    requires DecidingBatch(a, b, targets)
    ensures LatestComplete(a, b) && targets == TargetCount(Rows(a, b))
    ensures forall other :: LatestComplete(a, other) ==> other == b
  {
    HasAttemptsIsComplete(a, b, targets);
    forall later: int | later > b && Complete(Rows(a, later))
      ensures false
    {
      CompleteHasAttempts(a, later);
    }
  }

  lemma RequiredUsable(a: seq<Attempt>, b: int, evidence: seq<Evidence>, cited: set<string>, kind: string, ordinal: int)
    returns (row: Attempt, i: nat)
    requires BatchGrounded(Rows(a, b), evidence, cited) && Required(Rows(a, b), (kind, ordinal))
    ensures IsAttempt(a, b, kind, ordinal, row) && Usable(row, evidence, cited, i)
    ensures (kind, ordinal) in Rows(a, b) && Rows(a, b)[(kind, ordinal)] == row
    ensures DigestOf(row, evidence, cited) == evidence[i].digest
  {
    row := Rows(a, b)[(kind, ordinal)];
    SlotIsAttempt(a, b, kind, ordinal);
    i := CitedOnce(evidence, row.attemptId, cited);
  }

  /** An accepted decision is untampered and decided by one batch, the highest-numbered one with all attempts;
      both its controls are usable and showed their signals. */
  lemma AcceptedDecision(c: Case, a: seq<Attempt>, evidence: seq<Evidence>, expected: Option<LabNegativeProof>)
    returns (b: int, targets: nat, positive: Attempt, negative: Attempt, p: nat, q: nat)
    requires HasProof(c, a, evidence, expected)
    ensures c.decision.Some? && c.decision.value.canonicalSha == c.decisionSha
    ensures c.currentStatus == "DISPROVEN" || c.currentStatus == "CONFIRMED"
    ensures DecidingBatch(a, b, targets) && LatestComplete(a, b) && targets == TargetCount(Rows(a, b))
    ensures var cited := c.decision.value.cited;
            && IsAttempt(a, b, "positive_control", 1, positive) && Usable(positive, evidence, cited, p)
            && IsAttempt(a, b, "negative_control", 1, negative) && Usable(negative, evidence, cited, q)
    ensures positive.signal == Some(1) && negative.signal == Some(0)
  {
    var cited := c.decision.value.cited;
    b :| LatestComplete(a, b) && Proves(c, Rows(a, b), evidence, cited, expected);
    targets := TargetCount(Rows(a, b));
    DecidingIsLatest(a, b);
    positive, p := RequiredUsable(a, b, evidence, cited, "positive_control", 1);
    negative, q := RequiredUsable(a, b, evidence, cited, "negative_control", 1);
  }

  /** In an accepted refutation every target of the deciding batch was not observed and gave no signal, was answered as
      the expected proof says, is marked, and shares its cited digest with the batch's negative control. */
  lemma AcceptedRefutation(c: Case, a: seq<Attempt>, evidence: seq<Evidence>, expected: Option<LabNegativeProof>,
                           b: int, targets: nat, n: int)
    returns (row: Attempt, i: nat, negative: Attempt, q: nat)
    requires HasProof(c, a, evidence, expected) && c.currentStatus == "DISPROVEN"
    requires DecidingBatch(a, b, targets) && 1 <= n <= targets
    ensures expected.Some?
    ensures IsAttempt(a, b, "target", n, row) && Usable(row, evidence, c.decision.value.cited, i)
    ensures IsAttempt(a, b, "negative_control", 1, negative) && Usable(negative, evidence, c.decision.value.cited, q)
    ensures row.outcome == "not_observed" && row.signal == Some(0)
    ensures evidence[q].digest.Some? && evidence[i].digest == evidence[q].digest
    ensures var e, o := expected.value, row.observation.value;
            && o.explicitNonExploit && o.responseStatus == Some(e.expectedStatus) && o.responseUrl == Some(e.targetUrl)
            && o.boundedProof == Some(Metadata(
                 e.candidateId, e.proofKind, e.sourceSha, e.sourceLine, e.sourceAnchor, evidence[q].digest.value))
            && negative.observation.value.responseStatus == Some(e.expectedStatus)
  {
    var cited := c.decision.value.cited;
    LatestIsDeciding(a, b, targets);
    row, i := RequiredUsable(a, b, evidence, cited, "target", n);
    negative, q := RequiredUsable(a, b, evidence, cited, "negative_control", 1);
  }

  /** In an accepted confirmation the deciding batch has three targets, each observed with a signal, and the impact
      was evaluated and is not underpowered. */
  lemma AcceptedConfirmation(c: Case, a: seq<Attempt>, evidence: seq<Evidence>, expected: Option<LabNegativeProof>,
                             b: int, targets: nat, n: int)
    returns (row: Attempt, i: nat)
    requires HasProof(c, a, evidence, expected) && c.currentStatus == "CONFIRMED"
    requires DecidingBatch(a, b, targets) && 1 <= n <= targets
    ensures targets == 3 && c.underpowered == Some(false)
    ensures IsAttempt(a, b, "target", n, row) && Usable(row, evidence, c.decision.value.cited, i)
    ensures row.outcome == "observed" && row.signal == Some(1)
  {
    var cited := c.decision.value.cited;
    LatestIsDeciding(a, b, targets);
    row, i := RequiredUsable(a, b, evidence, cited, "target", n);
  }

  lemma UsableIsGrounded(row: Attempt, evidence: seq<Evidence>, cited: set<string>, i: nat)
    requires Usable(row, evidence, cited, i)
    ensures Grounded(row, evidence, cited) && DigestOf(row, evidence, cited) == evidence[i].digest
  {
    OnceCited(evidence, row.attemptId, cited, i);
  }

  lemma {:induction false} OnceCited(evidence: seq<Evidence>, attemptId: string, cited: set<string>, i: nat)
    requires OnlyCited(evidence, attemptId, cited, i)
    ensures CitedDigests(evidence, attemptId, cited) == [evidence[i].digest]
  {
    var rest := evidence[1..];
    assert forall j :: 0 <= j < |rest| ==> rest[j] == evidence[j + 1];
    if i == 0 {
      NoneCited(rest, attemptId, cited);
    } else {
      OnceCited(rest, attemptId, cited, i - 1);
    }
  }

  /** Some listed attempt of this kind and ordinal is usable, with evidence that satisfies the test. */
  ghost predicate Shown(a: seq<Attempt>, b: int, evidence: seq<Evidence>, cited: set<string>, kind: string, ordinal: int,
                        test: Test)
  {
    exists row, i: nat :: IsAttempt(a, b, kind, ordinal, row) && Usable(row, evidence, cited, i) && test(row, evidence[i].digest)
  }

  lemma ShownInRows(a: seq<Attempt>, b: int, evidence: seq<Evidence>, cited: set<string>, kind: string, ordinal: int,
                    test: Test)
    requires Shown(a, b, evidence, cited, kind, ordinal, test)
    ensures var slot := (kind, ordinal); var rows := Rows(a, b);
            && slot in rows && Grounded(rows[slot], evidence, cited)
            && test(rows[slot], DigestOf(rows[slot], evidence, cited))
  {
    var row, i: nat :| IsAttempt(a, b, kind, ordinal, row) && Usable(row, evidence, cited, i) && test(row, evidence[i].digest);
    RowsAreAttempts(a, b, kind, ordinal, row);
    UsableIsGrounded(row, evidence, cited, i);
  }

  type Test = (Attempt, Option<string>) -> bool

  function Signals(signal: int): Test {
    (row: Attempt, digest: Option<string>) => row.signal == Some(signal)
  }

  function Observed(): Test {
    (row: Attempt, digest: Option<string>) => row.outcome == "observed" && row.signal == Some(1)
  }

  function Compares(e: LabNegativeProof, control: string): Test {
    (row: Attempt, digest: Option<string>) =>
      && row.signal == Some(0) && digest == Some(control) && row.observation.Some?
      && row.observation.value.responseStatus == Some(e.expectedStatus)
  }

  function Denying(e: LabNegativeProof, control: string): Test {
    (row: Attempt, digest: Option<string>) => Denies(row, digest, e, control)
  }

  /** Whatever an accepted confirmation has is enough for one. */
  lemma ConfirmationAccepted(c: Case, a: seq<Attempt>, evidence: seq<Evidence>, expected: Option<LabNegativeProof>, b: int)
    requires c.decision.Some? && c.decision.value.canonicalSha == c.decisionSha && c.currentStatus == "CONFIRMED"
    requires DecidingBatch(a, b, 3) && c.underpowered == Some(false)
    requires Shown(a, b, evidence, c.decision.value.cited, "positive_control", 1, Signals(1))
    requires Shown(a, b, evidence, c.decision.value.cited, "negative_control", 1, Signals(0))
    requires forall n :: 1 <= n <= 3 ==>
               Shown(a, b, evidence, c.decision.value.cited, "target", n, Observed())
    ensures HasProof(c, a, evidence, expected)
  {
    var cited, rows := c.decision.value.cited, Rows(a, b);
    LatestIsDeciding(a, b, 3);
    ShownInRows(a, b, evidence, cited, "positive_control", 1, Signals(1));
    ShownInRows(a, b, evidence, cited, "negative_control", 1, Signals(0));
    forall n | 1 <= n <= 3
      ensures ("target", n) in rows && Grounded(rows[("target", n)], evidence, cited) && ShowsSignal(rows[("target", n)])
    {
      ShownInRows(a, b, evidence, cited, "target", n, Observed());
    }
    assert Proves(c, rows, evidence, cited, expected);
  }

  /** The tests of a refutation, for the digest of the negative control. */
  predicate Denies(row: Attempt, digest: Option<string>, e: LabNegativeProof, control: string) {
    && row.outcome == "not_observed" && row.signal == Some(0) && digest == Some(control)
    && row.observation.Some?
    && var o := row.observation.value;
       && o.explicitNonExploit && o.responseStatus == Some(e.expectedStatus) && o.responseUrl == Some(e.targetUrl)
       && o.boundedProof == Some(Metadata(e.candidateId, e.proofKind, e.sourceSha, e.sourceLine, e.sourceAnchor, control))
  }

  /** Whatever an accepted refutation has is enough for one. */
  lemma RefutationAccepted(c: Case, a: seq<Attempt>, evidence: seq<Evidence>, e: LabNegativeProof, b: int, targets: nat,
                           control: string)
    requires c.decision.Some? && c.decision.value.canonicalSha == c.decisionSha && c.currentStatus == "DISPROVEN"
    requires DecidingBatch(a, b, targets)
    requires |control| == 64 && forall ch :: ch in control ==> '0' <= ch <= '9' || 'a' <= ch <= 'f'
    requires Shown(a, b, evidence, c.decision.value.cited, "positive_control", 1, Signals(1))
    requires Shown(a, b, evidence, c.decision.value.cited, "negative_control", 1, Compares(e, control))
    requires forall n :: 1 <= n <= targets ==>
               Shown(a, b, evidence, c.decision.value.cited, "target", n, Denying(e, control))
    ensures HasProof(c, a, evidence, Some(e))
  {
    var cited, rows := c.decision.value.cited, Rows(a, b);
    LatestIsDeciding(a, b, targets);
    ShownInRows(a, b, evidence, cited, "positive_control", 1, Signals(1));
    ShownInRows(a, b, evidence, cited, "negative_control", 1, Compares(e, control));
    forall n | 1 <= n <= targets
      ensures ("target", n) in rows && Grounded(rows[("target", n)], evidence, cited)
      ensures ShowsDenial(rows[("target", n)], DigestOf(rows[("target", n)], evidence, cited), e, control)
    {
      ShownInRows(a, b, evidence, cited, "target", n, Denying(e, control));
    }
    assert Proves(c, rows, evidence, cited, Some(e));
  }

  // ----- The scorer -----

  lemma {:induction false} RowsNonempty(attempts: seq<Attempt>, b: int)
    ensures Rows(attempts, b) != map[] ==> exists i :: 0 <= i < |attempts| && attempts[i].batchNo == b
  {
    if attempts == [] {
    } else if attempts[|attempts| - 1].batchNo != b {
      RowsNonempty(attempts[..|attempts| - 1], b);
    }
  }

  function BatchNumbers(attempts: seq<Attempt>): (r: seq<int>)
    ensures NoDuplicates(r)
    ensures forall i :: 0 <= i < |attempts| ==> attempts[i].batchNo in r
  {
    if attempts == [] then []
    else
      var k := |attempts| - 1;
      var earlier := BatchNumbers(attempts[..k]);
      if attempts[k].batchNo in earlier then earlier else earlier + [attempts[k].batchNo]
  }

  /** The digests of the required attempts; None when one of them is not grounded. */
  method CollectDigests(rows: map<Slot, Attempt>, evidence: seq<Evidence>, cited: set<string>)
    returns (digests: Option<map<Slot, Option<string>>>)
    requires Complete(rows)
    ensures forall slot :: Required(rows, slot) ==> slot in rows
    ensures digests.Some? <==> forall slot :: Required(rows, slot) ==> Grounded(rows[slot], evidence, cited)
    ensures digests.Some? ==>
              forall slot :: Required(rows, slot) ==>
                slot in digests.value && digests.value[slot] == DigestOf(rows[slot], evidence, cited)
  {
    var slots: seq<Slot> := [POSITIVE, NEGATIVE] + seq(TargetCount(rows), i => ("target", i + 1));
    RequiredSlots(rows, slots);
    var found: map<Slot, Option<string>> := map[];
    for n := 0 to |slots|
      invariant forall i :: 0 <= i < n ==>
                  && Grounded(rows[slots[i]], evidence, cited)
                  && slots[i] in found && found[slots[i]] == DigestOf(rows[slots[i]], evidence, cited)
    {
      var row := rows[slots[n]];
      if !row.finished || row.outcome == "outcome_unknown" {
        return None;
      }
      if row.observation.None? || !row.observation.value.policyAllowed {
        return None;
      }
      var matching := CitedDigests(evidence, row.attemptId, cited);
      if |matching| != 1 {
        return None;
      }
      found := found[slots[n] := matching[0]];
    }
    digests := Some(found);
  }

  lemma RequiredSlots(rows: map<Slot, Attempt>, slots: seq<Slot>)
    requires Complete(rows) && slots == [POSITIVE, NEGATIVE] + seq(TargetCount(rows), i => ("target", i + 1))
    ensures forall slot :: slot in slots <==> Required(rows, slot)
    ensures forall i :: 0 <= i < |slots| ==> slots[i] in rows
  {
    forall slot | Required(rows, slot)
      ensures slot in slots
    {
      if slot == POSITIVE {
        assert slots[0] == slot;
      } else if slot == NEGATIVE {
        assert slots[1] == slot;
      } else {
        assert slots[slot.1 + 1] == slot;
      }
    }
    forall i | 0 <= i < |slots|
      ensures slots[i] in rows && Required(rows, slots[i])
    {
      if i >= 2 {
        assert slots[i] == ("target", i - 1) && i - 1 in TargetOrdinals(rows);
      }
    }
  }

  /** What the targets of a refutation are checked for, on the digests collected. */
  predicate AllDeny(rows: map<Slot, Attempt>, digests: map<Slot, Option<string>>, p: LabNegativeProof, control: string)
    requires forall n :: 1 <= n <= TargetCount(rows) ==> ("target", n) in rows && ("target", n) in digests
  {
    forall n :: 1 <= n <= TargetCount(rows) ==> ShowsDenial(rows[("target", n)], digests[("target", n)], p, control)
  }

  ghost predicate DigestsRight(
    rows: map<Slot, Attempt>, evidence: seq<Evidence>, cited: set<string>, digests: map<Slot, Option<string>>)
  {
    forall slot :: Required(rows, slot) ==>
      && slot in rows && Grounded(rows[slot], evidence, cited)
      && slot in digests && digests[slot] == DigestOf(rows[slot], evidence, cited)
  }

  lemma DenialOnDigests(
    rows: map<Slot, Attempt>, evidence: seq<Evidence>, cited: set<string>, digests: map<Slot, Option<string>>,
    p: LabNegativeProof, control: string)
    requires Complete(rows) && DigestsRight(rows, evidence, cited, digests)
    ensures forall n :: 1 <= n <= TargetCount(rows) ==>
              Required(rows, ("target", n)) && ("target", n) in rows && ("target", n) in digests
    ensures AllDeny(rows, digests, p, control) <==>
              forall n :: 1 <= n <= TargetCount(rows) ==>
                ShowsDenial(rows[("target", n)], DigestOf(rows[("target", n)], evidence, cited), p, control)
  {
    assert forall n :: 1 <= n <= TargetCount(rows) ==> Required(rows, ("target", n));
  }

  /** Whether one complete batch refutes the finding, given the digests of its attempts. */
  method JudgeRefutation(rows: map<Slot, Attempt>, ghost evidence: seq<Evidence>, ghost cited: set<string>,
                         digests: map<Slot, Option<string>>, expected: Option<LabNegativeProof>)
    returns (ok: bool)
    requires Complete(rows) && DigestsRight(rows, evidence, cited, digests)
    requires rows[POSITIVE].signal == Some(1) && rows[NEGATIVE].signal == Some(0)
    ensures ok <==> Disproves(rows, evidence, cited, expected)
  {
    assert Required(rows, NEGATIVE) && BatchGrounded(rows, evidence, cited);
    if expected.None? {
      return false;
    }
    var control := digests[NEGATIVE];
    if control.None? || !IsSha256(control.value)
       || rows[NEGATIVE].observation.value.responseStatus != Some(expected.value.expectedStatus) {
      return false;
    }
    DenialOnDigests(rows, evidence, cited, digests, expected.value, control.value);
    ok := AllDeny(rows, digests, expected.value, control.value);
  }

  /** Whether one complete batch proves the case's status. */
  method JudgeBatch(c: Case, rows: map<Slot, Attempt>, evidence: seq<Evidence>, cited: set<string>, expected: Option<LabNegativeProof>)
    returns (ok: bool)
    requires Complete(rows)
    ensures ok <==> Proves(c, rows, evidence, cited, expected)
  {
    var digests := CollectDigests(rows, evidence, cited);
    if digests.None? {
      return false;
    }
    if rows[POSITIVE].signal != Some(1) || rows[NEGATIVE].signal != Some(0) {
      return false;
    }
    if c.currentStatus == "DISPROVEN" {
      ok := JudgeRefutation(rows, evidence, cited, digests.value, expected);
    } else if c.currentStatus == "CONFIRMED" {
      var count := TargetCount(rows);
      assert forall n :: 1 <= n <= count ==> Required(rows, ("target", n));
      ok := count == 3 && c.underpowered == Some(false) && forall n :: 1 <= n <= 3 ==> ShowsSignal(rows[("target", n)]);
    } else {
      ok := false;
    }
  }

  predicate Later(a: int, b: int) {
    a > b
  }

  /** The numbers are gone through from the highest down, and no complete batch is missed. */
  lemma NumbersListed(attempts: seq<Attempt>, numbers: seq<int>)
    requires numbers == Sort(Later, BatchNumbers(attempts))
    ensures SortedBy(Later, numbers)
    ensures forall b: int :: Complete(Rows(attempts, b)) ==> b in numbers
  {
    SortSorts(Later, BatchNumbers(attempts));
    forall b: int | Complete(Rows(attempts, b))
      ensures b in numbers
    {
      RowsNonempty(attempts, b);
      assert b in Elems(BatchNumbers(attempts));
      assert b in Elems(numbers);
    }
  }

  lemma LatestIs(attempts: seq<Attempt>, numbers: seq<int>, n: nat)
    requires SortedBy(Later, numbers) && n < |numbers| && Complete(Rows(attempts, numbers[n]))
    requires forall b: int :: Complete(Rows(attempts, b)) ==> b in numbers
    requires forall i :: 0 <= i < n ==> !Complete(Rows(attempts, numbers[i]))
    ensures forall b :: LatestComplete(attempts, b) <==> b == numbers[n]
  {
    forall b: int | Complete(Rows(attempts, b))
      ensures b <= numbers[n]
    {
      var i :| 0 <= i < |numbers| && numbers[i] == b;
      assert i >= n;
    }
    assert LatestComplete(attempts, numbers[n]);
  }

  /** The scorer accepts exactly the decisions that have their proof. */
  method DecisionHasProof(c: Case, attempts: seq<Attempt>, evidence: seq<Evidence>, expected: Option<LabNegativeProof>)
    returns (ok: bool)
    ensures ok <==> HasProof(c, attempts, evidence, expected)
  {
    if c.decision.None? || c.decision.value.canonicalSha != c.decisionSha {
      return false;
    }
    var cited := c.decision.value.cited;
    var numbers := Sort(Later, BatchNumbers(attempts));
    NumbersListed(attempts, numbers);
    for n := 0 to |numbers|
      invariant forall i :: 0 <= i < n ==> !Complete(Rows(attempts, numbers[i]))
    {
      var rows := Rows(attempts, numbers[n]);
      if !Complete(rows) {
        continue;
      }
      LatestIs(attempts, numbers, n);
      ok := JudgeBatch(c, rows, evidence, cited, expected);
      return;
    }
    ok := false;
  }
}
