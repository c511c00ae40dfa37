/** The candidate inventory and its answer key (scripts/build_validation_candidates.py):
    building both, replacing the two published files one after the other, and the
    digest check their consumers make. */
module Publication {
  import opened Options

  datatype Source = Source(url: string, sha: string)

  /** An inventory file: the source of each candidate. */
  type Inventory = map<string, Source>

  /** SHA-256 of an inventory file; distinct contents are taken to have distinct digests. */
  datatype Digest = Sha256(content: Inventory)

  datatype Answer = Answer(
    candidateId: string, verdict: string, targetStatus: string, readiness: string, proofRequirement: string,
    scope: string, evidenceLevel: string, observedStatus: Option<int>, limitations: string)

  datatype AnswerRow = AnswerRow(answer: Answer, source: Source)

  datatype AnswerKey = AnswerKey(rows: seq<AnswerRow>, inventoryDigest: Digest)

  // ----- Building the answer key -----

  predicate Blank(s: string) {
    forall c :: c in s ==> c in " \t\n\r"
  }

  predicate AnswerOk(inventory: Inventory, a: Answer) {
    && a.candidateId in inventory
    && (a.verdict == "VULNERABLE" || a.verdict == "NOT_VULNERABLE")
    && a.targetStatus == (if a.verdict == "VULNERABLE" then "CONFIRMED" else "DISPROVEN")
    && (a.readiness == "GET_REPLAY_READY" || a.readiness == "NEEDS_TWO_MERCHANT_IDENTITIES")
    && !Blank(a.proofRequirement)
    && (a.evidenceLevel == "source_review" || a.evidenceLevel == "source_and_local_http")
    && (a.evidenceLevel == "source_and_local_http" <==> a.observedStatus.Some?)
  }

  /** Every answer is acceptable for the inventory and no candidate is answered twice. */
  ghost predicate AnswersOk(inventory: Inventory, answers: seq<Answer>) {
    && (forall i :: 0 <= i < |answers| ==> AnswerOk(inventory, answers[i]))
    && (forall i, j :: 0 <= i < j < |answers| ==> answers[i].candidateId != answers[j].candidateId)
  }

  /** "key" pairs each of the answers with its candidate's source in this very inventory. */
  ghost predicate KeyFor(key: AnswerKey, inventory: Inventory, answers: seq<Answer>) {
    && AnswersOk(inventory, answers) && key.inventoryDigest == Sha256(inventory)
    && |key.rows| == |answers|
    && forall i :: 0 <= i < |answers| ==>
         key.rows[i].answer == answers[i] && key.rows[i].source == inventory[answers[i].candidateId]
  }

  ghost predicate BuiltFrom(key: AnswerKey, inventory: Inventory) {
    exists answers :: KeyFor(key, inventory, answers)
  }

  ghost function CandidateIds(answers: seq<Answer>): set<string> {
    set a | a in answers :: a.candidateId
  }

  /** What is wrong with one answer, given the candidates answered before; None when nothing is. */
  method CheckAnswer(inventory: Inventory, seen: set<string>, a: Answer) returns (error: Option<string>)
    ensures error.None? <==> AnswerOk(inventory, a) && a.candidateId !in seen
  {
    if a.candidateId !in inventory {
      return Some("missing candidate in inventory: " + a.candidateId);
    }
    if a.candidateId in seen {
      return Some("duplicate answer: " + a.candidateId);
    }
    if a.verdict != "VULNERABLE" && a.verdict != "NOT_VULNERABLE" {
      return Some("invalid verdict: " + a.verdict);
    }
    if a.targetStatus != (if a.verdict == "VULNERABLE" then "CONFIRMED" else "DISPROVEN") {
      return Some("invalid target Validation status: " + a.candidateId);
    }
    if a.readiness != "GET_REPLAY_READY" && a.readiness != "NEEDS_TWO_MERCHANT_IDENTITIES" {
      return Some("invalid Validation readiness: " + a.candidateId);
    }
    if Blank(a.proofRequirement) {
      return Some("missing Validation proof requirement: " + a.candidateId);
    }
    if (a.evidenceLevel == "source_and_local_http") != a.observedStatus.Some? {
      return Some("observation mismatch: " + a.candidateId);
    }
    if a.evidenceLevel != "source_review" && a.evidenceLevel != "source_and_local_http" {
      return Some("CHECK constraint failed: answer_key");
    }
    return None;
  }

  lemma KeyOneMore(rows: seq<AnswerRow>, inventory: Inventory, answers: seq<Answer>, a: Answer)
    requires KeyFor(AnswerKey(rows, Sha256(inventory)), inventory, answers)
    requires AnswerOk(inventory, a) && a.candidateId !in CandidateIds(answers)
    ensures KeyFor(AnswerKey(rows + [AnswerRow(a, inventory[a.candidateId])], Sha256(inventory)), inventory, answers + [a])
    ensures CandidateIds(answers + [a]) == CandidateIds(answers) + {a.candidateId}
  {
    assert forall i :: 0 <= i < |answers| ==> answers[i] in answers;
    assert forall x :: x in answers + [a] <==> x in answers || x == a;
  }

  lemma RepeatedAnswer(inventory: Inventory, answers: seq<Answer>, n: nat)
    requires n < |answers| && answers[n].candidateId in CandidateIds(answers[..n])
    ensures !AnswersOk(inventory, answers)
  {
    var x :| x in answers[..n] && x.candidateId == answers[n].candidateId;
    var i :| 0 <= i < n && answers[i] == x;
    assert answers[i].candidateId == answers[n].candidateId;
  }

  /** The key is built exactly when the answers are acceptable. */
  method BuildAnswerKey(inventory: Inventory, answers: seq<Answer>) returns (r: Result<AnswerKey>)
    ensures r.Ok? <==> AnswersOk(inventory, answers)
    ensures r.Ok? ==> KeyFor(r.value, inventory, answers)
  {
    var seen: set<string> := {};
    var rows: seq<AnswerRow> := [];
    for n := 0 to |answers|
      invariant KeyFor(AnswerKey(rows, Sha256(inventory)), inventory, answers[..n])
      invariant seen == CandidateIds(answers[..n])
    {
      var a := answers[n];
      var error := CheckAnswer(inventory, seen, a);
      if error.Some? {
        if a.candidateId in seen {
          RepeatedAnswer(inventory, answers, n);
        }
        return Err(error.value);
      }
      KeyOneMore(rows, inventory, answers[..n], a);
      assert answers[..n + 1] == answers[..n] + [a];
      seen := seen + {a.candidateId};
      rows := rows + [AnswerRow(a, inventory[a.candidateId])];
    }
    assert answers[..|answers|] == answers;
    r := Ok(AnswerKey(rows, Sha256(inventory)));
  }

  // ----- The published pair -----

  /** What the two published paths hold. */
  datatype Pair = Pair(inventory: Option<Inventory>, answerKey: Option<AnswerKey>)

  /** The consumers' check: the key names the digest of the inventory that is there. */
  predicate Accepted(p: Pair) {
    p.inventory.Some? && p.answerKey.Some? && p.answerKey.value.inventoryDigest == Sha256(p.inventory.value)
  }

  /** The published key was built from some inventory, not necessarily the published one. */
  ghost predicate KeyIsGenuine(p: Pair) {
    p.answerKey.Some? ==> exists inventory :: BuiltFrom(p.answerKey.value, inventory)
  }

  /** Atomic replacements any number of publishers may make, in any interleaving. */
  ghost predicate ReplaceStep(a: Pair, b: Pair) {
    || b == a
    || (b.answerKey == a.answerKey && b.inventory.Some?)
    || (b.inventory == a.inventory && b.answerKey.Some? && exists inventory :: BuiltFrom(b.answerKey.value, inventory))
  }

  /** Wherever publishers crash or interleave, an accepted pair's key was built from exactly the inventory beside it. */
  lemma {:induction false} AcceptedPairsMatch(states: seq<Pair>, i: nat)
    requires i < |states| && KeyIsGenuine(states[0])
    requires forall k :: 0 < k < |states| ==> ReplaceStep(states[k - 1], states[k])
    ensures KeyIsGenuine(states[i])
    ensures Accepted(states[i]) <==>
              states[i].inventory.Some? && states[i].answerKey.Some? &&
              BuiltFrom(states[i].answerKey.value, states[i].inventory.value)
  {
    if i == 0 {
    } else {
      AcceptedPairsMatch(states, i - 1);
      assert ReplaceStep(states[i - 1], states[i]);
    }
    if Accepted(states[i]) {
      var key := states[i].answerKey.value;
      var inventory :| BuiltFrom(key, inventory);
      assert inventory == states[i].inventory.value;
    }
  }

  class Publisher {
    var inventory: Option<Inventory>
    var answerKey: Option<AnswerKey>
    ghost var states: seq<Pair>      // the pair after each replacement

    ghost function Now(): Pair
      reads this
    {
      Pair(inventory, answerKey)
    }

    constructor (inventory: Option<Inventory>, answerKey: Option<AnswerKey>)
      ensures Now() == Pair(inventory, answerKey) && states == [Now()]
    {
      this.inventory, this.answerKey, states := inventory, answerKey, [Pair(inventory, answerKey)];
    }

    /** Builds both files aside, then replaces one after the other. "staged" is the outcome of building the inventory. */
    method BuildInventoryPair(samePath: bool, staged: Result<Inventory>, answers: seq<Answer>) returns (r: Result<AnswerKey>)
      requires states != [] && states[|states| - 1] == Now()
      modifies this
      // A failed validation leaves both files as they were.
      ensures r.Err? ==> Now() == old(Now()) && states == old(states)
      ensures r.Ok? <==> !samePath && staged.Ok? && AnswersOk(staged.value, answers)
      // Success passes through exactly one mixed pair and ends with a matching one.
      ensures r.Ok? ==>
                && KeyFor(r.value, staged.value, answers)
                && Now() == Pair(Some(staged.value), Some(r.value)) && Accepted(Now())
                && states == old(states) + [Pair(Some(staged.value), old(answerKey)), Now()]
                && ReplaceStep(old(Now()), Pair(Some(staged.value), old(answerKey)))
                && ReplaceStep(Pair(Some(staged.value), old(answerKey)), Now())
    {
      if samePath {
        return Err("inventory and answer key must use separate files");
      }
      if staged.Err? {
        return Err(staged.message);
      }
      r := BuildAnswerKey(staged.value, answers);
      if r.Err? {
        return;
      }
      assert BuiltFrom(r.value, staged.value);
      inventory := Some(staged.value);
      states := states + [Now()];
      answerKey := Some(r.value);
      states := states + [Now()];
    }
  }

  /** A crash between the two replacements leaves a pair that is rejected, unless the old key
      was already built from the new content. */
  lemma MixedPairRejected(before: Pair, inventory: Inventory)
    requires KeyIsGenuine(before)
    ensures Accepted(before.(inventory := Some(inventory))) <==>
              before.answerKey.Some? && BuiltFrom(before.answerKey.value, inventory)
  {
    var mixed := before.(inventory := Some(inventory));
    AcceptedPairsMatch([before, mixed], 1);
  }
}
