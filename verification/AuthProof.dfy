/** The port of the authorization lab (AuthProofPort in scripts/validation_auth_lab.py).
    It wraps the lab port and adds a mark of its own, which needs both controls of the
    batch to have answered as recorded and with the required outcomes. */
module AuthProof {
  import opened Options
  import opened NegativeProof

  datatype Expected = Expected(status: int, path: string, sha: string)

  /** A case of the saved fixture: its endpoint and contract, and how controls and target must answer. */
  datatype AuthCase = AuthCase(
    name: string, endpoint: string, runtime: Runtime, positive: Expected, negative: Expected, target: Expected)

  datatype Fixture = Fixture(base: string, cases: seq<AuthCase>)

  /** The first case with this endpoint. */
  function CaseAt(cases: seq<AuthCase>, endpoint: string): Option<AuthCase> {
    if cases == [] then None
    else if cases[0].endpoint == endpoint then Some(cases[0])
    else CaseAt(cases[1..], endpoint)
  }

  function BeforeQuery(url: string): string {
    if url == "" || url[0] == '?' then "" else [url[0]] + BeforeQuery(url[1..])
  }

  /** A control answered as recorded, with or without its query string. */
  predicate ControlResponseMatches(o: Observation, base: string, e: Expected) {
    && o.responseStatus == Some(e.status)
    && (o.responseUrl == Some(base + e.path) || o.responseUrl == Some(BeforeQuery(base + e.path)))
    && o.bodySha == Text(e.sha)
  }

  predicate TargetResponseMatches(o: Observation, base: string, e: Expected) {
    && o.outcome == "not_observed" && o.signalObserved == Some(false)
    && o.responseStatus == Some(e.status) && o.responseUrl == Some(base + e.path) && o.bodySha == Text(e.sha)
  }

  /** The case whose exact request this call makes, if it is one that may be marked. */
  function Governing(f: Fixture, c: Call): Option<AuthCase> {
    match CaseAt(f.cases, c.blind.endpoint)
    case None => None
    case Some(k) =>
      if (k.name == "detail" || k.name == "own_list") && c.scanId == "validation-lab-vuln-bank"
         && c.blind.attackSkillName == "hunt-idor" && c.blind.requiredIdentityRoles == ["merchant_a"]
         && CanonicalSha256(c.blind.runtime) == CanonicalSha256(k.runtime)
      then Some(k) else None
  }

  predicate IsControl(kind: AttemptKind) {
    kind.PositiveControl? || kind.NegativeControl?
  }

  /** What a control leaves behind. */
  datatype Noted = Noted(outcome: string, signal: Option<bool>)

  function Wanted(kind: AttemptKind): Noted
    requires IsControl(kind)
  {
    if kind.PositiveControl? then Noted("observed", Some(true)) else Noted("not_observed", Some(false))
  }

  /** The call is a control of batch "b" that answered as recorded. */
  predicate NotesControl(f: Fixture, c: Call, b: Batch, kind: AttemptKind) {
    && IsControl(kind) && c.batch == b && c.kind == kind && Governing(f, c).Some?
    && ControlResponseMatches(
         c.answer, f.base, if kind.PositiveControl? then Governing(f, c).value.positive else Governing(f, c).value.negative)
  }

  ghost predicate LatestNoted(f: Fixture, calls: seq<Call>, b: Batch, kind: AttemptKind, i: nat) {
    && i < |calls| && NotesControl(f, calls[i], b, kind)
    && forall j :: i < j < |calls| ==> !NotesControl(f, calls[j], b, kind)
  }

  /** The latest such control of "b" had the required outcome. */
  ghost predicate ControlHolds(f: Fixture, calls: seq<Call>, b: Batch, kind: AttemptKind)
    requires IsControl(kind)
  {
    exists i: nat :: LatestNoted(f, calls, b, kind, i)
                     && Noted(calls[i].answer.outcome, calls[i].answer.signalObserved) == Wanted(kind)
  }

  /** After "calls" the call deserves the authorization mark. */
  ghost predicate DeservesAuthMark(f: Fixture, calls: seq<Call>, c: Call) {
    && Governing(f, c).Some? && c.kind.Target?
    && ControlHolds(f, calls, c.batch, PositiveControl) && ControlHolds(f, calls, c.batch, NegativeControl)
    && TargetResponseMatches(c.answer, f.base, Governing(f, c).value.target)
  }

  function WithAuthMark(o: Observation, name: string): Observation {
    o.(explicitNonExploit := true, authMark := Some(name))
  }

  // ----- The table of controls -----

  type Controls = map<(Batch, AttemptKind), Noted>

  ghost predicate NoteRight(f: Fixture, calls: seq<Call>, controls: Controls, b: Batch, kind: AttemptKind) {
    && ((b, kind) in controls <==> exists i: nat :: LatestNoted(f, calls, b, kind, i))
    && (forall i: nat :: LatestNoted(f, calls, b, kind, i) ==>
          controls[(b, kind)] == Noted(calls[i].answer.outcome, calls[i].answer.signalObserved))
  }

  ghost predicate ControlsRight(f: Fixture, calls: seq<Call>, controls: Controls) {
    forall b, kind :: NoteRight(f, calls, controls, b, kind)
  }

  lemma NotedOneMore(f: Fixture, calls: seq<Call>, c: Call, b: Batch, kind: AttemptKind)
    ensures NotesControl(f, c, b, kind) ==> forall i: nat :: LatestNoted(f, calls + [c], b, kind, i) <==> i == |calls|
    ensures !NotesControl(f, c, b, kind) ==>
              forall i: nat :: LatestNoted(f, calls + [c], b, kind, i) <==> LatestNoted(f, calls, b, kind, i)
  {
    var more := calls + [c];
    assert more[|calls|] == c;
    assert forall i :: 0 <= i < |calls| ==> more[i] == calls[i];
  }

  lemma ControlsOneMore(f: Fixture, calls: seq<Call>, controls: Controls, c: Call)
    requires ControlsRight(f, calls, controls)
    ensures var note := Noted(c.answer.outcome, c.answer.signalObserved);
            ControlsRight(f, calls + [c],
              if NotesControl(f, c, c.batch, c.kind) then controls[(c.batch, c.kind) := note] else controls)
  {
    var note := Noted(c.answer.outcome, c.answer.signalObserved);
    var controls' := if NotesControl(f, c, c.batch, c.kind) then controls[(c.batch, c.kind) := note] else controls;
    var more := calls + [c];
    assert more[|calls|] == c && forall i :: 0 <= i < |calls| ==> more[i] == calls[i];
    forall b, kind
      ensures NoteRight(f, more, controls', b, kind)
    {
      NotedOneMore(f, calls, c, b, kind);
      assert NoteRight(f, calls, controls, b, kind);
      if NotesControl(f, c, b, kind) {
        assert LatestNoted(f, more, b, kind, |calls|);
      }
    }
  }

  predicate Holds(controls: Controls, b: Batch, kind: AttemptKind)
    requires IsControl(kind)
  {
    (b, kind) in controls && controls[(b, kind)] == Wanted(kind)
  }

  lemma ControlLookup(f: Fixture, calls: seq<Call>, controls: Controls, b: Batch, kind: AttemptKind)
    requires ControlsRight(f, calls, controls) && IsControl(kind)
    ensures Holds(controls, b, kind) <==> ControlHolds(f, calls, b, kind)
  {
    assert NoteRight(f, calls, controls, b, kind);
  }

  // ----- The port -----

  /** The answer is that of the lab port, with the authorization mark added exactly when deserved. */
  ghost predicate RightAuthAnswer(f: Fixture, proofs: Proofs, calls: seq<Call>, c: Call, r: Observation) {
    exists plain :: RightAnswer(proofs, calls, c, plain)
      && r == if DeservesAuthMark(f, calls, c) then WithAuthMark(plain, Governing(f, c).value.name) else plain
  }

  ghost predicate RightAuthTrace(f: Fixture, proofs: Proofs, calls: seq<Call>, answers: seq<Observation>) {
    && |answers| == |calls|
    && forall k :: 0 <= k < |calls| ==> RightAuthAnswer(f, proofs, calls[..k], calls[k], answers[k])
  }

  // ----- In terms of requests and answers -----

  /** The call makes exactly the request of case "k", the first one of the fixture with that endpoint. */
  ghost predicate RequestOf(f: Fixture, c: Call, k: AuthCase) {
    && (exists i :: 0 <= i < |f.cases| && f.cases[i] == k && k.endpoint == c.blind.endpoint &&
                    forall j :: 0 <= j < i ==> f.cases[j].endpoint != c.blind.endpoint)
    && (k.name == "detail" || k.name == "own_list") && c.scanId == "validation-lab-vuln-bank"
    && c.blind.attackSkillName == "hunt-idor" && c.blind.requiredIdentityRoles == ["merchant_a"]
    && c.blind.runtime == k.runtime
  }

  lemma {:induction false} CaseAtIs(cases: seq<AuthCase>, endpoint: string, k: AuthCase)
    ensures CaseAt(cases, endpoint) == Some(k) <==>
              exists i :: 0 <= i < |cases| && cases[i] == k && k.endpoint == endpoint &&
                          forall j :: 0 <= j < i ==> cases[j].endpoint != endpoint
  {
    if cases == [] {
    } else if cases[0].endpoint == endpoint {
      if k == cases[0] {
        assert cases[0] == k;
      }
    } else {
      var rest := cases[1..];
      CaseAtIs(rest, endpoint, k);
      assert forall i :: 0 <= i < |rest| ==> rest[i] == cases[i + 1];
      assert forall i :: 0 < i < |cases| ==> cases[i] == rest[i - 1];
      if CaseAt(cases, endpoint) == Some(k) {
        var i :| 0 <= i < |rest| && rest[i] == k && k.endpoint == endpoint &&
                 forall j :: 0 <= j < i ==> rest[j].endpoint != endpoint;
        assert cases[i + 1] == k;
        assert forall j :: 0 <= j < i + 1 ==> cases[j].endpoint != endpoint;
      }
      if i :| 0 <= i < |cases| && cases[i] == k && k.endpoint == endpoint &&
              forall j :: 0 <= j < i ==> cases[j].endpoint != endpoint {
        assert rest[i - 1] == k;
        assert forall j :: 0 <= j < i - 1 ==> rest[j].endpoint != endpoint;
      }
    }
  }

  lemma GoverningIs(f: Fixture, c: Call, k: AuthCase)
    ensures Governing(f, c) == Some(k) <==> RequestOf(f, c, k)
  {
    CaseAtIs(f.cases, c.blind.endpoint, k);
  }

  /** "url" is "full", or what comes before its query string. */
  ghost predicate UpToQuery(url: string, full: string) {
    url == full || (|url| < |full| && full[..|url|] == url && full[|url|] == '?' && '?' !in url)
  }

  lemma {:induction false} BeforeQueryIs(full: string, url: string)
    ensures url == full || url == BeforeQuery(full) <==> UpToQuery(url, full)
  {
    if full == "" {
    } else if full[0] == '?' {
      assert UpToQuery("", full);
      if url != "" {
        assert url[0] in url;
        assert |url| <= |full| ==> full[..|url|][0] == full[0];
      }
    } else {
      if url != "" {
        BeforeQueryIs(full[1..], url[1..]);
        assert url == [url[0]] + url[1..] && full == [full[0]] + full[1..];
        if url[0] == full[0] {
          QueryOfTail(url, full);
        }
      }
    }
  }

  lemma QueryOfTail(url: string, full: string)
    requires url != "" && full != "" && url[0] == full[0] && full[0] != '?'
    ensures UpToQuery(url, full) <==> UpToQuery(url[1..], full[1..])
  {
    var u, g := url[1..], full[1..];
    assert url == [url[0]] + u && full == [full[0]] + g;
    assert '?' in url <==> '?' in u;
    if |url| < |full| {
      assert full[|url|] == g[|u|];
      assert full[..|url|] == [full[0]] + g[..|u|];
    }
  }

  /** Answered with the recorded status and body, at the recorded place with or without its query string. */
  ghost predicate AnsweredAsRecorded(o: Observation, base: string, e: Expected) {
    && o.responseStatus == Some(e.status) && o.bodySha == Text(e.sha)
    && o.responseUrl.Some? && UpToQuery(o.responseUrl.value, base + e.path)
  }

  /** The call is a control of "b" that makes the request of a case and was answered as recorded for it. */
  ghost predicate MatchingControl(f: Fixture, c: Call, b: Batch, kind: AttemptKind) {
    && (kind == PositiveControl || kind == NegativeControl) && c.batch == b && c.kind == kind
    && exists k :: RequestOf(f, c, k) &&
                   AnsweredAsRecorded(c.answer, f.base, if kind == PositiveControl then k.positive else k.negative)
  }

  lemma NotesMatching(f: Fixture, c: Call, b: Batch, kind: AttemptKind)
    ensures NotesControl(f, c, b, kind) <==> MatchingControl(f, c, b, kind)
  {
    forall k
      ensures Governing(f, c) == Some(k) <==> RequestOf(f, c, k)
    {
      GoverningIs(f, c, k);
    }
    if c.answer.responseUrl.Some? {
      forall full
        ensures c.answer.responseUrl.value == full || c.answer.responseUrl.value == BeforeQuery(full)
                <==> UpToQuery(c.answer.responseUrl.value, full)
      {
        BeforeQueryIs(full, c.answer.responseUrl.value);
      }
    }
    if NotesControl(f, c, b, kind) {
      assert RequestOf(f, c, Governing(f, c).value);
    }
  }

  lemma HeldControl(f: Fixture, calls: seq<Call>, k: nat, b: Batch, kind: AttemptKind) returns (i: nat)
    requires k <= |calls| && IsControl(kind) && ControlHolds(f, calls[..k], b, kind)
    ensures i < k && MatchingControl(f, calls[i], b, kind)
    ensures Noted(calls[i].answer.outcome, calls[i].answer.signalObserved) == Wanted(kind)
    ensures forall j :: i < j < k ==> !MatchingControl(f, calls[j], b, kind)
  {
    var before := calls[..k];
    i :| LatestNoted(f, before, b, kind, i)
         && Noted(before[i].answer.outcome, before[i].answer.signalObserved) == Wanted(kind);
    forall j | 0 <= j < k
      ensures before[j] == calls[j] && (NotesControl(f, before[j], b, kind) <==> MatchingControl(f, calls[j], b, kind))
    {
      NotesMatching(f, calls[j], b, kind);
    }
  }

  /** Over any sequence of calls, an authorization mark names the case whose request a target made and answered as
      recorded, and the latest matching positive and negative controls earlier in the same batch were observed with
      a signal and not observed without one. */
  lemma AuthMarksAreJustified(f: Fixture, proofs: Proofs, calls: seq<Call>, answers: seq<Observation>, k: nat)
    returns (case_: AuthCase, p: nat, n: nat)
    requires RightAuthTrace(f, proofs, calls, answers) && k < |calls| && Unmarked(calls[k].answer)
    requires answers[k].authMark.Some?
    ensures answers[k].authMark == Some(case_.name) && answers[k].explicitNonExploit
    ensures calls[k].kind == Target && RequestOf(f, calls[k], case_)
    ensures var o := calls[k].answer;
            && o.outcome == "not_observed" && o.signalObserved == Some(false) && o.responseStatus == Some(case_.target.status)
            && o.responseUrl == Some(f.base + case_.target.path) && o.bodySha == Text(case_.target.sha)
    ensures p < k && MatchingControl(f, calls[p], calls[k].batch, PositiveControl)
    ensures calls[p].answer.outcome == "observed" && calls[p].answer.signalObserved == Some(true)
    ensures n < k && MatchingControl(f, calls[n], calls[k].batch, NegativeControl)
    ensures calls[n].answer.outcome == "not_observed" && calls[n].answer.signalObserved == Some(false)
    ensures forall j :: p < j < k ==> !MatchingControl(f, calls[j], calls[k].batch, PositiveControl)
    ensures forall j :: n < j < k ==> !MatchingControl(f, calls[j], calls[k].batch, NegativeControl)
  {
    var before, b := calls[..k], calls[k].batch;
    assert RightAuthAnswer(f, proofs, before, calls[k], answers[k]);
    assert DeservesAuthMark(f, before, calls[k]);
    case_ := Governing(f, calls[k]).value;
    GoverningIs(f, calls[k], case_);
    p := HeldControl(f, calls, k, b, PositiveControl);
    n := HeldControl(f, calls, k, b, NegativeControl);
  }

  lemma ControlHeld(f: Fixture, calls: seq<Call>, k: nat, b: Batch, kind: AttemptKind, i: nat)
    requires i < k <= |calls| && IsControl(kind) && MatchingControl(f, calls[i], b, kind)
    requires Noted(calls[i].answer.outcome, calls[i].answer.signalObserved) == Wanted(kind)
    requires forall j :: i < j < k ==> !MatchingControl(f, calls[j], b, kind)
    ensures ControlHolds(f, calls[..k], b, kind)
  {
    var before := calls[..k];
    forall j | 0 <= j < k
      ensures before[j] == calls[j] && (NotesControl(f, before[j], b, kind) <==> MatchingControl(f, calls[j], b, kind))
    {
      NotesMatching(f, calls[j], b, kind);
    }
    assert LatestNoted(f, before, b, kind, i);
  }

  /** And every such target is marked. */
  lemma AuthMarksAreGiven(f: Fixture, proofs: Proofs, calls: seq<Call>, answers: seq<Observation>, k: nat,
                          case_: AuthCase, p: nat, n: nat)
    requires RightAuthTrace(f, proofs, calls, answers) && k < |calls|
    requires calls[k].kind == Target && RequestOf(f, calls[k], case_)
    requires var o := calls[k].answer;
             && o.outcome == "not_observed" && o.signalObserved == Some(false) && o.responseStatus == Some(case_.target.status)
             && o.responseUrl == Some(f.base + case_.target.path) && o.bodySha == Text(case_.target.sha)
    requires p < k && MatchingControl(f, calls[p], calls[k].batch, PositiveControl)
    requires calls[p].answer.outcome == "observed" && calls[p].answer.signalObserved == Some(true)
    requires n < k && MatchingControl(f, calls[n], calls[k].batch, NegativeControl)
    requires calls[n].answer.outcome == "not_observed" && calls[n].answer.signalObserved == Some(false)
    requires forall j :: p < j < k ==> !MatchingControl(f, calls[j], calls[k].batch, PositiveControl)
    requires forall j :: n < j < k ==> !MatchingControl(f, calls[j], calls[k].batch, NegativeControl)
    ensures answers[k].authMark == Some(case_.name) && answers[k].explicitNonExploit
  {
    GoverningIs(f, calls[k], case_);
    ControlHeld(f, calls, k, calls[k].batch, PositiveControl, p);
    ControlHeld(f, calls, k, calls[k].batch, NegativeControl, n);
    assert RightAuthAnswer(f, proofs, calls[..k], calls[k], answers[k]);
    assert DeservesAuthMark(f, calls[..k], calls[k]);
  }

  class AuthPort {
    const fixture: Fixture
    const lab: LabPort
    var controls: Controls
    ghost var answers: seq<Observation>

    ghost predicate Valid()
      reads this, lab
    {
      && lab.Valid() && ControlsRight(fixture, lab.calls, controls)
      && RightAuthTrace(fixture, lab.proofs, lab.calls, answers)
    }

    constructor (fixture: Fixture, proofs: Proofs)
      ensures Valid() && fresh(lab) && this.fixture == fixture && lab.proofs == proofs && lab.calls == []
    {
      this.fixture := fixture;
      lab := new LabPort(proofs);
      controls, answers := map[], [];
    }

    method Execute(c: Call) returns (r: Observation)
      requires Valid()
      modifies this, lab
      ensures Valid() && lab.calls == old(lab.calls) + [c] && answers == old(answers) + [r]
      ensures RightAuthAnswer(fixture, lab.proofs, old(lab.calls), c, r)
    {
      ghost var before := lab.calls;
      ghost var table := controls;
      r := lab.Execute(c);
      ghost var plain := r;
      var governing := Governing(fixture, c);
      if governing.Some? {
        var k := governing.value;
        if IsControl(c.kind) {
          if ControlResponseMatches(c.answer, fixture.base, if c.kind.PositiveControl? then k.positive else k.negative) {
            controls := controls[(c.batch, c.kind) := Noted(c.answer.outcome, c.answer.signalObserved)];
          }
        } else if c.kind.Target? && Holds(controls, c.batch, PositiveControl) && Holds(controls, c.batch, NegativeControl)
                  && TargetResponseMatches(c.answer, fixture.base, k.target) {
          r := WithAuthMark(r, k.name);
        }
      }
      ControlsOneMore(fixture, before, table, c);
      ControlLookup(fixture, before, table, c.batch, PositiveControl);
      ControlLookup(fixture, before, table, c.batch, NegativeControl);
      assert r == if DeservesAuthMark(fixture, before, c) then WithAuthMark(plain, governing.value.name) else plain;
      AuthTraceOneMore(fixture, lab.proofs, before, answers, c, r);
      answers := answers + [r];
    }
  }

  lemma AuthTraceOneMore(f: Fixture, proofs: Proofs, calls: seq<Call>, answers: seq<Observation>, c: Call, r: Observation)
    requires RightAuthTrace(f, proofs, calls, answers) && RightAuthAnswer(f, proofs, calls, c, r)
    ensures RightAuthTrace(f, proofs, calls + [c], answers + [r])
  {
    var more := calls + [c];
    forall k | 0 <= k < |more|
      ensures RightAuthAnswer(f, proofs, more[..k], more[k], (answers + [r])[k])
    {
      assert more[..k] == calls[..k];
    }
  }
}
