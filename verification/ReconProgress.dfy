/** Displayed Recon progress (reconCollectionProgress in WebUI/src/lib/activity.ts).
    The code folds the log lines with a hidden set of keys per tool group; the
    result turns out to depend only on which lines there are. */
module ReconProgress {
  import opened Options
  import opened Orders
  import opened Events

  /** A tool group's share of the progress bar, and its phases, the leading one first. */
  datatype Group = Group(start: nat, end: nat, lead: string, others: seq<string>)

  const GROUPS: seq<Group> := [
    Group(0, 12, "asset_discovery", ["subfinder"]),
    Group(12, 24, "dns_resolution", ["dnsx"]),
    Group(24, 36, "host_port_discovery", ["naabu", "nmap"]),
    Group(36, 48, "http_probe", []),
    Group(48, 55, "origin_discovery", []),
    Group(55, 75, "endpoint_discovery",
          ["playwright_bootstrap", "playwright_priority", "katana_standard", "katana_headless",
           "playwright_interaction", "ffuf", "api_secondary", "openapi_detection", "graphql_detection",
           "zap_openapi", "zap_graphql", "mitm_capture"]),
    Group(75, 90, "observation_tagging", [])]

  /** What one line says about progress. */
  datatype Mark =
    | Nothing
    | AgentWork(level: real)
    | Activity(group: Group, key: string, finished: bool)

  function Rendered(params: map<string, ParamValue>, name: string): string {
    if name !in params then ""
    else match params[name] case Text(t) => t case Number(_, shown) => shown
  }

  function GroupWith(phase: string, groups: seq<Group>): (g: Option<Group>)
    ensures g.Some? ==> g.value in groups
  {
    if groups == [] then None
    else if phase == groups[0].lead || phase in groups[0].others then Some(groups[0])
    else GroupWith(phase, groups[1..])
  }

  function MarkOf(l: Log): (m: Mark)
    ensures m.Activity? ==> m.group in GROUPS
  {
    if l.body.stage != Recon || l.body.messageParams.None? then Nothing
    else
      var params := l.body.messageParams.value;
      if l.body.messageCode == Some("agent.work") && "progress" in params && params["progress"].Number? then
        AgentWork(params["progress"].value)
      else if l.body.messageCode != Some("recon.activity") || "state" !in params || "phase" !in params
              || !params["state"].Text? || !params["phase"].Text? then Nothing
      else
        var state, phase := params["state"].text, params["phase"].text;
        if state != "started" && state != "finished" && state != "skipped" && state != "found" then Nothing
        else
          match GroupWith(phase, GROUPS)
          case None => Nothing
          case Some(group) =>
            Activity(group,
                     phase + ":" + state + ":" + Rendered(params, "method") + ":" + Rendered(params, "url"),
                     phase == group.lead && (state == "finished" || state == "skipped"))
  }

  function Max(x: real, y: real): real {
    if x < y then y else x
  }

  function Min(x: real, y: real): real {
    if x < y then x else y
  }

  // ----- The order-free meaning -----

  /** Distinct keys recorded for a group. */
  ghost function Keys(marks: set<Mark>, g: Group): set<string> {
    set m | m in marks && m.Activity? && m.group == g :: m.key
  }

  ghost predicate LeadFinished(marks: set<Mark>, g: Group) {
    exists m :: m in marks && m.Activity? && m.group == g && m.finished
  }

  /** Full width once the lead phase is finished or skipped, else one point per distinct key, short of full. */
  ghost function GroupLevel(marks: set<Mark>, g: Group): real {
    if LeadFinished(marks, g) then g.end as real
    else Min(g.end as real - 1.0, g.start as real + |Keys(marks, g)| as real)
  }

  ghost predicate FromAgent(marks: set<Mark>, p: real) {
    exists m :: m in marks && m.AgentWork? && p == Min(98.0, m.level)
  }

  ghost predicate Started(marks: set<Mark>, g: Group) {
    g in GROUPS && Keys(marks, g) != {}
  }

  ghost predicate FromGroup(marks: set<Mark>, p: real) {
    exists g :: Started(marks, g) && p == GroupLevel(marks, g)
  }

  /** "p" is the greatest of the actual progress, the agents' milestones capped at 98, and the levels of the started groups. */
  ghost predicate IsProgress(p: real, actual: real, marks: set<Mark>) {
    && actual <= p
    && (forall m :: m in marks && m.AgentWork? ==> Min(98.0, m.level) <= p)
    && (forall g :: Started(marks, g) ==> GroupLevel(marks, g) <= p)
    && (p == actual || FromAgent(marks, p) || FromGroup(marks, p))
  }

  /** The marks of a list of lines, without order or multiplicity. */
  ghost function Marks(logs: seq<Log>): set<Mark> {
    set l | l in logs :: MarkOf(l)
  }

  lemma GroupNumbers(i: nat)
    requires i < |GROUPS|
    ensures i < 7
    ensures (GROUPS[i].start, GROUPS[i].end) ==
              match i case 0 => (0, 12) case 1 => (12, 24) case 2 => (24, 36) case 3 => (36, 48) case 4 => (48, 55)
                      case 5 => (55, 75) case _ => (75, 90)
  {
    assert |GROUPS| == 7;
  }

  lemma GroupBounds()
    ensures forall g :: g in GROUPS ==> g.start + 1 <= g.end <= 90
    ensures forall g, h :: g in GROUPS && h in GROUPS && g.start == h.start ==> g == h
  {
    forall i: nat | i < |GROUPS|
      ensures GROUPS[i].start + 1 <= GROUPS[i].end <= 90
    {
      GroupNumbers(i);
    }
    forall i: nat, j: nat | i < |GROUPS| && j < |GROUPS| && GROUPS[i].start == GROUPS[j].start
      ensures i == j
    {
      GroupNumbers(i);
      GroupNumbers(j);
    }
  }

  /** More marks never lower a group's level. */
  lemma LevelGrows(fewer: set<Mark>, more: set<Mark>, g: Group)
    requires fewer <= more && Started(fewer, g)
    ensures Started(more, g) && GroupLevel(fewer, g) <= GroupLevel(more, g)
  {
    GroupBounds();
    assert Keys(fewer, g) <= Keys(more, g);
    SubsetSize(Keys(fewer, g), Keys(more, g));
    if LeadFinished(fewer, g) {
      var m :| m in fewer && m.Activity? && m.group == g && m.finished;
      assert m in more;
    }
  }

  // ----- One step of the fold -----

  lemma OtherGroupsKept(marks: set<Mark>, m: Mark, g: Group)
    requires !(m.Activity? && m.group == g)
    ensures Keys(marks + {m}, g) == Keys(marks, g) && GroupLevel(marks + {m}, g) == GroupLevel(marks, g)
  {
    assert Keys(marks + {m}, g) == Keys(marks, g);
    assert LeadFinished(marks + {m}, g) == LeadFinished(marks, g);
  }

  /** The fold's candidate for an activity line, given its group's keys including its own. */
  function Candidate(m: Mark, recorded: nat): real
    requires m.Activity?
  {
    if m.finished then m.group.end as real
    else Min(m.group.end as real - 1.0, m.group.start as real + recorded as real)
  }

  /** The candidate is the group's new level, unless the group was already full. */
  lemma CandidateLevel(marks: set<Mark>, m: Mark)
    requires m.Activity? && m.group in GROUPS
    ensures Keys(marks + {m}, m.group) == Keys(marks, m.group) + {m.key}
    ensures Started(marks + {m}, m.group)
    ensures var c := Candidate(m, |Keys(marks + {m}, m.group)|); var level := GroupLevel(marks + {m}, m.group);
            c <= level && (c < level ==> Started(marks, m.group) && level == GroupLevel(marks, m.group))
  {
    var g, more := m.group, marks + {m};
    GroupBounds();
    assert Keys(more, g) == Keys(marks, g) + {m.key};
    if m.finished {
      assert m in more;
    } else if LeadFinished(marks, g) {
      var k :| k in marks && k.Activity? && k.group == g && k.finished;
      assert k in more && k.key in Keys(marks, g);
    } else {
      assert !LeadFinished(more, g);
    }
  }

  lemma FromAgentGrows(fewer: set<Mark>, more: set<Mark>, p: real)
    requires fewer <= more && FromAgent(fewer, p)
    ensures FromAgent(more, p)
  {
    var m :| m in fewer && m.AgentWork? && p == Min(98.0, m.level);
    assert m in more;
  }

  lemma PlainStep(p: real, actual: real, marks: set<Mark>, m: Mark)
    requires IsProgress(p, actual, marks) && !m.Activity?
    ensures IsProgress(if m.AgentWork? then Max(p, Min(98.0, m.level)) else p, actual, marks + {m})
  {
    var more := marks + {m};
    var q := if m.AgentWork? then Max(p, Min(98.0, m.level)) else p;
    forall g
      ensures Started(more, g) == Started(marks, g) && GroupLevel(more, g) == GroupLevel(marks, g)
    {
      OtherGroupsKept(marks, m, g);
    }
    if q != p {
      assert m in more && FromAgent(more, q);
    } else if FromAgent(marks, p) {
      FromAgentGrows(marks, more, p);
    } else if FromGroup(marks, p) {
      var g :| Started(marks, g) && p == GroupLevel(marks, g);
      assert Started(more, g) && q == GroupLevel(more, g);
    }
  }

  lemma ActivityBound(p: real, actual: real, marks: set<Mark>, m: Mark)
    requires IsProgress(p, actual, marks) && m.Activity? && m.group in GROUPS
    ensures var q := Max(p, Candidate(m, |Keys(marks + {m}, m.group)|));
            forall g :: Started(marks + {m}, g) ==> GroupLevel(marks + {m}, g) <= q
  {
    var q := Max(p, Candidate(m, |Keys(marks + {m}, m.group)|));
    CandidateLevel(marks, m);
    forall g | Started(marks + {m}, g)
      ensures GroupLevel(marks + {m}, g) <= q
    {
      if g != m.group {
        OtherGroupsKept(marks, m, g);
        assert Started(marks, g);
      }
    }
  }

  lemma ActivityStep(p: real, actual: real, marks: set<Mark>, m: Mark)
    requires IsProgress(p, actual, marks) && m.Activity? && m.group in GROUPS
    ensures IsProgress(Max(p, Candidate(m, |Keys(marks + {m}, m.group)|)), actual, marks + {m})
  {
    var more := marks + {m};
    var q := Max(p, Candidate(m, |Keys(more, m.group)|));
    CandidateLevel(marks, m);
    ActivityBound(p, actual, marks, m);
    if q != p {
      assert Started(more, m.group) && q == GroupLevel(more, m.group);
      assert FromGroup(more, q);
    } else if FromAgent(marks, p) {
      FromAgentGrows(marks, more, p);
    } else if FromGroup(marks, p) {
      var g :| Started(marks, g) && p == GroupLevel(marks, g);
      LevelGrows(marks, more, g);
      assert Started(more, g) && q == GroupLevel(more, g);
    }
  }

  // ----- The fold -----

  /** The hidden table: the keys of each group, filed under the group's start. */
  ghost predicate Tabulated(activity: map<nat, set<string>>, marks: set<Mark>) {
    forall g :: g in GROUPS ==> Keys(marks, g) == if g.start in activity then activity[g.start] else {}
  }

  lemma TabulatedStep(activity: map<nat, set<string>>, marks: set<Mark>, m: Mark)
    requires Tabulated(activity, marks) && (m.Activity? ==> m.group in GROUPS)
    ensures !m.Activity? ==> Tabulated(activity, marks + {m})
    ensures m.Activity? ==>
              var recorded := (if m.group.start in activity then activity[m.group.start] else {}) + {m.key};
              recorded == Keys(marks + {m}, m.group) && Tabulated(activity[m.group.start := recorded], marks + {m})
  {
    GroupBounds();
    forall g | g in GROUPS && !(m.Activity? && m.group == g)
      ensures Keys(marks + {m}, g) == Keys(marks, g)
    {
      OtherGroupsKept(marks, m, g);
    }
    if m.Activity? {
      CandidateLevel(marks, m);
    }
  }

  /** The state of the fold after lines with the given marks. */
  ghost predicate Folded(progress: real, actual: real, activity: map<nat, set<string>>, marks: set<Mark>) {
    IsProgress(progress, actual, marks) && Tabulated(activity, marks)
  }

  lemma NothingFolded(actual: real)
    ensures Folded(actual, actual, map[], {})
  {
    assert forall g :: Keys({}, g) == {};
  }

  lemma ActivityFolded(progress: real, actual: real, activity: map<nat, set<string>>, marks: set<Mark>, m: Mark)
    requires Folded(progress, actual, activity, marks) && m.Activity? && m.group in GROUPS
    ensures var recorded := (if m.group.start in activity then activity[m.group.start] else {}) + {m.key};
            Folded(Max(progress, Candidate(m, |recorded|)), actual, activity[m.group.start := recorded], marks + {m})
  {
    TabulatedStep(activity, marks, m);
    ActivityStep(progress, actual, marks, m);
  }

  lemma PlainFolded(progress: real, actual: real, activity: map<nat, set<string>>, marks: set<Mark>, m: Mark)
    requires Folded(progress, actual, activity, marks) && !m.Activity?
    ensures Folded(if m.AgentWork? then Max(progress, Min(98.0, m.level)) else progress, actual, activity, marks + {m})
  {
    TabulatedStep(activity, marks, m);
    PlainStep(progress, actual, marks, m);
  }

  lemma MarksOneMore(logs: seq<Log>, n: nat)
    requires n < |logs|
    ensures Marks(logs[..n + 1]) == Marks(logs[..n]) + {MarkOf(logs[n])}
  {
    assert logs[..n + 1] == logs[..n] + [logs[n]];
  }

  /** The fold computes the order-free meaning. */
  method ReconCollectionProgress(actual: real, logs: seq<Log>) returns (progress: real)
    ensures IsProgress(progress, actual, Marks(logs))
  {
    var activity: map<nat, set<string>> := map[];
    progress := actual;
    ghost var marks: set<Mark> := {};
    NothingFolded(actual);
    for n := 0 to |logs|
      invariant marks == Marks(logs[..n]) && Folded(progress, actual, activity, marks)
    {
      var mark := MarkOf(logs[n]);
      MarksOneMore(logs, n);
      if mark.Activity? {
        var recorded := (if mark.group.start in activity then activity[mark.group.start] else {}) + {mark.key};
        ActivityFolded(progress, actual, activity, marks, mark);
        activity := activity[mark.group.start := recorded];
        progress := Max(progress, Candidate(mark, |recorded|));
      } else {
        PlainFolded(progress, actual, activity, marks, mark);
        if mark.AgentWork? {
          progress := Max(progress, Min(98.0, mark.level));
        }
      }
      marks := marks + {mark};
    }
    assert logs[..|logs|] == logs;
  }

  // ----- What follows -----

  /** More lines never lower the progress. */
  lemma MoreLinesMoreProgress(p: real, q: real, actual: real, fewer: set<Mark>, more: set<Mark>)
    requires IsProgress(p, actual, fewer) && IsProgress(q, actual, more) && fewer <= more
    ensures p <= q
  {
    if FromGroup(fewer, p) {
      var g :| Started(fewer, g) && p == GroupLevel(fewer, g);
      LevelGrows(fewer, more, g);
    }
  }

  /** Reordering or repeating lines changes nothing: a set of lines has one progress. */
  lemma OrderAndReplayIrrelevant(p: real, q: real, actual: real, a: seq<Log>, b: seq<Log>)
    requires IsProgress(p, actual, Marks(a)) && IsProgress(q, actual, Marks(b))
    requires forall l :: l in a <==> l in b
    ensures p == q
  {
    assert Marks(a) == Marks(b);
    MoreLinesMoreProgress(p, q, actual, Marks(a), Marks(b));
    MoreLinesMoreProgress(q, p, actual, Marks(b), Marks(a));
  }

  /** Lines alone never claim completion: they reach 98 at most. */
  lemma NeverClaimsCompletion(p: real, actual: real, marks: set<Mark>)
    requires IsProgress(p, actual, marks)
    ensures p <= Max(actual, 98.0)
  {
    GroupBounds();
  }

  // ----- In terms of lines -----

  /** The share of the bar that a phase works on, and whether finishing or skipping it fills that share. */
  predicate PhaseShare(phase: string, start: nat, end: nat, leads: bool) {
    || ((start, end) == (0, 12) && (if leads then phase == "asset_discovery" else phase == "subfinder"))
    || ((start, end) == (12, 24) && (if leads then phase == "dns_resolution" else phase == "dnsx"))
    || ((start, end) == (24, 36) && (if leads then phase == "host_port_discovery" else phase in {"naabu", "nmap"}))
    || ((start, end) == (36, 48) && leads && phase == "http_probe")
    || ((start, end) == (48, 55) && leads && phase == "origin_discovery")
    || ((start, end) == (55, 75) &&
        if leads then phase == "endpoint_discovery"
        else phase in {"playwright_bootstrap", "playwright_priority", "katana_standard", "katana_headless",
                       "playwright_interaction", "ffuf", "api_secondary", "openapi_detection", "graphql_detection",
                       "zap_openapi", "zap_graphql", "mitm_capture"})
    || ((start, end) == (75, 90) && leads && phase == "observation_tagging")
  }

  /** The line reports numeric progress of an agent. */
  predicate ReportsWork(l: Log, level: real) {
    && l.body.stage == Recon && l.body.messageCode == Some("agent.work") && l.body.messageParams.Some?
    && "progress" in l.body.messageParams.value && l.body.messageParams.value["progress"].Number?
    && l.body.messageParams.value["progress"].value == level
  }

  /** The line reports that a phase of the share start .. end is in a state the display knows. */
  predicate ReportsPhase(l: Log, phase: string, state: string, start: nat, end: nat, leads: bool) {
    && l.body.stage == Recon && l.body.messageCode == Some("recon.activity") && l.body.messageParams.Some?
    && "phase" in l.body.messageParams.value && l.body.messageParams.value["phase"] == Text(phase)
    && "state" in l.body.messageParams.value && l.body.messageParams.value["state"] == Text(state)
    && state in {"started", "finished", "skipped", "found"} && PhaseShare(phase, start, end, leads)
  }

  predicate Shares(phase: string, i: nat)
    requires i < |GROUPS|
  {
    phase == GROUPS[i].lead || phase in GROUPS[i].others
  }

  lemma {:induction false} GroupWithIs(phase: string, groups: seq<Group>, g: Group)
    requires g in groups && (phase == g.lead || phase in g.others)
    requires forall h :: h in groups && (phase == h.lead || phase in h.others) ==> h == g
    ensures GroupWith(phase, groups) == Some(g)
  {
    if groups == [] {
    } else if phase != groups[0].lead && phase !in groups[0].others {
      GroupWithIs(phase, groups[1..], g);
    }
  }

  lemma {:induction false} GroupWithSome(phase: string, groups: seq<Group>)
    ensures var g := GroupWith(phase, groups);
            && (g.Some? ==> g.value in groups && (phase == g.value.lead || phase in g.value.others))
            && (g.None? ==> forall h :: h in groups ==> phase != h.lead && phase !in h.others)
  {
    if groups == [] {
    } else {
      GroupWithSome(phase, groups[1..]);
      assert groups == [groups[0]] + groups[1..];
    }
  }

  lemma ShareOfGroup(phase: string, i: nat)
    requires i < |GROUPS|
    ensures Shares(phase, i) <==> PhaseShare(phase, GROUPS[i].start, GROUPS[i].end, phase == GROUPS[i].lead)
    ensures forall leads :: PhaseShare(phase, GROUPS[i].start, GROUPS[i].end, leads) ==> leads == (phase == GROUPS[i].lead)
  {
    assert |GROUPS| == 7;
    if i == 0 {
      assert GROUPS[0] == Group(0, 12, "asset_discovery", ["subfinder"]);
    } else if i == 1 {
      assert GROUPS[1] == Group(12, 24, "dns_resolution", ["dnsx"]);
    } else if i == 2 {
      assert GROUPS[2] == Group(24, 36, "host_port_discovery", ["naabu", "nmap"]);
    } else if i == 3 {
      assert GROUPS[3] == Group(36, 48, "http_probe", []);
    } else if i == 4 {
      assert GROUPS[4] == Group(48, 55, "origin_discovery", []);
    } else if i == 5 {
      assert GROUPS[5].start == 55 && GROUPS[5].end == 75 && GROUPS[5].lead == "endpoint_discovery";
    } else {
      assert GROUPS[6] == Group(75, 90, "observation_tagging", []);
    }
  }

  /** No phase works on two shares. */
  lemma OneShare(phase: string, start: nat, end: nat, leads: bool, start': nat, end': nat, leads': bool)
    requires PhaseShare(phase, start, end, leads) && PhaseShare(phase, start', end', leads')
    ensures start == start' && end == end' && leads == leads'
  {
  }

  lemma GroupOfShare(phase: string, start: nat, end: nat, leads: bool) returns (i: nat)
    requires PhaseShare(phase, start, end, leads)
    ensures i < |GROUPS| && GROUPS[i].start == start && GROUPS[i].end == end && Shares(phase, i)
    ensures leads == (phase == GROUPS[i].lead)
  {
    assert |GROUPS| == 7;
    i := if start == 0 then 0 else if start == 12 then 1 else if start == 24 then 2 else if start == 36 then 3
         else if start == 48 then 4 else if start == 55 then 5 else 6;
    ShareOfGroup(phase, i);
    assert GROUPS[i].start == start && GROUPS[i].end == end;
  }

  /** Which lines are activity, of which share, and when they fill it. */
  lemma PhaseMark(l: Log, phase: string, state: string, start: nat, end: nat, leads: bool)
    requires ReportsPhase(l, phase, state, start, end, leads)
    ensures var m := MarkOf(l);
            && m.Activity? && m.group in GROUPS && m.group.start == start && m.group.end == end
            && (m.finished <==> leads && state in {"finished", "skipped"})
            && m.key == phase + ":" + state + ":" + Rendered(l.body.messageParams.value, "method")
                        + ":" + Rendered(l.body.messageParams.value, "url")
  {
    var i := GroupOfShare(phase, start, end, leads);
    forall j: nat | j < |GROUPS| && Shares(phase, j)
      ensures GROUPS[j] == GROUPS[i]
    {
      ShareOfGroup(phase, j);
      OneShare(phase, start, end, leads, GROUPS[j].start, GROUPS[j].end, phase == GROUPS[j].lead);
      GroupBounds();
    }
    GroupWithIs(phase, GROUPS, GROUPS[i]);
  }

  /** A line that counts is one of the two kinds. */
  lemma ActivityReports(l: Log) returns (phase: string, state: string, leads: bool)
    requires MarkOf(l).Activity?
    ensures ReportsPhase(l, phase, state, MarkOf(l).group.start, MarkOf(l).group.end, leads)
  {
    var params, group := l.body.messageParams.value, MarkOf(l).group;
    phase, state := params["phase"].text, params["state"].text;
    leads := phase == group.lead;
    GroupWithSome(phase, GROUPS);
    var i: nat :| i < |GROUPS| && GROUPS[i] == group;
    ShareOfGroup(phase, i);
  }

  lemma GroupLevelStarts(marks: set<Mark>, g: Group, m: Mark)
    requires m in marks && m.Activity? && m.group == g && g in GROUPS
    ensures Started(marks, g) && GroupLevel(marks, g) >= g.start as real + 1.0
    ensures LeadFinished(marks, g) ==> GroupLevel(marks, g) == g.end as real
    ensures !LeadFinished(marks, g) ==> GroupLevel(marks, g) <= g.end as real - 1.0
  {
    GroupBounds();
    assert m.key in Keys(marks, g);
  }

  /** What single lines do to the progress: an agent's work lifts it to what is reported, at most 98; any line of a share
      lifts it above the share's start, and a finished or skipped leading phase to the share's end. */
  lemma LinesLiftProgress(p: real, actual: real, logs: seq<Log>, l: Log)
    requires IsProgress(p, actual, Marks(logs)) && l in logs
    ensures forall level :: ReportsWork(l, level) ==> (if level < 98.0 then level else 98.0) <= p
    ensures forall phase, state, start: nat, end: nat, leads :: ReportsPhase(l, phase, state, start, end, leads) ==>
              && start as real + 1.0 <= p
              && (leads && (state == "finished" || state == "skipped") ==> end as real <= p)
  {
    var m := MarkOf(l);
    assert m in Marks(logs);
    forall phase, state, start: nat, end: nat, leads | ReportsPhase(l, phase, state, start, end, leads)
      ensures start as real + 1.0 <= p
      ensures leads && (state == "finished" || state == "skipped") ==> end as real <= p
    {
      PhaseMark(l, phase, state, start, end, leads);
      GroupLevelStarts(Marks(logs), m.group, m);
    }
  }

  /** The line counts towards the share start .. end. */
  ghost predicate InShare(l: Log, start: nat, end: nat) {
    exists phase, state, leads :: ReportsPhase(l, phase, state, start, end, leads)
  }

  /** What tells two lines of a share apart. */
  function LineKey(l: Log): string
    requires l.body.messageParams.Some?
  {
    var params := l.body.messageParams.value;
    Rendered(params, "phase") + ":" + Rendered(params, "state") + ":"
    + Rendered(params, "method") + ":" + Rendered(params, "url")
  }

  /** The distinct keys of the lines of a share. */
  ghost function ShareKeys(logs: seq<Log>, start: nat, end: nat): set<string> {
    set l | l in logs && InShare(l, start, end) :: LineKey(l)
  }

  lemma InShareMark(l: Log, g: Group)
    requires g in GROUPS
    ensures InShare(l, g.start, g.end) <==> MarkOf(l).Activity? && MarkOf(l).group == g
    ensures InShare(l, g.start, g.end) ==> l.body.messageParams.Some? && MarkOf(l).key == LineKey(l)
  {
    if InShare(l, g.start, g.end) {
      var phase, state, leads :| ReportsPhase(l, phase, state, g.start, g.end, leads);
      PhaseMark(l, phase, state, g.start, g.end, leads);
      GroupBounds();
    }
    if MarkOf(l).Activity? && MarkOf(l).group == g {
      var phase, state, leads := ActivityReports(l);
    }
  }

  lemma KeysAreShareKeys(logs: seq<Log>, g: Group)
    requires g in GROUPS
    ensures Keys(Marks(logs), g) == ShareKeys(logs, g.start, g.end)
  {
    forall key
      ensures key in Keys(Marks(logs), g) <==> key in ShareKeys(logs, g.start, g.end)
    {
      if key in Keys(Marks(logs), g) {
        var m :| m in Marks(logs) && m.Activity? && m.group == g && m.key == key;
        var l :| l in logs && MarkOf(l) == m;
        InShareMark(l, g);
      }
      if key in ShareKeys(logs, g.start, g.end) {
        var l :| l in logs && InShare(l, g.start, g.end) && LineKey(l) == key;
        InShareMark(l, g);
        assert MarkOf(l) in Marks(logs);
      }
    }
  }

  /** One point for each distinct line, short of the end. */
  function Partly(start: nat, end: nat, count: nat): real {
    if start + count < end then (start + count) as real else end as real - 1.0
  }

  /** The progress a line of a share accounts for: its end, if the leading phase was finished or skipped,
      or one point for each distinct line of the share, short of its end. */
  ghost predicate LiftedBy(p: real, logs: seq<Log>, l: Log, start: nat, end: nat) {
    exists phase, state, leads ::
      && ReportsPhase(l, phase, state, start, end, leads)
      && if leads && (state == "finished" || state == "skipped") then p == end as real
         else p == Partly(start, end, |ShareKeys(logs, start, end)|)
  }

  /** Nothing else lifts it: progress above the actual one is what some agent reported, capped at 98,
      or what some line of a share accounts for. */
  lemma OnlyLinesLift(p: real, actual: real, logs: seq<Log>)
    requires IsProgress(p, actual, Marks(logs)) && p != actual
    ensures (exists l, level :: l in logs && ReportsWork(l, level) && p == if level < 98.0 then level else 98.0)
         || (exists l, start: nat, end: nat :: l in logs && LiftedBy(p, logs, l, start, end))
  {
    var marks := Marks(logs);
    if FromAgent(marks, p) {
      var m :| m in marks && m.AgentWork? && p == Min(98.0, m.level);
      var l :| l in logs && MarkOf(l) == m;
      assert ReportsWork(l, m.level) && p == if m.level < 98.0 then m.level else 98.0;
    } else {
      var g :| Started(marks, g) && p == GroupLevel(marks, g);
      GroupLifts(p, logs, g);
    }
  }

  lemma LevelByCount(logs: seq<Log>, g: Group)
    requires g in GROUPS && !LeadFinished(Marks(logs), g)
    ensures GroupLevel(Marks(logs), g) == Partly(g.start, g.end, |ShareKeys(logs, g.start, g.end)|)
  {
    KeysAreShareKeys(logs, g);
  }

  lemma GroupLifts(p: real, logs: seq<Log>, g: Group)
    requires Started(Marks(logs), g) && p == GroupLevel(Marks(logs), g)
    ensures exists l :: l in logs && LiftedBy(p, logs, l, g.start, g.end)
  {
    var m := WitnessOf(Marks(logs), g);
    var l :| l in logs && MarkOf(l) == m;
    var phase, state, leads := ActivityReports(l);
    PhaseMark(l, phase, state, g.start, g.end, leads);
    if LeadFinished(Marks(logs), g) {
      assert p == g.end as real;
    } else {
      assert !m.finished;
      LevelByCount(logs, g);
    }
    assert LiftedBy(p, logs, l, g.start, g.end);
  }

  /** A line of a started group, one that finishes it if there is one. */
  lemma WitnessOf(marks: set<Mark>, g: Group) returns (m: Mark)
    requires Started(marks, g)
    ensures m in marks && m.Activity? && m.group == g && (LeadFinished(marks, g) ==> m.finished)
  {
    if LeadFinished(marks, g) {
      m :| m in marks && m.Activity? && m.group == g && m.finished;
    } else {
      var key :| key in Keys(marks, g);
      m :| m in marks && m.Activity? && m.group == g && m.key == key;
    }
  }
}
