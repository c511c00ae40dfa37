/** Compiling Scope exclusions and execution limits into target policies
    (_apply_scope_host_exclusions and _apply_policy_caps in src/aidast/cli.py). */
module HostPolicy {
  import opened Options
  import opened Orders
  import opened HostNames

  datatype Limits = Limits(rps: real, maxRequests: int, maxDepth: int, concurrency: int, timeoutSeconds: int)

  /** A target policy: the fields the two steps read or write; "rateGrounded" says that the rate limit has evidence of its own. */
  datatype Policy = Policy(
    asset: string, wildcard: bool, allowedHosts: seq<string>, excludedHosts: seq<string>,
    limits: Limits, rateGrounded: bool, ffufEnabled: bool, ffufRecursion: bool)

  // ----- Host exclusions -----

  function PatternOf(asset: string): string {
    RStripDots(Lower(Strip(asset)))
  }

  /** Hostname-shaped exclusions, normalised. */
  function Patterns(assets: seq<string>): seq<string> {
    if assets == [] then []
    else if IsHostname(DropStar(PatternOf(assets[0]))) then [PatternOf(assets[0])] + Patterns(assets[1..])
    else Patterns(assets[1..])
  }

  function Root(p: Policy): string {
    DropStar(Normal(p.asset))
  }

  predicate Below(host: string, root: string) {
    EndsWith(host, "." + root)
  }

  /** The exclusions that concern the policy's target. */
  function Applicable(patterns: seq<string>, root: string): seq<string> {
    if patterns == [] then []
    else if DropStar(patterns[0]) == root || Below(DropStar(patterns[0]), root) then
      [patterns[0]] + Applicable(patterns[1..], root)
    else Applicable(patterns[1..], root)
  }

  predicate KeepsOwn(wildcard: bool, host: string, root: string) {
    wildcard && DropStar(Normal(host)) != root && Below(DropStar(Normal(host)), root)
  }

  /** The policy's own exclusions strictly below a wildcard's root stay. */
  function Own(hosts: seq<string>, wildcard: bool, root: string): seq<string> {
    if hosts == [] then []
    else if KeepsOwn(wildcard, hosts[0], root) then [Normal(hosts[0])] + Own(hosts[1..], wildcard, root)
    else Own(hosts[1..], wildcard, root)
  }

  function Excluded(p: Policy, assets: seq<string>): seq<string> {
    SortedDistinct(Own(p.excludedHosts, p.wildcard, Root(p)) + Applicable(Patterns(assets), Root(p)))
  }

  /** An excluded apex of a wildcard is replaced by its subdomains. */
  function WithoutApex(hosts: seq<string>, root: string): seq<string> {
    seq(|hosts|, i requires 0 <= i < |hosts| => if Normal(hosts[i]) == root then "*." + root else hosts[i])
  }

  function Narrowed(p: Policy, assets: seq<string>): Policy {
    var excluded := Excluded(p, assets);
    p.(excludedHosts := excluded,
       allowedHosts := if p.wildcard && Root(p) in excluded then WithoutApex(p.allowedHosts, Root(p)) else p.allowedHosts)
  }

  /** Narrows every policy; one that the validator rejects fails the whole compilation. */
  method ApplyScopeHostExclusions<Key(==)>(policies: seq<(Key, Policy)>, assets: seq<string>, valid: Policy -> bool)
    returns (r: Result<seq<(Key, Policy)>>)
    ensures r.Ok? <==> forall i :: 0 <= i < |policies| ==> valid(Narrowed(policies[i].1, assets))
    ensures r.Ok? ==> |r.value| == |policies|
    ensures r.Ok? ==> forall i :: 0 <= i < |policies| ==> r.value[i] == (policies[i].0, Narrowed(policies[i].1, assets))
  {
    var result: seq<(Key, Policy)> := [];
    for n := 0 to |policies|
      invariant |result| == n
      invariant forall i :: 0 <= i < n ==> result[i] == (policies[i].0, Narrowed(policies[i].1, assets)) && valid(result[i].1)
    {
      var narrowed := Narrowed(policies[n].1, assets);
      if !valid(narrowed) {
        return Err("Scope host exclusions make target policy unsafe");
      }
      result := result + [(policies[n].0, narrowed)];
    }
    r := Ok(result);
  }

  lemma {:induction false} PatternsMembers(assets: seq<string>)
    ensures forall x :: x in Patterns(assets) <==>
                          exists i :: 0 <= i < |assets| && PatternOf(assets[i]) == x && IsHostname(DropStar(x))
  {
    if assets == [] {
    } else {
      PatternsMembers(assets[1..]);
      assert forall i :: 0 < i < |assets| ==> assets[i] == assets[1..][i - 1];
      assert forall i :: 0 <= i < |assets| - 1 ==> assets[1..][i] == assets[i + 1];
    }
  }

  lemma {:induction false} ApplicableMembers(patterns: seq<string>, root: string)
    ensures forall x :: x in Applicable(patterns, root) <==>
                          x in patterns && (DropStar(x) == root || Below(DropStar(x), root))
  {
    if patterns == [] {
    } else {
      assert patterns == [patterns[0]] + patterns[1..];
      ApplicableMembers(patterns[1..], root);
    }
  }

  /** "x" is the normal form of the policy's own exclusion "h", which stays. */
  predicate OwnFrom(hosts: seq<string>, wildcard: bool, root: string, x: string, h: string) {
    h in hosts && Normal(h) == x && KeepsOwn(wildcard, h, root)
  }

  lemma {:induction false} OwnMembers(hosts: seq<string>, wildcard: bool, root: string)
    ensures forall x :: x in Own(hosts, wildcard, root) <==> exists h :: OwnFrom(hosts, wildcard, root, x, h)
  {
    if hosts == [] {
    } else {
      var first, rest := hosts[0], hosts[1..];
      OwnMembers(rest, wildcard, root);
      assert hosts == [first] + rest;
      forall x
        ensures x in Own(hosts, wildcard, root) <==> exists h :: OwnFrom(hosts, wildcard, root, x, h)
      {
        assert forall h :: OwnFrom(hosts, wildcard, root, x, h) <==>
                           OwnFrom(rest, wildcard, root, x, h) || (h == first && OwnFrom([first], wildcard, root, x, h));
        assert OwnFrom(hosts, wildcard, root, x, first) <==> Normal(first) == x && KeepsOwn(wildcard, first, root);
      }
    }
  }

  lemma PatternsNormal(assets: seq<string>)
    ensures forall x :: x in Patterns(assets) ==> IsNormal(x)
  {
    PatternsMembers(assets);
    forall x | x in Patterns(assets)
      ensures IsNormal(x)
    {
      var i :| 0 <= i < |assets| && PatternOf(assets[i]) == x;
      NormalIsNormal(Strip(assets[i]));
    }
  }

  lemma ExcludedMembers(p: Policy, assets: seq<string>)
    ensures forall x :: x in Excluded(p, assets) <==>
                          x in Own(p.excludedHosts, p.wildcard, Root(p)) || x in Applicable(Patterns(assets), Root(p))
  {
    var all := Own(p.excludedHosts, p.wildcard, Root(p)) + Applicable(Patterns(assets), Root(p));
    SortedDistinctMembers(all);
    assert forall x :: x in SortedDistinct(all) <==> x in Elems(SortedDistinct(all));
    assert forall x :: x in all <==> x in Elems(all);
  }

  /** The host lies strictly below the root: some name, a dot, the root. */
  ghost predicate StrictlyBelow(host: string, root: string) {
    exists name :: host == name + "." + root
  }

  lemma BelowIsStrictly(host: string, root: string)
    ensures Below(host, root) <==> StrictlyBelow(host, root)
  {
    var suffix := "." + root;
    if Below(host, root) {
      var name := host[..|host| - |suffix|];
      assert host == name + suffix;
      assert name + suffix == name + "." + root;
    }
    if StrictlyBelow(host, root) {
      var name :| host == name + "." + root;
      assert host == name + suffix;
      assert host[|name|..] == suffix;
    }
  }

  /** "x" is the pattern of the out-of-scope asset "a", shaped like a hostname and at or below the root. */
  ghost predicate NamedBy(assets: seq<string>, root: string, x: string, a: string) {
    && a in assets && PatternOf(a) == x && IsHostname(DropStar(x))
    && (DropStar(x) == root || StrictlyBelow(DropStar(x), root))
  }

  /** "x" is the normal form of the wildcard policy's own exclusion "h", strictly below the root. */
  ghost predicate OwnExclusion(p: Policy, x: string, h: string) {
    && p.wildcard && h in p.excludedHosts && Normal(h) == x
    && DropStar(x) != Root(p) && StrictlyBelow(DropStar(x), Root(p))
  }

  /** The compiled exclusions are exactly those named by an asset, and for a wildcard policy its own ones
      that lie strictly below the root. */
  lemma ExcludedExactly(p: Policy, assets: seq<string>)
    ensures forall x :: x in Narrowed(p, assets).excludedHosts <==>
              (exists h :: OwnExclusion(p, x, h)) || (exists a :: NamedBy(assets, Root(p), x, a))
  {
    ExcludedMembers(p, assets);
    OwnMembers(p.excludedHosts, p.wildcard, Root(p));
    ApplicableMembers(Patterns(assets), Root(p));
    PatternsMembers(assets);
    forall x
      ensures x in Applicable(Patterns(assets), Root(p)) <==> exists a :: NamedBy(assets, Root(p), x, a)
    {
      BelowIsStrictly(DropStar(x), Root(p));
      if x in Applicable(Patterns(assets), Root(p)) {
        var i :| 0 <= i < |assets| && PatternOf(assets[i]) == x && IsHostname(DropStar(x));
        assert NamedBy(assets, Root(p), x, assets[i]);
      }
    }
    forall x
      ensures x in Own(p.excludedHosts, p.wildcard, Root(p)) <==> exists h :: OwnExclusion(p, x, h)
    {
      BelowIsStrictly(DropStar(x), Root(p));
      forall h
        ensures OwnFrom(p.excludedHosts, p.wildcard, Root(p), x, h) <==> OwnExclusion(p, x, h)
      {
      }
    }
  }

  /** Narrowing touches the two host lists only, the allowed one only when a wildcard's apex is excluded;
      the compiled exclusions are in text order, each once. */
  lemma NarrowedElsewhere(p: Policy, assets: seq<string>)
    ensures var q := Narrowed(p, assets);
            && q == p.(excludedHosts := q.excludedHosts, allowedHosts := q.allowedHosts)
            && (!(p.wildcard && Root(p) in q.excludedHosts) ==> q.allowedHosts == p.allowedHosts)
            && SortedBy(Precedes, q.excludedHosts)
  {
    SortedDistinctMembers(Own(p.excludedHosts, p.wildcard, Root(p)) + Applicable(Patterns(assets), Root(p)));
  }

  /** Every hostname-shaped exclusion at or below the root ends up in the compiled policy. */
  lemma ExclusionsEnforced(p: Policy, assets: seq<string>, i: nat)
    requires i < |assets| && IsHostname(DropStar(PatternOf(assets[i])))
    requires DropStar(PatternOf(assets[i])) == Root(p) || Below(DropStar(PatternOf(assets[i])), Root(p))
    ensures PatternOf(assets[i]) in Narrowed(p, assets).excludedHosts
  {
    PatternsMembers(assets);
    ApplicableMembers(Patterns(assets), Root(p));
    ExcludedMembers(p, assets);
  }

  /** Order and repetition of the exclusions do not matter. */
  lemma ExclusionOrderIrrelevant(p: Policy, a: seq<string>, b: seq<string>)
    requires Elems(a) == Elems(b)
    ensures Narrowed(p, a) == Narrowed(p, b)
  {
    assert forall x :: x in a <==> x in Elems(a);
    assert forall x :: x in b <==> x in Elems(b);
    SamePatterns(a, b);
    SamePatterns(b, a);
    ApplicableMembers(Patterns(a), Root(p));
    ApplicableMembers(Patterns(b), Root(p));
    var own := Own(p.excludedHosts, p.wildcard, Root(p));
    SortedDistinctCanonical(own + Applicable(Patterns(a), Root(p)), own + Applicable(Patterns(b), Root(p)));
  }

  lemma SamePatterns(a: seq<string>, b: seq<string>)
    requires forall x :: x in a ==> x in b
    ensures forall x :: x in Patterns(a) ==> x in Patterns(b)
  {
    PatternsMembers(a);
    PatternsMembers(b);
    forall x | x in Patterns(a)
      ensures x in Patterns(b)
    {
      var i :| 0 <= i < |a| && PatternOf(a[i]) == x && IsHostname(DropStar(x));
      assert a[i] in b;
    }
  }

  lemma RootNormal(p: Policy)
    ensures IsNormal(Root(p))
  {
    NormalIsNormal(p.asset);
    DropStarNormal(Normal(p.asset));
  }

  /** When a wildcard's apex is excluded no allowed host is the apex any more; each one that was allows subdomains only. */
  lemma ApexReplaced(p: Policy, assets: seq<string>, i: nat)
    requires p.wildcard && Root(p) in Narrowed(p, assets).excludedHosts && i < |p.allowedHosts|
    ensures var hosts := Narrowed(p, assets).allowedHosts;
            && |hosts| == |p.allowedHosts| && Normal(hosts[i]) != Root(p)
            && hosts[i] == if Normal(p.allowedHosts[i]) == Root(p) then "*." + Root(p) else p.allowedHosts[i]
  {
    RootNormal(p);
    StarDiffers(Root(p));
  }

  lemma OwnAfterNarrowing(p: Policy, assets: seq<string>)
    ensures var q, root := Narrowed(p, assets), Root(p);
            forall x :: x in Own(q.excludedHosts, q.wildcard, root) <==> x in q.excludedHosts && KeepsOwn(p.wildcard, x, root)
  {
    var q, root := Narrowed(p, assets), Root(p);
    OwnMembers(q.excludedHosts, q.wildcard, root);
    forall x | x in q.excludedHosts
      ensures Normal(x) == x
    {
      ExcludedNormal(p, assets, x);
      NormalFixes(x);
    }
    forall x
      ensures x in Own(q.excludedHosts, q.wildcard, root) <==> x in q.excludedHosts && KeepsOwn(p.wildcard, x, root)
    {
      assert x in q.excludedHosts ==> (OwnFrom(q.excludedHosts, q.wildcard, root, x, x) <==> KeepsOwn(p.wildcard, x, root));
    }
  }

  lemma ExcludedNormal(p: Policy, assets: seq<string>, x: string)
    requires x in Excluded(p, assets)
    ensures IsNormal(x)
    ensures x in Own(p.excludedHosts, p.wildcard, Root(p)) ==> KeepsOwn(p.wildcard, x, Root(p))
  {
    ExcludedMembers(p, assets);
    OwnMembers(p.excludedHosts, p.wildcard, Root(p));
    ApplicableMembers(Patterns(assets), Root(p));
    PatternsNormal(assets);
    if x in Own(p.excludedHosts, p.wildcard, Root(p)) {
      var h :| OwnFrom(p.excludedHosts, p.wildcard, Root(p), x, h);
      NormalIsNormal(h);
      NormalFixes(x);
    }
  }

  /** Compiling twice is compiling once. */
  lemma NarrowingIdempotent(p: Policy, assets: seq<string>)
    ensures Narrowed(Narrowed(p, assets), assets) == Narrowed(p, assets)
  {
    var q, root := Narrowed(p, assets), Root(p);
    assert Root(q) == root;
    OwnAfterNarrowing(p, assets);
    ExcludedMembers(p, assets);
    var own, own' := Own(p.excludedHosts, p.wildcard, root), Own(q.excludedHosts, q.wildcard, root);
    var applicable := Applicable(Patterns(assets), root);
    forall x
      ensures x in own' + applicable <==> x in own + applicable
    {
      if x in own {
        ExcludedNormal(p, assets, x);
      }
    }
    assert Elems(own' + applicable) == Elems(own + applicable);
    SortedDistinctCanonical(own' + applicable, own + applicable);
    if p.wildcard && root in q.excludedHosts {
      forall i | 0 <= i < |q.allowedHosts|
        ensures Normal(q.allowedHosts[i]) != root
      {
        ApexReplaced(p, assets, i);
      }
      assert WithoutApex(q.allowedHosts, root) == q.allowedHosts;
    }
  }

  // ----- Limits -----

  datatype Profile = SafeRecon | FocusedDiscovery | BugBountySafe

  /** What the caller asked for. */
  datatype Caps = Caps(
    profile: Option<Profile>, scopeMaxRps: Option<real>, maxRps: Option<real>,
    maxRequests: Option<int>, maxDepth: Option<int>, maxConcurrency: Option<int>, timeoutSeconds: Option<int>)

  function ProfileLimits(p: Profile): Limits {
    match p
    case SafeRecon => Limits(0.5, 500, 2, 2, 15)
    case FocusedDiscovery => Limits(1.0, 2000, 3, 3, 20)
    case BugBountySafe => Limits(10.0, 500, 2, 2, 15)
  }

  function MinReal(x: real, y: real): real {
    if y < x then y else x
  }

  function Min(x: int, y: int): int {
    if y < x then y else x
  }

  /** The rate ceilings that apply: the policy's own one counts only without a Scope rate or with evidence
      of its own, and the profile's one gives way to a Scope rate unless the profile is bug-bounty-safe. */
  predicate RateCeiling(l: Limits, grounded: bool, c: Caps, x: real) {
    || x == 50.0
    || c.maxRps == Some(x)
    || c.scopeMaxRps == Some(x)
    || ((c.scopeMaxRps.None? || grounded) && x == l.rps)
    || (c.profile.Some? && (c.scopeMaxRps.None? || c.profile == Some(BugBountySafe)) && x == ProfileLimits(c.profile.value).rps)
  }

  /** The rate is the least applicable ceiling. */
  function EffectiveRps(l: Limits, grounded: bool, c: Caps): (rps: real)
    ensures RateCeiling(l, grounded, c, rps)
    ensures forall x :: RateCeiling(l, grounded, c, x) ==> rps <= x
  {
    var policyRps := if c.scopeMaxRps.Some? && !grounded then c.scopeMaxRps.value else l.rps;
    var ceiling :=
      if c.scopeMaxRps.Some? && c.profile == Some(BugBountySafe) then
        MinReal(c.scopeMaxRps.value, ProfileLimits(BugBountySafe).rps)
      else if c.scopeMaxRps.Some? then c.scopeMaxRps.value
      else if c.profile.Some? then ProfileLimits(c.profile.value).rps
      else policyRps;
    var capped := MinReal(MinReal(policyRps, ceiling), 50.0);
    if c.maxRps.Some? then MinReal(capped, c.maxRps.value) else capped
  }

  predicate IsLeast(x: int, ceilings: set<int>) {
    x in ceilings && forall y :: y in ceilings ==> x <= y
  }

  function ProfileOr(c: Caps, l: Limits): Limits {
    if c.profile.Some? then ProfileLimits(c.profile.value) else l
  }

  /** Every limit is the least of the policy's own, the profile's and the caller's; when a profile or a rate
      was asked for, a rate below one request a second also allows one connection only. */
  function Capped(l: Limits, grounded: bool, c: Caps): (r: Limits)
    ensures r.rps == EffectiveRps(l, grounded, c)
    ensures IsLeast(r.maxRequests, {l.maxRequests, ProfileOr(c, l).maxRequests, c.maxRequests.GetOr(100_000)})
    ensures IsLeast(r.maxDepth, {l.maxDepth, ProfileOr(c, l).maxDepth, c.maxDepth.GetOr(10)})
    ensures IsLeast(r.timeoutSeconds, {l.timeoutSeconds, ProfileOr(c, l).timeoutSeconds, c.timeoutSeconds.GetOr(120)})
    ensures IsLeast(r.concurrency,
              {l.concurrency, ProfileOr(c, l).concurrency, c.maxConcurrency.GetOr(20)}
              + if r.rps < 1.0 && (c.profile.Some? || c.maxRps.Some?) then {1} else {})
  {
    var rps := EffectiveRps(l, grounded, c);
    var prof := ProfileOr(c, l);
    var slow := rps < 1.0 && (c.profile.Some? || c.maxRps.Some?);
    Limits(
      rps,
      Min(Min(l.maxRequests, prof.maxRequests), c.maxRequests.GetOr(100_000)),
      Min(Min(l.maxDepth, prof.maxDepth), c.maxDepth.GetOr(10)),
      Min(Min(Min(l.concurrency, prof.concurrency), c.maxConcurrency.GetOr(20)), if slow then 1 else l.concurrency),
      Min(Min(l.timeoutSeconds, prof.timeoutSeconds), c.timeoutSeconds.GetOr(120)))
  }

  /** Only the limits and the two switches change; the bug-bounty-safe profile turns both off. */
  function WithCaps(p: Policy, c: Caps): (q: Policy)
    ensures q == p.(limits := q.limits, ffufEnabled := q.ffufEnabled, ffufRecursion := q.ffufRecursion)
    ensures c.profile == Some(BugBountySafe) ==> !q.ffufEnabled && !q.ffufRecursion
    ensures c.profile != Some(BugBountySafe) ==> q.ffufEnabled == p.ffufEnabled && q.ffufRecursion == p.ffufRecursion
    ensures q.limits == Capped(p.limits, p.rateGrounded, c)
  {
    var safe := c.profile == Some(BugBountySafe);
    p.(limits := Capped(p.limits, p.rateGrounded, c),
       ffufEnabled := p.ffufEnabled && !safe, ffufRecursion := p.ffufRecursion && !safe)
  }

  /** The policy's own rate is exceeded exactly when a Scope rate replaces an ungrounded one and the Scope rate,
      the fixed one, the caller's and, under the bug-bounty-safe profile, that profile's are all higher. */
  lemma RateRaisedExactlyWhen(l: Limits, grounded: bool, c: Caps)
    ensures EffectiveRps(l, grounded, c) > l.rps <==>
              && !grounded && c.scopeMaxRps.Some? && c.scopeMaxRps.value > l.rps
              && l.rps < 50.0 && (c.maxRps.Some? ==> c.maxRps.value > l.rps)
              && (c.profile == Some(BugBountySafe) ==> l.rps < ProfileLimits(BugBountySafe).rps)
  {
  }

  /** For instance, a Scope rate of five requests a second lifts an ungrounded limit of one. */
  lemma ScopeRateRaises(l: Limits)
    requires l.rps == 1.0
    ensures EffectiveRps(l, false, Caps(None, Some(5.0), None, None, None, None, None)) == 5.0
  {
  }

  /** Caps every policy, in order and under its own key. */
  method ApplyPolicyCaps<Key(==)>(policies: seq<(Key, Policy)>, c: Caps) returns (capped: seq<(Key, Policy)>)
    ensures |capped| == |policies|
    ensures forall i :: 0 <= i < |policies| ==> capped[i] == (policies[i].0, WithCaps(policies[i].1, c))
  {
    capped := [];
    for n := 0 to |policies|
      invariant |capped| == n
      invariant forall i :: 0 <= i < n ==> capped[i] == (policies[i].0, WithCaps(policies[i].1, c))
    {
      capped := capped + [(policies[n].0, WithCaps(policies[n].1, c))];
    }
  }

  /** Capping twice is capping once. */
  lemma CappingIdempotent(p: Policy, c: Caps)
    ensures WithCaps(WithCaps(p, c), c) == WithCaps(p, c)
  {
    var l := Capped(p.limits, p.rateGrounded, c);
    assert EffectiveRps(l, p.rateGrounded, c) == l.rps;
    assert Capped(l, p.rateGrounded, c) == l;
  }

  /** The two steps do not interfere: capping keeps every exclusion, and doing both again changes nothing. */
  lemma CompilationIdempotent(p: Policy, assets: seq<string>, c: Caps)
    ensures var q := WithCaps(Narrowed(p, assets), c);
            && q.excludedHosts == Narrowed(p, assets).excludedHosts && q.allowedHosts == Narrowed(p, assets).allowedHosts
            && q == Narrowed(WithCaps(p, c), assets)
            && WithCaps(Narrowed(q, assets), c) == q
  {
    var n := Narrowed(p, assets);
    var q := WithCaps(n, c);
    assert Narrowed(WithCaps(p, c), assets) == q;
    NarrowingIdempotent(p, assets);
    NarrowingIdempotent(WithCaps(p, c), assets);
    CappingIdempotent(n, c);
  }
}
