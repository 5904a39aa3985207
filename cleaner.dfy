/**
 * Orphan cleanup after GSM process generation (sernet.verinice.bpm.gsm.Cleaner):
 * every incident scenario of an organization without a link to an asset is
 * removed together with its linked controls and vulnerabilities, controls
 * first, then vulnerabilities, then the scenario.
 *
 * The command service is an append-only log of removal requests; whether a
 * removal succeeds is decided by an arbitrary oracle over the log so far.
 */
module GsmCleaner {
  import opened Wrappers
  import opened Graphs

  // Type and relation ids of the ISO 27000 model classes.
  const ASSET: TypeId := "asset"
  const INCIDENT_SCENARIO: TypeId := "incident_scenario"
  const CONTROL: TypeId := "control"
  const VULNERABILITY: TypeId := "vulnerability"
  const REL_INCSCEN_ASSET: RelationId := "rel_incscen_asset"
  const REL_INCSCEN_VULNERABILITY: RelationId := "rel_incscen_vulnerability"
  const REL_CONTROL_INCSCEN: RelationId := "rel_control_incscen"

  const TYPE_IDS: seq<TypeId> := [ASSET, INCIDENT_SCENARIO, CONTROL, VULNERABILITY]
  const RELATION_IDS: seq<RelationId> := [REL_INCSCEN_ASSET, REL_INCSCEN_VULNERABILITY, REL_CONTROL_INCSCEN]

  /** The one create call of initGraph: one loader over the four types, scoped to the organization (None: the Integer id is null). */
  function CleanupRequest(orgId: Option<int>): GraphRequest {
    Create([Loader(TYPE_IDS, orgId)], Some(RELATION_IDS))
  }

  /** A scenario without any asset link. */
  predicate IsOrphan(g: Graph, s: ElementId) {
    |GetLinkTargets(g, s, REL_INCSCEN_ASSET)| == 0
  }

  /** The removals for one orphan, in the order they are issued. */
  function RemovalBlock(g: Graph, s: ElementId): seq<ElementId> {
    GetLinkTargets(g, s, REL_CONTROL_INCSCEN) + GetLinkTargets(g, s, REL_INCSCEN_VULNERABILITY) + [s]
  }

  /** The removals for a scan over `scenarios`, if none fails. */
  function RemovalPlan(g: Graph, scenarios: seq<ElementId>): seq<ElementId>
    decreases |scenarios|
  {
    if scenarios == [] then []
    else
      var last := scenarios[|scenarios| - 1];
      RemovalPlan(g, scenarios[..|scenarios| - 1]) + (if IsOrphan(g, last) then RemovalBlock(g, last) else [])
  }

  /**
   * Whether the command service accepts the removal of an element as the
   * n-th command it executes (counting from 0).
   */
  type Acceptor = (nat, ElementId) -> bool

  /**
   * The index of the first removal of plan[k..] that fails when plan[0] is
   * the n-th command, or |plan| when none of them fails.
   */
  function FirstFailure(accepts: Acceptor, n: nat, plan: seq<ElementId>, k: nat): (r: nat)
    requires k <= |plan|
    ensures k <= r <= |plan|
    ensures forall i :: k <= i < r ==> accepts(n + i, plan[i])
    ensures r < |plan| ==> !accepts(n + r, plan[r])
    decreases |plan| - k
  {
    if k == |plan| then k
    else if accepts(n + k, plan[k]) then FirstFailure(accepts, n, plan, k + 1)
    else k
  }

  /** Every removal of `plan` succeeds when the first is the n-th command. */
  predicate Completes(accepts: Acceptor, n: nat, plan: seq<ElementId>) {
    FirstFailure(accepts, n, plan, 0) == |plan|
  }

  /** The removals actually issued for `plan`: up to and including the first that fails. */
  function Issued(accepts: Acceptor, n: nat, plan: seq<ElementId>): seq<ElementId> {
    var f := FirstFailure(accepts, n, plan, 0);
    if f == |plan| then plan else plan[..f + 1]
  }

  /** An unbroken run of successes ended by a failure (or by the end) locates the first failure. */
  lemma FirstFailureUnique(accepts: Acceptor, n: nat, plan: seq<ElementId>, r: nat)
    requires r <= |plan|
    requires forall i :: 0 <= i < r ==> accepts(n + i, plan[i])
    requires r < |plan| ==> !accepts(n + r, plan[r])
    ensures FirstFailure(accepts, n, plan, 0) == r
  {
    var f := FirstFailure(accepts, n, plan, 0);
    assert !(f < r);
    assert !(r < f);
  }

  /** A plan completes exactly when each of its removals succeeds in its turn. */
  lemma CompletesIff(accepts: Acceptor, n: nat, plan: seq<ElementId>)
    ensures Completes(accepts, n, plan) <==> forall i :: 0 <= i < |plan| ==> accepts(n + i, plan[i])
  {
    if forall i :: 0 <= i < |plan| ==> accepts(n + i, plan[i]) {
      FirstFailureUnique(accepts, n, plan, |plan|);
    }
  }

  /**
   * The first failed removal is the last one issued: what is issued is a
   * prefix of the plan, every removal before the last succeeded, the whole
   * plan is issued when nothing fails, and the last one failed otherwise.
   */
  lemma IssuedStopsAtFirstFailure(accepts: Acceptor, n: nat, p: seq<ElementId>)
    ensures var r := Issued(accepts, n, p);
      && |r| <= |p| && r == p[..|r|]
      && (forall i :: 0 <= i < |r| - 1 ==> accepts(n + i, r[i]))
      && (Completes(accepts, n, p) ==> r == p)
      && (!Completes(accepts, n, p) ==> r != [] && !accepts(n + |r| - 1, r[|r| - 1]))
  {
  }

  /** Issuing p + q: all of p's removals, and q's only when all of p succeeded. */
  lemma IssuedAppend(accepts: Acceptor, n: nat, p: seq<ElementId>, q: seq<ElementId>)
    ensures Completes(accepts, n, p + q) == (Completes(accepts, n, p) && Completes(accepts, n + |p|, q))
    ensures Issued(accepts, n, p + q) ==
      Issued(accepts, n, p) + (if Completes(accepts, n, p) then Issued(accepts, n + |p|, q) else [])
  {
    var pq := p + q;
    var f := FirstFailure(accepts, n, p, 0);
    if f < |p| {
      FirstFailureUnique(accepts, n, pq, f);
      assert pq[..f + 1] == p[..f + 1];
    } else {
      var g := FirstFailure(accepts, n + |p|, q, 0);
      forall i | 0 <= i < |p| + g
        ensures accepts(n + i, pq[i])
      {
        if i >= |p| {
          assert pq[i] == q[i - |p|];
          assert accepts(n + |p| + (i - |p|), q[i - |p|]);
        }
      }
      if g < |q| {
        assert pq[|p| + g] == q[g];
      }
      FirstFailureUnique(accepts, n, pq, |p| + g);
      if g < |q| {
        assert pq[..|p| + g + 1] == p + q[..g + 1];
      }
    }
  }

  lemma IssuedSingle(accepts: Acceptor, n: nat, s: ElementId)
    ensures Issued(accepts, n, [s]) == [s]
    ensures Completes(accepts, n, [s]) == accepts(n, s)
  {
    assert [s][..1] == [s];
  }

  lemma AppendAssoc(a: seq<ElementId>, b: seq<ElementId>, c: seq<ElementId>)
    ensures a + b + c == a + (b + c)
  {
  }

  /** A block whose removals of controls fail: nothing after the failure is issued. */
  lemma BlockFailsAtControls(accepts: Acceptor, h: seq<ElementId>, cs: seq<ElementId>,
                             vs: seq<ElementId>, s: ElementId)
    requires !Completes(accepts, |h|, cs)
    ensures h + Issued(accepts, |h|, cs) == h + Issued(accepts, |h|, cs + vs + [s])
    ensures !Completes(accepts, |h|, cs + vs + [s])
  {
    assert cs + vs + [s] == cs + (vs + [s]);
    IssuedAppend(accepts, |h|, cs, vs + [s]);
  }

  /** A block whose controls are removed and whose removals of vulnerabilities fail. */
  lemma BlockFailsAtVulnerabilities(accepts: Acceptor, h: seq<ElementId>, cs: seq<ElementId>,
                                    vs: seq<ElementId>, s: ElementId)
    requires Completes(accepts, |h|, cs) && !Completes(accepts, |h + cs|, vs)
    ensures h + cs + Issued(accepts, |h + cs|, vs) == h + Issued(accepts, |h|, cs + vs + [s])
    ensures !Completes(accepts, |h|, cs + vs + [s])
  {
    assert cs + vs + [s] == cs + (vs + [s]);
    IssuedAppend(accepts, |h|, cs, vs + [s]);
    IssuedAppend(accepts, |h + cs|, vs, [s]);
    AppendAssoc(h, cs, Issued(accepts, |h + cs|, vs));
  }

  /** A block whose controls and vulnerabilities are removed: the scenario decides the outcome. */
  lemma BlockReachesScenario(accepts: Acceptor, h: seq<ElementId>, cs: seq<ElementId>,
                             vs: seq<ElementId>, s: ElementId)
    requires Completes(accepts, |h|, cs) && Completes(accepts, |h + cs|, vs)
    ensures h + cs + vs + [s] == h + Issued(accepts, |h|, cs + vs + [s])
    ensures Completes(accepts, |h|, cs + vs + [s]) == accepts(|h + cs + vs|, s)
  {
    var both := cs + vs;
    IssuedAppend(accepts, |h|, cs, vs);
    IssuedAppend(accepts, |h|, both, [s]);
    IssuedSingle(accepts, |h| + |both|, s);
    AppendAssoc(h, cs, vs);
    AppendAssoc(h, both, [s]);
  }

  /**
   * The log after the removals for the next scenario, when those for the
   * earlier ones (`done`, after history h) all succeeded.
   */
  lemma ScanIssued(accepts: Acceptor, h: seq<ElementId>, done: seq<ElementId>,
                   next: seq<ElementId>, rest: seq<ElementId>)
    requires Completes(accepts, |h|, done)
    ensures Completes(accepts, |h|, done + next) == Completes(accepts, |h + done|, next)
    ensures Completes(accepts, |h + done|, next) ==>
      h + done + Issued(accepts, |h + done|, next) == h + (done + next)
    ensures !Completes(accepts, |h + done|, next) ==>
      h + done + Issued(accepts, |h + done|, next) == h + Issued(accepts, |h|, done + next + rest)
  {
    IssuedAppend(accepts, |h|, done, next);
    if Completes(accepts, |h + done|, next) {
      AppendAssoc(h, done, next);
    } else {
      IssuedAppend(accepts, |h|, done + next, rest);
      AppendAssoc(h, done, Issued(accepts, |h + done|, next));
    }
  }

  lemma {:induction false} PlanStep(g: Graph, ss: seq<ElementId>, i: nat)
    requires i < |ss|
    ensures RemovalPlan(g, ss[..i + 1]) ==
      RemovalPlan(g, ss[..i]) + (if IsOrphan(g, ss[i]) then RemovalBlock(g, ss[i]) else [])
    ensures RemovalPlan(g, ss) == RemovalPlan(g, ss[..i + 1]) + RemovalPlan(g, ss[i + 1..])
  {
    assert ss[..i + 1][..i] == ss[..i];
    assert ss == ss[..i + 1] + ss[i + 1..];
    PlanConcat(g, ss[..i + 1], ss[i + 1..]);
  }

  lemma {:induction false} PlanConcat(g: Graph, a: seq<ElementId>, b: seq<ElementId>)
    ensures RemovalPlan(g, a + b) == RemovalPlan(g, a) + RemovalPlan(g, b)
    decreases |b|
  {
    if b == [] {
      assert a + b == a;
    } else {
      var b' := b[..|b| - 1];
      assert (a + b)[..|a + b| - 1] == a + b';
      PlanConcat(g, a, b');
    }
  }

  /**
   * For an orphan at position i of the scan, its linked controls, then its
   * linked vulnerabilities, then the scenario itself stand in one stretch of
   * the plan, right after the removals of the earlier scenarios.
   */
  lemma {:induction false} RemovalOrder(g: Graph, ss: seq<ElementId>, i: nat)
    requires i < |ss| && IsOrphan(g, ss[i])
    ensures var k := |RemovalPlan(g, ss[..i])|;
      var cs := GetLinkTargets(g, ss[i], REL_CONTROL_INCSCEN);
      var vs := GetLinkTargets(g, ss[i], REL_INCSCEN_VULNERABILITY);
      var plan := RemovalPlan(g, ss);
      && k + |cs| + |vs| < |plan|
      && plan[k..k + |cs|] == cs
      && plan[k + |cs|..k + |cs| + |vs|] == vs
      && plan[k + |cs| + |vs|] == ss[i]
  {
    var cs := GetLinkTargets(g, ss[i], REL_CONTROL_INCSCEN);
    var vs := GetLinkTargets(g, ss[i], REL_INCSCEN_VULNERABILITY);
    var before, after := RemovalPlan(g, ss[..i]), RemovalPlan(g, ss[i + 1..]);
    assert RemovalPlan(g, ss) == before + (cs + vs + [ss[i]]) + after by {
      PlanStep(g, ss, i);
    }
    BlockSlices(before, cs, vs, ss[i], after);
  }

  lemma BlockSlices(before: seq<ElementId>, cs: seq<ElementId>, vs: seq<ElementId>, s: ElementId, after: seq<ElementId>)
    ensures var plan, k := before + (cs + vs + [s]) + after, |before|;
      && k + |cs| + |vs| < |plan|
      && plan[k..k + |cs|] == cs
      && plan[k + |cs|..k + |cs| + |vs|] == vs
      && plan[k + |cs| + |vs|] == s
  {
    var plan, k := before + (cs + vs + [s]) + after, |before|;
    assert plan[k..k + |cs|] == cs;
    assert plan[k + |cs|..k + |cs| + |vs|] == vs;
  }

  /** The graph connects the types the cleanup expects, and each element has one type. */
  ghost predicate WellTyped(g: Graph) {
    && (forall e, t1, t2 :: TypedAs(g, e, t1) && TypedAs(g, e, t2) ==> t1 == t2)
    && (forall s, c :: TypedAs(g, s, INCIDENT_SCENARIO) && c in GetLinkTargets(g, s, REL_CONTROL_INCSCEN) ==>
          TypedAs(g, c, CONTROL))
    && (forall s, v :: TypedAs(g, s, INCIDENT_SCENARIO) && v in GetLinkTargets(g, s, REL_INCSCEN_VULNERABILITY) ==>
          TypedAs(g, v, VULNERABILITY))
  }

  predicate AllScenarios(g: Graph, ss: seq<ElementId>) {
    forall i :: 0 <= i < |ss| ==> TypedAs(g, ss[i], INCIDENT_SCENARIO)
  }

  /**
   * A scenario is removed exactly once when it is a scanned orphan, and
   * never otherwise; a scenario with an asset link is never removed.
   */
  lemma {:induction false} ScenarioRemovals(g: Graph, ss: seq<ElementId>, s: ElementId)
    requires WellTyped(g) && AllScenarios(g, ss) && Distinct(ss)
    requires TypedAs(g, s, INCIDENT_SCENARIO)
    ensures multiset(RemovalPlan(g, ss))[s] == if s in ss && IsOrphan(g, s) then 1 else 0
    decreases |ss|
  {
    if ss != [] {
      var init, last := ss[..|ss| - 1], ss[|ss| - 1];
      assert ss == init + [last];
      assert AllScenarios(g, init) && Distinct(init) by {
        assert forall i :: 0 <= i < |init| ==> init[i] == ss[i];
      }
      ScenarioRemovals(g, init, s);
      var cs := GetLinkTargets(g, last, REL_CONTROL_INCSCEN);
      var vs := GetLinkTargets(g, last, REL_INCSCEN_VULNERABILITY);
      assert TypedAs(g, last, INCIDENT_SCENARIO);
      assert !TypedAs(g, s, CONTROL) && !TypedAs(g, s, VULNERABILITY);
      assert s in cs ==> TypedAs(g, s, CONTROL);
      assert s in vs ==> TypedAs(g, s, VULNERABILITY);
      var added := if IsOrphan(g, last) then RemovalBlock(g, last) else [];
      assert RemovalPlan(g, ss) == RemovalPlan(g, init) + added;
      assert multiset(added)[s] == if IsOrphan(g, last) && s == last then 1 else 0 by {
        if IsOrphan(g, last) {
          assert multiset(added) == multiset(cs) + multiset(vs) + multiset{last};
        }
      }
      assert s == last ==> s !in init;
      assert s in ss <==> s in init || s == last;
    }
  }

  /** No asset is ever among the removals. */
  lemma {:induction false} AssetsNeverRemoved(g: Graph, ss: seq<ElementId>, a: ElementId)
    requires WellTyped(g) && AllScenarios(g, ss)
    requires TypedAs(g, a, ASSET)
    ensures a !in RemovalPlan(g, ss)
    decreases |ss|
  {
    if ss != [] {
      var init, last := ss[..|ss| - 1], ss[|ss| - 1];
      AssetsNeverRemoved(g, init, a);
      assert TypedAs(g, last, INCIDENT_SCENARIO);
      assert a != last;
      assert !TypedAs(g, a, CONTROL) && !TypedAs(g, a, VULNERABILITY);
      assert a in GetLinkTargets(g, last, REL_CONTROL_INCSCEN) ==> TypedAs(g, a, CONTROL);
      assert a in GetLinkTargets(g, last, REL_INCSCEN_VULNERABILITY) ==> TypedAs(g, a, VULNERABILITY);
    }
  }

  /** Whatever the command service rejects, no asset is among the removals a cleanup issues. */
  lemma IssuedRemovesNoAsset(accepts: Acceptor, n: nat, g: Graph, ss: seq<ElementId>, a: ElementId)
    requires WellTyped(g) && AllScenarios(g, ss)
    requires TypedAs(g, a, ASSET)
    ensures a !in Issued(accepts, n, RemovalPlan(g, ss))
  {
    var plan := RemovalPlan(g, ss);
    AssetsNeverRemoved(g, ss, a);
    IssuedStopsAtFirstFailure(accepts, n, plan);
    var r := Issued(accepts, n, plan);
    assert forall i :: 0 <= i < |r| ==> r[i] == plan[i];
  }

  /** Stand-in for ICommandService executing RemoveElement commands. */
  class CommandService {
    const accepts: Acceptor
    var log: seq<ElementId>

    constructor (accepts: Acceptor)
      ensures this.accepts == accepts && log == []
    {
      this.accepts := accepts;
      log := [];
    }

    /** executeCommand(new RemoveElement(e)); false stands for a CommandException. */
    method ExecuteRemove(e: ElementId) returns (ok: bool)
      modifies this
      ensures log == old(log) + [e]
      ensures ok == accepts(|old(log)|, e)
    {
      ok := accepts(|log|, e);
      log := log + [e];
    }
  }

  class Cleaner {
    var graphService: GraphService?
    var commandService: CommandService?

    constructor ()
      ensures graphService == null && commandService == null
    {
      graphService := null;
      commandService := null;
    }

    method SetGraphService(graphService: GraphService?)
      modifies this`graphService
      ensures this.graphService == graphService
    {
      this.graphService := graphService;
    }

    method SetCommandService(commandService: CommandService?)
      modifies this`commandService
      ensures this.commandService == commandService
    {
      this.commandService := commandService;
    }

    /**
     * Removes the orphan scenarios of the organization. A failed removal
     * (CommandException) is caught and logged: it ends the whole run.
     */
    method CleanUpOrganization(orgId: Option<int>)
      requires graphService != null && commandService != null
      modifies graphService, commandService
      ensures var g := graphService.build(CleanupRequest(orgId));
        && graphService.requests == old(graphService.requests) + [CleanupRequest(orgId)]
        && commandService.log == old(commandService.log) +
             Issued(commandService.accepts, |old(commandService.log)|, RemovalPlan(g, GetElements(g, INCIDENT_SCENARIO)))
    {
      var graph := InitGraph(orgId);
      var scenarioSet := GetElements(graph, INCIDENT_SCENARIO);
      ghost var accepts := commandService.accepts;
      ghost var h0 := commandService.log;
      var i := 0;
      while i < |scenarioSet|
        invariant 0 <= i <= |scenarioSet|
        invariant commandService.log == h0 + RemovalPlan(graph, scenarioSet[..i])
        invariant Completes(accepts, |h0|, RemovalPlan(graph, scenarioSet[..i]))
        invariant graphService.requests == old(graphService.requests) + [CleanupRequest(orgId)]
      {
        var scenario := scenarioSet[i];
        ghost var done := RemovalPlan(graph, scenarioSet[..i]);
        ghost var next := if IsOrphan(graph, scenario) then RemovalBlock(graph, scenario) else [];
        PlanStep(graph, scenarioSet, i);
        ScanIssued(accepts, h0, done, next, RemovalPlan(graph, scenarioSet[i + 1..]));
        var numberOfLinks := |GetLinkTargets(graph, scenario, REL_INCSCEN_ASSET)|;
        if numberOfLinks == 0 {
          var ok := DeleteScenarioAndControl(scenario, graph);
          if !ok {
            return;
          }
        } else {
          assert done + next == done;
        }
        i := i + 1;
      }
      assert scenarioSet[..i] == scenarioSet;
    }

    /** Removes the linked controls, then the linked vulnerabilities, then the scenario. */
    method DeleteScenarioAndControl(scenario: ElementId, graph: Graph) returns (ok: bool)
      requires commandService != null
      modifies commandService
      ensures commandService.log ==
        old(commandService.log) + Issued(commandService.accepts, |old(commandService.log)|, RemovalBlock(graph, scenario))
      ensures ok == Completes(commandService.accepts, |old(commandService.log)|, RemovalBlock(graph, scenario))
    {
      ghost var accepts := commandService.accepts;
      ghost var h0 := commandService.log;
      var controlSet := GetLinkTargets(graph, scenario, REL_CONTROL_INCSCEN);
      var vulnerabilitySet := GetLinkTargets(graph, scenario, REL_INCSCEN_VULNERABILITY);
      ok := RemoveEach(controlSet);
      if !ok {
        BlockFailsAtControls(accepts, h0, controlSet, vulnerabilitySet, scenario);
        return;
      }
      ok := RemoveEach(vulnerabilitySet);
      if !ok {
        BlockFailsAtVulnerabilities(accepts, h0, controlSet, vulnerabilitySet, scenario);
        return;
      }
      ok := commandService.ExecuteRemove(scenario);
      BlockReachesScenario(accepts, h0, controlSet, vulnerabilitySet, scenario);
    }

    /** One of the two for-loops of deleteScenarioAndControl; a failed removal propagates at once. */
    method RemoveEach(targets: seq<ElementId>) returns (ok: bool)
      requires commandService != null
      modifies commandService
      ensures commandService.log ==
        old(commandService.log) + Issued(commandService.accepts, |old(commandService.log)|, targets)
      ensures ok == Completes(commandService.accepts, |old(commandService.log)|, targets)
    {
      ghost var accepts := commandService.accepts;
      ghost var h0 := commandService.log;
      ok := true;
      var i := 0;
      while i < |targets|
        invariant 0 <= i <= |targets|
        invariant commandService.log == h0 + targets[..i]
        invariant forall j :: 0 <= j < i ==> accepts(|h0| + j, targets[j])
      {
        ok := commandService.ExecuteRemove(targets[i]);
        assert targets[..i + 1] == targets[..i] + [targets[i]];
        if !ok {
          FirstFailureUnique(accepts, |h0|, targets, i);
          return;
        }
        i := i + 1;
      }
      assert targets[..i] == targets;
      FirstFailureUnique(accepts, |h0|, targets, |targets|);
    }

    method InitGraph(orgId: Option<int>) returns (g: Graph)
      requires graphService != null
      modifies graphService
      ensures graphService.requests == old(graphService.requests) + [CleanupRequest(orgId)]
      ensures g == graphService.build(CleanupRequest(orgId))
    {
      var loader := Loader(TYPE_IDS, orgId);
      g := graphService.Create(Create([loader], Some(RELATION_IDS)));
    }
  }

  /**
   * The two literal cases: an orphan s1 with control c1 and vulnerability
   * v1 is removed as [c1, v1, s1]; s2, linked to asset a1, is left alone.
   */
  lemma CleanupExample(s1: ElementId, c1: ElementId, v1: ElementId, s2: ElementId, a1: ElementId)
    requires s1 != s2
    ensures var g := Graph(
        map[INCIDENT_SCENARIO := [s1, s2], CONTROL := [c1], VULNERABILITY := [v1], ASSET := [a1]],
        map[(s1, REL_CONTROL_INCSCEN) := [c1], (s1, REL_INCSCEN_VULNERABILITY) := [v1],
            (s2, REL_INCSCEN_ASSET) := [a1]]);
      RemovalPlan(g, GetElements(g, INCIDENT_SCENARIO)) == [c1, v1, s1]
  {
    var g := Graph(
        map[INCIDENT_SCENARIO := [s1, s2], CONTROL := [c1], VULNERABILITY := [v1], ASSET := [a1]],
        map[(s1, REL_CONTROL_INCSCEN) := [c1], (s1, REL_INCSCEN_VULNERABILITY) := [v1],
            (s2, REL_INCSCEN_ASSET) := [a1]]);
    assert REL_INCSCEN_ASSET != REL_CONTROL_INCSCEN && REL_INCSCEN_ASSET != REL_INCSCEN_VULNERABILITY;
    assert GetElements(g, INCIDENT_SCENARIO) == [s1, s2];
    assert !IsOrphan(g, s2) by {
      assert GetLinkTargets(g, s2, REL_INCSCEN_ASSET) == [a1];
    }
    assert IsOrphan(g, s1) by {
      assert (s1, REL_INCSCEN_ASSET) !in g.links;
    }
    assert RemovalBlock(g, s1) == [c1, v1, s1];
    assert [s1, s2][..1] == [s1] && [s1][..0] == [];
    assert RemovalPlan(g, [s1]) == [c1, v1, s1];
  }
}
