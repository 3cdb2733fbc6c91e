/** Which flows the active incidents degrade: asked of a set of services by the status of a
    flow, and of the incidents themselves by the counts shown beside it. */
module FlowStatus {
  import opened Collections
  import opened Text
  import opened FlowCatalog

  datatype IncidentSummary = IncidentSummary(id: string, service: string)

  // ----- the searches -----

  predicate FlowHasService(flow: Flow, service: string) {
    service in flow.services
  }

  predicate IsDegraded(flow: Flow, activeServices: set<string>) {
    exists service :: service in flow.services && service in activeServices
  }

  ghost function ActiveServices(incidents: seq<IncidentSummary>): set<string> {
    set i | 0 <= i < |incidents| && TrimSpace(incidents[i].service) != "" :: TrimSpace(incidents[i].service)
  }

  method ActiveServiceSet(incidents: seq<IncidentSummary>) returns (services: set<string>)
    ensures services == ActiveServices(incidents)
  {
    services := {};
    for i := 0 to |incidents|
      invariant services == ActiveServices(incidents[..i])
    {
      assert incidents[..i + 1] == incidents[..i] + [incidents[i]];
      var service := TrimSpace(incidents[i].service);
      if service != "" {
        services := services + {service};
      }
    }
    assert incidents[..|incidents|] == incidents;
  }

  // ----- counting -----

  predicate Touches(flow: Flow, inc: IncidentSummary) {
    FlowHasService(flow, TrimSpace(inc.service))
  }

  /** How many of the incidents are at a service of the flow. */
  function Matching(flow: Flow, incidents: seq<IncidentSummary>): nat {
    if incidents == [] then 0
    else Matching(flow, incidents[..|incidents| - 1]) + One(Touches(flow, incidents[|incidents| - 1]))
  }

  /** The same, over all the flows with an id. */
  function Total(flows: seq<Flow>, incidents: seq<IncidentSummary>, id: string): nat {
    if flows == [] then 0
    else
      var last := flows[|flows| - 1];
      Total(flows[..|flows| - 1], incidents, id) + if last.id == id then Matching(last, incidents) else 0
  }

  /** The counts hold these numbers, leaving out the zeros. */
  ghost predicate Tells(counts: map<string, int>, number: string -> nat) {
    forall id :: if number(id) == 0 then id !in counts else id in counts && counts[id] == number(id)
  }

  lemma MatchingNext(flow: Flow, incidents: seq<IncidentSummary>, j: nat)
    requires j < |incidents|
    ensures Matching(flow, incidents[..j + 1]) == Matching(flow, incidents[..j]) + One(Touches(flow, incidents[j]))
  {
    assert incidents[..j + 1][..j] == incidents[..j];
  }

  lemma TotalNext(flows: seq<Flow>, incidents: seq<IncidentSummary>, i: nat, id: string)
    requires i < |flows|
    ensures Total(flows[..i + 1], incidents, id)
         == Total(flows[..i], incidents, id) + if flows[i].id == id then Matching(flows[i], incidents) else 0
  {
    assert flows[..i + 1][..i] == flows[..i];
  }

  /** One flow's incidents are added to its count. */
  method CountFlow(start: map<string, int>, flow: Flow, incidents: seq<IncidentSummary>)
      returns (counts: map<string, int>)
    ensures counts.Keys == start.Keys + if Matching(flow, incidents) > 0 then {flow.id} else {}
    ensures forall id | id in start && id != flow.id :: counts[id] == start[id]
    ensures flow.id in counts ==>
        counts[flow.id] == (if flow.id in start then start[flow.id] else 0) + Matching(flow, incidents)
  {
    counts := start;
    for j := 0 to |incidents|
      invariant counts.Keys == start.Keys + if Matching(flow, incidents[..j]) > 0 then {flow.id} else {}
      invariant forall id | id in start && id != flow.id :: counts[id] == start[id]
      invariant flow.id in counts ==>
                  counts[flow.id] == (if flow.id in start then start[flow.id] else 0) + Matching(flow, incidents[..j])
    {
      MatchingNext(flow, incidents, j);
      if FlowHasService(flow, TrimSpace(incidents[j].service)) {
        counts := counts[flow.id := (if flow.id in counts then counts[flow.id] else 0) + 1];
      }
    }
    assert incidents[..|incidents|] == incidents;
  }

  method FlowIncidentCounts(flows: seq<Flow>, incidents: seq<IncidentSummary>) returns (counts: map<string, int>)
    ensures Tells(counts, id => Total(flows, incidents, id))
  {
    counts := map[];
    for i := 0 to |flows|
      invariant forall id :: id in counts <==> Total(flows[..i], incidents, id) > 0
      invariant forall id | id in counts :: counts[id] == Total(flows[..i], incidents, id)
    {
      forall id
        ensures Total(flows[..i + 1], incidents, id)
             == Total(flows[..i], incidents, id) + if flows[i].id == id then Matching(flows[i], incidents) else 0
      {
        TotalNext(flows, incidents, i, id);
      }
      counts := CountFlow(counts, flows[i], incidents);
    }
    assert flows[..|flows|] == flows;
  }

  // ----- the two agree -----

  lemma {:induction false} MatchingPositive(flow: Flow, incidents: seq<IncidentSummary>)
    ensures Matching(flow, incidents) > 0 <==> exists i | 0 <= i < |incidents| :: Touches(flow, incidents[i])
  {
    if incidents != [] {
      var last := |incidents| - 1;
      MatchingPositive(flow, incidents[..last]);
      assert forall i | 0 <= i < last :: incidents[..last][i] == incidents[i];
    }
  }

  /** A flow is degraded exactly when one of its incidents has a service that is not blank. */
  lemma DegradedMeans(flow: Flow, incidents: seq<IncidentSummary>)
    ensures IsDegraded(flow, ActiveServices(incidents))
       <==> exists i | 0 <= i < |incidents| :: Touches(flow, incidents[i]) && TrimSpace(incidents[i].service) != ""
  {
    if IsDegraded(flow, ActiveServices(incidents)) {
      var service :| service in flow.services && service in ActiveServices(incidents);
      var i :| 0 <= i < |incidents| && TrimSpace(incidents[i].service) == service && service != "";
      assert Touches(flow, incidents[i]);
    }
    if i :| 0 <= i < |incidents| && Touches(flow, incidents[i]) && TrimSpace(incidents[i].service) != "" {
      assert TrimSpace(incidents[i].service) in ActiveServices(incidents);
    }
  }

  lemma {:induction false} TotalOfOne(flows: seq<Flow>, incidents: seq<IncidentSummary>, k: nat)
    requires k < |flows| && forall i, j | 0 <= i < j < |flows| :: flows[i].id != flows[j].id
    ensures Total(flows, incidents, flows[k].id) == Matching(flows[k], incidents)
  {
    var last := |flows| - 1;
    if k < last {
      TotalOfOne(flows[..last], incidents, k);
    } else {
      TotalOfNone(flows[..last], incidents, flows[k].id);
    }
  }

  lemma {:induction false} TotalOfNone(flows: seq<Flow>, incidents: seq<IncidentSummary>, id: string)
    requires forall i | 0 <= i < |flows| :: flows[i].id != id
    ensures Total(flows, incidents, id) == 0
  {
    if flows != [] {
      TotalOfNone(flows[..|flows| - 1], incidents, id);
    }
  }

  /** Among flows with ids of their own, the status and the count of a flow agree whatever the
      incidents are, exactly when none of its services is the empty name. */
  lemma DegradedIffCounted(flows: seq<Flow>, k: nat)
    requires k < |flows| && forall i, j | 0 <= i < j < |flows| :: flows[i].id != flows[j].id
    ensures (forall incidents ::
               IsDegraded(flows[k], ActiveServices(incidents)) <==> Total(flows, incidents, flows[k].id) > 0)
       <==> "" !in flows[k].services
  {
    var flow := flows[k];
    forall incidents: seq<IncidentSummary>
      ensures Total(flows, incidents, flow.id) == Matching(flow, incidents)
      ensures "" !in flow.services ==>
                (IsDegraded(flow, ActiveServices(incidents)) <==> Total(flows, incidents, flow.id) > 0)
    {
      TotalOfOne(flows, incidents, k);
      MatchingPositive(flow, incidents);
      DegradedMeans(flow, incidents);
    }
    if "" in flow.services {
      var blank := [IncidentSummary("", "")];
      MatchingPositive(flow, blank);
      DegradedMeans(flow, blank);
      assert TrimSpace("") == "";
      assert Touches(flow, blank[0]);
    }
  }

  /** So for loaded flows a flow is degraded if and only if its count is positive. */
  lemma LoadedFlowsAgree(files: seq<File>, flows: seq<Flow>, flow: Flow, incidents: seq<IncidentSummary>,
      counts: map<string, int>)
    requires Lists(flows, FlowsOf(EntriesOf(files), Accept)) && flow in flows
    requires Tells(counts, id => Total(flows, incidents, id))
    ensures IsDegraded(flow, ActiveServices(incidents)) <==> flow.id in counts && counts[flow.id] > 0
  {
    LoadedFlows(flows, EntriesOf(files));
    var k :| 0 <= k < |flows| && flows[k] == flow;
    DegradedIffCounted(flows, k);
    assert (id => Total(flows, incidents, id))(flow.id) == Total(flows, incidents, flow.id);
  }

  // ----- the incidents shown for a flow -----

  function FilterIncidentsForFlow(incidents: seq<IncidentSummary>, flow: Flow): seq<IncidentSummary> {
    if incidents == [] then []
    else
      var last := incidents[|incidents| - 1];
      FilterIncidentsForFlow(incidents[..|incidents| - 1], flow)
      + if FlowHasService(flow, last.service) then [last] else []
  }

  /** The incidents listed for a loaded flow are never more than are counted for it, and are
      as many exactly when each of those counted names its service without blanks around it. */
  lemma {:induction false} ListedAtMostCounted(incidents: seq<IncidentSummary>, flow: Flow)
    requires IsLoaded(flow)
    ensures |FilterIncidentsForFlow(incidents, flow)| <= Matching(flow, incidents)
    ensures |FilterIncidentsForFlow(incidents, flow)| == Matching(flow, incidents)
       <==> forall i | 0 <= i < |incidents| && Touches(flow, incidents[i]) ::
           TrimSpace(incidents[i].service) == incidents[i].service
  {
    if incidents != [] {
      var front, last := incidents[..|incidents| - 1], incidents[|incidents| - 1];
      ListedAtMostCounted(front, flow);
      assert forall i | 0 <= i < |front| :: front[i] == incidents[i];
      assert FlowHasService(flow, last.service) ==> TrimSpace(last.service) == last.service;
    }
  }

  /** Just the incidents whose service, as it is written, is one of the flow's, in their order. */
  lemma {:induction false} ListedMeans(incidents: seq<IncidentSummary>, more: seq<IncidentSummary>, flow: Flow)
    ensures FilterIncidentsForFlow(incidents + more, flow)
         == FilterIncidentsForFlow(incidents, flow) + FilterIncidentsForFlow(more, flow)
    ensures forall inc :: inc in FilterIncidentsForFlow(more, flow) <==> inc in more && inc.service in flow.services
  {
    if more == [] {
      assert incidents + more == incidents;
    } else {
      var front, last := more[..|more| - 1], more[|more| - 1];
      ListedMeans(incidents, front, flow);
      assert more == front + [last];
      assert (incidents + more)[..|incidents + more| - 1] == incidents + front;
    }
  }

  // ----- the catalog -----

  ghost function LastWith(flows: seq<Flow>, id: string): Option<Flow> {
    if flows == [] then None
    else if flows[|flows| - 1].id == id then Some(flows[|flows| - 1])
    else LastWith(flows[..|flows| - 1], id)
  }

  /** It is the last flow with the id, and none if no flow has it. */
  lemma {:induction false} LastWithIsLast(flows: seq<Flow>, id: string)
    ensures match LastWith(flows, id)
            case Some(flow) => exists k | 0 <= k < |flows| ::
                flow == flows[k] && flow.id == id && forall j | k < j < |flows| :: flows[j].id != id
            case None => forall k | 0 <= k < |flows| :: flows[k].id != id
  {
    if flows != [] && flows[|flows| - 1].id != id {
      var front := flows[..|flows| - 1];
      LastWithIsLast(front, id);
      assert forall k | 0 <= k < |front| :: front[k] == flows[k];
      if LastWith(front, id).Some? {
        var k :| 0 <= k < |front| && LastWith(front, id).value == front[k] && front[k].id == id
              && forall j | k < j < |front| :: front[j].id != id;
        assert flows[k] == front[k];
      }
    }
  }

  class Catalog {
    var flows: seq<Flow>
    var byId: map<string, Flow>

    ghost predicate Valid()
      reads this
    {
      && (forall id :: id in byId <==> LastWith(flows, id).Some?)
      && (forall id | id in byId :: Some(byId[id]) == LastWith(flows, id))
    }

    /** Of flows with the same id the last is kept. */
    constructor (flows: seq<Flow>)
      ensures Valid() && this.flows == flows
    {
      var byId: map<string, Flow> := map[];
      for i := 0 to |flows|
        invariant forall id :: id in byId <==> LastWith(flows[..i], id).Some?
        invariant forall id | id in byId :: Some(byId[id]) == LastWith(flows[..i], id)
      {
        assert flows[..i + 1][..i] == flows[..i];
        byId := byId[flows[i].id := flows[i]];
      }
      assert flows[..|flows|] == flows;
      this.flows, this.byId := flows, byId;
    }

    method Get(id: string) returns (r: Option<Flow>)
      requires Valid()
      ensures r == LastWith(flows, TrimSpace(id))
    {
      var key := TrimSpace(id);
      r := if key in byId then Some(byId[key]) else None;
    }

    /** The flows with the service, in their order. */
    method ImpactedFlows(service: string) returns (impacted: seq<Flow>)
      ensures impacted == FlowsWith(flows, TrimSpace(service))
    {
      impacted := [];
      var name := TrimSpace(service);
      if name == "" {
        return;
      }
      for i := 0 to |flows|
        invariant impacted == FlowsWith(flows[..i], name)
      {
        assert flows[..i + 1][..i] == flows[..i];
        if FlowHasService(flows[i], name) {
          impacted := impacted + [flows[i]];
        }
      }
      assert flows[..|flows|] == flows;
    }
  }

  ghost function FlowsWith(flows: seq<Flow>, service: string): seq<Flow> {
    if flows == [] || service == "" then []
    else
      var last := flows[|flows| - 1];
      FlowsWith(flows[..|flows| - 1], service) + if FlowHasService(last, service) then [last] else []
  }

  /** The flows with a service keep their order. */
  lemma {:induction false} FlowsWithInOrder(flows: seq<Flow>, more: seq<Flow>, service: string)
    ensures FlowsWith(flows + more, service) == FlowsWith(flows, service) + FlowsWith(more, service)
  {
    if more == [] || service == "" {
      assert flows + [] == flows;
    } else {
      FlowsWithInOrder(flows, more[..|more| - 1], service);
      assert (flows + more)[..|flows + more| - 1] == flows + more[..|more| - 1];
    }
  }

  /** They are the flows that list the service; no flow has the blank one. */
  lemma {:induction false} FlowsWithHave(flows: seq<Flow>, service: string)
    ensures forall flow ::
              flow in FlowsWith(flows, service) <==> service != "" && flow in flows && service in flow.services
  {
    if flows != [] && service != "" {
      FlowsWithHave(flows[..|flows| - 1], service);
      assert flows == flows[..|flows| - 1] + [flows[|flows| - 1]];
    }
  }

  /** A flow of the catalog is degraded if and only if some active incident's service impacts it. */
  lemma DegradedIffImpacted(flows: seq<Flow>, flow: Flow, incidents: seq<IncidentSummary>)
    requires flow in flows
    ensures IsDegraded(flow, ActiveServices(incidents))
       <==> exists i | 0 <= i < |incidents| :: flow in FlowsWith(flows, TrimSpace(incidents[i].service))
  {
    DegradedMeans(flow, incidents);
    forall i | 0 <= i < |incidents|
      ensures flow in FlowsWith(flows, TrimSpace(incidents[i].service))
         <==> Touches(flow, incidents[i]) && TrimSpace(incidents[i].service) != ""
    {
      FlowsWithHave(flows, TrimSpace(incidents[i].service));
    }
  }
}
