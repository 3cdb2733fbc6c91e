/** Flows as they are loaded from files, and what the active incidents say about them. */
module FlowCatalog {
  import opened Collections
  import opened Text
  import opened Sorting

  datatype Flow = Flow(id: string, name: string, services: seq<string>)

  datatype Error = EmptyList | EmptyName | NoValidFlow

  // ----- normalizing services -----

  function Unique(names: seq<string>): seq<string> {
    if names == [] then []
    else
      var front, last := names[..|names| - 1], names[|names| - 1];
      if last in front then Unique(front) else Unique(front) + [last]
  }

  function TrimAll(names: seq<string>): seq<string> {
    seq(|names|, i requires 0 <= i < |names| => TrimSpace(names[i]))
  }

  function FirstError(services: seq<string>): Option<Error> {
    if services == [] then Some(EmptyList)
    else if "" in TrimAll(services) then Some(EmptyName)
    else None
  }

  function Normalized(services: seq<string>): Result<seq<string>, Error> {
    match FirstError(services)
    case Some(error) => Err(error)
    case None => Ok(SortStrings(Unique(TrimAll(services))))
  }

  lemma {:induction false} UniqueKeepsEach(names: seq<string>)
    ensures Distinct(Unique(names)) && forall name :: name in Unique(names) <==> name in names
  {
    if names != [] {
      var front, last := names[..|names| - 1], names[|names| - 1];
      UniqueKeepsEach(front);
      assert names == front + [last];
    }
  }

  lemma TrimAllNext(services: seq<string>, i: nat)
    requires i < |services|
    ensures TrimAll(services)[..i + 1] == TrimAll(services)[..i] + [TrimSpace(services[i])]
    ensures Unique(TrimAll(services)[..i + 1])
         == if TrimSpace(services[i]) in TrimAll(services)[..i] then Unique(TrimAll(services)[..i])
            else Unique(TrimAll(services)[..i]) + [TrimSpace(services[i])]
  {
    assert TrimAll(services)[..i + 1] == TrimAll(services)[..i] + [TrimSpace(services[i])];
    assert TrimAll(services)[..i + 1][..i] == TrimAll(services)[..i];
  }

  method NormalizeServices(services: seq<string>) returns (r: Result<seq<string>, Error>)
    ensures r == Normalized(services)
  {
    if |services| == 0 {
      return Err(EmptyList);
    }
    ghost var trimmed := TrimAll(services);
    var seen: set<string> := {};
    var cleaned: seq<string> := [];
    for i := 0 to |services|
      invariant "" !in trimmed[..i] && cleaned == Unique(trimmed[..i])
      invariant forall name :: name in seen <==> name in trimmed[..i]
    {
      TrimAllNext(services, i);
      var service := TrimSpace(services[i]);
      if service == "" {
        assert trimmed[i] == "";
        return Err(EmptyName);
      }
      if service !in seen {
        seen := seen + {service};
        cleaned := cleaned + [service];
      }
    }
    assert trimmed[..|services|] == trimmed;
    UniqueKeepsEach(trimmed);
    assert trimmed[0] in cleaned;
    if |cleaned| == 0 {
      assert false;
    }
    r := Ok(SortStrings(cleaned));
  }

  /** Trimmed names without repetition, in order. */
  ghost predicate IsNormal(services: seq<string>) {
    && services != [] && SortedStrings(services) && Distinct(services)
    && forall name | name in services :: name != "" && TrimSpace(name) == name
  }

  lemma SortKeepsEach(s: seq<string>)
    requires Distinct(s)
    ensures Distinct(SortStrings(s)) && forall name :: name in SortStrings(s) <==> name in s
  {
    DistinctByCount(s);
    DistinctByCount(SortStrings(s));
    forall name
      ensures name in SortStrings(s) <==> name in s
    {
      assert name in multiset(SortStrings(s)) <==> name in multiset(s);
    }
  }

  /** The services of a loaded flow are exactly those listed, trimmed, once each and in
      order; a list is refused exactly when it is empty or holds a blank name. */
  lemma NormalizedMeans(services: seq<string>)
    ensures match Normalized(services)
            case Ok(names) =>
              && IsNormal(names)
              && forall name :: name in names <==> exists i | 0 <= i < |services| :: TrimSpace(services[i]) == name
            case Err(EmptyList) => services == []
            case Err(EmptyName) => services != [] && exists i | 0 <= i < |services| :: TrimSpace(services[i]) == ""
            case Err(NoValidFlow) => false
  {
    var trimmed := TrimAll(services);
    forall name
      ensures name in trimmed <==> exists i | 0 <= i < |services| :: TrimSpace(services[i]) == name
    {
      if i :| 0 <= i < |services| && TrimSpace(services[i]) == name {
        assert trimmed[i] == name;
      }
    }
    UniqueKeepsEach(trimmed);
    SortKeepsEach(Unique(trimmed));
    if Normalized(services).Ok? {
      assert trimmed[0] in Unique(trimmed);
      forall name | name in Normalized(services).value
        ensures name != "" && TrimSpace(name) == name
      {
        var i :| 0 <= i < |services| && TrimSpace(services[i]) == name;
        TrimSpaceTwice(services[i]);
      }
    }
  }

  lemma {:induction false} UniqueOfDistinct(names: seq<string>)
    requires Distinct(names)
    ensures Unique(names) == names
  {
    if names != [] {
      UniqueOfDistinct(names[..|names| - 1]);
    }
  }

  /** Normal lists, and only they, are left as they are. */
  lemma NormalizedFixed(services: seq<string>)
    ensures Normalized(services) == Ok(services) <==> IsNormal(services)
  {
    NormalizedMeans(services);
    if IsNormal(services) {
      assert TrimAll(services) == services;
      UniqueOfDistinct(services);
      SortedStringsUnique(SortStrings(services), services);
    }
  }

  // ----- loading -----

  /** A flow as a file lists it. */
  datatype Entry = Entry(id: string, name: string, services: seq<string>)

  /** What reading a file gives; the entries in the order the parsed map is iterated in. */
  datatype File = Unreadable | Malformed | Parsed(entries: seq<Entry>)

  function EntriesOf(files: seq<File>): seq<Entry> {
    if files == [] then []
    else
      var last := files[|files| - 1];
      EntriesOf(files[..|files| - 1]) + FileEntries(last)
  }

  /** The flow an entry describes, if its id and services are acceptable. */
  function Accept(e: Entry): Option<Flow> {
    var id := TrimSpace(e.id);
    match Normalized(e.services)
    case Ok(services) => if id == "" then None else Some(Flow(id, TrimSpace(e.name), services))
    case Err(_) => None
  }

  /** An entry is acceptable exactly when its id is not blank, it lists services, and none of them
      is blank; the flow has the trimmed id and name and the trimmed services. */
  lemma AcceptMeans(e: Entry)
    ensures Accept(e).Some?
       <==> && TrimSpace(e.id) != "" && e.services != []
            && forall i | 0 <= i < |e.services| :: TrimSpace(e.services[i]) != ""
    ensures Accept(e).Some? ==>
              var flow := Accept(e).value;
              && flow.id == TrimSpace(e.id) && flow.name == TrimSpace(e.name) && IsNormal(flow.services)
              && forall name :: name in flow.services <==> TrimmedIn(name, e.services)
  {
    NormalizedWhen(e.services);
    if Accept(e).Some? {
      NormalizedMeans(e.services);
    }
  }

  ghost predicate TrimmedIn(name: string, services: seq<string>) {
    exists i | 0 <= i < |services| :: TrimSpace(services[i]) == name
  }

  lemma NormalizedWhen(services: seq<string>)
    ensures Normalized(services).Ok?
       <==> services != [] && forall i | 0 <= i < |services| :: TrimSpace(services[i]) != ""
  {
    var trimmed := TrimAll(services);
    assert forall i | 0 <= i < |services| :: trimmed[i] == TrimSpace(services[i]);
  }

  function Added(flows: map<string, Flow>, read: Option<Flow>): map<string, Flow> {
    if read.Some? && read.value.id !in flows then flows[read.value.id := read.value] else flows
  }

  /** The flows after a list of entries, where `accept` reads an entry. */
  function FlowsAfter(start: map<string, Flow>, entries: seq<Entry>, accept: Entry -> Option<Flow>): map<string, Flow> {
    if entries == [] then start
    else Added(FlowsAfter(start, entries[..|entries| - 1], accept), accept(entries[|entries| - 1]))
  }

  function FlowsOf(entries: seq<Entry>, accept: Entry -> Option<Flow>): map<string, Flow> {
    FlowsAfter(map[], entries, accept)
  }

  predicate Names(read: Option<Flow>, id: string) {
    read.Some? && read.value.id == id
  }

  /** What the first entry acceptable for the id describes. */
  function FirstFor(entries: seq<Entry>, accept: Entry -> Option<Flow>, id: string): Option<Flow> {
    if entries == [] then None
    else if Names(accept(entries[0]), id) then accept(entries[0])
    else FirstFor(entries[1..], accept, id)
  }

  lemma {:induction false} FirstForNext(entries: seq<Entry>, last: Entry, accept: Entry -> Option<Flow>, id: string)
    ensures FirstFor(entries + [last], accept, id)
         == match FirstFor(entries, accept, id)
            case Some(flow) => Some(flow)
            case None => if Names(accept(last), id) then accept(last) else None
  {
    if entries == [] {
      assert entries + [last] == [last];
      assert [last][1..] == [];
    } else {
      FirstForNext(entries[1..], last, accept, id);
      assert (entries + [last])[1..] == entries[1..] + [last];
    }
  }

  lemma {:induction false} FirstForIsFirst(entries: seq<Entry>, accept: Entry -> Option<Flow>, id: string)
    ensures match FirstFor(entries, accept, id)
            case Some(flow) => exists k | 0 <= k < |entries| ::
                && accept(entries[k]) == Some(flow) && flow.id == id
                && forall j | 0 <= j < k :: !Names(accept(entries[j]), id)
            case None => forall k | 0 <= k < |entries| :: !Names(accept(entries[k]), id)
  {
    if entries != [] && !Names(accept(entries[0]), id) {
      var tail := entries[1..];
      FirstForIsFirst(tail, accept, id);
      assert forall k | 0 <= k < |tail| :: entries[k + 1] == tail[k];
      if FirstFor(entries, accept, id).Some? {
        var k :| 0 <= k < |tail| && accept(tail[k]) == FirstFor(tail, accept, id)
              && forall j | 0 <= j < k :: !Names(accept(tail[j]), id);
        assert entries[k + 1] == tail[k];
        assert forall j | 0 <= j < k + 1 :: j > 0 ==> entries[j] == tail[j - 1];
      }
    }
  }

  /** Each id that some entry is acceptable for has the flow of the first of them. */
  lemma {:induction false} FirstEntryCounts(entries: seq<Entry>, accept: Entry -> Option<Flow>, id: string)
    ensures id in FlowsOf(entries, accept) <==> FirstFor(entries, accept, id).Some?
    ensures id in FlowsOf(entries, accept) ==> Some(FlowsOf(entries, accept)[id]) == FirstFor(entries, accept, id)
  {
    if entries != [] {
      var front, last := entries[..|entries| - 1], entries[|entries| - 1];
      FirstEntryCounts(front, accept, id);
      FirstForNext(front, last, accept, id);
      assert entries == front + [last];
    }
  }

  lemma {:induction false} OwnIds(entries: seq<Entry>, accept: Entry -> Option<Flow>)
    ensures forall id | id in FlowsOf(entries, accept) :: FlowsOf(entries, accept)[id].id == id
  {
    if entries != [] {
      OwnIds(entries[..|entries| - 1], accept);
      assert FlowsOf(entries, accept)
          == Added(FlowsOf(entries[..|entries| - 1], accept), accept(entries[|entries| - 1]));
    }
  }

  /** `flows` lists the flows of the map once each, by ascending id. */
  ghost predicate Lists(flows: seq<Flow>, byId: map<string, Flow>) {
    && (forall f :: f in flows <==> f.id in byId && byId[f.id] == f)
    && (forall i, j | 0 <= i < j < |flows| :: AtMost(flows[i].id, flows[j].id) && flows[i].id != flows[j].id)
  }

  predicate ById(a: Flow, b: Flow) {
    AtMost(a.id, b.id)
  }

  lemma SortedFlows(flows: seq<Flow>, byId: map<string, Flow>)
    requires Distinct(flows) && forall f :: f in flows <==> f.id in byId && byId[f.id] == f
    ensures Lists(SortBy(flows, ById), byId)
  {
    var sorted := SortBy(flows, ById);
    assert Preorder(ById) by {
      AtMostIsPreorder();
      assert forall x: Flow, y: Flow :: ById(x, y) <==> AtMost(x.id, y.id);
    }
    DistinctByCount(flows);
    DistinctByCount(sorted);
    forall f
      ensures f in sorted <==> f in flows
    {
      assert f in multiset(sorted) <==> f in multiset(flows);
    }
    forall i, j | 0 <= i < j < |sorted|
      ensures AtMost(sorted[i].id, sorted[j].id) && sorted[i].id != sorted[j].id
    {
      assert ById(sorted[i], sorted[j]);
      assert sorted[i] in flows && sorted[j] in flows;
    }
  }

  lemma EntriesNext(files: seq<File>, i: nat)
    requires i < |files|
    ensures EntriesOf(files[..i + 1]) == EntriesOf(files[..i]) + FileEntries(files[i])
  {
    assert files[..i + 1][..i] == files[..i];
  }

  lemma {:induction false} FlowsOfBoth(before: seq<Entry>, entries: seq<Entry>, accept: Entry -> Option<Flow>)
    ensures FlowsAfter(FlowsOf(before, accept), entries, accept) == FlowsOf(before + entries, accept)
  {
    if entries == [] {
      assert before + entries == before;
    } else {
      FlowsOfBoth(before, entries[..|entries| - 1], accept);
      assert (before + entries)[..|before + entries| - 1] == before + entries[..|entries| - 1];
    }
  }

  lemma FlowsNext(start: map<string, Flow>, entries: seq<Entry>, accept: Entry -> Option<Flow>, j: nat)
    requires j < |entries|
    ensures FlowsAfter(start, entries[..j + 1], accept)
        == Added(FlowsAfter(start, entries[..j], accept), accept(entries[j]))
  {
    assert entries[..j + 1][..j] == entries[..j];
  }

  ghost predicate Accounted(warnings: nat, flows: map<string, Flow>) {
    warnings > 0 || flows.Keys != {}
  }

  /** An entry is added to the flows, or warned of. */
  method AddEntry(flowsByID: map<string, Flow>, e: Entry, warnings: nat)
      returns (flowsByID': map<string, Flow>, warnings': nat)
    ensures flowsByID' == Added(flowsByID, Accept(e))
    ensures warnings' >= warnings && Accounted(warnings', flowsByID')
  {
    flowsByID', warnings' := flowsByID, warnings;
    var id := TrimSpace(e.id);
    if id == "" || id in flowsByID {
      return flowsByID, warnings + 1;
    }
    var services := NormalizeServices(e.services);
    if services.Err? {
      return flowsByID, warnings + 1;
    }
    flowsByID' := flowsByID[id := Flow(id, TrimSpace(e.name), services.value)];
    assert id in flowsByID'.Keys;
  }

  function FileEntries(file: File): seq<Entry> {
    if file.Parsed? then file.entries else []
  }

  /** A file's entries are added to the flows of the files before it; a file without any is warned of. */
  method AddFile(start: map<string, Flow>, file: File, warnings: nat)
      returns (flowsByID: map<string, Flow>, warnings': nat)
    ensures flowsByID == FlowsAfter(start, FileEntries(file), Accept)
    ensures warnings' >= warnings && Accounted(warnings', flowsByID)
  {
    var entries := FileEntries(file);
    flowsByID, warnings' := start, warnings;
    if entries == [] {
      return flowsByID, warnings + 1;
    }
    for j := 0 to |entries|
      invariant flowsByID == FlowsAfter(start, entries[..j], Accept)
      invariant warnings' >= warnings && (j == 0 || Accounted(warnings', flowsByID))
    {
      FlowsNext(start, entries, Accept, j);
      flowsByID, warnings' := AddEntry(flowsByID, entries[j], warnings');
    }
    assert entries[..|entries|] == entries;
  }

  /** loadFiles. The warnings counted are those of files and flows left out. */
  method LoadFiles(files: seq<File>) returns (r: Result<seq<Flow>, Error>)
    ensures r.Ok? ==> Lists(r.value, FlowsOf(EntriesOf(files), Accept))
    ensures r.Err? <==> files != [] && FlowsOf(EntriesOf(files), Accept) == map[]
  {
    var flowsByID: map<string, Flow> := map[];
    var warnings := 0;
    for i := 0 to |files|
      invariant flowsByID == FlowsOf(EntriesOf(files[..i]), Accept)
      invariant if i == 0 then warnings == 0 else Accounted(warnings, flowsByID)
    {
      EntriesNext(files, i);
      FlowsOfBoth(EntriesOf(files[..i]), FileEntries(files[i]), Accept);
      flowsByID, warnings := AddFile(flowsByID, files[i], warnings);
    }
    assert files[..|files|] == files;
    OwnIds(EntriesOf(files), Accept);
    var flows := Values(flowsByID);
    flows := SortBy(flows, ById);
    if |flows| == 0 && warnings > 0 {
      return Err(NoValidFlow);
    }
    r := Ok(flows);
  }

  /** The flows of the map, in no particular order. */
  method Values(byId: map<string, Flow>) returns (flows: seq<Flow>)
    requires forall id | id in byId :: byId[id].id == id
    ensures Distinct(flows) && forall f :: f in flows <==> f.id in byId && byId[f.id] == f
    ensures Lists(SortBy(flows, ById), byId) && |SortBy(flows, ById)| == |flows|
    ensures flows == [] <==> byId == map[]
  {
    var ids := byId.Keys;
    flows := [];
    while ids != {}
      invariant ids <= byId.Keys && Distinct(flows)
      invariant forall f :: f in flows <==> f.id in byId && f.id !in ids && byId[f.id] == f
    {
      var id :| id in ids;
      ids := ids - {id};
      flows := flows + [byId[id]];
    }
    SortedFlows(flows, byId);
    assert |multiset(SortBy(flows, ById))| == |multiset(flows)|;
    if byId != map[] {
      var id :| id in byId;
      assert byId[id] in flows;
    } else if flows != [] {
      assert flows[0] in flows;
    }
  }

  /** What a loaded flow looks like. */
  ghost predicate IsLoaded(flow: Flow) {
    flow.id != "" && TrimSpace(flow.id) == flow.id && IsNormal(flow.services)
  }

  lemma AcceptedIsLoaded(e: Entry)
    requires Accept(e).Some?
    ensures IsLoaded(Accept(e).value)
  {
    NormalizedMeans(e.services);
    TrimSpaceTwice(e.id);
  }

  lemma LoadedFlows(flows: seq<Flow>, entries: seq<Entry>)
    requires Lists(flows, FlowsOf(entries, Accept))
    ensures forall f | f in flows :: IsLoaded(f)
  {
    forall f | f in flows
      ensures IsLoaded(f)
    {
      FirstEntryCounts(entries, Accept, f.id);
      FirstForIsFirst(entries, Accept, f.id);
      var k :| 0 <= k < |entries| && Accept(entries[k]) == Some(f);
      AcceptedIsLoaded(entries[k]);
    }
  }
}
