/** ListForMonth: one listing out of the year and month directories and the store's own
    directory, with each incident once, the most recent first. */
module IncidentListing {
  import opened Collections
  import opened Text
  import opened Sorting
  import opened IncidentStore

  // ----- choosing files by month -----

  function Pad(digits: string, width: nat): string
    decreases width - |digits|
  {
    if |digits| < width then Pad("0" + digits, width) else digits
  }

  /** The beginning of the names of a month's files; empty for all months. */
  function DatePrefix(month: int, year: int): string {
    if year > 0 && month > 0 then "INC-" + Pad(Decimal(year), 4) + Pad(Decimal(month), 2) else ""
  }

  lemma {:induction false} PadIsDigits(digits: string, width: nat)
    requires IsDigits(digits)
    ensures IsDigits(Pad(digits, width))
    decreases width - |digits|
  {
    if |digits| < width {
      PadIsDigits("0" + digits, width);
    }
  }

  lemma {:induction false} DecimalSize(n: nat, digits: nat)
    requires digits > 0 && n < Power10(digits)
    ensures |Decimal(n)| <= digits
  {
    if n >= 10 {
      DecimalSize(n / 10, digits - 1);
    }
  }

  function Power10(n: nat): nat {
    if n == 0 then 1 else 10 * Power10(n - 1)
  }

  lemma {:induction false} LeadingZero(digits: string)
    ensures Value("0" + digits) == Value(digits)
  {
    if digits == "" {
      assert ("0" + digits)[..0] == "" && Value("") == 0;
    } else {
      LeadingZero(digits[..|digits| - 1]);
      assert ("0" + digits)[..|digits|] == "0" + digits[..|digits| - 1];
    }
  }

  lemma {:induction false} PadDenotes(digits: string, width: nat)
    ensures Value(Pad(digits, width)) == Value(digits) 
    ensures |Pad(digits, width)| == if |digits| < width then width else |digits|
    ensures |digits| >= width ==> Pad(digits, width) == digits
    decreases width - |digits|
  {
    if |digits| < width {
      LeadingZero(digits);
      PadDenotes("0" + digits, width);
    }
  }

  /** The two ways of finding a month's incidents agree: for ids that have a month's directory,
      the name begins with the month's prefix exactly when the file is in that directory. */
  lemma MonthIsDirectory(id: string, month: int, year: int)
    requires Partitioned(id) && 0 < month < Power10(2) && 0 < year < Power10(4)
    ensures DatePrefix(month, year) <= id <==> PathOf(id).dirs == [Pad(Decimal(year), 4), Pad(Decimal(month), 2)]
  {
    var y, m := Pad(Decimal(year), 4), Pad(Decimal(month), 2);
    DecimalSize(year, 4);
    DecimalSize(month, 2);
    PadDenotes(Decimal(year), 4);
    PadDenotes(Decimal(month), 2);
    SplitPrefix(id, y, m);
  }

  lemma SplitPrefix(id: string, y: string, m: string)
    requires |id| >= 10 && "INC-" <= id && |y| == 4 && |m| == 2
    ensures "INC-" + y + m <= id <==> id[4..8] == y && id[8..10] == m
  {
    assert id[..10] == id[..4] + id[4..8] + id[8..10];
    assert ("INC-" + y + m)[4..8] == y && ("INC-" + y + m)[8..10] == m;
    assert "INC-" + y + m <= id <==> id[..10] == "INC-" + y + m;
    if id[..10] == "INC-" + y + m {
      assert id[..10][4..8] == id[4..8] && id[..10][8..10] == id[8..10];
    }
  }

  // ----- what the prefix of a month means -----

  /** `digits` are those of `n`, filled up with zeros to the width. */
  ghost predicate Writes(digits: string, n: nat, width: nat) {
    && IsDigits(digits) && Value(digits) == n
    && |digits| >= width && (|digits| > width ==> digits[0] != '0')
  }

  /** The id begins with `INC-`, the year in four digits or as many as it takes, and the month in two. */
  ghost predicate NamedFor(id: string, month: nat, year: nat) {
    exists y, m :: Writes(y, year, 4) && Writes(m, month, 2) && "INC-" + y + m <= id
  }

  lemma PadWrites(n: nat, width: nat)
    requires n > 0
    ensures Writes(Pad(Decimal(n), width), n, width)
  {
    DecimalDenotes(n);
    PadIsDigits(Decimal(n), width);
    PadDenotes(Decimal(n), width);
  }

  lemma {:induction false} ValueWithin(digits: string)
    requires IsDigits(digits)
    ensures 0 <= Value(digits) < Power10(|digits|)
    ensures digits[0] != '0' ==> Value(digits) >= Power10(|digits| - 1)
  {
    if |digits| == 1 {
      assert Value("") == 0;
      assert digits[..0] == "";
    } else {
      ValueWithin(digits[..|digits| - 1]);
    }
  }

  lemma {:induction false} Power10Grows(a: nat, b: nat)
    requires a <= b
    ensures 0 < Power10(a) <= Power10(b)
  {
    if a < b {
      Power10Grows(a, b - 1);
    } else if a > 0 {
      Power10Grows(a - 1, a - 1);
    }
  }

  lemma {:induction false} SameValueSameDigits(a: string, b: string)
    requires IsDigits(a) && IsDigits(b) && |a| == |b| && Value(a) == Value(b)
    ensures a == b
  {
    var a0, b0 := a[..|a| - 1], b[..|b| - 1];
    assert a == a0 + [a[|a| - 1]] && b == b0 + [b[|b| - 1]];
    if |a| > 1 {
      SameValueSameDigits(a0, b0);
    } else {
      assert a0 == "" && b0 == "";
    }
  }

  /** A number is written in one way. */
  lemma WrittenOnce(a: string, b: string, n: nat, width: nat)
    requires Writes(a, n, width) && Writes(b, n, width)
    ensures a == b
  {
    ValueWithin(a);
    ValueWithin(b);
    if |a| == |b| {
      SameValueSameDigits(a, b);
    } else {
      var longer, shorter := if |a| > |b| then a else b, if |a| > |b| then b else a;
      Power10Grows(|shorter|, |longer| - 1);
    }
  }

  lemma PrefixMeans(name: string, month: nat, year: nat)
    requires month > 0 && year > 0
    ensures DatePrefix(month, year) <= name <==> NamedFor(name, month, year)
  {
    PadWrites(year, 4);
    PadWrites(month, 2);
    if y, m :| Writes(y, year, 4) && Writes(m, month, 2) && "INC-" + y + m <= name {
      WrittenOnce(y, Pad(Decimal(year), 4), year, 4);
      WrittenOnce(m, Pad(Decimal(month), 2), month, 2);
    }
  }

  /** The name is of the month; without a positive month and year every name is. */
  ghost predicate ForMonth(name: string, month: int, year: int) {
    month <= 0 || year <= 0 || NamedFor(name, month, year)
  }

  lemma PrefixIsMonth(month: int, year: int)
    ensures forall name :: DatePrefix(month, year) <= name <==> ForMonth(name, month, year)
  {
    if month > 0 && year > 0 {
      forall name
        ensures DatePrefix(month, year) <= name <==> ForMonth(name, month, year)
      {
        PrefixMeans(name, month, year);
      }
    }
  }

  lemma DatePrefixIsPlain(month: int, year: int)
    ensures Free(DatePrefix(month, year), {'.'})
  {
    if year > 0 && month > 0 {
      DecimalDenotes(year);
      DecimalDenotes(month);
      PadIsDigits(Decimal(year), 4);
      PadIsDigits(Decimal(month), 2);
      PlainPrefix("INC-", Pad(Decimal(year), 4), Pad(Decimal(month), 2));
    }
  }

  lemma PlainPrefix(head: string, y: string, m: string)
    requires Free(head, {'.'}) && IsDigits(y) && IsDigits(m)
    ensures Free(head + y + m, {'.'})
  {
    assert Free(y, {'.'}) && Free(m, {'.'});
  }

  /** A file is named for the month exactly when its incident is. */
  lemma NameHasPrefix(prefix: string, id: string)
    requires Free(prefix, {'.'})
    ensures prefix <= FileName(id) <==> prefix <= id
  {
    if |id| < |prefix| <= |FileName(id)| {
      assert FileName(id)[..|prefix|][|id|] == '.';
    }
  }

  // ----- what the two scans gather -----

  datatype Listing = Listing(incidents: seq<Incident>, warnings: seq<string>, seen: set<string>)

  const NOTHING_READ := Listing([], [], {})

  /** A file is read: an incident not seen yet is added, an unreadable file warned of. */
  function Noted(listing: Listing, name: string, content: Content): Listing {
    match content
    case Junk => listing.(warnings := listing.warnings + [name])
    case Json(inc) =>
      if inc.id in listing.seen then listing
      else listing.(incidents := listing.incidents + [inc], seen := listing.seen + {inc.id})
  }

  /** The two scans, and the files each of them reads. */
  datatype Pass = Walking(location: Location, prefix: string) | InRoot(prefix: string) {
    predicate Reads(p: Path) {
      match this
      case Walking(location, prefix) =>
        && location.base !in SPECIAL && (forall k | 0 <= k < |p.dirs| :: p.dirs[k] !in SPECIAL)
        && IsJsonName(p.name)
        && !(p.dirs == [] && location.cleaned == location.given)
        && p.name != "audit.json"
        && prefix <= p.name
      case InRoot(prefix) => IsJsonName(p.name) && prefix <= p.name
    }
  }

  function Scan(start: Listing, files: Files, order: seq<Path>, pass: Pass): Listing
    requires forall p | p in order :: p in files
  {
    if order == [] then start
    else
      var front, p := order[..|order| - 1], order[|order| - 1];
      var before := Scan(start, files, front, pass);
      if pass.Reads(p) then Noted(before, p.name, files[p]) else before
  }

  /** filepath.Walk visits the files in this order. */
  predicate Before(a: seq<string>, b: seq<string>) {
    if b == [] then false
    else if a == [] then true
    else if a[0] == b[0] then Before(a[1..], b[1..])
    else AtMost(a[0], b[0])
  }

  function Elements(p: Path): seq<string> {
    p.dirs + [p.name]
  }

  ghost predicate IsWalk(walk: seq<Path>, files: Files) {
    && (forall p :: p in walk <==> p in files)
    && (forall i, j | 0 <= i < j < |walk| :: Before(Elements(walk[i]), Elements(walk[j])))
  }

  /** The files of the store's own directory, in any order. */
  ghost predicate IsRootListing(entries: seq<Path>, files: Files) {
    forall p :: p in entries <==> p in files && p.dirs == []
  }

  ghost function Gathered(files: Files, location: Location, walk: seq<Path>, entries: seq<Path>,
      prefix: string): Listing
    requires IsWalk(walk, files) && IsRootListing(entries, files)
  {
    Scan(Scan(NOTHING_READ, files, walk, Walking(location, prefix)), files, entries, InRoot(prefix))
  }

  lemma ScanStep(start: Listing, files: Files, order: seq<Path>, pass: Pass, i: nat)
    requires i < |order| && forall p | p in order :: p in files
    ensures Scan(start, files, order[..i + 1], pass)
         == if pass.Reads(order[i]) then Noted(Scan(start, files, order[..i], pass), order[i].name, files[order[i]])
            else Scan(start, files, order[..i], pass)
  {
    assert order[..i + 1][..i] == order[..i];
  }

  // ----- what a scan finds -----

  predicate Finds(files: Files, pass: Pass, p: Path, id: string) {
    p in files && pass.Reads(p) && files[p].Json? && files[p].incident.id == id
  }

  lemma {:induction false} ScanSees(start: Listing, files: Files, order: seq<Path>, pass: Pass, id: string)
    requires forall p | p in order :: p in files
    ensures id in Scan(start, files, order, pass).seen
       <==> id in start.seen || exists j | 0 <= j < |order| :: Finds(files, pass, order[j], id)
  {
    if order != [] {
      var last := |order| - 1;
      ScanSees(start, files, order[..last], pass, id);
      assert forall j | 0 <= j < last :: order[..last][j] == order[j];
      if Finds(files, pass, order[last], id) {
        assert id in Scan(start, files, order, pass).seen;
      }
    }
  }

  /** A scan warns of the files it could not make out. */
  lemma {:induction false} ScanWarns(start: Listing, files: Files, order: seq<Path>, pass: Pass, name: string)
    requires forall p | p in order :: p in files
    ensures name in Scan(start, files, order, pass).warnings
       <==> name in start.warnings || exists p | p in order && pass.Reads(p) :: files[p].Junk? && p.name == name
  {
    if order != [] {
      var last := |order| - 1;
      ScanWarns(start, files, order[..last], pass, name);
      assert order == order[..last] + [order[last]];
    }
  }

  /** What a scan adds is the first of its files for that id. */
  lemma {:induction false} ScanAdds(start: Listing, files: Files, order: seq<Path>, pass: Pass, inc: Incident)
      returns (j: nat)
    requires forall p | p in order :: p in files
    requires inc in Scan(start, files, order, pass).incidents && inc !in start.incidents
    ensures j < |order| && pass.Reads(order[j]) && files[order[j]] == Json(inc)
    ensures inc.id !in start.seen && forall k | 0 <= k < j :: !Finds(files, pass, order[k], inc.id)
  {
    var last := |order| - 1;
    var front := order[..last];
    if inc in Scan(start, files, front, pass).incidents {
      j := ScanAdds(start, files, front, pass, inc);
      assert forall k | 0 <= k <= j :: front[k] == order[k];
    } else {
      j := last;
      NotedAdds(Scan(start, files, front, pass), order[last].name, files[order[last]], inc);
      ScanSees(start, files, front, pass, inc.id);
      assert forall k | 0 <= k < last :: front[k] == order[k];
    }
  }

  lemma NotedAdds(listing: Listing, name: string, content: Content, inc: Incident)
    requires inc in Noted(listing, name, content).incidents && inc !in listing.incidents
    ensures content == Json(inc) && inc.id !in listing.seen
  {
  }

  ghost predicate OncePerId(listing: Listing) {
    && (forall i | 0 <= i < |listing.incidents| :: listing.incidents[i].id in listing.seen)
    && (forall id | id in listing.seen :: exists i | 0 <= i < |listing.incidents| :: listing.incidents[i].id == id)
    && (forall i, j | 0 <= i < j < |listing.incidents| :: listing.incidents[i].id != listing.incidents[j].id)
  }

  lemma NotedOncePerId(listing: Listing, name: string, content: Content)
    requires OncePerId(listing)
    ensures OncePerId(Noted(listing, name, content))
  {
    var after := Noted(listing, name, content);
    forall id | id in after.seen
      ensures exists i | 0 <= i < |after.incidents| :: after.incidents[i].id == id
    {
      if id in listing.seen {
        var i :| 0 <= i < |listing.incidents| && listing.incidents[i].id == id;
        assert after.incidents[i].id == id;
      } else {
        assert after.incidents[|listing.incidents|].id == id;
      }
    }
  }

  lemma {:induction false} ScanOncePerId(start: Listing, files: Files, order: seq<Path>, pass: Pass)
    requires OncePerId(start) && forall p | p in order :: p in files
    ensures OncePerId(Scan(start, files, order, pass))
    ensures (forall p | p in order && pass.Reads(p) :: files[p].Json?) ==>
        Scan(start, files, order, pass).warnings == start.warnings
  {
    if order != [] {
      var front, p := order[..|order| - 1], order[|order| - 1];
      ScanOncePerId(start, files, front, pass);
      NotedOncePerId(Scan(start, files, front, pass), p.name, files[p]);
    }
  }

  // ----- the listing shows the store -----

  /** The files a listing gets to. Walk enters nothing when the store's own directory has a special name. */
  ghost function Reachable(files: Files, location: Location): Files {
    if location.base in SPECIAL then map p | p in files && p.dirs == [] :: files[p] else files
  }

  /** The incidents a view has under ids with this prefix, but for the ids to be left out. */
  ghost function InView(view: map<string, Content>, prefix: string, out: string -> bool): set<Incident> {
    set id | id in view && view[id].Json? && prefix <= id && !out(id) :: view[id].incident
  }

  predicate Nothing(id: string) {
    false
  }

  /** The incidents held under ids with this prefix. */
  ghost function Held(files: Files, prefix: string): set<Incident> {
    InView(View(files), prefix, Nothing)
  }

  /** The incidents that Load gives for ids with this prefix. */
  ghost function Stored(files: Files, prefix: string): set<Incident> {
    set id | id in View(files) && prefix <= id && Loaded(files, id).Ok? :: Loaded(files, id).value
  }

  /** The scans get to what Load gives: the store's own directory has no special name, or
      every partitioned copy has the like of it in the root. */
  ghost predicate ReachesAll(files: Files, location: Location) {
    location.base in SPECIAL ==> forall id :: HasRootLike(files, id)
  }

  ghost predicate HasRootLike(files: Files, id: string) {
    Partitioned(id) && PathOf(id) in files ==> RootPath(id) in files && files[RootPath(id)] == files[PathOf(id)]
  }

  /** And no file has a blank for its id, which Load refuses. */
  ghost predicate ListsLoads(files: Files, location: Location) {
    ReachesAll(files, location) && forall id | id in View(files) :: !IsBlank(id)
  }

  lemma IncidentFilesAreRead(location: Location, prefix: string, p: Path, id: string)
    ensures Walking(location, prefix).Reads(p) ==> !Ignored(p)
    ensures InRoot(prefix).Reads(p) && p.dirs == [] ==> !Ignored(p)
    ensures !Ignored(PathOf(id)) && !Ignored(RootPath(id))
    ensures Partitioned(id) && location.base !in SPECIAL && prefix <= FileName(id) ==>
        Walking(location, prefix).Reads(PathOf(id))
    ensures prefix <= FileName(id) ==> InRoot(prefix).Reads(RootPath(id))
  {
    StemOfName(id);
    if Partitioned(id) {
      assert |id[4..8]| == 4 && |id[8..10]| == 2;
      assert PathOf(id).name[0] == 'I';
    }
  }

  lemma PartitionComesFirst(id: string)
    requires Partitioned(id)
    ensures !Before(Elements(RootPath(id)), Elements(PathOf(id)))
  {
    var year, name := id[4..8], FileName(id);
    assert name[0] == 'I' && year[0] < 'I' by {
      assert IsNumber(year);
      if year[0] != '+' && year[0] != '-' {
        assert '0' <= year[0] <= '9';
      }
    }
    assert Elements(PathOf(id))[0] == year && Elements(RootPath(id))[0] == name;
  }

  lemma WalkFinds(files: Files, location: Location, walk: seq<Path>, prefix: string, id: string) returns (j: nat)
    requires WellNamed(files) && IsWalk(walk, files) && location.base !in SPECIAL
    requires Partitioned(id) && PathOf(id) in files && prefix <= FileName(id)
    ensures j < |walk| && walk[j] == PathOf(id) && Finds(files, Walking(location, prefix), walk[j], id)
  {
    assert PathOf(id) in walk;
    j :| 0 <= j < |walk| && walk[j] == PathOf(id);
    IncidentFilesAreRead(location, prefix, walk[j], id);
    PathNamesId(PathOf(id), files[PathOf(id)].incident.id);
  }

  lemma RootFinds(files: Files, location: Location, entries: seq<Path>, prefix: string, id: string) returns (j: nat)
    requires WellNamed(files) && IsRootListing(entries, files)
    requires RootPath(id) in files && prefix <= FileName(id)
    ensures j < |entries| && entries[j] == RootPath(id) && Finds(files, InRoot(prefix), entries[j], id)
  {
    assert RootPath(id) in entries;
    j :| 0 <= j < |entries| && entries[j] == RootPath(id);
    IncidentFilesAreRead(location, prefix, entries[j], id);
    PathNamesId(RootPath(id), files[RootPath(id)].incident.id);
  }

  /** An id is listed exactly when it is stored where the scans get to, and named for the month. */
  lemma SeenExactly(files: Files, location: Location, walk: seq<Path>, entries: seq<Path>, prefix: string, id: string)
    requires WellNamed(files) && IsWalk(walk, files) && IsRootListing(entries, files) && Free(prefix, {'.'})
    ensures id in Gathered(files, location, walk, entries, prefix).seen
       <==> id in View(Reachable(files, location)) && prefix <= id
  {
    var walking, inRoot := Walking(location, prefix), InRoot(prefix);
    var first := Scan(NOTHING_READ, files, walk, walking);
    ScanSees(NOTHING_READ, files, walk, walking, id);
    ScanSees(first, files, entries, inRoot, id);
    NameHasPrefix(prefix, id);
    if id in View(Reachable(files, location)) && prefix <= id {
      if RootPath(id) in files {
        var j := RootFinds(files, location, entries, prefix, id);
      } else {
        var j := WalkFinds(files, location, walk, prefix, id);
      }
    }
    if j :| 0 <= j < |walk| && Finds(files, walking, walk[j], id) {
      IncidentFilesAreRead(location, prefix, walk[j], id);
      assert walk[j] == PathOf(id) || walk[j] == RootPath(id);
    }
    if j :| 0 <= j < |entries| && Finds(files, inRoot, entries[j], id) {
      IncidentFilesAreRead(location, prefix, entries[j], id);
      assert entries[j].dirs == [] && (entries[j] == PathOf(id) || entries[j] == RootPath(id));
      assert RootPath(id) in Reachable(files, location);
    }
  }

  lemma WalkShowsAsLoaded(files: Files, location: Location, walk: seq<Path>, prefix: string, inc: Incident)
    requires WellNamed(files) && IsWalk(walk, files) && Free(prefix, {'.'})
    requires inc in Scan(NOTHING_READ, files, walk, Walking(location, prefix)).incidents
    ensures inc.id in View(files) && View(files)[inc.id] == Json(inc) && location.base !in SPECIAL
  {
    var j := ScanAdds(NOTHING_READ, files, walk, Walking(location, prefix), inc);
    IncidentFilesAreRead(location, prefix, walk[j], inc.id);
    if walk[j] != PathOf(inc.id) && PathOf(inc.id) in files {
      var k := WalkFinds(files, location, walk, prefix, inc.id);
      PartitionComesFirst(inc.id);
      assert false;
    }
  }

  lemma RootShowsAsLoaded(files: Files, location: Location, walk: seq<Path>, entries: seq<Path>, prefix: string,
      inc: Incident)
    requires WellNamed(files) && IsWalk(walk, files) && IsRootListing(entries, files) && Free(prefix, {'.'})
    requires inc in Gathered(files, location, walk, entries, prefix).incidents
    requires inc !in Scan(NOTHING_READ, files, walk, Walking(location, prefix)).incidents
    ensures inc.id in View(Reachable(files, location)) && View(Reachable(files, location))[inc.id] == Json(inc)
  {
    var first := Scan(NOTHING_READ, files, walk, Walking(location, prefix));
    var j := ScanAdds(first, files, entries, InRoot(prefix), inc);
    IncidentFilesAreRead(location, prefix, entries[j], inc.id);
    if PathOf(inc.id) in Reachable(files, location) && Partitioned(inc.id) {
      var k := WalkFinds(files, location, walk, prefix, inc.id);
      ScanSees(NOTHING_READ, files, walk, Walking(location, prefix), inc.id);
      assert false;
    }
  }

  /** What is listed for an id is what the scans get to, and what Load gives where they get to all. */
  lemma ShownAsLoaded(files: Files, location: Location, walk: seq<Path>, entries: seq<Path>, prefix: string,
      inc: Incident)
    requires WellNamed(files) && IsWalk(walk, files) && IsRootListing(entries, files) && Free(prefix, {'.'})
    requires inc in Gathered(files, location, walk, entries, prefix).incidents
    ensures inc.id in View(Reachable(files, location)) && View(Reachable(files, location))[inc.id] == Json(inc)
    ensures ListsLoads(files, location) ==> Loaded(files, inc.id) == Ok(inc)
  {
    ReachesAllExactly(files, location);
    if inc in Scan(NOTHING_READ, files, walk, Walking(location, prefix)).incidents {
      WalkShowsAsLoaded(files, location, walk, prefix, inc);
    } else {
      RootShowsAsLoaded(files, location, walk, entries, prefix, inc);
    }
  }

  lemma {:induction false} OnceEach(incidents: seq<Incident>)
    requires forall i, j | 0 <= i < j < |incidents| :: incidents[i] != incidents[j]
    ensures multiset(incidents) == multiset(set inc | inc in incidents)
  {
    if incidents != [] {
      var front, last := incidents[..|incidents| - 1], incidents[|incidents| - 1];
      OnceEach(front);
      assert incidents == front + [last];
      assert (set inc | inc in incidents) == (set inc | inc in front) + {last};
    }
  }

  lemma GatheredOncePerId(files: Files, location: Location, walk: seq<Path>, entries: seq<Path>, prefix: string)
    requires IsWalk(walk, files) && IsRootListing(entries, files)
    ensures OncePerId(Gathered(files, location, walk, entries, prefix))
    ensures (forall p | p in files && !Ignored(p) :: files[p].Json?) ==>
        Gathered(files, location, walk, entries, prefix).warnings == []
  {
    forall p
      ensures Walking(location, prefix).Reads(p) ==> !Ignored(p)
      ensures InRoot(prefix).Reads(p) && p.dirs == [] ==> !Ignored(p)
    {
      IncidentFilesAreRead(location, prefix, p, "");
    }
    ScanOncePerId(NOTHING_READ, files, walk, Walking(location, prefix));
    ScanOncePerId(Scan(NOTHING_READ, files, walk, Walking(location, prefix)), files, entries, InRoot(prefix));
  }

  lemma ListedIsStored(files: Files, location: Location, walk: seq<Path>, entries: seq<Path>, prefix: string,
      inc: Incident)
    requires WellNamed(files) && IsWalk(walk, files) && IsRootListing(entries, files) && Free(prefix, {'.'})
    ensures inc in Gathered(files, location, walk, entries, prefix).incidents
        <==> inc in Held(Reachable(files, location), prefix)
  {
    var gathered := Gathered(files, location, walk, entries, prefix);
    GatheredOncePerId(files, location, walk, entries, prefix);
    SeenExactly(files, location, walk, entries, prefix, inc.id);
    if inc in gathered.incidents {
      ShownAsLoaded(files, location, walk, entries, prefix, inc);
    } else if inc in Held(Reachable(files, location), prefix) {
      StoredUnderOwnId(files, location, prefix, inc);
      var i :| 0 <= i < |gathered.incidents| && gathered.incidents[i].id == inc.id;
      ShownAsLoaded(files, location, walk, entries, prefix, gathered.incidents[i]);
    }
  }

  lemma StoredUnderOwnId(files: Files, location: Location, prefix: string, inc: Incident)
    requires WellNamed(files) && inc in Held(Reachable(files, location), prefix)
    ensures inc.id in View(Reachable(files, location)) && View(Reachable(files, location))[inc.id] == Json(inc)
        && prefix <= inc.id
  {
    var view := View(Reachable(files, location));
    var id :| id in view && view[id] == Json(inc) && prefix <= id;
    IncidentFilesAreRead(location, prefix, PathOf(id), id);
    if PathOf(id) in files && files[PathOf(id)] == Json(inc) {
      PathNamesId(PathOf(id), id);
      PathNamesId(PathOf(id), inc.id);
    } else {
      PathNamesId(RootPath(id), id);
      PathNamesId(RootPath(id), inc.id);
    }
  }

  /** When each file holds the incident its name says, the listing has every incident
      held for the month where the scans get to, exactly once, and warns of nothing. */
  lemma EachOnce(files: Files, location: Location, walk: seq<Path>, entries: seq<Path>, prefix: string)
    requires WellNamed(files) && IsWalk(walk, files) && IsRootListing(entries, files) && Free(prefix, {'.'})
    ensures var gathered := Gathered(files, location, walk, entries, prefix);
            && gathered.warnings == []
            && multiset(gathered.incidents) == multiset(Held(Reachable(files, location), prefix))
  {
    var incidents := Gathered(files, location, walk, entries, prefix).incidents;
    GatheredOncePerId(files, location, walk, entries, prefix);
    OnceEach(incidents);
    forall inc
      ensures inc in incidents <==> inc in Held(Reachable(files, location), prefix)
    {
      ListedIsStored(files, location, walk, entries, prefix, inc);
    }
    assert (set inc | inc in incidents) == Held(Reachable(files, location), prefix);
  }

  ghost predicate Alike(a: map<string, Content>, b: map<string, Content>, id: string) {
    (id in a <==> id in b) && (id in a && id in b ==> a[id] == b[id])
  }

  lemma AlikeEverywhere(a: map<string, Content>, b: map<string, Content>)
    ensures a == b <==> forall id :: Alike(a, b, id)
  {
    if forall id :: Alike(a, b, id) {
      forall id
        ensures id in a <==> id in b
        ensures id in a ==> a[id] == b[id]
      {
        assert Alike(a, b, id);
      }
    }
  }

  /** In a directory of a special name only root copies are reached. */
  lemma SpecialViewExactly(files: Files, location: Location, id: string)
    requires location.base in SPECIAL
    ensures Alike(View(Reachable(files, location)), View(files), id) <==> HasRootLike(files, id)
  {
    var reach := Reachable(files, location);
    assert id in View(reach) <==> RootPath(id) in files;
  }

  lemma ReachesAllExactly(files: Files, location: Location)
    ensures View(Reachable(files, location)) == View(files) <==> ReachesAll(files, location)
  {
    if location.base in SPECIAL {
      forall id
        ensures Alike(View(Reachable(files, location)), View(files), id) <==> HasRootLike(files, id)
      {
        SpecialViewExactly(files, location, id);
      }
      AlikeEverywhere(View(Reachable(files, location)), View(files));
    }
  }

  /** What is held under an id has that id. */
  ghost predicate OwnIds(view: map<string, Content>) {
    forall id | id in view :: view[id].Json? && view[id].incident.id == id
  }

  lemma WellNamedView(files: Files)
    requires WellNamed(files)
    ensures OwnIds(View(files))
  {
    forall id | id in View(files)
      ensures View(files)[id].Json? && View(files)[id].incident.id == id
    {
      var p := if PathOf(id) in files then PathOf(id) else RootPath(id);
      IncidentFilesAreRead(Location("", "", ""), "", p, id);
      PathNamesId(p, id);
      PathNamesId(p, files[p].incident.id);
    }
  }

  lemma ReachableWellNamed(files: Files, location: Location)
    requires WellNamed(files)
    ensures WellNamed(Reachable(files, location))
  {
  }

  /** Load leaves out what is held under blank ids. */
  lemma StoredIsHeld(files: Files, prefix: string)
    ensures Stored(files, prefix) == InView(View(files), prefix, IsBlank)
  {
  }

  /** Two views of own ids have the same incidents, one of them without some ids that the other
      has too, exactly when they are the same and there are none of these. */
  lemma SameIncidentsSameViews(a: map<string, Content>, b: map<string, Content>, out: string -> bool)
    requires OwnIds(a) && OwnIds(b) && forall id | id in b && out(id) :: id in a
    ensures InView(a, "", Nothing) == InView(b, "", out) <==> a == b && forall id | id in b :: !out(id)
  {
    if InView(a, "", Nothing) == InView(b, "", out) {
      forall id | id in a
        ensures id in b && !out(id) && b[id] == a[id]
      {
        assert a[id].incident in InView(a, "", Nothing);
        var other :| other in b && !out(other) && b[other].incident == a[id].incident;
      }
      forall id | id in b && !out(id)
        ensures id in a
      {
        assert b[id].incident in InView(b, "", out);
        var other :| other in a && a[other].incident == b[id].incident;
      }
    }
  }

  lemma PartitionedIsNotBlank(id: string)
    requires Partitioned(id)
    ensures !IsBlank(id)
  {
    assert id[0] == 'I' && 'I' !in SPACES;
    if IsBlank(id) {
      BlankIsSpaces(id);
    }
  }

  /** What has no month's directory is in the store's own, where the listing always finds it. */
  lemma RootIsReached(files: Files, location: Location, id: string)
    requires id in View(files) && !Partitioned(id)
    ensures id in View(Reachable(files, location))
  {
    assert RootPath(id) in files && RootPath(id) in Reachable(files, location);
  }

  /** On well-named files the listing of all months is exactly what Load gives for the stored
      ids if and only if the scans get to all of it and no id is blank; and then so is the
      listing of every month. */
  lemma ListsLoadsExactly(files: Files, location: Location, prefix: string)
    requires WellNamed(files)
    ensures Held(Reachable(files, location), "") == Stored(files, "") <==> ListsLoads(files, location)
    ensures ListsLoads(files, location) ==> Held(Reachable(files, location), prefix) == Stored(files, prefix)
  {
    ReachesAllExactly(files, location);
    WellNamedView(files);
    ReachableWellNamed(files, location);
    WellNamedView(Reachable(files, location));
    StoredIsHeld(files, "");
    StoredIsHeld(files, prefix);
    forall id | id in View(files) && IsBlank(id)
      ensures id in View(Reachable(files, location))
    {
      if Partitioned(id) {
        PartitionedIsNotBlank(id);
      }
      RootIsReached(files, location, id);
    }
    SameIncidentsSameViews(View(Reachable(files, location)), View(files), IsBlank);
    if ListsLoads(files, location) {
      NoneLeftOut(View(files), prefix);
    }
  }

  lemma NoneLeftOut(view: map<string, Content>, prefix: string)
    requires forall id | id in view :: !IsBlank(id)
    ensures InView(view, prefix, IsBlank) == InView(view, prefix, Nothing)
  {
  }

  /** A store in a directory of a special name that holds a newer partitioned copy beside an
      older root copy: Load gives the newer, the listing the older. */
  lemma SpecialNameShowsOlderCopy(newer: Incident, older: Incident, location: Location)
    requires location.base in SPECIAL && newer.id == older.id && Partitioned(newer.id) && newer != older
    ensures var files := map[PathOf(newer.id) := Json(newer), RootPath(newer.id) := Json(older)];
            && WellNamed(files) && Loaded(files, newer.id) == Ok(newer)
            && Held(Reachable(files, location), "") == {older}
  {
    var files := map[PathOf(newer.id) := Json(newer), RootPath(newer.id) := Json(older)];
    PartitionedIsNotBlank(newer.id);
    TwoCopies(files, newer, older);
    PartitionedCopyLoaded(files, newer);
    OnlyRootReached(files, location, Json(newer), Json(older), older.id);
    OnlyRootCopy(Reachable(files, location), older);
  }

  lemma OnlyRootReached(files: Files, location: Location, newer: Content, older: Content, id: string)
    requires location.base in SPECIAL && Partitioned(id)
    requires files == map[PathOf(id) := newer, RootPath(id) := older]
    ensures Reachable(files, location) == map[RootPath(id) := older]
  {
  }

  lemma TwoCopies(files: Files, newer: Incident, older: Incident)
    requires newer.id == older.id
    requires files == map[PathOf(newer.id) := Json(newer), RootPath(newer.id) := Json(older)]
    ensures WellNamed(files)
  {
  }

  lemma PartitionedCopyLoaded(files: Files, inc: Incident)
    requires PathOf(inc.id) in files && files[PathOf(inc.id)] == Json(inc) && !IsBlank(inc.id)
    ensures Loaded(files, inc.id) == Ok(inc)
  {
    assert inc.id in View(files) && View(files)[inc.id] == Json(inc);
  }

  lemma OnlyRootCopy(files: Files, inc: Incident)
    requires files == map[RootPath(inc.id) := Json(inc)]
    ensures Held(files, "") == {inc}
  {
    forall other
      ensures other in View(files) <==> other == inc.id
    {
      PathNamesId(RootPath(inc.id), inc.id);
      PathNamesId(RootPath(other), other);
      PathNamesId(PathOf(other), other);
    }
    assert View(files)[inc.id] == Json(inc);
  }

  /** For instance in a directory called "seeds". */
  lemma SeedsShowsOlderCopy(newer: Incident, older: Incident)
    requires newer.id == older.id == "INC-20260101-000000" && newer != older
    ensures var files := map[Path(["2026", "01"], "INC-20260101-000000.json") := Json(newer),
                             Path([], "INC-20260101-000000.json") := Json(older)];
            && WellNamed(files) && Loaded(files, newer.id) == Ok(newer)
            && Held(Reachable(files, Location("data/seeds", "data/seeds", "seeds")), "") == {older}
  {
    DatedPath(newer.id);
    SpecialNameShowsOlderCopy(newer, older, Location("data/seeds", "data/seeds", "seeds"));
  }

  lemma DatedPath(id: string)
    requires id == "INC-20260101-000000"
    ensures PathOf(id) == Path(["2026", "01"], "INC-20260101-000000.json")
    ensures RootPath(id) == Path([], "INC-20260101-000000.json")
  {
    assert id[4..8] == "2026" && id[8..10] == "01";
    assert FileName(id) == "INC-20260101-000000.json";
  }

  // ----- the listing of a month -----

  /** The incidents held for a month. */
  ghost function HeldFor(files: Files, month: int, year: int): set<Incident> {
    set id | id in View(files) && View(files)[id].Json? && ForMonth(id, month, year) :: View(files)[id].incident
  }

  /** The incidents that Load gives for a month's ids. */
  ghost function LoadedFor(files: Files, month: int, year: int): set<Incident> {
    set id | id in View(files) && Loaded(files, id).Ok? && ForMonth(id, month, year) :: Loaded(files, id).value
  }

  lemma MonthIsPrefix(files: Files, month: int, year: int)
    ensures HeldFor(files, month, year) == Held(files, DatePrefix(month, year))
    ensures LoadedFor(files, month, year) == Stored(files, DatePrefix(month, year))
  {
    PrefixIsMonth(month, year);
  }

  /** A file the listing of a month reads: a JSON file named for the month, in the store's own
      directory or below it, but not below a special one and no audit file there. */
  ghost predicate IsRead(p: Path, location: Location, month: int, year: int) {
    && (exists stem :: p.name == stem + ".json")
    && ForMonth(p.name, month, year)
    && (p.dirs == []
        || (&& p.name != "audit.json" && location.base !in {"lifecycle", "predictions", "seeds"}
            && forall k | 0 <= k < |p.dirs| :: p.dirs[k] !in {"lifecycle", "predictions", "seeds"}))
  }

  lemma ReadByScans(p: Path, location: Location, month: int, year: int)
    ensures IsRead(p, location, month, year)
       <==> || Walking(location, DatePrefix(month, year)).Reads(p)
            || (p.dirs == [] && InRoot(DatePrefix(month, year)).Reads(p))
  {
    PrefixIsMonth(month, year);
    JsonNames(p.name);
    assert SPECIAL == {"lifecycle", "predictions", "seeds"};
  }

  lemma JsonNames(name: string)
    ensures IsJsonName(name) <==> exists stem :: name == stem + ".json"
  {
    if stem :| name == stem + ".json" {
      StemOfName(stem);
    }
    if IsJsonName(name) {
      assert name == Stem(name) + ".json";
    }
  }

  /** Whatever the files hold, the listing has one incident for each id that some file it reads
      holds, and no others, and warns of just those files it reads and cannot make out. */
  ghost predicate ListsFiles(files: Files, location: Location, month: int, year: int,
                             incidents: seq<Incident>, warnings: seq<string>)
  {
    && (forall inc | inc in incidents ::
          exists p | p in files && IsRead(p, location, month, year) :: files[p] == Json(inc))
    && (forall p | p in files && IsRead(p, location, month, year) && files[p].Json? ::
          IsListed(files[p].incident.id, incidents))
    && (forall i, j | 0 <= i < j < |incidents| :: incidents[i].id != incidents[j].id)
    && (forall name :: name in warnings
          <==> exists p | p in files && IsRead(p, location, month, year) :: files[p].Junk? && p.name == name)
  }

  lemma ScansListFiles(files: Files, location: Location, walk: seq<Path>, entries: seq<Path>, month: int, year: int)
    requires IsWalk(walk, files) && IsRootListing(entries, files)
    ensures var gathered := Gathered(files, location, walk, entries, DatePrefix(month, year));
            ListsFiles(files, location, month, year, gathered.incidents, gathered.warnings)
  {
    var prefix := DatePrefix(month, year);
    var gathered := Gathered(files, location, walk, entries, prefix);
    GatheredOncePerId(files, location, walk, entries, prefix);
    forall inc | inc in gathered.incidents
      ensures exists p | p in files && IsRead(p, location, month, year) :: files[p] == Json(inc)
    {
      var p := ListedFile(files, location, walk, entries, month, year, inc);
    }
    forall p | p in files && IsRead(p, location, month, year) && files[p].Json?
      ensures IsListed(files[p].incident.id, gathered.incidents)
    {
      FileListed(files, location, walk, entries, month, year, p);
    }
    forall name
      ensures name in gathered.warnings
         <==> exists p | p in files && IsRead(p, location, month, year) :: files[p].Junk? && p.name == name
    {
      FileWarned(files, location, walk, entries, month, year, name);
    }
  }

  lemma ListedFile(files: Files, location: Location, walk: seq<Path>, entries: seq<Path>, month: int, year: int,
                   inc: Incident) returns (p: Path)
    requires IsWalk(walk, files) && IsRootListing(entries, files)
    requires inc in Gathered(files, location, walk, entries, DatePrefix(month, year)).incidents
    ensures p in files && IsRead(p, location, month, year) && files[p] == Json(inc)
  {
    var prefix := DatePrefix(month, year);
    var first := Scan(NOTHING_READ, files, walk, Walking(location, prefix));
    if inc in first.incidents {
      var j := ScanAdds(NOTHING_READ, files, walk, Walking(location, prefix), inc);
      p := walk[j];
    } else {
      var j := ScanAdds(first, files, entries, InRoot(prefix), inc);
      p := entries[j];
    }
    ReadByScans(p, location, month, year);
  }

  lemma FileListed(files: Files, location: Location, walk: seq<Path>, entries: seq<Path>, month: int, year: int,
                   p: Path)
    requires IsWalk(walk, files) && IsRootListing(entries, files)
    requires p in files && IsRead(p, location, month, year) && files[p].Json?
    ensures IsListed(files[p].incident.id, Gathered(files, location, walk, entries, DatePrefix(month, year)).incidents)
  {
    var prefix, id := DatePrefix(month, year), files[p].incident.id;
    var first := Scan(NOTHING_READ, files, walk, Walking(location, prefix));
    var gathered := Gathered(files, location, walk, entries, prefix);
    ReadByScans(p, location, month, year);
    ScanSees(NOTHING_READ, files, walk, Walking(location, prefix), id);
    ScanSees(first, files, entries, InRoot(prefix), id);
    if Walking(location, prefix).Reads(p) {
      var j :| 0 <= j < |walk| && walk[j] == p;
      assert Finds(files, Walking(location, prefix), walk[j], id);
    } else {
      var j :| 0 <= j < |entries| && entries[j] == p;
      assert Finds(files, InRoot(prefix), entries[j], id);
    }
    GatheredOncePerId(files, location, walk, entries, prefix);
    var i :| 0 <= i < |gathered.incidents| && gathered.incidents[i].id == id;
    assert gathered.incidents[i] in gathered.incidents;
  }

  lemma FileWarned(files: Files, location: Location, walk: seq<Path>, entries: seq<Path>, month: int, year: int,
                   name: string)
    requires IsWalk(walk, files) && IsRootListing(entries, files)
    ensures name in Gathered(files, location, walk, entries, DatePrefix(month, year)).warnings
       <==> exists p | p in files && IsRead(p, location, month, year) :: files[p].Junk? && p.name == name
  {
    var prefix := DatePrefix(month, year);
    ScanWarns(NOTHING_READ, files, walk, Walking(location, prefix), name);
    ScanWarns(Scan(NOTHING_READ, files, walk, Walking(location, prefix)), files, entries, InRoot(prefix), name);
    forall p
      ensures IsRead(p, location, month, year)
         <==> Walking(location, prefix).Reads(p) || (p.dirs == [] && InRoot(prefix).Reads(p))
    {
      ReadByScans(p, location, month, year);
    }
  }

  /** The order of the incidents does not matter to what is listed. */
  lemma ListsInAnyOrder(files: Files, location: Location, month: int, year: int, a: seq<Incident>, b: seq<Incident>,
                        warnings: seq<string>)
    requires ListsFiles(files, location, month, year, a, warnings) && multiset(a) == multiset(b)
    ensures ListsFiles(files, location, month, year, b, warnings)
  {
    forall inc
      ensures inc in b <==> inc in a
    {
      assert inc in multiset(a) <==> inc in multiset(b);
    }
    forall id | IsListed(id, a)
      ensures IsListed(id, b)
    {
      var inc :| inc in a && inc.id == id;
      assert inc in b;
    }
    IdsOnceInAnyOrder(a, b);
  }

  lemma IdsOnceInAnyOrder(a: seq<Incident>, b: seq<Incident>)
    requires multiset(a) == multiset(b) && forall i, j | 0 <= i < j < |a| :: a[i].id != a[j].id
    ensures forall i, j | 0 <= i < j < |b| :: b[i].id != b[j].id
  {
    DistinctByCount(a);
    DistinctByCount(b);
    forall i, j | 0 <= i < j < |b|
      ensures b[i].id != b[j].id
    {
      assert b[i] in multiset(a) && b[j] in multiset(a);
      assert b[i] != b[j];
    }
  }

  ghost predicate IsListed(id: string, incidents: seq<Incident>) {
    exists inc | inc in incidents :: inc.id == id
  }

  predicate CreatedFirst(a: Incident, b: Incident) {
    a.createdAt >= b.createdAt
  }

  /** One scan: the files that may be read are, and their incidents added to those found so far. */
  method ScanFiles(files: Files, order: seq<Path>, pass: Pass, start: Listing)
    returns (incidents: seq<Incident>, warnings: seq<string>, idMap: set<string>)
    requires forall p | p in order :: p in files
    ensures Listing(incidents, warnings, idMap) == Scan(start, files, order, pass)
  {
    incidents, warnings, idMap := start.incidents, start.warnings, start.seen;
    for i := 0 to |order|
      invariant Listing(incidents, warnings, idMap) == Scan(start, files, order[..i], pass)
    {
      ScanStep(start, files, order, pass, i);
      if pass.Reads(order[i]) {
        match files[order[i]]
        case Junk => warnings := warnings + [order[i].name];
        case Json(inc) =>
          if inc.id !in idMap {
            incidents := incidents + [inc];
            idMap := idMap + {inc.id};
          }
      }
    }
    assert order[..|order|] == order;
  }

  lemma CreatedFirstIsPreorder()
    ensures Preorder(CreatedFirst)
  {
  }

  method ListForMonth(store: Store, walk: seq<Path>, entries: seq<Path>, month: int, year: int)
    returns (incidents: seq<Incident>, warnings: seq<string>)
    requires IsWalk(walk, store.files) && IsRootListing(entries, store.files)
    ensures var gathered := Gathered(store.files, store.location, walk, entries, DatePrefix(month, year));
            multiset(incidents) == multiset(gathered.incidents) && warnings == gathered.warnings
    ensures forall i, j | 0 <= i < j < |incidents| :: incidents[i].createdAt >= incidents[j].createdAt
    ensures ListsFiles(store.files, store.location, month, year, incidents, warnings)
    ensures WellNamed(store.files) ==>
              && warnings == []
              && multiset(incidents) == multiset(HeldFor(Reachable(store.files, store.location), month, year))
    ensures WellNamed(store.files) && ListsLoads(store.files, store.location) ==>
              multiset(incidents) == multiset(LoadedFor(store.files, month, year))
    ensures (month <= 0 || year <= 0) && WellNamed(store.files) ==>
              && multiset(incidents) == multiset(Held(Reachable(store.files, store.location), ""))
              && (ListsLoads(store.files, store.location) ==> multiset(incidents) == multiset(Stored(store.files, "")))
  {
    var files, location, datePrefix := store.files, store.location, DatePrefix(month, year);
    var idMap: set<string>;
    incidents, warnings, idMap := ScanFiles(files, walk, Walking(location, datePrefix), NOTHING_READ);
    incidents, warnings, idMap := ScanFiles(files, entries, InRoot(datePrefix), Listing(incidents, warnings, idMap));
    CreatedFirstIsPreorder();
    ScansListFiles(files, location, walk, entries, month, year);
    ghost var gathered := incidents;
    incidents := SortBy(incidents, CreatedFirst);
    ListsInAnyOrder(files, location, month, year, gathered, incidents, warnings);
    if WellNamed(files) {
      DatePrefixIsPlain(month, year);
      EachOnce(files, location, walk, entries, datePrefix);
      ListsLoadsExactly(files, location, datePrefix);
      MonthIsPrefix(files, month, year);
      MonthIsPrefix(Reachable(files, location), month, year);
    }
  }
}
