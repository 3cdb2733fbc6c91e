/** The incident store: a file per incident, in a year and month directory for ids
    that carry a date and in the store's own directory for the others and for files
    written before the directories were introduced.

    Ids hold no path separator. Save, SaveNew, Load and the listing each hold the lock from
    beginning to end, so these are taken one at a time; SaveMetadata takes it twice. */
module IncidentStore {
  import opened Collections
  import opened Text

  datatype Incident = Incident(id: string, createdAt: int, metadata: map<string, string>, details: string)

  datatype Content = Json(incident: Incident) | Junk

  /** A file by the directories leading to it from the store's own, and its name. */
  datatype Path = Path(dirs: seq<string>, name: string)

  type Files = map<Path, Content>

  /** The directory a store was opened on: as given, after filepath.Clean, and its last element. */
  datatype Location = Location(given: string, cleaned: string, base: string)

  /** What the file system refuses during a call. */
  datatype Faults = Faults(write: bool, remove: bool, owner: bool)

  datatype Error = EmptyId | WriteFailed | OwnerUnknown | Exists | NotFound | Invalid

  // ----- where an incident is kept -----

  /** strconv.Atoi accepts the text, which is too short to overflow. */
  predicate IsNumber(s: string) {
    IsDigits(if s != "" && (s[0] == '+' || s[0] == '-') then s[1..] else s)
  }

  function FileName(id: string): string {
    id + ".json"
  }

  function Stem(name: string): string {
    if |name| < 5 then "" else name[..|name| - 5]
  }

  lemma StemOfName(id: string)
    ensures Stem(FileName(id)) == id
  {
  }

  predicate IsJsonName(name: string) {
    name == FileName(Stem(name))
  }

  /** getPath. Joining the year with a month of ".." leads back to the store's own directory. */
  function PathOf(id: string): Path {
    if |id| >= 10 && "INC-" <= id && IsNumber(id[4..8]) && id[8..10] != ".." then
      Path([id[4..8], id[8..10]], FileName(id))
    else
      RootPath(id)
  }

  function RootPath(id: string): Path {
    Path([], FileName(id))
  }

  predicate Partitioned(id: string) {
    PathOf(id).dirs != []
  }

  /** An id that carries a date is kept by its year and month: `INC-`, a year of four characters
      that is a number, and a month of two. */
  lemma PathByDate(y: string, m: string, rest: string)
    requires |y| == 4 && |m| == 2
    ensures var id := "INC-" + y + m + rest;
            PathOf(id) == if IsNumber(y) && m != ".." then Path([y, m], id + ".json") else Path([], id + ".json")
  {
    var id := "INC-" + y + m + rest;
    assert id[4..8] == y && id[8..10] == m;
  }

  ghost predicate CarriesDate(id: string) {
    exists y, m, rest :: |y| == 4 && |m| == 2 && IsNumber(y) && m != ".." && id == "INC-" + y + m + rest
  }

  /** Every other id is kept in the store's own directory. */
  lemma PartitionedExactly(id: string)
    ensures Partitioned(id) <==> CarriesDate(id)
    ensures !CarriesDate(id) ==> PathOf(id) == Path([], id + ".json")
  {
    if Partitioned(id) {
      assert id == "INC-" + id[4..8] + id[8..10] + id[10..];
    }
    if y, m, rest :| |y| == 4 && |m| == 2 && IsNumber(y) && m != ".." && id == "INC-" + y + m + rest {
      PathByDate(y, m, rest);
    }
  }

  /** A number is of digits, after a sign perhaps. */
  lemma NumberMeans(s: string)
    ensures IsNumber(s) <==> IsDigits(s) || exists digits | IsDigits(digits) :: s == "+" + digits || s == "-" + digits
  {
    if s != "" && (s[0] == '+' || s[0] == '-') {
      assert s == [s[0]] + s[1..];
    }
    if digits :| IsDigits(digits) && (s == "+" + digits || s == "-" + digits) {
      assert s[1..] == digits;
    }
  }

  lemma PathNamesId(p: Path, id: string)
    requires p == PathOf(id) || p == RootPath(id)
    ensures Stem(p.name) == id
  {
    StemOfName(id);
  }

  // ----- the store as a map from id to what it holds -----

  /** The ids that have a file, in either place. */
  ghost function StoredIds(files: Files): (ids: set<string>)
    ensures forall id :: id in ids <==> PathOf(id) in files || RootPath(id) in files
  {
    forall id
      ensures Stem(PathOf(id).name) == id && Stem(RootPath(id).name) == id
    {
      PathNamesId(PathOf(id), id);
      PathNamesId(RootPath(id), id);
    }
    set p | p in files && (p == PathOf(Stem(p.name)) || p == RootPath(Stem(p.name))) :: Stem(p.name)
  }

  /** What the store holds for each id; the partitioned copy hides a root copy. */
  ghost function View(files: Files): (view: map<string, Content>) {
    map id | id in StoredIds(files) :: if PathOf(id) in files then files[PathOf(id)] else files[RootPath(id)]
  }

  /** What Load returns. */
  ghost function Loaded(files: Files, id: string): Result<Incident, Error> {
    if IsBlank(id) then Err(EmptyId)
    else if id !in View(files) then Err(NotFound)
    else match View(files)[id] case Json(inc) => Ok(inc) case Junk => Err(Invalid)
  }

  /** No id has both a partitioned and a root copy. */
  ghost predicate NoDoubles(files: Files) {
    forall id | Partitioned(id) :: !(PathOf(id) in files && RootPath(id) in files)
  }

  const SPECIAL: set<string> := {"lifecycle", "predictions", "seeds"}

  /** Files that are no incidents: those with other names, and what the special directories hold. */
  predicate Ignored(p: Path) {
    || !IsJsonName(p.name)
    || (p.dirs != [] && p.name == "audit.json")
    || exists k | 0 <= k < |p.dirs| :: p.dirs[k] in SPECIAL
  }

  /** Each incident file holds the incident its name says, and lies where that incident belongs. */
  ghost predicate WellNamed(files: Files) {
    forall p | p in files && !Ignored(p) ::
      files[p].Json? && (p == PathOf(files[p].incident.id) || p == RootPath(files[p].incident.id))
  }

  /** Whether Save, having written `id`, goes on to remove a root copy: when
      filepath.Dir of the path written is not, letter for letter, the store's directory. */
  predicate Cleans(location: Location, id: string) {
    Partitioned(id) || location.cleaned != location.given
  }

  /** The files after a save. */
  function Saved(files: Files, location: Location, inc: Incident, faults: Faults): Files {
    if IsBlank(inc.id) || faults.write then files
    else
      var written := files[PathOf(inc.id) := Json(inc)];
      if Cleans(location, inc.id) && !faults.remove then written - {RootPath(inc.id)} else written
  }

  predicate IsBlank(id: string) {
    TrimSpace(id) == ""
  }

  lemma BlankIsSpaces(id: string)
    ensures IsBlank(id) <==> AllIn(id, {'\t', '\n', 11 as char, 12 as char, '\r', ' '})
  {
    TrimKeepsMiddle(id, SPACES);
    assert SPACES == {'\t', '\n', 11 as char, 12 as char, '\r', ' '};
    var before, after :| AllIn(before, SPACES) && AllIn(after, SPACES) && id == before + TrimSpace(id) + after;
    if !IsBlank(id) {
      assert id[|before|] == TrimSpace(id)[0];
    }
  }

  function SaveError(id: string, faults: Faults): Option<Error> {
    if IsBlank(id) then Some(EmptyId)
    else if faults.write then Some(WriteFailed)
    else if faults.owner then Some(OwnerUnknown)
    else None
  }

  /** The files after a save of an incident that must be new. */
  function SavedNew(files: Files, inc: Incident, faults: Faults): Files {
    if IsBlank(inc.id) || PathOf(inc.id) in files || RootPath(inc.id) in files || faults.write then files
    else files[PathOf(inc.id) := Json(inc)]
  }

  class Store {
    const location: Location
    var files: Files

    constructor (location: Location, files: Files)
      ensures this.location == location && this.files == files
    {
      this.location, this.files := location, files;
    }

    method Save(inc: Incident, faults: Faults) returns (err: Option<Error>)
      modifies this
      ensures files == Saved(old(files), location, inc, faults)
      ensures if IsBlank(inc.id) then err == Some(EmptyId)
              else if faults.write then err == Some(WriteFailed)
              else if faults.owner then err == Some(OwnerUnknown)
              else err == None
    {
      if IsBlank(inc.id) {
        return Some(EmptyId);
      }
      var path := PathOf(inc.id);
      if faults.write {
        return Some(WriteFailed);
      }
      files := files[path := Json(inc)];
      if path.dirs != [] || location.cleaned != location.given {
        var rootPath := RootPath(inc.id);
        if rootPath in files && !faults.remove {
          files := files - {rootPath};
        }
      }
      err := if faults.owner then Some(OwnerUnknown) else None;
    }

    method SaveNew(inc: Incident, faults: Faults) returns (err: Option<Error>)
      modifies this
      ensures files == SavedNew(old(files), inc, faults)
      ensures err == if IsBlank(inc.id) then Some(EmptyId)
                     else if inc.id in View(old(files)) then Some(Exists)
                     else if faults.write then Some(WriteFailed)
                     else if faults.owner then Some(OwnerUnknown)
                     else None
    {
      if IsBlank(inc.id) {
        return Some(EmptyId);
      }
      var path := PathOf(inc.id);
      if path in files {
        return Some(Exists);
      }
      if RootPath(inc.id) in files {
        return Some(Exists);
      }
      if faults.write {
        return Some(WriteFailed);
      }
      files := files[path := Json(inc)];
      err := if faults.owner then Some(OwnerUnknown) else None;
    }

    method Load(id: string) returns (r: Result<Incident, Error>)
      ensures r == Loaded(files, id)
    {
      if IsBlank(id) {
        return Err(EmptyId);
      }
      var path := PathOf(id);
      if path !in files {
        path := RootPath(id);
        if path !in files {
          return Err(NotFound);
        }
      }
      match files[path]
      case Json(inc) => r := Ok(inc);
      case Junk => r := Err(Invalid);
    }

    /** SaveMetadata: it loads under the lock, and saves under the lock taken once more, after
        whatever was done `between`. */
    method SaveMetadata(id: string, metadata: map<string, string>, between: seq<Op>, faults: Faults)
      returns (err: Option<Error>)
      modifies this
      ensures match Loaded(old(files), id)
              case Err(error) => err == Some(error) && files == old(files)
              case Ok(inc) =>
                && err == SaveError(inc.id, faults)
                && files == Saved(ApplyAll(old(files), location, between), location, inc.(metadata := metadata), faults)
    {
      var r := Load(id);
      if r.Err? {
        return Some(r.error);
      }
      var inc := r.value.(metadata := metadata);
      files := ApplyAll(files, location, between);
      err := Save(inc, faults);
    }
  }

  // ----- the operations refine operations on the map -----

  /** Files of different ids are different files. */
  lemma PathsApart(id: string, other: string)
    requires id != other
    ensures {PathOf(id), RootPath(id)} !! {PathOf(other), RootPath(other)}
  {
    PathNamesId(PathOf(id), id);
    PathNamesId(RootPath(id), id);
    PathNamesId(PathOf(other), other);
    PathNamesId(RootPath(other), other);
  }

  /** The two collections of files differ at most in the files of `id`. */
  ghost predicate SameButFor(files: Files, after: Files, id: string) {
    forall p | p != PathOf(id) && p != RootPath(id) ::
        (p in after <==> p in files) && (p in after ==> after[p] == files[p])
  }

  /** The views then differ at most in the entry of `id`. */
  lemma ViewButFor(files: Files, after: Files, id: string, other: string)
    requires SameButFor(files, after, id) && id != other
    ensures other in View(after) <==> other in View(files)
    ensures other in View(after) ==> View(after)[other] == View(files)[other]
  {
    PathsApart(id, other);
    var path, root := PathOf(other), RootPath(other);
    assert path != PathOf(id) && path != RootPath(id) && root != PathOf(id) && root != RootPath(id) by {
      assert path in {path, root} && root in {path, root};
    }
  }

  lemma ViewWith(files: Files, after: Files, id: string, content: Content)
    requires SameButFor(files, after, id) && id in View(after) && View(after)[id] == content
    ensures View(after) == View(files)[id := content]
  {
    var expected := View(files)[id := content];
    forall other
      ensures other in View(after) <==> other in expected
      ensures other in View(after) ==> View(after)[other] == expected[other]
    {
      if other != id {
        ViewButFor(files, after, id, other);
      }
    }
  }

  lemma SavedShape(files: Files, location: Location, inc: Incident, faults: Faults)
    requires !IsBlank(inc.id) && !faults.write
    ensures var after := Saved(files, location, inc, faults);
            && SameButFor(files, after, inc.id)
            && (if Partitioned(inc.id) || location.cleaned == location.given || faults.remove
                then PathOf(inc.id) in after && after[PathOf(inc.id)] == Json(inc)
                else PathOf(inc.id) !in after && RootPath(inc.id) !in after)
  {
  }

  /** Saving sets the id's entry and changes nothing else, exactly unless the save removes
      the very file it wrote: that it does when the incident belongs in the store's own
      directory and that was not given in clean form. */
  lemma SaveRefines(files: Files, location: Location, inc: Incident, faults: Faults)
    requires !IsBlank(inc.id) && !faults.write
    ensures View(Saved(files, location, inc, faults)) == View(files)[inc.id := Json(inc)]
       <==> Partitioned(inc.id) || location.cleaned == location.given || faults.remove
  {
    var after := Saved(files, location, inc, faults);
    SavedShape(files, location, inc, faults);
    if Partitioned(inc.id) || location.cleaned == location.given || faults.remove {
      ViewWith(files, after, inc.id, Json(inc));
    } else {
      assert inc.id !in View(after);
      assert inc.id in View(files)[inc.id := Json(inc)];
    }
  }

  /** For instance in a directory given as "data/": the save reports no error and stores nothing. */
  lemma UncleanDirectoryLosesIncident(inc: Incident)
    requires inc.id == "DEMO-1"
    ensures SaveError(inc.id, Faults(false, false, false)) == None
    ensures Saved(map[], Location("data/", "data", "data"), inc, Faults(false, false, false)) == map[]
  {
    assert TrimSpace("DEMO-1") == "DEMO-1" by {
      TrimKeepsMiddle("DEMO-1", SPACES);
    }
    assert !Partitioned("DEMO-1");
  }

  /** Whatever the directory, a save leaves the other ids alone. */
  lemma SaveLeavesOthers(files: Files, location: Location, inc: Incident, faults: Faults, other: string)
    requires other != inc.id
    ensures var after := View(Saved(files, location, inc, faults));
            && (other in after <==> other in View(files))
            && (other in after ==> after[other] == View(files)[other])
  {
    if !IsBlank(inc.id) && !faults.write {
      SavedShape(files, location, inc, faults);
      ViewButFor(files, Saved(files, location, inc, faults), inc.id, other);
    }
  }

  /** SaveNew adds the id exactly when neither place has it, and changes nothing otherwise. */
  lemma SaveNewRefines(files: Files, inc: Incident, faults: Faults)
    requires !IsBlank(inc.id) && !faults.write
    ensures View(SavedNew(files, inc, faults))
         == if inc.id in View(files) then View(files) else View(files)[inc.id := Json(inc)]
  {
    if inc.id !in View(files) {
      ViewWith(files, SavedNew(files, inc, faults), inc.id, Json(inc));
    }
  }

  /** A save keeps every id to one copy, unless the old copy it should remove is kept by the file system. */
  lemma SaveKeepsNoDoubles(files: Files, location: Location, inc: Incident, faults: Faults)
    requires NoDoubles(files)
    ensures NoDoubles(Saved(files, location, inc, faults))
       <==> !(!IsBlank(inc.id) && !faults.write && faults.remove && Partitioned(inc.id) && RootPath(inc.id) in files)
  {
    var after := Saved(files, location, inc, faults);
    forall id | id != inc.id
      ensures PathOf(id) in after ==> PathOf(id) in files
      ensures RootPath(id) in after ==> RootPath(id) in files
    {
      StemOfName(id);
      StemOfName(inc.id);
    }
    if !IsBlank(inc.id) && !faults.write && faults.remove && Partitioned(inc.id) && RootPath(inc.id) in files {
      assert PathOf(inc.id) in after && RootPath(inc.id) in after;
    }
  }

  lemma SaveNewKeepsNoDoubles(files: Files, inc: Incident, faults: Faults)
    requires NoDoubles(files)
    ensures NoDoubles(SavedNew(files, inc, faults))
  {
    var after := SavedNew(files, inc, faults);
    forall id | id != inc.id
      ensures PathOf(id) in after ==> PathOf(id) in files
      ensures RootPath(id) in after ==> RootPath(id) in files
    {
      StemOfName(id);
      StemOfName(inc.id);
    }
  }

  // ----- whole runs of the store -----

  datatype Op = DoSave(inc: Incident, faults: Faults) | DoSaveNew(inc: Incident, faults: Faults)

  function Apply(files: Files, location: Location, op: Op): Files {
    match op
    case DoSave(inc, faults) => Saved(files, location, inc, faults)
    case DoSaveNew(inc, faults) => SavedNew(files, inc, faults)
  }

  function ApplyAll(files: Files, location: Location, ops: seq<Op>): Files {
    if ops == [] then files else Apply(ApplyAll(files, location, ops[..|ops| - 1]), location, ops[|ops| - 1])
  }

  /** The same calls on a plain map. */
  function MapApply(view: map<string, Content>, op: Op): map<string, Content> {
    if IsBlank(op.inc.id) || op.faults.write || (op.DoSaveNew? && op.inc.id in view) then view
    else view[op.inc.id := Json(op.inc)]
  }

  function MapApplyAll(view: map<string, Content>, ops: seq<Op>): map<string, Content> {
    if ops == [] then view else MapApply(MapApplyAll(view, ops[..|ops| - 1]), ops[|ops| - 1])
  }

  /** Opened on a clean directory, whatever it holds, the store cannot be told from a plain
      map over any run of saves. */
  lemma {:induction false} RunsRefineMap(files: Files, location: Location, ops: seq<Op>)
    requires location.cleaned == location.given
    ensures View(ApplyAll(files, location, ops)) == MapApplyAll(View(files), ops)
  {
    if ops != [] {
      var front, op := ops[..|ops| - 1], ops[|ops| - 1];
      RunsRefineMap(files, location, front);
      var before := ApplyAll(files, location, front);
      if !IsBlank(op.inc.id) && !op.faults.write {
        SaveRefines(before, location, op.inc, op.faults);
        SaveNewRefines(before, op.inc, op.faults);
      }
    }
  }

  /** And every id keeps to one copy, and every file to its place, as long as removals succeed. */
  lemma {:induction false} RunsKeepFilesInPlace(files: Files, location: Location, ops: seq<Op>)
    requires WellNamed(files) && NoDoubles(files) && forall k | 0 <= k < |ops| :: !ops[k].faults.remove
    ensures WellNamed(ApplyAll(files, location, ops)) && NoDoubles(ApplyAll(files, location, ops))
  {
    if ops != [] {
      var front, op := ops[..|ops| - 1], ops[|ops| - 1];
      RunsKeepFilesInPlace(files, location, front);
      var before := ApplyAll(files, location, front);
      SaveKeepsNoDoubles(before, location, op.inc, op.faults);
      SaveNewKeepsNoDoubles(before, op.inc, op.faults);
    }
  }

  // ----- metadata saved in two steps -----

  /** What SaveMetadata leaves of an incident it has loaded as `inc`. */
  function MetadataSaved(files: Files, location: Location, inc: Incident, metadata: map<string, string>,
                         between: seq<Op>, faults: Faults): Files {
    Saved(ApplyAll(files, location, between), location, inc.(metadata := metadata), faults)
  }

  /** SaveMetadata on `id`, which it has loaded as `inc`, sets the metadata of the incident as
      it then stands under `id` exactly when nothing but metadata was changed of it since and
      the save does not remove it again. Content that names another id is saved under that. */
  lemma MetadataSavedExactly(files: Files, location: Location, id: string, inc: Incident, current: Incident,
                             metadata: map<string, string>, between: seq<Op>, faults: Faults)
    requires !faults.write && Loaded(files, id) == Ok(inc)
    requires Loaded(ApplyAll(files, location, between), id) == Ok(current)
    ensures Loaded(MetadataSaved(files, location, inc, metadata, between, faults), id)
         == Ok(current.(metadata := metadata))
       <==> if inc.id == id then
              && current.(metadata := inc.metadata) == inc
              && (Partitioned(id) || location.cleaned == location.given || faults.remove)
            else current.metadata == metadata
  {
    var before, saved := ApplyAll(files, location, between), inc.(metadata := metadata);
    if inc.id == id {
      SavedLoads(before, location, saved, faults);
      assert current.(metadata := inc.metadata) == inc <==> current.(metadata := metadata) == saved;
    } else {
      OthersLoad(before, location, saved, faults, id);
    }
  }

  lemma OthersLoad(files: Files, location: Location, inc: Incident, faults: Faults, other: string)
    requires other != inc.id
    ensures Loaded(Saved(files, location, inc, faults), other) == Loaded(files, other)
  {
    SaveLeavesOthers(files, location, inc, faults, other);
  }

  lemma SavedLoads(files: Files, location: Location, inc: Incident, faults: Faults)
    requires !IsBlank(inc.id) && !faults.write
    ensures Loaded(Saved(files, location, inc, faults), inc.id)
         == if Partitioned(inc.id) || location.cleaned == location.given || faults.remove then Ok(inc)
            else Err(NotFound)
  {
    SavedShape(files, location, inc, faults);
  }

  /** Any save of the incident between the two steps that changes more than metadata is undone. */
  lemma SaveInBetweenIsLost(files: Files, location: Location, inc: Incident, newer: Incident,
                            metadata: map<string, string>, faults: Faults)
    requires location.cleaned == location.given && !faults.write && Loaded(files, inc.id) == Ok(inc)
    requires newer.id == inc.id && newer.(metadata := inc.metadata) != inc
    ensures var after := MetadataSaved(files, location, inc, metadata, [DoSave(newer, faults)], faults);
            Loaded(after, inc.id) == Ok(inc.(metadata := metadata)) != Ok(newer.(metadata := metadata))
  {
    var between := [DoSave(newer, faults)];
    assert between[..0] == [];
    assert ApplyAll(files, location, between) == Saved(files, location, newer, faults);
    SaveRefines(files, location, newer, faults);
    SaveRefines(ApplyAll(files, location, between), location, inc.(metadata := metadata), faults);
    assert newer.(metadata := inc.metadata) == inc <==> newer.(metadata := metadata) == inc.(metadata := metadata);
  }
}
