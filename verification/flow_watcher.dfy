/** The polling watcher that reloads the flows when a flow file was added, edited or removed. */
module FlowWatcher {
  import opened Collections
  import opened Text

  /** Modification times of the files in sight. */
  type Manifest = map<string, int>

  function ManifestOf(files: seq<string>, times: Manifest): Manifest {
    map f | f in files && f in times :: times[f]
  }

  /** The manifest of the last poll that did not fail. */
  ghost function LastSeen(polls: seq<Option<Manifest>>): Manifest {
    if polls == [] then map[]
    else match polls[|polls| - 1]
      case None => LastSeen(polls[..|polls| - 1])
      case Some(manifest) => manifest
  }

  /** How many polls saw something other than the poll before that did not fail. */
  ghost function Changes(polls: seq<Option<Manifest>>): nat {
    if polls == [] then 0
    else
      var before := polls[..|polls| - 1];
      Changes(before) + if LastSeen(polls) != LastSeen(before) then 1 else 0
  }

  lemma PollNext(polls: seq<Option<Manifest>>, poll: Option<Manifest>)
    ensures LastSeen(polls + [poll]) == match poll case None => LastSeen(polls) case Some(manifest) => manifest
    ensures Changes(polls + [poll]) == Changes(polls) + if LastSeen(polls + [poll]) != LastSeen(polls) then 1 else 0
  {
    assert (polls + [poll])[..|polls|] == polls;
  }

  predicate Within(a: Manifest, b: Manifest) {
    forall f | f in a :: f in b && a[f] == b[f]
  }

  /** With nothing new and nothing edited, the number of files tells whether any are gone. */
  lemma SameSizeWithin(a: Manifest, b: Manifest)
    requires Within(a, b)
    ensures |a| <= |b| && (|a| == |b| <==> a == b)
  {
    SubsetSize(a.Keys, b.Keys);
    assert |a| == |a.Keys| && |b| == |b.Keys|;
    if |a| == |b| {
      assert a.Keys == b.Keys;
      assert forall f :: f in a <==> f in a.Keys;
      assert forall f :: f in b <==> f in b.Keys;
    }
  }

  lemma ManifestNext(files: seq<string>, times: Manifest, i: nat)
    requires i < |files|
    ensures ManifestOf(files[..i + 1], times)
         == if files[i] in times then ManifestOf(files[..i], times)[files[i] := times[files[i]]]
            else ManifestOf(files[..i], times)
  {
    assert files[..i + 1] == files[..i] + [files[i]];
  }

  lemma WithinNext(files: seq<string>, times: Manifest, i: nat, last: Manifest)
    requires i < |files|
    ensures Within(ManifestOf(files[..i + 1], times), last)
       <==> Within(ManifestOf(files[..i], times), last)
            && (files[i] in times ==> files[i] in last && times[files[i]] == last[files[i]])
  {
    assert files[..i + 1] == files[..i] + [files[i]];
    if files[i] in times {
      assert files[i] in ManifestOf(files[..i + 1], times);
    }
    assert forall f | f in ManifestOf(files[..i], times) :: f in ManifestOf(files[..i + 1], times);
  }

  /** The loop over the files and the test of sizes after it report a change if and only if
      the new manifest differs from the last: an added file, an edited one or a removed one,
      with either manifest possibly empty. */
  method Compare(files: seq<string>, times: Manifest, lastManifest: Manifest)
      returns (newManifest: Manifest, changed: bool)
    ensures newManifest == ManifestOf(files, times)
    ensures changed <==> newManifest != lastManifest
  {
    newManifest, changed := map[], false;
    for i := 0 to |files|
      invariant newManifest == ManifestOf(files[..i], times)
      invariant changed <==> !Within(ManifestOf(files[..i], times), lastManifest)
    {
      ManifestNext(files, times, i);
      WithinNext(files, times, i, lastManifest);
      var f := files[i];
      if f in times {
        newManifest := newManifest[f := times[f]];
        if f !in lastManifest || times[f] != lastManifest[f] {
          changed := true;
        }
      }
    }
    assert files[..|files|] == files;
    if !changed {
      SameSizeWithin(newManifest, lastManifest);
    }
    if |newManifest| != |lastManifest| && |lastManifest| > 0 {
      changed := true;
    }
  }

  class Watcher {
    var lastManifest: Manifest
    var reloads: nat                 // InvalidateCache and onChange
    ghost var polls: seq<Option<Manifest>>

    ghost predicate Valid()
      reads this
    {
      lastManifest == LastSeen(polls) && reloads == Changes(polls)
    }

    constructor ()
      ensures Valid() && polls == []
    {
      lastManifest, reloads, polls := map[], 0, [];
    }

    /** One tick: `found` are the files the locations expand to, unless that fails, and `times`
        those of the files that can be examined. The flows are reloaded if and only if the
        files differ from those last seen, so over any run exactly once for every change seen. */
    method Tick(found: Option<seq<string>>, times: Manifest) returns (changed: bool)
      requires Valid()
      modifies this
      ensures Valid()
      ensures polls == old(polls) + [if found.Some? then Some(ManifestOf(found.value, times)) else None]
      ensures changed <==> lastManifest != old(lastManifest)
      ensures reloads == old(reloads) + if changed then 1 else 0
    {
      changed := false;
      if found.None? {
        PollNext(polls, None);
        polls := polls + [None];
      } else {
        var newManifest: Manifest;
        newManifest, changed := Compare(found.value, times, lastManifest);
        PollNext(polls, Some(newManifest));
        polls := polls + [Some(newManifest)];
        if changed {
          lastManifest := newManifest;
          reloads := reloads + 1;
        }
      }
    }
  }
}
