/** The directory resolver: update_user_dir in logger.py. One directory per user
    identifier lives in the data directory; when the user's display name changes,
    the directory is renamed rather than duplicated. */
module Resolver {
  import opened Wrappers
  import opened Sanitizer
  import opened Paths

  /** A child of the data directory: a directory or some other file. */
  datatype Entry = Entry(name: string, isDir: bool)

  /** The data directory: absent until first needed, then its children in the
      order os.listdir reports them. */
  datatype Listing = Absent | Present(entries: seq<Entry>)

  /** What the resolver did to the data directory. */
  datatype Action =
    | Kept
    | Created
    | Renamed(index: nat, from: string)

  datatype Resolution = Resolution(path: Path, entries: seq<Entry>, action: Action)

  /** The listing after `os.makedirs` of a missing data directory. */
  function Children(l: Listing): seq<Entry> {
    match l
    case Absent => []
    case Present(es) => es
  }

  /** The directory name for a user: sanitized display name, '_', identifier. */
  function DirName(displayName: string, id: string): (n: string)
    ensures EndsWith(n, id)
  {
    var n := Sanitize(displayName) + "_" + id;
    assert n[|n| - |id|..] == id;
    n
  }

  predicate EndsWith(s: string, suffix: string) {
    |suffix| <= |s| && s[|s| - |suffix|..] == suffix
  }

  /** os.path.exists: some child, directory or not, has this name. */
  predicate Taken(es: seq<Entry>, name: string) {
    exists i :: 0 <= i < |es| && es[i].name == name
  }

  /** Some child with this name is a directory. */
  predicate IsDirNamed(es: seq<Entry>, name: string) {
    exists i :: 0 <= i < |es| && es[i].name == name && es[i].isDir
  }

  /** A child the resolver would take for the user `id`'s directory. */
  predicate Matches(e: Entry, id: string) {
    e.isDir && EndsWith(e.name, id)
  }

  /** Index of the first matching child at or after `from`. */
  function FirstMatchFrom(es: seq<Entry>, id: string, from: nat): (r: Option<nat>)
    requires from <= |es|
    ensures r.Some? ==> from <= r.value < |es| && Matches(es[r.value], id)
                        && forall j :: from <= j < r.value ==> !Matches(es[j], id)
    ensures r.None? ==> forall j :: from <= j < |es| ==> !Matches(es[j], id)
    decreases |es| - from
  {
    if from == |es| then None
    else if Matches(es[from], id) then Some(from)
    else FirstMatchFrom(es, id, from + 1)
  }

  /** update_user_dir(parent, user) for a user with this display name and
      identifier. It returns the candidate path in every case; it leaves the data
      directory alone when the candidate name exists, renames the first matching
      directory in place when one exists, and otherwise creates the candidate. */
  function UpdateUserDir(parent: Path, listing: Listing, displayName: string, id: string): (r: Resolution)
    ensures r.path == Join(parent, DirName(displayName, id))
    ensures Taken(r.entries, DirName(displayName, id))
    ensures r.action.Kept? <==> Taken(Children(listing), DirName(displayName, id))
    ensures r.action.Kept? ==> r.entries == Children(listing)
    ensures r.action.Created? ==>
              (forall j :: 0 <= j < |Children(listing)| ==> !Matches(Children(listing)[j], id))
              && r.entries == Children(listing) + [Entry(DirName(displayName, id), true)]
    ensures r.action.Renamed? ==>
              var es, i := Children(listing), r.action.index;
              && i < |es|
              && Matches(es[i], id)
              && (forall j :: 0 <= j < i ==> !Matches(es[j], id))
              && r.action.from == es[i].name
              && r.entries == es[i := Entry(DirName(displayName, id), true)]
  {
    var es := Children(listing);
    var name := DirName(displayName, id);
    var path := Join(parent, name);
    if Taken(es, name) then
      Resolution(path, es, Kept)
    else
      match FirstMatchFrom(es, id, 0)
      case None =>
        var after := es + [Entry(name, true)];
        assert after[|es|].name == name;
        Resolution(path, after, Created)
      case Some(i) =>
        var after := es[i := Entry(name, true)];
        assert after[i].name == name;
        Resolution(path, after, Renamed(i, es[i].name))
  }

  /** A second resolution with the same arguments is a no-op that returns the
      same path. */
  lemma UpdateUserDirIdempotent(parent: Path, listing: Listing, displayName: string, id: string)
    ensures var r := UpdateUserDir(parent, listing, displayName, id);
            UpdateUserDir(parent, Present(r.entries), displayName, id) == Resolution(r.path, r.entries, Kept)
  {
  }

  /** A resolution never adds a directory when one for the identifier exists. */
  lemma UpdateUserDirNeverGrowsOnMatch(parent: Path, listing: Listing, displayName: string, id: string)
    requires exists j :: 0 <= j < |Children(listing)| && Matches(Children(listing)[j], id)
    ensures |UpdateUserDir(parent, listing, displayName, id).entries| == |Children(listing)|
  {
  }

  /** Number of directories that belong to the identifier `id`. */
  function MatchCount(es: seq<Entry>, id: string): nat {
    if |es| == 0 then 0
    else MatchCount(es[..|es| - 1], id) + (if Matches(es[|es| - 1], id) then 1 else 0)
  }

  lemma {:induction false} MatchCountUpdate(es: seq<Entry>, id: string, i: nat, e: Entry)
    requires i < |es|
    ensures MatchCount(es[i := e], id) ==
              MatchCount(es, id) - (if Matches(es[i], id) then 1 else 0) + (if Matches(e, id) then 1 else 0)
  {
    var last := |es| - 1;
    if i < last {
      assert es[i := e][..last] == es[..last][i := e];
      MatchCountUpdate(es[..last], id, i, e);
    } else {
      assert es[i := e][..last] == es[..last];
    }
  }

  lemma {:induction false} MatchCountPositive(es: seq<Entry>, id: string, i: nat)
    requires i < |es| && Matches(es[i], id)
    ensures MatchCount(es, id) >= 1
  {
    if i < |es| - 1 {
      MatchCountPositive(es[..|es| - 1], id, i);
    }
  }

  /** One directory per identifier: if the data directory held at most one
      directory for `id`, it still does, and once the candidate is a directory it
      is that one. */
  lemma UpdateUserDirOneDirPerId(parent: Path, listing: Listing, displayName: string, id: string)
    requires MatchCount(Children(listing), id) <= 1
    ensures MatchCount(UpdateUserDir(parent, listing, displayName, id).entries, id) <= 1
    ensures IsDirNamed(UpdateUserDir(parent, listing, displayName, id).entries, DirName(displayName, id)) ==>
              MatchCount(UpdateUserDir(parent, listing, displayName, id).entries, id) == 1
  {
    var r := UpdateUserDir(parent, listing, displayName, id);
    var es, name := Children(listing), DirName(displayName, id);
    DirNamedCounts(r.entries, name, id);
    match r.action
    case Kept =>
    case Created =>
      CreatedCount(es, Entry(name, true), id);
    case Renamed(i, _) =>
      MatchCountUpdate(es, id, i, Entry(name, true));
  }

  /** A directory whose name ends with the identifier is counted. */
  lemma DirNamedCounts(es: seq<Entry>, name: string, id: string)
    requires EndsWith(name, id)
    ensures IsDirNamed(es, name) ==> MatchCount(es, id) >= 1
  {
    if IsDirNamed(es, name) {
      var j :| 0 <= j < |es| && es[j].name == name && es[j].isDir;
      MatchCountPositive(es, id, j);
    }
  }

  /** Appending a directory to a listing without one for `id`. */
  lemma CreatedCount(es: seq<Entry>, e: Entry, id: string)
    requires forall j :: 0 <= j < |es| ==> !Matches(es[j], id)
    ensures MatchCount(es + [e], id) == if Matches(e, id) then 1 else 0
  {
    assert (es + [e])[..|es|] == es;
    if MatchCount(es, id) > 0 {
      MatchCountWitness(es, id);
    }
  }

  lemma {:induction false} MatchCountWitness(es: seq<Entry>, id: string)
    requires MatchCount(es, id) > 0
    ensures exists j :: 0 <= j < |es| && Matches(es[j], id)
  {
    var last := |es| - 1;
    if !Matches(es[last], id) {
      MatchCountWitness(es[..last], id);
      var j :| 0 <= j < last && Matches(es[..last][j], id);
      assert Matches(es[j], id);
    }
  }

  /** No two children share a name. */
  predicate UniqueNames(es: seq<Entry>) {
    forall i, j :: 0 <= i < j < |es| ==> es[i].name != es[j].name
  }

  /** The resolver never makes two children with one name. */
  lemma UpdateUserDirUniqueNames(parent: Path, listing: Listing, displayName: string, id: string)
    requires UniqueNames(Children(listing))
    ensures UniqueNames(UpdateUserDir(parent, listing, displayName, id).entries)
  {
    var r := UpdateUserDir(parent, listing, displayName, id);
    var es, name := Children(listing), DirName(displayName, id);
    if !r.action.Kept? {
      forall j | 0 <= j < |es| ensures es[j].name != name {
      }
    }
  }

  /** After a resolution the candidate is a directory, unless a plain file
      already had its name (the resolver then keeps it, and the store's
      os.makedirs fails on it). */
  lemma UpdateUserDirMakesDir(parent: Path, listing: Listing, displayName: string, id: string)
    ensures IsDirNamed(UpdateUserDir(parent, listing, displayName, id).entries, DirName(displayName, id)) <==>
              !Taken(Children(listing), DirName(displayName, id)) || IsDirNamed(Children(listing), DirName(displayName, id))
  {
    var r := UpdateUserDir(parent, listing, displayName, id);
    var name := DirName(displayName, id);
    match r.action
    case Kept =>
    case Created =>
      assert r.entries[|r.entries| - 1] == Entry(name, true);
    case Renamed(i, _) =>
      assert r.entries[i] == Entry(name, true);
  }

  /** Which names are directories after a resolution: those before, with a
      renamed directory's old name replaced by the candidate, or the candidate
      added. */
  lemma UpdateUserDirDirectories(parent: Path, listing: Listing, displayName: string, id: string, n: string)
    requires UniqueNames(Children(listing))
    requires IsDirNamed(UpdateUserDir(parent, listing, displayName, id).entries, DirName(displayName, id))
    ensures IsDirNamed(UpdateUserDir(parent, listing, displayName, id).entries, n) <==>
              n == DirName(displayName, id)
              || (IsDirNamed(Children(listing), n)
                  && !(UpdateUserDir(parent, listing, displayName, id).action.Renamed?
                       && n == UpdateUserDir(parent, listing, displayName, id).action.from))
  {
    var r := UpdateUserDir(parent, listing, displayName, id);
    var es, name := Children(listing), DirName(displayName, id);
    match r.action
    case Kept =>
    case Created =>
      DirsAfterAppend(es, Entry(name, true), n);
    case Renamed(i, from) =>
      DirsAfterReplace(es, i, Entry(name, true), n);
  }

  lemma DirsAfterAppend(es: seq<Entry>, e: Entry, n: string)
    ensures IsDirNamed(es + [e], n) <==> IsDirNamed(es, n) || (e.name == n && e.isDir)
  {
    if IsDirNamed(es, n) {
      var j :| 0 <= j < |es| && es[j].name == n && es[j].isDir;
      assert (es + [e])[j] == es[j];
    }
    if IsDirNamed(es + [e], n) && !(e.name == n && e.isDir) {
      var j :| 0 <= j < |es + [e]| && (es + [e])[j].name == n && (es + [e])[j].isDir;
      assert j < |es| && es[j] == (es + [e])[j];
    }
    if e.name == n && e.isDir {
      assert (es + [e])[|es|] == e;
    }
  }

  lemma DirsAfterReplace(es: seq<Entry>, i: nat, e: Entry, n: string)
    requires UniqueNames(es) && i < |es|
    ensures IsDirNamed(es[i := e], n) <==> (e.name == n && e.isDir) || (IsDirNamed(es, n) && n != es[i].name)
  {
    if IsDirNamed(es, n) && n != es[i].name {
      var j :| 0 <= j < |es| && es[j].name == n && es[j].isDir;
      assert j != i && es[i := e][j] == es[j];
    }
    if IsDirNamed(es[i := e], n) && !(e.name == n && e.isDir) {
      var j :| 0 <= j < |es| && es[i := e][j].name == n && es[i := e][j].isDir;
      assert j != i && es[j] == es[i := e][j];
    }
    if e.name == n && e.isDir {
      assert es[i := e][i] == e;
    }
  }
}
