/** The local half of scrape in logger.py: the user's directory in the data
    directory is resolved, then the account record and one document per playlist
    are stored in it. What the Spotify client returns (the user record, the
    playlists and the document built for each) is taken as input. */
module Scrape {
  import opened Wrappers
  import opened Json
  import opened Sanitizer
  import opened Paths
  import opened Resolver
  import opened Store

  /** A playlist as the listing endpoint reports it, with the document
      get_playlist_info builds for it. */
  datatype Playlist = Playlist(name: string, id: string, info: Record)

  /** The data directory: its listing, and the contents of each child
      directory by name. */
  datatype World = World(data: Listing, folders: map<string, Folder>)

  /** Why a run stops: a user field the resolver needs is missing or not a
      string, or the user's directory name is taken by a plain file, which
      os.makedirs refuses. */
  datatype Error = UserFieldNotText(field: string) | NotADirectory(name: string)

  /** A completed run: the data directory afterwards and the user path. */
  datatype Run = Run(world: World, userPath: Path)

  /** The file the account record is stored in. */
  const AccountInfo: string := "account_info"

  /** The file name scrape builds for a playlist, before the store sanitizes it
      a second time. */
  function PlaylistFile(p: Playlist): string {
    Sanitize(p.name) + "_" + p.id
  }

  function PlaylistPath(userPath: Path, p: Playlist): Path {
    Join(userPath, PlaylistFile(p))
  }

  /** The store splits a playlist path back into the user directory and the
      file name, and the second sanitization changes nothing but the
      identifier's forbidden characters. */
  lemma PlaylistPathStable(userPath: Path, p: Playlist)
    ensures Split(PlaylistPath(userPath, p)) == (userPath, PlaylistFile(p))
    ensures Sanitize(PlaylistFile(p)) == Sanitize(p.name) + "_" + Sanitize(p.id)
    ensures Safe(p.id) ==> Sanitize(PlaylistFile(p)) == PlaylistFile(p)
  {
    SplitJoin(userPath, PlaylistFile(p));
    assert Safe("_") by {
      assert !Invalid('_');
    }
    SafeConcat(Sanitize(p.name), "_");
    SanitizeSafePrefix(Sanitize(p.name) + "_", p.id);
  }

  /** The string value of a field of the user record, if it has one. */
  function Text(user: Record, field: string): (r: Option<string>)
    ensures r.Some? <==> Lookup(user, field).Some? && Lookup(user, field).value.Str?
    ensures r.Some? ==> Field(field, Str(r.value)) in user
  {
    match Lookup(user, field)
    case Some(Str(s)) => Some(s)
    case _ => None
  }

  /** The documents one run stores, in order: the account record, then one per
      playlist. */
  function Documents(user: Record, playlists: seq<Playlist>): (docs: seq<Doc>)
    ensures |docs| == |playlists| + 1
  {
    [Doc(AccountInfo, user)] + seq(|playlists|, i requires 0 <= i < |playlists| => Doc(PlaylistFile(playlists[i]), playlists[i].info))
  }

  /** Where each document goes: the account record to account_info, each
      playlist's document to its sanitized name, '_', and its sanitized
      identifier. */
  lemma DocumentsTargets(user: Record, playlists: seq<Playlist>)
    ensures Target(Documents(user, playlists)[0]) == AccountInfo
    ensures Documents(user, playlists)[0].record == user
    ensures forall i :: 0 <= i < |playlists| ==>
              Target(Documents(user, playlists)[i + 1]) == Sanitize(playlists[i].name) + "_" + Sanitize(playlists[i].id)
    ensures forall i :: 0 <= i < |playlists| ==> Documents(user, playlists)[i + 1].record == playlists[i].info
  {
    AccountInfoUnchanged();
    forall i | 0 <= i < |playlists|
      ensures Target(Documents(user, playlists)[i + 1]) == Sanitize(playlists[i].name) + "_" + Sanitize(playlists[i].id)
    {
      PlaylistTarget(user, playlists, i);
    }
  }

  lemma AccountInfoUnchanged()
    ensures Sanitize(AccountInfo) == AccountInfo
  {
    assert Safe(AccountInfo) by {
      assert forall i :: 0 <= i < |AccountInfo| ==> !Invalid(AccountInfo[i]);
    }
    SanitizeSafe(AccountInfo);
  }

  lemma PlaylistTarget(user: Record, playlists: seq<Playlist>, i: nat)
    requires i < |playlists|
    ensures Target(Documents(user, playlists)[i + 1]) == Sanitize(playlists[i].name) + "_" + Sanitize(playlists[i].id)
  {
    PlaylistPathStable(Path([]), playlists[i]);
  }

  /** The directory contents after the resolver's action: a new directory
      starts empty, a renamed one keeps its files and its changelog. */
  function Carry(folders: map<string, Folder>, a: Action, name: string): (r: map<string, Folder>) {
    match a
    case Kept => folders
    case Created => folders[name := EmptyFolder]
    case Renamed(_, from) => (folders - {from})[name := if from in folders then folders[from] else EmptyFolder]
  }

  /** scrape(client, user_id) once the client has answered: resolve the user's
      directory under `dataDir`, store the account record as account_info, then
      store each playlist's document, all at time `now`. */
  function ScrapeLocal(w: World, dataDir: Path, user: Record, playlists: seq<Playlist>, now: string): (r: Result<Run, Error>)
    ensures r.Success? ==>
              && Text(user, "display_name").Some? && Text(user, "id").Some?
              && r.value.userPath == Join(dataDir, DirName(Text(user, "display_name").value, Text(user, "id").value))
              && r.value.world.data.Present?
  {
    match (Text(user, "display_name"), Text(user, "id"))
    case (None, _) => Failure(UserFieldNotText("display_name"))
    case (_, None) => Failure(UserFieldNotText("id"))
    case (Some(displayName), Some(id)) =>
      var res := UpdateUserDir(dataDir, w.data, displayName, id);
      var name := DirName(displayName, id);
      if !IsDirNamed(res.entries, name) then Failure(NotADirectory(name))
      else Success(Run(Settle(w, res, name, Documents(user, playlists), now), res.path))
  }

  /** The data directory after the resolution `res` and the store calls into
      the user's directory `name`. */
  function Settle(w: World, res: Resolution, name: string, docs: seq<Doc>, now: string): (r: World) {
    var moved := Carry(w.folders, res.action, name);
    World(Present(res.entries), moved[name := UpdateAll(Held(moved, name), docs, now)])
  }

  /** What the user's directory holds before the store calls. */
  function Held(folders: map<string, Folder>, name: string): Folder {
    if name in folders then folders[name] else EmptyFolder
  }

  /** A run stops before touching anything unless the user record has a string
      display name and a string identifier. */
  lemma ScrapeNeedsText(w: World, dataDir: Path, user: Record, playlists: seq<Playlist>, now: string)
    requires Text(user, "display_name").None? || Text(user, "id").None?
    ensures ScrapeLocal(w, dataDir, user, playlists, now).Failure?
  {
  }

  /** With both fields present, a run fails exactly when the user's directory
      name is taken by something that is not a directory. */
  lemma ScrapeFailsOnPlainFile(w: World, dataDir: Path, user: Record, playlists: seq<Playlist>, now: string,
                               displayName: string, id: string)
    requires Text(user, "display_name") == Some(displayName) && Text(user, "id") == Some(id)
    ensures ScrapeLocal(w, dataDir, user, playlists, now).Failure? <==>
              Taken(Children(w.data), DirName(displayName, id)) && !IsDirNamed(Children(w.data), DirName(displayName, id))
  {
    UpdateUserDirMakesDir(dataDir, w.data, displayName, id);
  }

  /** A successful run writes into data/<sanitized display name>_<id>, which is
      then a directory of the listing with contents. */
  lemma ScrapeUserPath(w: World, dataDir: Path, user: Record, playlists: seq<Playlist>, now: string,
                       displayName: string, id: string)
    requires Text(user, "display_name") == Some(displayName) && Text(user, "id") == Some(id)
    requires ScrapeLocal(w, dataDir, user, playlists, now).Success?
    ensures ScrapeLocal(w, dataDir, user, playlists, now).value.userPath == Join(dataDir, DirName(displayName, id))
    ensures IsDirNamed(Children(ScrapeLocal(w, dataDir, user, playlists, now).value.world.data), DirName(displayName, id))
    ensures DirName(displayName, id) in ScrapeLocal(w, dataDir, user, playlists, now).value.world.folders
  {
  }

  /** Running again with the same answers from the client, at any later time,
      changes nothing and returns the same path: no rename, no file write, no
      changelog entry. */
  lemma ScrapeRerun(w: World, dataDir: Path, user: Record, playlists: seq<Playlist>, t1: string, t2: string)
    requires ScrapeLocal(w, dataDir, user, playlists, t1).Success?
    requires DistinctTargets(Documents(user, playlists))
    ensures ScrapeLocal(ScrapeLocal(w, dataDir, user, playlists, t1).value.world, dataDir, user, playlists, t2)
            == ScrapeLocal(w, dataDir, user, playlists, t1)
  {
    var displayName, id := Text(user, "display_name").value, Text(user, "id").value;
    var res := UpdateUserDir(dataDir, w.data, displayName, id);
    var name, docs := DirName(displayName, id), Documents(user, playlists);
    ScrapeShape(w, dataDir, user, playlists, t1, displayName, id);
    var w1 := Settle(w, res, name, docs, t1);
    UpdateUserDirIdempotent(dataDir, w.data, displayName, id);
    assert UpdateUserDir(dataDir, w1.data, displayName, id) == Resolution(res.path, res.entries, Kept);
    ScrapeShape(w1, dataDir, user, playlists, t2, displayName, id);
    SettleRerun(w, res, name, docs, t1, t2);
  }

  /** A run that gets past the checks settles the resolved directory. */
  lemma ScrapeShape(w: World, dataDir: Path, user: Record, playlists: seq<Playlist>, now: string,
                    displayName: string, id: string)
    requires Text(user, "display_name") == Some(displayName) && Text(user, "id") == Some(id)
    ensures var res := UpdateUserDir(dataDir, w.data, displayName, id);
            ScrapeLocal(w, dataDir, user, playlists, now) ==
              if IsDirNamed(res.entries, DirName(displayName, id))
              then Success(Run(Settle(w, res, DirName(displayName, id), Documents(user, playlists), now), res.path))
              else Failure(NotADirectory(DirName(displayName, id)))
  {
  }

  /** Settling a second time, with nothing left to resolve, is a no-op. */
  lemma SettleRerun(w: World, res: Resolution, name: string, docs: seq<Doc>, t1: string, t2: string)
    requires DistinctTargets(docs)
    ensures Settle(Settle(w, res, name, docs, t1), Resolution(res.path, res.entries, Kept), name, docs, t2)
            == Settle(w, res, name, docs, t1)
  {
    var w1 := Settle(w, res, name, docs, t1);
    var before := Held(Carry(w.folders, res.action, name), name);
    SettleHolds(w, res, name, docs, t1);
    UpdateAllRerun(before, docs, t1, t2);
    SettleKept(w1, res.path, res.entries, name, docs, t2);
  }

  /** The user's directory after settling holds the stores' result. */
  lemma SettleHolds(w: World, res: Resolution, name: string, docs: seq<Doc>, now: string)
    ensures Settle(w, res, name, docs, now).data == Present(res.entries)
    ensures name in Settle(w, res, name, docs, now).folders
    ensures Settle(w, res, name, docs, now).folders[name] == UpdateAll(Held(Carry(w.folders, res.action, name), name), docs, now)
  {
  }

  /** Settling without a rename into a directory the stores leave alone is a no-op. */
  lemma SettleKept(w: World, path: Path, entries: seq<Entry>, name: string, docs: seq<Doc>, now: string)
    requires w.data == Present(entries) && name in w.folders
    requires UpdateAll(w.folders[name], docs, now) == w.folders[name]
    ensures Settle(w, Resolution(path, entries, Kept), name, docs, now) == w
  {
    var stored := UpdateAll(Held(w.folders, name), docs, now);
    assert stored == w.folders[name];
    assert Settle(w, Resolution(path, entries, Kept), name, docs, now) == World(Present(entries), w.folders[name := stored]);
    assert w.folders[name := w.folders[name]] == w.folders;
  }

  /** After a successful run every file of the user's directory holds the
      document last stored in it, as a dict. */
  lemma ScrapeStoresAll(w: World, dataDir: Path, user: Record, playlists: seq<Playlist>, now: string,
                        displayName: string, id: string)
    requires Text(user, "display_name") == Some(displayName) && Text(user, "id") == Some(id)
    requires ScrapeLocal(w, dataDir, user, playlists, now).Success?
    requires DistinctTargets(Documents(user, playlists))
    ensures DirName(displayName, id) in ScrapeLocal(w, dataDir, user, playlists, now).value.world.folders
    ensures forall i :: 0 <= i < |playlists| + 1 ==>
              Current(ScrapeLocal(w, dataDir, user, playlists, now).value.world.folders[DirName(displayName, id)],
                      Documents(user, playlists)[i])
  {
    var res := UpdateUserDir(dataDir, w.data, displayName, id);
    var name, docs := DirName(displayName, id), Documents(user, playlists);
    ScrapeShape(w, dataDir, user, playlists, now, displayName, id);
    SettleHolds(w, res, name, docs, now);
    UpdateAllEstablishes(Held(Carry(w.folders, res.action, name), name), docs, now);
  }

  /** A run only appends to the user's changelog: what the directory held
      before (after a rename, the renamed directory's log) stays in front, and
      one entry follows per document that differed from its file. */
  lemma ScrapeHistory(w: World, dataDir: Path, user: Record, playlists: seq<Playlist>, now: string,
                      displayName: string, id: string)
    requires Text(user, "display_name") == Some(displayName) && Text(user, "id") == Some(id)
    requires ScrapeLocal(w, dataDir, user, playlists, now).Success?
    requires DistinctTargets(Documents(user, playlists))
    ensures DirName(displayName, id) in ScrapeLocal(w, dataDir, user, playlists, now).value.world.folders
    ensures Extends(Held(Carry(w.folders, UpdateUserDir(dataDir, w.data, displayName, id).action, DirName(displayName, id)), DirName(displayName, id)),
                    ScrapeLocal(w, dataDir, user, playlists, now).value.world.folders[DirName(displayName, id)],
                    StaleCount(Held(Carry(w.folders, UpdateUserDir(dataDir, w.data, displayName, id).action, DirName(displayName, id)), DirName(displayName, id)),
                               Documents(user, playlists)))
  {
    var res := UpdateUserDir(dataDir, w.data, displayName, id);
    var name, docs := DirName(displayName, id), Documents(user, playlists);
    ScrapeShape(w, dataDir, user, playlists, now, displayName, id);
    SettleHolds(w, res, name, docs, now);
    UpdateAllChangelog(Held(Carry(w.folders, res.action, name), name), docs, now);
  }

  /** `after`'s changelog is `before`'s with `n` entries appended. */
  predicate Extends(before: Folder, after: Folder, n: nat) {
    |after.changelog| == |before.changelog| + n && after.changelog[..|before.changelog|] == before.changelog
  }

  /** os.rename moves the old directory together with its changes.txt, and the
      stores only append to it: whatever the documents, the changelog of the
      directory the run renamed, or kept, stays in front of the user's changelog. */
  lemma ScrapeCarriesHistory(w: World, dataDir: Path, user: Record, playlists: seq<Playlist>, now: string,
                             displayName: string, id: string)
    requires Text(user, "display_name") == Some(displayName) && Text(user, "id") == Some(id)
    requires ScrapeLocal(w, dataDir, user, playlists, now).Success?
    ensures DirName(displayName, id) in ScrapeLocal(w, dataDir, user, playlists, now).value.world.folders
    ensures UpdateUserDir(dataDir, w.data, displayName, id).action.Renamed? &&
            UpdateUserDir(dataDir, w.data, displayName, id).action.from in w.folders ==>
              w.folders[UpdateUserDir(dataDir, w.data, displayName, id).action.from].changelog
                <= ScrapeLocal(w, dataDir, user, playlists, now).value.world.folders[DirName(displayName, id)].changelog
    ensures UpdateUserDir(dataDir, w.data, displayName, id).action.Kept? && DirName(displayName, id) in w.folders ==>
              w.folders[DirName(displayName, id)].changelog
                <= ScrapeLocal(w, dataDir, user, playlists, now).value.world.folders[DirName(displayName, id)].changelog
  {
    var res := UpdateUserDir(dataDir, w.data, displayName, id);
    var name, docs := DirName(displayName, id), Documents(user, playlists);
    var before := Held(Carry(w.folders, res.action, name), name);
    ScrapeShape(w, dataDir, user, playlists, now, displayName, id);
    SettleHolds(w, res, name, docs, now);
    UpdateAllPrefix(before, docs, now);
  }

  /** A run touches no other user's directory: apart from the user's own, every
      directory afterwards was there before with the same contents, and only the
      renamed directory disappears. */
  lemma ScrapeOthersUntouched(w: World, dataDir: Path, user: Record, playlists: seq<Playlist>, now: string,
                              displayName: string, id: string)
    requires Text(user, "display_name") == Some(displayName) && Text(user, "id") == Some(id)
    requires ScrapeLocal(w, dataDir, user, playlists, now).Success?
    ensures forall n :: n in ScrapeLocal(w, dataDir, user, playlists, now).value.world.folders && n != DirName(displayName, id) ==>
              n in w.folders && ScrapeLocal(w, dataDir, user, playlists, now).value.world.folders[n] == w.folders[n]
    ensures forall n :: n in w.folders && n != DirName(displayName, id) ==>
              (n in ScrapeLocal(w, dataDir, user, playlists, now).value.world.folders <==>
                 !(UpdateUserDir(dataDir, w.data, displayName, id).action.Renamed? && n == UpdateUserDir(dataDir, w.data, displayName, id).action.from))
  {
    var res := UpdateUserDir(dataDir, w.data, displayName, id);
    ScrapeShape(w, dataDir, user, playlists, now, displayName, id);
    SettleOthers(w, res, DirName(displayName, id), Documents(user, playlists), now);
  }

  lemma SettleOthers(w: World, res: Resolution, name: string, docs: seq<Doc>, now: string)
    ensures forall n :: n in Settle(w, res, name, docs, now).folders && n != name ==>
              n in w.folders && Settle(w, res, name, docs, now).folders[n] == w.folders[n]
    ensures forall n :: n in w.folders && n != name ==>
              (n in Settle(w, res, name, docs, now).folders <==> !(res.action.Renamed? && n == res.action.from))
  {
    var moved := Carry(w.folders, res.action, name);
    var stored := UpdateAll(Held(moved, name), docs, now);
    assert Settle(w, res, name, docs, now).folders == moved[name := stored];
    CarryOthers(w.folders, res.action, name, stored);
  }

  /** Putting the user's directory in place after the resolver's action leaves
      every other directory as it was, except the renamed one. */
  lemma CarryOthers(folders: map<string, Folder>, a: Action, name: string, x: Folder)
    ensures forall n :: n in Carry(folders, a, name)[name := x] && n != name ==>
              n in folders && Carry(folders, a, name)[name := x][n] == folders[n]
    ensures forall n :: n in folders && n != name ==>
              (n in Carry(folders, a, name)[name := x] <==> !(a.Renamed? && n == a.from))
  {
  }

  /** The data directory agrees with the model of its contents: no two
      children share a name, and the directories with contents are exactly
      the children that are directories. */
  ghost predicate Consistent(w: World) {
    && UniqueNames(Children(w.data))
    && forall n :: n in w.folders <==> IsDirNamed(Children(w.data), n)
  }

  /** A run keeps the data directory consistent. */
  lemma ScrapeConsistent(w: World, dataDir: Path, user: Record, playlists: seq<Playlist>, now: string)
    requires Consistent(w)
    requires ScrapeLocal(w, dataDir, user, playlists, now).Success?
    ensures Consistent(ScrapeLocal(w, dataDir, user, playlists, now).value.world)
  {
    var displayName, id := Text(user, "display_name").value, Text(user, "id").value;
    var res := UpdateUserDir(dataDir, w.data, displayName, id);
    var name, docs := DirName(displayName, id), Documents(user, playlists);
    ScrapeShape(w, dataDir, user, playlists, now, displayName, id);
    UpdateUserDirUniqueNames(dataDir, w.data, displayName, id);
    forall n ensures IsDirNamed(res.entries, n) <==>
                       n == name || (IsDirNamed(Children(w.data), n) && !(res.action.Renamed? && n == res.action.from))
    {
      UpdateUserDirDirectories(dataDir, w.data, displayName, id, n);
    }
    SettleConsistent(w, res, name, docs, now);
  }

  /** Settling keeps the data directory consistent when the resolved listing
      has unique names and its directories are the earlier ones with the
      renamed one's old name replaced by `name`. */
  lemma SettleConsistent(w: World, res: Resolution, name: string, docs: seq<Doc>, now: string)
    requires Consistent(w)
    requires UniqueNames(res.entries)
    requires forall n :: IsDirNamed(res.entries, n) <==>
                           n == name || (IsDirNamed(Children(w.data), n) && !(res.action.Renamed? && n == res.action.from))
    ensures Consistent(Settle(w, res, name, docs, now))
  {
    var stored := UpdateAll(Held(Carry(w.folders, res.action, name), name), docs, now);
    assert Settle(w, res, name, docs, now) == World(Present(res.entries), Carry(w.folders, res.action, name)[name := stored]);
    CarryConsistent(w, res.entries, res.action, name, stored);
  }

  lemma CarryConsistent(w: World, entries: seq<Entry>, a: Action, name: string, x: Folder)
    requires Consistent(w)
    requires UniqueNames(entries)
    requires forall n :: IsDirNamed(entries, n) <==>
                           n == name || (IsDirNamed(Children(w.data), n) && !(a.Renamed? && n == a.from))
    ensures Consistent(World(Present(entries), Carry(w.folders, a, name)[name := x]))
  {
    CarryOthers(w.folders, a, name, x);
  }

  /** The text after the last '_' is determined by the whole string. */
  lemma SuffixAfterUnderscore(a: string, x: string, b: string, y: string)
    requires '_' !in x && '_' !in y
    requires a + "_" + x == b + "_" + y
    ensures x == y
  {
    SuffixNoLonger(a, x, b, y);
    SuffixNoLonger(b, y, a, x);
    var s := a + "_" + x;
    assert x == s[|s| - |x|..] == y;
  }

  lemma SuffixNoLonger(a: string, x: string, b: string, y: string)
    requires '_' !in y
    requires a + "_" + x == b + "_" + y
    ensures |y| <= |x|
  {
    if |x| < |y| {
      UnderscoreAt(a, x);
      assert false;
    }
  }

  lemma UnderscoreAt(a: string, x: string)
    ensures |a + "_" + x| == |a| + 1 + |x| && (a + "_" + x)[|a|] == '_'
  {
  }

  /** Spotify identifiers are letters and digits, so playlists with distinct
      identifiers (none of them "info", which would meet account_info) never
      share a file, whatever their names. */
  lemma DistinctIdsDistinctTargets(user: Record, playlists: seq<Playlist>)
    requires forall i :: 0 <= i < |playlists| ==> Safe(playlists[i].id) && '_' !in playlists[i].id && playlists[i].id != "info"
    requires forall i, j :: 0 <= i < j < |playlists| ==> playlists[i].id != playlists[j].id
    ensures DistinctTargets(Documents(user, playlists))
  {
    var docs := Documents(user, playlists);
    DocumentsTargets(user, playlists);
    forall i, j | 0 <= i < j < |docs| ensures Target(docs[i]) != Target(docs[j]) {
      if i == 0 {
        AccountTargetDistinct(playlists[j - 1]);
      } else {
        PlaylistTargetsDistinct(playlists[i - 1], playlists[j - 1]);
      }
    }
  }

  lemma AccountTargetDistinct(q: Playlist)
    requires Safe(q.id) && '_' !in q.id && q.id != "info"
    ensures AccountInfo != Sanitize(q.name) + "_" + Sanitize(q.id)
  {
    SanitizeSafe(q.id);
    AccountInfoSplit(Sanitize(q.name), q.id);
  }

  lemma AccountInfoSplit(a: string, id: string)
    requires '_' !in id && id != "info"
    ensures AccountInfo != a + "_" + id
  {
    var b, x := "account", "info";
    assert AccountInfo == b + "_" + x;
    assert '_' !in x;
    if AccountInfo == a + "_" + id {
      SuffixAfterUnderscore(b, x, a, id);
    }
  }

  lemma PlaylistTargetsDistinct(p: Playlist, q: Playlist)
    requires Safe(p.id) && '_' !in p.id && Safe(q.id) && '_' !in q.id && p.id != q.id
    ensures Sanitize(p.name) + "_" + Sanitize(p.id) != Sanitize(q.name) + "_" + Sanitize(q.id)
  {
    SanitizeSafe(p.id);
    SanitizeSafe(q.id);
    if Sanitize(p.name) + "_" + p.id == Sanitize(q.name) + "_" + q.id {
      SuffixAfterUnderscore(Sanitize(p.name), p.id, Sanitize(q.name), q.id);
    }
  }
}
