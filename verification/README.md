# spotistats logger: change detection and persistence

A Dafny model of the part of `logger.py` that decides where a user's snapshots
live, whether a freshly fetched document differs from the stored one, and what
the changelog records when it does:

- `sanitize_for_filename`, the loop that replaces the nine characters
  `< > : " / \ | ? *` one after another (module `Sanitizer`);
- `compare_data_and_log_changes`, the shallow diff of two dicts, with its entries
  kept structured as `Removed`, `Changed` and `Added` instead of formatted
  strings (module `Diff`, on the JSON values and ordered top-level records of
  module `Json`);
- `update_user_dir`, which finds or creates `data/<sanitized display name>_<id>`,
  renaming the first directory whose name ends with the identifier when the
  display name has changed (module `Resolver`, on paths from module `Paths`);
- `log_changes_and_update_json`, which rewrites a snapshot only when it differs,
  as a dict, from the file, and appends one entry per write to `changes.txt`
  (module `Store`, on a folder of snapshot files and its changelog);
- the local part of `scrape`: resolve the user's directory, store the account
  record as `account_info`, then one document per playlist as
  `<sanitized name>_<id>` (module `Scrape`).

The filesystem is a value. A data directory is a `Listing` of named entries,
each marked as a directory or a plain file. Each directory has a `Folder` of
snapshot files and a changelog. Every operation is a pure function from the
state before to the state after. What the music service answers (the user
record, the playlists and the document built for each) and the current time
are parameters.

Top-level records are sequences of fields in insertion order, because the diff
reports keys in that order. Two records are compared as Python compares dicts:
by their key-to-value maps, with order ignored (`Json.SameDict`). Nested objects
are maps. Numbers are reals, so `1` and `1.0` are equal, as in Python.

The resolver's fast path tests `os.path.exists` (logger.py:85), which a plain
file with the candidate's name also satisfies. The model follows the code: the
resolver keeps the plain file, and the store's `os.makedirs` then fails on it
(`Scrape.NotADirectory`). Matching
on the identifier as a bare suffix is likewise modelled as written. A directory
`x_4123` belongs to identifier `123` as far as the resolver can tell.

## Model

| member | source | states |
|---|---|---|
| Sanitizer.Sanitize | logger.py:116-124 | the result has the name's length and holds none of the nine forbidden characters |
| Sanitizer.SanitizeWith | logger.py:116-124 | a name without forbidden characters comes back unchanged; with a replacement that is itself safe, the result is safe and equals the one-pass reference replacement `Scrub` |
| Sanitizer.ReplaceChar | logger.py:123 | `str.replace` of one character leaves a string without it unchanged, and keeps the length when the replacement is one character |
| Sanitizer.ReplaceEach | logger.py:121-123 | the loop over the nine characters keeps the name's length for a one-character replacement |
| Sanitizer.ReplaceEachIsScrub | logger.py:122-123 | replacing the forbidden characters one after another equals replacing every forbidden character in one left-to-right pass, as long as the replacement holds none of them |
| Sanitizer.SanitizePointwise | logger.py:121-123 | character by character: a forbidden character becomes '#', any other character stays at its position |
| Sanitizer.InvalidListed | logger.py:121 | the written-out test for a forbidden character agrees with the character list the loop walks |
| Sanitizer.SanitizeSafe | logger.py:116-124 | a name that is already safe is returned unchanged |
| Sanitizer.SanitizeIdempotent | logger.py:116-124 | sanitizing a sanitized name changes nothing |
| Sanitizer.SanitizeWithIdempotent | logger.py:116-124 | idempotence holds for every safe replacement, empty and multi-character ones included |
| Sanitizer.SanitizeAppend | logger.py:121-123 | sanitizing distributes over concatenation |
| Diff.Departures | logger.py:106-110 | the first loop emits at most one entry per field of the old dict |
| Diff.Arrivals | logger.py:111-113 | the second loop emits at most one entry per field of the new dict |
| Diff.Compare | logger.py:103-114 | the diff has at most as many entries as the two dicts have fields together |
| Diff.CompareCount | logger.py:103-114 | the diff's length is the number of keys only in the old dict, plus the keys only in the new one, plus the shared keys whose values differ |
| Diff.CompareMembers | logger.py:105-113 | each kind of entry, both directions: Removed(k, v) exactly for keys old has with v and new lacks; Changed(k, a, b) exactly for keys with differing values a and b; Added(k, v) exactly for keys only new has |
| Diff.CompareJustified | logger.py:105-113 | every entry names a key on which the two dicts disagree |
| Diff.CompareEmptyIff | logger.py:103-114 | the diff is empty if and only if the two dicts are equal |
| Diff.CompareSelf | logger.py:103-114 | comparing a dict with itself reports nothing |
| Diff.CompareOrder | logger.py:106-113 | Removed and Changed entries come first, in the old dict's key order; Added entries follow, in the new dict's key order; no key is reported twice |
| Diff.CompareFromEmpty | logger.py:111-113 | against an empty old dict every field of the new one is reported as Added, in its order |
| Paths.Split | logger.py:131 | joining the two parts of a split gives the path back |
| Paths.SplitJoin | logger.py:131-133 | splitting a joined path gives its directory and file name back |
| Resolver.FirstMatchFrom | logger.py:89-98 | returns the first directory, from the given position on, whose name ends with the identifier, or none if there is none |
| Resolver.UpdateUserDir | logger.py:74-101 | always returns parent/sanitized-name_id, which exists afterwards. The listing is kept exactly when that name exists. Otherwise the first matching directory is renamed in place, or, when none matches, a directory is appended |
| Resolver.UpdateUserDirIdempotent | logger.py:84-86 | resolving again with the same arguments takes the fast path and returns the same path |
| Resolver.UpdateUserDirNeverGrowsOnMatch | logger.py:95-99 | when a directory for the identifier exists, the number of children does not grow |
| Resolver.UpdateUserDirOneDirPerId | logger.py:88-99 | with at most one directory for the identifier before, there is at most one after, and exactly one once the candidate is a directory |
| Resolver.UpdateUserDirUniqueNames | logger.py:93-99 | the resolver never creates two children with the same name |
| Resolver.UpdateUserDirMakesDir | logger.py:85-99 | afterwards the candidate is a directory, unless a plain file already held its name |
| Resolver.UpdateUserDirDirectories | logger.py:93-99 | the directories afterwards are those before plus the candidate, minus the renamed directory's old name |
| Store.Update | logger.py:126-154 | a store appends at most one changelog entry and creates no file other than the sanitized target |
| Store.UpdateSpec | logger.py:126-154 | a no-op when the file already holds the document as a dict. Otherwise the file holds the document, no other file changes, and one entry is appended with the time, the sanitized file name and the diff against what the file held |
| Store.UpdateWellFormed | logger.py:143-146 | storing a dict keeps every readable snapshot a dict |
| Store.UpdateEntriesNonEmpty | logger.py:143-153 | in a folder of dicts, every appended entry has at least one change line below its header |
| Store.UpdateIdempotent | logger.py:143 | storing the same document again, at any time, does nothing |
| Store.UpdateUnreadableReportsAllAdded | logger.py:135-144 | when the file is missing or not valid JSON, the entry reports every field of the document as Added, in its order |
| Store.ExampleFacts | logger.py:126-154 | storing {"x": 1} into a new directory gives the file p holding it and one entry reporting x as Added; storing {"x": 2} next replaces the file and appends exactly one entry, the change of x from 1 to 2 |
| Store.UpdateHolds | logger.py:143-146 | after a store the file holds the document, as a dict |
| Store.UpdateFrame | logger.py:145-146 | a store leaves every other file as it was |
| Store.UpdateLog | logger.py:143-153 | the changelog grows by one entry exactly when the file did not hold the document, and only grows at its end |
| Store.UpdateAll | logger.py:163-174 | a run of stores appends at most one changelog entry per document; the changelog never gets shorter |
| Store.UpdateAllPrefix | logger.py:148-153 | whatever the documents, even several aimed at the same file, a run of stores keeps every earlier changelog entry in place and only adds entries after them |
| Store.UpdateAllFrame | logger.py:163-174 | a run of stores leaves the files no document targets untouched |
| Store.UpdateAllEstablishes | logger.py:163-174 | after a run of stores to distinct files, every file holds its document |
| Store.UpdateAllRerun | logger.py:163-174 | repeating the same run of stores to distinct files changes nothing |
| Store.UpdateAllChangelog | logger.py:163-174 | a run of stores to distinct files only appends to the changelog, one entry per document that differed from its file before the run |
| Store.UpdateAllStaleAlong | logger.py:143-153 | whatever the documents, even several aimed at one file, a run appends exactly one entry per store whose file did not hold its document at the moment of that store |
| Store.StaleAlongDistinct | logger.py:163-174 | for documents with distinct target files, counting stale stores along the run and counting stale documents against the folder before the run agree |
| Scrape.ScrapeLocal | logger.py:156-174 | a successful run had a string display name and identifier, returns data/sanitized-name_id, and leaves the data directory in place |
| Scrape.Text | logger.py:75-76 | a user field's value is available exactly when the record holds it as a string |
| Scrape.PlaylistPathStable | logger.py:169-170 | the store splits a playlist path back into the user directory and the file name; its second sanitization only touches the identifier's forbidden characters and changes nothing when the identifier is safe |
| Scrape.DocumentsTargets | logger.py:163-174 | the account record goes to account_info; playlist i's document goes to its sanitized name, '_', its sanitized identifier |
| Scrape.ScrapeNeedsText | logger.py:75-76 | a run without a string display name and a string identifier fails |
| Scrape.ScrapeFailsOnPlainFile | logger.py:161-164 | with both fields present, a run fails exactly when a plain file holds the user's directory name |
| Scrape.ScrapeUserPath | logger.py:160-161 | a successful run writes into data/sanitized-name_id, which is then a directory |
| Scrape.ScrapeRerun | logger.py:156-174 | a second run with the same answers, at any later time, changes nothing and returns the same path |
| Scrape.ScrapeStoresAll | logger.py:163-174 | after a run every file of the user's directory holds its document |
| Scrape.ScrapeHistory | logger.py:163-174 | a run whose documents go to distinct files keeps the user's earlier changelog in front, including a renamed directory's changelog, and appends one entry per changed document |
| Scrape.ScrapeCarriesHistory | logger.py:95-99 | whatever the documents, when the run renamed the user's old directory, that directory's changelog as it was before the run is a prefix of the user's changelog afterwards; the same holds for a directory the run kept |
| Scrape.ScrapeOthersUntouched | logger.py:161 | every other directory keeps its contents; only the renamed one disappears |
| Scrape.ScrapeConsistent | logger.py:156-174 | a run keeps child names unique and keeps contents for exactly the children that are directories |
| Scrape.DistinctIdsDistinctTargets | logger.py:163-170 | playlists with distinct identifiers made of safe characters without '_', none of them "info", never share a file |

## Left out

- The music service client: `get_spotify_client`, `get_user_display_name`, `get_user_playlists`, `get_playlist_info` and the API calls in `scrape`. Their answers are parameters of `Scrape.ScrapeLocal`, so the model covers runs in which the client answers every call. In the source `account_info` is stored (logger.py:164) before `get_user_playlists` is called (logger.py:166), so a client error there leaves the earlier files and changelog entries written. rec.py and main.py are not part of this model.
- JSON serialization, indentation and `ensure_ascii`: a snapshot holds the parsed record. A file holding text that is not valid JSON is `Store.Unreadable`.
- A snapshot file that is not valid UTF-8: reading it raises `UnicodeDecodeError`, which logger.py:140 does not catch, so the run aborts. The model has no such file; every existing file is parsed or `Unreadable`, and an `Unreadable` one is overwritten.
- The text of changelog lines: `str()` of Python values is not modelled, so entries keep the structured change. The header line is modelled as its time and file name.
- The clock: `datetime.now()` is one timestamp parameter per run. The store calls of one run share it.
- `print` output, and filesystem errors (permissions, a full disk). The only filesystem failure modelled is a plain file holding the user directory's name, which makes `os.makedirs(..., exist_ok=True)` raise.
- Python's `True == 1` and `False == 0` in dict comparison, and NaN: booleans and numbers are distinct values here, and reals have no NaN.
- A snapshot file that is valid JSON but not an object: the store would then compare a list or number with a dict. The model reads every parsed file as a record.
- A playlist whose sanitized name and identifier come out as "changes.txt": the changelog is a separate field of the folder, not a file among the snapshots.
- Scrape.ScrapeLocal: the user's `id` must be a string. The source's f-string would also accept a number. A missing or non-string `display_name` is a failure here; in the source `sanitize_for_filename(None)` raises.
- Where a new or renamed directory appears in later listings is an assumption: appended at the end, or at the renamed directory's position. `os.listdir` promises no order.
- `scrape` writes the sanitized name back into the playlist dict before building its document. The document is an input here, so that write is not modelled.
- Scrape.ScrapeRerun: assumes documents with distinct target files. When two playlists with different documents have names and identifiers that sanitize to the same file, the source rewrites that file and logs a change on every run, so a rerun is not a no-op.
- Scrape.ScrapeStoresAll: assumes documents with distinct target files. With two documents aimed at one file, the later store overwrites the earlier one within the run, so only the last of them is held afterwards.
- Scrape.ScrapeHistory: assumes documents with distinct target files, which only its count of appended entries needs. That the earlier changelog stays in front holds for any documents and is stated by Scrape.ScrapeCarriesHistory; the count along the run for any documents is Store.UpdateAllStaleAlong.
- Resolver.UpdateUserDir: identifiers are assumed to hold no '/' (Spotify identifiers are base62). The candidate name is one segment of the data directory. In the source a user id with '/' makes logger.py:82 build a nested path, and the `os.mkdir` at logger.py:96 raises unless the intermediate directory exists; the model appends one child named with the '/'.
- Scrape.PlaylistPathStable: assumes the playlist identifier holds no '/'. With one, os.path.split at logger.py:131 cuts the path at that '/', so the snapshot and its changes.txt land in a subdirectory named after the part before it. The model keeps the whole name as one file of the user's directory.
- Scrape.DocumentsTargets: the same assumption; for an identifier with '/' the source stores the playlist document in a subdirectory, not in the file named sanitized name, '_', sanitized identifier.
- Resolver.UpdateUserDir: names are compared exactly, as on a case-sensitive filesystem without Unicode normalization. On a case-insensitive filesystem `os.path.exists` at logger.py:85 is true for data/Foo_X when only foo_X exists, so the source takes the fast path and keeps writing into foo_X, where the model renames foo_X to Foo_X.
- Scrape.DistinctIdsDistinctTargets: the same exact comparison. On a case-insensitive filesystem two playlists whose identifiers differ only in letter case share one file.
