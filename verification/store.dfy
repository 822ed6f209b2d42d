/** The snapshot store: log_changes_and_update_json in logger.py. A document is
    written to its file only when it differs, as a dict, from what the file holds,
    and every write appends one entry to the folder's changes.txt. */
module Store {
  import opened Wrappers
  import opened Json
  import opened Diff
  import opened Sanitizer

  /** What a snapshot file holds: a document json.load reads back, or text it
      cannot parse. */
  datatype Snapshot = Parsed(record: Record) | Unreadable

  /** One changelog entry: the header line (time and file name) and one indented
      line per change. */
  datatype LogEntry = LogEntry(timestamp: string, filename: string, changes: seq<Change>)

  /** A directory the store writes into: its snapshot files by name, and
      changes.txt as the list of entries appended to it. */
  datatype Folder = Folder(files: map<string, Snapshot>, changelog: seq<LogEntry>)

  /** A directory os.makedirs has just created. */
  const EmptyFolder: Folder := Folder(map[], [])

  /** Lines an entry occupies in changes.txt. */
  function LineCount(e: LogEntry): nat {
    1 + |e.changes|
  }

  /** Every readable snapshot is a dict, so its keys are distinct. */
  predicate WellFormed(f: Folder) {
    forall n :: n in f.files && f.files[n].Parsed? ==> Keyed(f.files[n].record)
  }

  /** The document the store compares against: a missing file or one json.load
      rejects counts as the empty dict. */
  function Existing(f: Folder, name: string): Record {
    if name in f.files && f.files[name].Parsed? then f.files[name].record else []
  }

  /** log_changes_and_update_json(record, dir/filename) at time `now`; `dir` is
      None when the directory does not exist yet and os.makedirs creates it. */
  function Update(dir: Option<Folder>, filename: string, record: Record, now: string): (r: Folder)
    ensures |dir.GetOr(EmptyFolder).changelog| <= |r.changelog| <= |dir.GetOr(EmptyFolder).changelog| + 1
    ensures r.files.Keys <= dir.GetOr(EmptyFolder).files.Keys + {Sanitize(filename)}
  {
    var before := dir.GetOr(EmptyFolder);
    var name := Sanitize(filename);
    var prior := Existing(before, name);
    if SameDict(prior, record) then before
    else Folder(before.files[name := Parsed(record)],
                before.changelog + [LogEntry(now, name, Compare(prior, record))])
  }

  /** A store call is a no-op when the file already holds the document as a dict.
      Otherwise the file afterwards holds the document, no other file changes,
      and exactly one entry is appended, naming the sanitized file, carrying the
      time, and listing the diff against what the file held. */
  lemma UpdateSpec(dir: Option<Folder>, filename: string, record: Record, now: string)
    ensures var f, before, name := Update(dir, filename, record, now), dir.GetOr(EmptyFolder), Sanitize(filename);
            && (SameDict(Existing(before, name), record) ==> f == before)
            && (!SameDict(Existing(before, name), record) ==>
                  && f.files == before.files[name := Parsed(record)]
                  && |f.changelog| == |before.changelog| + 1
                  && f.changelog[..|before.changelog|] == before.changelog
                  && f.changelog[|before.changelog|].timestamp == now
                  && f.changelog[|before.changelog|].filename == name
                  && f.changelog[|before.changelog|].changes == Compare(Existing(before, name), record))
  {
    var f, before := Update(dir, filename, record, now), dir.GetOr(EmptyFolder);
    assert f.changelog[..|before.changelog|] == before.changelog;
  }

  /** Storing a dict keeps every readable snapshot a dict. */
  lemma UpdateWellFormed(dir: Option<Folder>, filename: string, record: Record, now: string)
    requires WellFormed(dir.GetOr(EmptyFolder)) && Keyed(record)
    ensures WellFormed(Update(dir, filename, record, now))
  {
    var before, name := dir.GetOr(EmptyFolder), Sanitize(filename);
    if !SameDict(Existing(before, name), record) {
      StoreKeepsWellFormed(before, name, record, Update(dir, filename, record, now).changelog);
    }
  }

  lemma StoreKeepsWellFormed(f: Folder, name: string, record: Record, log: seq<LogEntry>)
    requires WellFormed(f) && Keyed(record)
    ensures WellFormed(Folder(f.files[name := Parsed(record)], log))
  {
  }

  /** In a folder of dicts, every entry a store call appends has at least one
      change line below its header. */
  lemma UpdateEntriesNonEmpty(dir: Option<Folder>, filename: string, record: Record, now: string)
    requires WellFormed(dir.GetOr(EmptyFolder)) && Keyed(record)
    ensures forall i :: |dir.GetOr(EmptyFolder).changelog| <= i < |Update(dir, filename, record, now).changelog| ==>
              LineCount(Update(dir, filename, record, now).changelog[i]) >= 2
  {
    var before, name := dir.GetOr(EmptyFolder), Sanitize(filename);
    var prior := Existing(before, name);
    if !SameDict(prior, record) {
      assert Keyed(prior);
      CompareEmptyIff(prior, record);
      assert Update(dir, filename, record, now).changelog == before.changelog + [LogEntry(now, name, Compare(prior, record))];
    }
  }

  /** Storing the same document twice in succession: the second call does nothing. */
  lemma UpdateIdempotent(dir: Option<Folder>, filename: string, record: Record, t1: string, t2: string)
    ensures Update(Some(Update(dir, filename, record, t1)), filename, record, t2) == Update(dir, filename, record, t1)
  {
    UpdateHolds(dir, filename, record, t1);
  }

  /** A missing or unreadable file: every field of a non-empty document is
      reported as added, in the document's order. */
  lemma UpdateUnreadableReportsAllAdded(dir: Option<Folder>, filename: string, record: Record, now: string)
    requires var name := Sanitize(filename);
             name !in dir.GetOr(EmptyFolder).files || dir.GetOr(EmptyFolder).files[name].Unreadable?
    requires |record| > 0
    ensures var f, n := Update(dir, filename, record, now), |dir.GetOr(EmptyFolder).changelog|;
            && |f.changelog| == n + 1
            && |f.changelog[n].changes| == |record|
            && forall i :: 0 <= i < |record| ==>
                 f.changelog[n].changes[i] == Added(record[i].key, record[i].value)
  {
    var name := Sanitize(filename);
    var before := dir.GetOr(EmptyFolder);
    assert Existing(before, name) == [];
    assert record[0].key in ToMap(record);
    assert !SameDict([], record);
    UpdateSpec(dir, filename, record, now);
    CompareFromEmpty(record);
  }

  /** The worked example: {"x": 1} stored into an empty directory, then
      {"x": 2}. Each store writes the file and appends one entry: the first
      reports x as added, the second exactly the change of x from 1 to 2. */
  lemma ExampleFacts(one: Record, two: Record, t1: string, t2: string)
    requires one == [Field("x", Number(1.0))] && two == [Field("x", Number(2.0))]
    ensures Update(None, "p", one, t1) ==
              Folder(map["p" := Parsed(one)], [LogEntry(t1, "p", [Added("x", Number(1.0))])])
    ensures Update(Some(Update(None, "p", one, t1)), "p", two, t2) ==
              Folder(map["p" := Parsed(two)],
                     [LogEntry(t1, "p", [Added("x", Number(1.0))]),
                      LogEntry(t2, "p", [Changed("x", Number(1.0), Number(2.0))])])
  {
    ExampleFirst(one, t1);
    ExampleSecond(one, two, t1, t2);
  }

  lemma ExampleFirst(one: Record, t1: string)
    requires one == [Field("x", Number(1.0))]
    ensures Update(None, "p", one, t1) ==
              Folder(map["p" := Parsed(one)], [LogEntry(t1, "p", [Added("x", Number(1.0))])])
  {
    ExampleName();
    ExampleDiffs(one, [Field("x", Number(2.0))]);
    assert Existing(EmptyFolder, "p") == [];
    UpdateWrites(None, "p", one, t1);
    assert map[]["p" := Parsed(one)] == map["p" := Parsed(one)];
  }

  lemma ExampleSecond(one: Record, two: Record, t1: string, t2: string)
    requires one == [Field("x", Number(1.0))] && two == [Field("x", Number(2.0))]
    ensures Update(Some(Folder(map["p" := Parsed(one)], [LogEntry(t1, "p", [Added("x", Number(1.0))])])), "p", two, t2) ==
              Folder(map["p" := Parsed(two)],
                     [LogEntry(t1, "p", [Added("x", Number(1.0))]),
                      LogEntry(t2, "p", [Changed("x", Number(1.0), Number(2.0))])])
  {
    var first := Folder(map["p" := Parsed(one)], [LogEntry(t1, "p", [Added("x", Number(1.0))])]);
    ExampleName();
    ExampleDiffs(one, two);
    assert Existing(first, "p") == one;
    UpdateWrites(Some(first), "p", two, t2);
    assert map["p" := Parsed(one)]["p" := Parsed(two)] == map["p" := Parsed(two)];
  }

  lemma ExampleName()
    ensures Sanitize("p") == "p"
  {
    assert Safe("p") by {
      assert !Invalid('p');
    }
    SanitizeSafe("p");
  }

  /** A store whose file name needs no sanitizing, into a file that does not
      hold the document: the file is written and one entry appended. */
  lemma UpdateWrites(dir: Option<Folder>, name: string, record: Record, now: string)
    requires Sanitize(name) == name
    requires !SameDict(Existing(dir.GetOr(EmptyFolder), name), record)
    ensures Update(dir, name, record, now) ==
              Folder(dir.GetOr(EmptyFolder).files[name := Parsed(record)],
                     dir.GetOr(EmptyFolder).changelog + [LogEntry(now, name, Compare(Existing(dir.GetOr(EmptyFolder), name), record))])
  {
  }

  /** The diffs behind the worked example. */
  lemma ExampleDiffs(one: Record, two: Record)
    requires one == [Field("x", Number(1.0))] && two == [Field("x", Number(2.0))]
    ensures !SameDict([], one) && !SameDict(one, two)
    ensures Compare([], one) == [Added("x", Number(1.0))]
    ensures Compare(one, two) == [Changed("x", Number(1.0), Number(2.0))]
  {
    assert one[0].key in KeySet(one);
    assert two[0].key in KeySet(two);
    assert Lookup(one, "x") == Some(Number(1.0));
    assert Lookup(two, "x") == Some(Number(2.0));
    assert ToMap(one)["x"] != ToMap(two)["x"];
    assert Departures(one, two) == [Changed("x", Number(1.0), Number(2.0))];
    assert Arrivals(two, one) == [];
    assert Departures([], one) == [];
    assert one[1..] == [];
    assert Arrivals(one, []) == [Added("x", Number(1.0))];
  }

  /** After a store call the file holds the document, as a dict. */
  lemma UpdateHolds(dir: Option<Folder>, filename: string, record: Record, now: string)
    ensures SameDict(Existing(Update(dir, filename, record, now), Sanitize(filename)), record)
  {
    var g, name := Update(dir, filename, record, now), Sanitize(filename);
    if !SameDict(Existing(dir.GetOr(EmptyFolder), name), record) {
      assert g.files[name] == Parsed(record);
      assert Existing(g, name) == record;
    }
  }

  /** A store call leaves every other file as it was. */
  lemma UpdateFrame(f: Folder, filename: string, record: Record, now: string, other: string)
    requires other != Sanitize(filename)
    ensures other in Update(Some(f), filename, record, now).files <==> other in f.files
    ensures other in f.files ==> Update(Some(f), filename, record, now).files[other] == f.files[other]
  {
  }

  /** A store call appends one entry exactly when the file did not hold the document. */
  lemma UpdateLog(f: Folder, filename: string, record: Record, now: string)
    ensures |Update(Some(f), filename, record, now).changelog| ==
              |f.changelog| + (if SameDict(Existing(f, Sanitize(filename)), record) then 0 else 1)
    ensures Update(Some(f), filename, record, now).changelog[..|f.changelog|] == f.changelog
  {
    var g := Update(Some(f), filename, record, now);
    assert g.changelog[..|f.changelog|] == f.changelog;
  }

  /** One document bound for a file. */
  datatype Doc = Doc(filename: string, record: Record)

  /** Successive store calls into one folder, all at time `now`. */
  function UpdateAll(f: Folder, docs: seq<Doc>, now: string): (r: Folder)
    ensures |f.changelog| <= |r.changelog| <= |f.changelog| + |docs|
    decreases |docs|
  {
    if |docs| == 0 then f
    else UpdateAll(Update(Some(f), docs[0].filename, docs[0].record, now), docs[1..], now)
  }

  /** The file a document goes to: its sanitized file name. */
  function Target(d: Doc): string {
    Sanitize(d.filename)
  }

  /** No two documents end up in the same file. */
  predicate DistinctTargets(docs: seq<Doc>) {
    forall i, j :: 0 <= i < j < |docs| ==> Target(docs[i]) != Target(docs[j])
  }

  /** The file a document goes to already holds it, as a dict. */
  predicate Current(f: Folder, d: Doc) {
    SameDict(Existing(f, Target(d)), d.record)
  }

  /** How many documents do not match what their file holds. */
  function StaleCount(f: Folder, docs: seq<Doc>): nat {
    if |docs| == 0 then 0
    else (if Current(f, docs[0]) then 0 else 1) + StaleCount(f, docs[1..])
  }

  /** How many stores of a run find their file not holding their document, each
      judged against the folder the earlier stores of the run left behind. */
  function StaleAlong(f: Folder, docs: seq<Doc>, now: string): nat
    decreases |docs|
  {
    if |docs| == 0 then 0
    else (if Current(f, docs[0]) then 0 else 1)
         + StaleAlong(Update(Some(f), docs[0].filename, docs[0].record, now), docs[1..], now)
  }

  /** Whatever the documents, even several aimed at one file, a run appends
      exactly one entry per store whose file did not hold its document when
      that store was made. */
  lemma {:induction false} UpdateAllStaleAlong(f: Folder, docs: seq<Doc>, now: string)
    ensures |UpdateAll(f, docs, now).changelog| == |f.changelog| + StaleAlong(f, docs, now)
    decreases |docs|
  {
    if |docs| > 0 {
      UpdateLog(f, docs[0].filename, docs[0].record, now);
      UpdateAllStaleAlong(Update(Some(f), docs[0].filename, docs[0].record, now), docs[1..], now);
    }
  }

  /** With distinct target files no store sees an earlier store's write, so
      judging each document against the folder before the run counts the same. */
  lemma StaleAlongDistinct(f: Folder, docs: seq<Doc>, now: string)
    requires DistinctTargets(docs)
    ensures StaleAlong(f, docs, now) == StaleCount(f, docs)
  {
    UpdateAllStaleAlong(f, docs, now);
    UpdateAllChangelog(f, docs, now);
  }

  /** changes.txt is opened for appending: whatever the documents, a run of
      stores keeps every earlier entry in place and only adds entries after them. */
  lemma {:induction false} UpdateAllPrefix(f: Folder, docs: seq<Doc>, now: string)
    ensures UpdateAll(f, docs, now).changelog[..|f.changelog|] == f.changelog
    decreases |docs|
  {
    if |docs| > 0 {
      var h := Update(Some(f), docs[0].filename, docs[0].record, now);
      UpdateLog(f, docs[0].filename, docs[0].record, now);
      UpdateAllPrefix(h, docs[1..], now);
      PrefixTrans(f.changelog, h.changelog, UpdateAll(h, docs[1..], now).changelog);
    }
  }

  /** Files no document targets are untouched. */
  lemma {:induction false} UpdateAllFrame(f: Folder, docs: seq<Doc>, now: string, name: string)
    requires forall i :: 0 <= i < |docs| ==> Target(docs[i]) != name
    ensures name in UpdateAll(f, docs, now).files <==> name in f.files
    ensures name in f.files ==> UpdateAll(f, docs, now).files[name] == f.files[name]
    decreases |docs|
  {
    if |docs| > 0 {
      UpdateAllFrame(Update(Some(f), docs[0].filename, docs[0].record, now), docs[1..], now, name);
    }
  }

  /** After the calls every file holds its document, as a dict. */
  lemma {:induction false} UpdateAllEstablishes(f: Folder, docs: seq<Doc>, now: string)
    requires DistinctTargets(docs)
    ensures forall i :: 0 <= i < |docs| ==> Current(UpdateAll(f, docs, now), docs[i])
    decreases |docs|
  {
    if |docs| > 0 {
      var g := Update(Some(f), docs[0].filename, docs[0].record, now);
      var rest := docs[1..];
      UpdateHolds(Some(f), docs[0].filename, docs[0].record, now);
      UpdateAllEstablishes(g, rest, now);
      UpdateAllFrame(g, rest, now, Target(docs[0]));
      forall i | 0 <= i < |docs| ensures Current(UpdateAll(f, docs, now), docs[i]) {
        if i > 0 {
          assert docs[i] == rest[i - 1];
        } else {
          assert Existing(UpdateAll(g, rest, now), Target(docs[0])) == Existing(g, Target(docs[0]));
        }
      }
    }
  }

  /** When every file already holds its document, the calls change nothing. */
  lemma {:induction false} UpdateAllSettled(f: Folder, docs: seq<Doc>, now: string)
    requires forall i :: 0 <= i < |docs| ==> Current(f, docs[i])
    ensures UpdateAll(f, docs, now) == f
    decreases |docs|
  {
    if |docs| > 0 {
      assert Current(f, docs[0]);
      UpdateAllSettled(f, docs[1..], now);
    }
  }

  /** Running the same calls again is a no-op: no file write, no changelog entry. */
  lemma UpdateAllRerun(f: Folder, docs: seq<Doc>, t1: string, t2: string)
    requires DistinctTargets(docs)
    ensures UpdateAll(UpdateAll(f, docs, t1), docs, t2) == UpdateAll(f, docs, t1)
  {
    UpdateAllEstablishes(f, docs, t1);
    UpdateAllSettled(UpdateAll(f, docs, t1), docs, t2);
  }

  /** A store call leaves the other documents' files as they were. */
  lemma UpdateKeepsOthers(f: Folder, d: Doc, now: string, others: seq<Doc>)
    requires forall i :: 0 <= i < |others| ==> Target(others[i]) != Target(d)
    ensures SameTargets(Update(Some(f), d.filename, d.record, now), f, others)
  {
    forall i | 0 <= i < |others|
      ensures Existing(Update(Some(f), d.filename, d.record, now), Target(others[i])) == Existing(f, Target(others[i]))
    {
      UpdateFrame(f, d.filename, d.record, now, Target(others[i]));
    }
  }

  /** Two folders agree on every file the documents go to. */
  predicate SameTargets(f: Folder, g: Folder, docs: seq<Doc>) {
    forall i :: 0 <= i < |docs| ==> Existing(f, Target(docs[i])) == Existing(g, Target(docs[i]))
  }

  /** Staleness depends only on the files the documents target. */
  lemma {:induction false} StaleCountFrame(f: Folder, g: Folder, docs: seq<Doc>)
    requires SameTargets(f, g, docs)
    ensures StaleCount(f, docs) == StaleCount(g, docs)
    decreases |docs|
  {
    if |docs| > 0 {
      StaleCountFrame(f, g, docs[1..]);
    }
  }

  /** The changelog only grows, by one entry per document that was stale. */
  lemma {:induction false} UpdateAllChangelog(f: Folder, docs: seq<Doc>, now: string)
    requires DistinctTargets(docs)
    ensures |UpdateAll(f, docs, now).changelog| == |f.changelog| + StaleCount(f, docs)
    ensures UpdateAll(f, docs, now).changelog[..|f.changelog|] == f.changelog
    decreases |docs|
  {
    if |docs| > 0 {
      var h := Update(Some(f), docs[0].filename, docs[0].record, now);
      ChangelogStep(f, docs, now);
      UpdateAllChangelog(h, docs[1..], now);
      assert UpdateAll(f, docs, now) == UpdateAll(h, docs[1..], now);
      PrefixTrans(f.changelog, h.changelog, UpdateAll(h, docs[1..], now).changelog);
    }
  }

  /** A prefix of a prefix is a prefix. */
  lemma PrefixTrans(a: seq<LogEntry>, b: seq<LogEntry>, c: seq<LogEntry>)
    requires |a| <= |b| <= |c|
    requires b[..|a|] == a && c[..|b|] == b
    ensures c[..|a|] == a
  {
    assert c[..|a|] == c[..|b|][..|a|];
  }

  /** The first call of a run, seen from the changelog. */
  lemma ChangelogStep(f: Folder, docs: seq<Doc>, now: string)
    requires DistinctTargets(docs) && |docs| > 0
    ensures DistinctTargets(docs[1..])
    ensures |Update(Some(f), docs[0].filename, docs[0].record, now).changelog|
              + StaleCount(Update(Some(f), docs[0].filename, docs[0].record, now), docs[1..])
              == |f.changelog| + StaleCount(f, docs)
    ensures Update(Some(f), docs[0].filename, docs[0].record, now).changelog[..|f.changelog|] == f.changelog
  {
    var h := Update(Some(f), docs[0].filename, docs[0].record, now);
    var rest := docs[1..];
    UpdateLog(f, docs[0].filename, docs[0].record, now);
    forall i | 0 <= i < |rest| ensures Target(rest[i]) != Target(docs[0]) {
      assert rest[i] == docs[i + 1];
    }
    UpdateKeepsOthers(f, docs[0], now, rest);
    StaleCountFrame(h, f, rest);
  }


}
