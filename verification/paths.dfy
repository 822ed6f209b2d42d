/** Paths below the collector's working directory, as sequences of segments.
    Each name joined on is one segment, which is what os.path.join and
    os.path.split make of it as long as the name holds no '/'. */
module Paths {

  /** A path as the sequence of its segments. */
  datatype Path = Path(segments: seq<string>)

  /** os.path.join(p, name) for a single segment. */
  function Join(p: Path, name: string): (q: Path)
    ensures |q.segments| == |p.segments| + 1
  {
    Path(p.segments + [name])
  }

  /** os.path.split(p): the directory part and the final segment. */
  function Split(p: Path): (r: (Path, string))
    requires |p.segments| > 0
    ensures Join(r.0, r.1) == p
  {
    (Path(p.segments[..|p.segments| - 1]), p.segments[|p.segments| - 1])
  }

  /** Splitting a joined path gives its two parts back. */
  lemma SplitJoin(p: Path, name: string)
    ensures Split(Join(p, name)) == (p, name)
  {
    assert Join(p, name).segments[..|p.segments|] == p.segments;
  }
}
