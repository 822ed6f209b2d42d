/** The filename sanitizer of logger.py: characters most filesystems refuse in a
    path segment are replaced, one forbidden character after another. */
module Sanitizer {

  /** The forbidden characters, in the order the loop visits them. */
  const InvalidChars: string := "<>:\"/\\|?*"

  /** The replacement used everywhere the collector sanitizes. */
  const DefaultReplacement: string := "#"

  /** One of the forbidden characters, written out. */
  predicate Invalid(c: char) {
    c == '<' || c == '>' || c == ':' || c == '"' || c == '/' || c == '\\' || c == '|' || c == '?' || c == '*'
  }

  /** A string no filesystem of concern refuses as a path segment. */
  predicate Safe(s: string) {
    forall i :: 0 <= i < |s| ==> !Invalid(s[i])
  }

  /** Python's `s.replace(c, rep)` for a one-character pattern `c`. */
  function ReplaceChar(s: string, c: char, rep: string): (r: string)
    ensures c !in s ==> r == s
    ensures |rep| == 1 ==> |r| == |s|
  {
    if |s| == 0 then ""
    else (if s[0] == c then rep else [s[0]]) + ReplaceChar(s[1..], c, rep)
  }

  /** The loop of sanitize_for_filename: replace every occurrence of `cs[0]`,
      then of `cs[1]` in the result, and so on. */
  function ReplaceEach(s: string, cs: string, rep: string): (r: string)
    ensures |rep| == 1 ==> |r| == |s|
    decreases |cs|
  {
    if |cs| == 0 then s
    else ReplaceEach(ReplaceChar(s, cs[0], rep), cs[1..], rep)
  }

  /** Reference definition: every character of `s` that occurs in `cs` is
      replaced by `rep` in a single left-to-right pass. */
  function Scrub(s: string, cs: string, rep: string): (r: string) {
    if |s| == 0 then ""
    else (if s[0] in cs then rep else [s[0]]) + Scrub(s[1..], cs, rep)
  }

  lemma {:induction false} ScrubAppend(a: string, b: string, cs: string, rep: string)
    ensures Scrub(a + b, cs, rep) == Scrub(a, cs, rep) + Scrub(b, cs, rep)
  {
    if |a| > 0 {
      assert (a + b)[1..] == a[1..] + b;
      ScrubAppend(a[1..], b, cs, rep);
    } else {
      assert a + b == b;
    }
  }

  /** A string with no character of `cs` is left alone. */
  lemma {:induction false} ScrubUntouched(s: string, cs: string, rep: string)
    requires forall i :: 0 <= i < |s| ==> s[i] !in cs
    ensures Scrub(s, cs, rep) == s
  {
    if |s| > 0 {
      ScrubUntouched(s[1..], cs, rep);
      assert s == [s[0]] + s[1..];
    }
  }

  /** Replacing `c` first and the rest of `cs` afterwards is one scrub with
      `[c] + cs`, as long as the replacement does not reintroduce a character
      the later passes would replace again. */
  lemma {:induction false} ScrubAfterReplace(s: string, c: char, cs: string, rep: string)
    requires forall i :: 0 <= i < |rep| ==> rep[i] !in cs
    ensures Scrub(ReplaceChar(s, c, rep), cs, rep) == Scrub(s, [c] + cs, rep)
  {
    if |s| > 0 {
      var head := if s[0] == c then rep else [s[0]];
      ScrubAppend(head, ReplaceChar(s[1..], c, rep), cs, rep);
      ScrubAfterReplace(s[1..], c, cs, rep);
      if s[0] == c {
        ScrubUntouched(rep, cs, rep);
      } else {
        assert Scrub([s[0]], cs, rep) == (if s[0] in cs then rep else [s[0]]) + Scrub([], cs, rep);
        assert [s[0]][1..] == [];
      }
    }
  }

  /** The sequential loop equals the single-pass reference. */
  lemma {:induction false} ReplaceEachIsScrub(s: string, cs: string, rep: string)
    requires forall i :: 0 <= i < |rep| ==> rep[i] !in cs
    ensures ReplaceEach(s, cs, rep) == Scrub(s, cs, rep)
    decreases |cs|
  {
    if |cs| == 0 {
      ScrubUntouched(s, cs, rep);
    } else {
      assert cs == [cs[0]] + cs[1..];
      ReplaceEachIsScrub(ReplaceChar(s, cs[0], rep), cs[1..], rep);
      ScrubAfterReplace(s, cs[0], cs[1..], rep);
    }
  }

  /** A scrub leaves no character of `cs` behind when the replacement holds none. */
  lemma {:induction false} ScrubRemoves(s: string, cs: string, rep: string)
    requires forall i :: 0 <= i < |rep| ==> rep[i] !in cs
    ensures forall i :: 0 <= i < |Scrub(s, cs, rep)| ==> Scrub(s, cs, rep)[i] !in cs
  {
    if |s| > 0 {
      ScrubRemoves(s[1..], cs, rep);
    }
  }

  /** With a one-character replacement the scrub works character by character. */
  lemma {:induction false} ScrubPointwise(s: string, cs: string, ch: char)
    ensures |Scrub(s, cs, [ch])| == |s|
    ensures forall i :: 0 <= i < |s| ==> Scrub(s, cs, [ch])[i] == if s[i] in cs then ch else s[i]
  {
    if |s| > 0 {
      ScrubPointwise(s[1..], cs, ch);
    }
  }

  /** sanitize_for_filename(name, replacement). */
  function SanitizeWith(name: string, rep: string): (r: string)
    ensures Safe(name) ==> r == name
    ensures Safe(rep) ==> Safe(r)
    ensures Safe(rep) ==> r == Scrub(name, InvalidChars, rep)
  {
    LoopFacts(name, rep);
    ReplaceEach(name, InvalidChars, rep)
  }

  lemma LoopFacts(name: string, rep: string)
    ensures Safe(name) ==> ReplaceEach(name, InvalidChars, rep) == name
    ensures Safe(rep) ==> ReplaceEach(name, InvalidChars, rep) == Scrub(name, InvalidChars, rep)
    ensures Safe(rep) ==> Safe(ReplaceEach(name, InvalidChars, rep))
  {
    if Safe(name) {
      ReplaceEachUntouched(name, InvalidChars, rep);
    }
    if Safe(rep) {
      ReplaceEachIsScrub(name, InvalidChars, rep);
      ScrubRemoves(name, InvalidChars, rep);
    }
  }

  /** A string holding none of `cs` passes through the loop unchanged, whatever
      the replacement. */
  lemma {:induction false} ReplaceEachUntouched(s: string, cs: string, rep: string)
    requires forall i :: 0 <= i < |s| ==> s[i] !in cs
    ensures ReplaceEach(s, cs, rep) == s
  {
    if |cs| > 0 {
      assert cs[0] !in s by {
        assert cs[0] in cs;
      }
      ReplaceEachUntouched(s, cs[1..], rep);
    }
  }

  /** sanitize_for_filename(name) with its default replacement '#': forbidden
      characters become '#', every other character stays where it was. */
  function Sanitize(name: string): (r: string)
    ensures |r| == |name|
    ensures Safe(r)
  {
    ScrubPointwise(name, InvalidChars, '#');
    SanitizeWith(name, DefaultReplacement)
  }

  /** Character by character: a forbidden character becomes '#', any other
      stays where it was. */
  lemma SanitizePointwise(name: string)
    ensures forall i :: 0 <= i < |name| ==> Sanitize(name)[i] == if Invalid(name[i]) then '#' else name[i]
  {
    assert Safe(DefaultReplacement);
    assert Sanitize(name) == Scrub(name, InvalidChars, ['#']);
    ScrubPointwise(name, InvalidChars, '#');
    forall i | 0 <= i < |name| ensures Sanitize(name)[i] == if Invalid(name[i]) then '#' else name[i] {
      InvalidListed(name[i]);
    }
  }

  /** The written-out test agrees with the list the loop walks. */
  lemma InvalidListed(c: char)
    ensures Invalid(c) <==> c in InvalidChars
  {
  }

  /** A safe name is left as it is. */
  lemma SanitizeSafe(name: string)
    requires Safe(name)
    ensures Sanitize(name) == name
  {
  }

  /** Joining safe strings gives a safe string. */
  lemma SafeConcat(a: string, b: string)
    requires Safe(a) && Safe(b)
    ensures Safe(a + b)
  {
    forall i | 0 <= i < |a + b| ensures !Invalid((a + b)[i]) {
      if i < |a| {
        assert (a + b)[i] == a[i];
      } else {
        assert (a + b)[i] == b[i - |a|];
      }
    }
  }

  /** Sanitizing twice is sanitizing once. */
  lemma SanitizeIdempotent(name: string)
    ensures Sanitize(Sanitize(name)) == Sanitize(name)
  {
  }

  /** Sanitizing twice is sanitizing once, for any replacement that is itself safe
      (a multi-character or empty one included). */
  lemma SanitizeWithIdempotent(name: string, rep: string)
    requires Safe(rep)
    ensures SanitizeWith(SanitizeWith(name, rep), rep) == SanitizeWith(name, rep)
  {
  }

  /** Sanitizing distributes over concatenation; the playlist filename
      `Sanitize(name) + "_" + id` is therefore stable under the store's second
      sanitization whenever the identifier is safe. */
  lemma SanitizeAppend(a: string, b: string)
    ensures Sanitize(a + b) == Sanitize(a) + Sanitize(b)
  {
    var l, r := Sanitize(a + b), Sanitize(a) + Sanitize(b);
    SanitizePointwise(a + b);
    SanitizePointwise(a);
    SanitizePointwise(b);
    assert |l| == |r|;
    forall i | 0 <= i < |l| ensures l[i] == r[i] {
      if i < |a| {
        assert (a + b)[i] == a[i];
      } else {
        assert (a + b)[i] == b[i - |a|];
      }
    }
  }

  /** A safe prefix passes through; only the rest is sanitized. */
  lemma SanitizeSafePrefix(x: string, y: string)
    requires Safe(x)
    ensures Sanitize(x + y) == x + Sanitize(y)
  {
    SanitizeAppend(x, y);
    SanitizeSafe(x);
  }
}
