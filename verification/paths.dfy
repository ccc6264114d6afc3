/**
 * Slash-separated paths: the strings the repository handles, and the segment
 * lists they stand for.
 *
 * The helpers split, filter and join strings.  The tree, the walk and the scan
 * only ever compare whole segments, so those modules work on segment lists and
 * the lemmas here carry each string test over to a list test.
 */
module Paths {

  type Path = seq<string>

  /** A name: not empty, and no separator in it. */
  predicate Clean(segment: string) {
    segment != "" && '/' !in segment
  }

  predicate CleanPath(p: Path) {
    forall s | s in p :: Clean(s)
  }

  /** `text.split("/")` */
  function Split(text: string): (r: seq<string>)
    ensures |r| > 0
  {
    if text == "" then [""] else Begun(text[0], Split(text[1..]))
  }

  /** What a character in front does to the pieces behind it. */
  function Begun(c: char, rest: seq<string>): (r: seq<string>)
    requires |rest| > 0
    ensures |r| > 0
  {
    if c == '/' then [""] + rest else [[c] + rest[0]] + rest[1..]
  }

  /** `.filter(Boolean)` on strings */
  function NonEmpty(xs: seq<string>): seq<string> {
    if xs == [] then []
    else (if xs[0] == "" then [] else [xs[0]]) + NonEmpty(xs[1..])
  }

  /** `xs.join("/")` */
  function Join(xs: seq<string>): string {
    if xs == [] then ""
    else if |xs| == 1 then xs[0]
    else xs[0] + "/" + Join(xs[1..])
  }

  /** `text.split("/").filter(Boolean)` */
  function Segments(text: string): Path {
    NonEmpty(Split(text))
  }

  /** An absolute path from its segments. */
  function Absolute(p: Path): string {
    "/" + Join(p)
  }

  // ------------------------------------------------------------------ split, filter, join

  lemma {:induction false} SplitAt(s: string, t: string)
    ensures Split(s + "/" + t) == Split(s) + Split(t)
  {
    if s == "" {
      assert s + "/" + t == "/" + t;
      assert ("/" + t)[1..] == t;
    } else {
      var whole := s + "/" + t;
      assert whole[1..] == s[1..] + "/" + t && whole[0] == s[0];
      assert Split(whole) == Begun(s[0], Split(whole[1..])) && Split(s) == Begun(s[0], Split(s[1..]));
      hide *;
      SplitAt(s[1..], t);
      BegunConcat(s[0], Split(s[1..]), Split(t));
    }
  }

  lemma BegunConcat(c: char, a: seq<string>, b: seq<string>)
    requires |a| > 0
    ensures Begun(c, a + b) == Begun(c, a) + b
  {
    assert (a + b)[1..] == a[1..] + b;
  }

  lemma {:induction false} NonEmptyConcat(xs: seq<string>, ys: seq<string>)
    ensures NonEmpty(xs + ys) == NonEmpty(xs) + NonEmpty(ys)
  {
    if xs == [] {
      assert xs + ys == ys;
    } else {
      assert (xs + ys)[1..] == xs[1..] + ys;
      NonEmptyConcat(xs[1..], ys);
    }
  }

  /** A slash separates: the segments on its two sides do not interact. */
  lemma SegmentsConcat(s: string, t: string)
    ensures Segments(s + "/" + t) == Segments(s) + Segments(t)
  {
    SplitAt(s, t);
    NonEmptyConcat(Split(s), Split(t));
  }

  lemma SegmentsAbsolute(text: string)
    ensures Segments("/" + text) == Segments(text)
  {
    SegmentsConcat("", text);
    assert "" + "/" + text == "/" + text;
  }

  lemma {:induction false} SplitWord(word: string)
    requires '/' !in word
    ensures Split(word) == [word]
  {
    if word != "" {
      assert word[0] in word && word == [word[0]] + word[1..];
      SplitWord(word[1..]);
    }
  }

  lemma {:induction false} SplitHasNoSlash(text: string)
    ensures forall s | s in Split(text) :: '/' !in s
  {
    if text != "" { SplitHasNoSlash(text[1..]); }
  }

  lemma {:induction false} NonEmptyMembers(xs: seq<string>)
    ensures forall s :: s in NonEmpty(xs) <==> s in xs && s != ""
  {
    if xs != [] { NonEmptyMembers(xs[1..]); }
  }

  /** Whatever the text, its segments are names. */
  lemma SegmentsClean(text: string)
    ensures CleanPath(Segments(text))
  {
    SplitHasNoSlash(text);
    NonEmptyMembers(Split(text));
  }

  /** Joining names and splitting again gives the names back. */
  lemma {:induction false} SegmentsOfJoin(p: Path)
    requires CleanPath(p)
    ensures Segments(Join(p)) == p
  {
    if p == [] {
    } else {
      assert Clean(p[0]);
      SplitWord(p[0]);
      assert NonEmpty([p[0]]) == [p[0]] + NonEmpty([]) == p[..1];
      if |p| > 1 {
        SegmentsOfJoin(p[1..]);
        SegmentsConcat(p[0], Join(p[1..]));
        assert p == p[..1] + p[1..];
      }
    }
  }

  lemma SegmentsOfAbsolute(p: Path)
    requires CleanPath(p)
    ensures Segments(Absolute(p)) == p
  {
    SegmentsAbsolute(Join(p));
    SegmentsOfJoin(p);
  }

  // ------------------------------------------------------------------ containment

  lemma {:induction false} JoinConcat(a: Path, b: Path)
    requires a != [] && b != []
    ensures Join(a + b) == Join(a) + "/" + Join(b)
  {
    if |a| == 1 {
      assert (a + b)[1..] == b;
    } else {
      assert (a + b)[1..] == a[1..] + b;
      JoinConcat(a[1..], b);
    }
  }

  /** `path === base || path.startsWith(base + "/")` */
  predicate StringAtOrUnder(base: string, path: string) {
    path == base || base + "/" <= path
  }

  lemma ConsPrefix(c: char, s: string, t: string)
    ensures [c] + s <= [c] + t <==> s <= t
  {
    assert ([c] + s)[1..] == s && ([c] + t)[1..] == t;
    if [c] + s <= [c] + t {
      assert t[..|s|] == ([c] + t)[..|[c] + s|][1..];
    }
  }

  /**
   * The string test for "at or under" is the segment test: the slash appended
   * to the base is what keeps `var/logs` out of `var/log`.
   */
  lemma AtOrUnderIsPrefix(base: Path, path: Path)
    requires CleanPath(base) && CleanPath(path) && base != []
    ensures StringAtOrUnder(Join(base), Join(path)) <==> base <= path
  {
    SegmentsOfJoin(base);
    SegmentsOfJoin(path);
    var b, p := Join(base), Join(path);
    if b + "/" <= p {
      var rest := p[|b| + 1..];
      assert p == b + "/" + rest;
      SegmentsConcat(b, rest);
    }
    if base < path {
      assert path == base + path[|base|..];
      JoinConcat(base, path[|base|..]);
    }
  }

  lemma AbsoluteAtOrUnderIsPrefix(base: Path, path: Path)
    requires CleanPath(base) && CleanPath(path) && base != []
    ensures StringAtOrUnder(Absolute(base), Absolute(path)) <==> base <= path
  {
    AtOrUnderIsPrefix(base, path);
    var b, p := Join(base), Join(path);
    assert Absolute(base) + "/" == ['/'] + (b + "/");
    ConsPrefix('/', b + "/", p);
    assert Absolute(base)[1..] == b && Absolute(path)[1..] == p;
  }
}
