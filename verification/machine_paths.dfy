/**
 * `nest-api/mock/sshd.ts`: a mock machine's paths and its open handles.
 *
 * Paths: whatever the client sends, the real path is the tree's root with the
 * virtual path under it.  Handles: over any run of requests no handle is given
 * out twice, one answers exactly from its opening to its closing, and a
 * directory is listed once and is then at its end.
 */
module MachinePaths {
  import opened Paths
  import L = Listing

  // ------------------------------------------------------------------ posix paths

  /** `posix.normalize` of an absolute path: `..` folded, one trailing slash kept. */
  function Normalize(path: string): string
    requires "/" <= path
  {
    var folded := L.Walk([], Split(path));
    Absolute(folded) + if folded != [] && path[|path| - 1] == '/' then "/" else ""
  }

  /** `posix.join` of an absolute path and another part; an empty part is passed over. */
  function JoinTo(base: string, part: string): string
    requires "/" <= base
  {
    if part == "" then Normalize(base)
    else
      assert (base + "/" + part)[0] == base[0];
      Normalize(base + "/" + part)
  }

  /** The path as the machine knows it. */
  function Virtual(home: string, path: string): (r: string)
    requires "/" <= home
    ensures "/" <= r
  {
    if path == "" || path == "." then home
    else if "/" <= path then Normalize(path)
    else Normalize(JoinTo(home, path))
  }

  /** `.replace(/^\/+/, "")` */
  function Stripped(path: string): string {
    if path != "" && path[0] == '/' then Stripped(path[1..]) else path
  }

  /** Where that path really is. */
  function Real(home: string, root: string, path: string): string
    requires "/" <= home && "/" <= root
  {
    JoinTo(root, Stripped(Virtual(home, path)))
  }

  lemma {:induction false} WalkSkipsEmpty(base: Path, segments: seq<string>)
    ensures L.Walk(base, segments) == L.Walk(base, NonEmpty(segments))
    decreases |segments|
  {
    if segments != [] {
      var front, last := segments[..|segments| - 1], segments[|segments| - 1];
      assert segments == front + [last];
      WalkSkipsEmpty(base, front);
      NonEmptyConcat(front, [last]);
      assert NonEmpty([last]) == if last == "" then [] else [last];
      if last == "" {
        assert NonEmpty(segments) == NonEmpty(front);
      } else {
        assert NonEmpty(segments)[..|NonEmpty(front)|] == NonEmpty(front);
      }
    }
  }

  lemma {:induction false} WalkPlain(base: Path, segments: Path)
    requires CleanPath(segments) && L.NoDots(segments)
    ensures L.Walk(base, segments) == base + segments
    decreases |segments|
  {
    if segments == [] {
      assert base + segments == base;
    } else {
      var front, last := segments[..|segments| - 1], segments[|segments| - 1];
      assert segments == front + [last];
      assert last in segments && Clean(last) && forall s | s in front :: s in segments;
      WalkPlain(base, front);
      assert base + front + [last] == base + segments;
    }
  }

  /** The segments of a normalised path are what the fold leaves, and none is a dot. */
  lemma NormalizeFolds(path: string)
    requires "/" <= path
    ensures Segments(Normalize(path)) == L.Walk([], Segments(path))
    ensures L.NoDots(Segments(Normalize(path)))
  {
    var folded := L.Walk([], Split(path));
    WalkSkipsEmpty([], Split(path));
    SplitHasNoSlash(path);
    L.WalkClean([], Split(path));
    SegmentsOfAbsolute(folded);
    var text := Absolute(folded);
    SegmentsConcat(text, "");
    assert Segments("") == [] by { assert Split("") == [""] && [""][1..] == []; }
    assert text + "/" + "" == text + "/" && text + "" == text;
    assert Segments(text) + [] == Segments(text);
  }

  lemma JoinFolds(base: string, part: string)
    requires "/" <= base
    ensures Segments(JoinTo(base, part)) == L.Walk([], Segments(base) + Segments(part))
    ensures L.NoDots(Segments(JoinTo(base, part)))
  {
    if part == "" {
      NormalizeFolds(base);
      assert Split("") == [""] && [""][1..] == [];
      assert Segments(base) + Segments("") == Segments(base);
    } else {
      var whole := base + "/" + part;
      assert whole[0] == base[0] && "/" <= whole;
      NormalizeFolds(whole);
      SegmentsConcat(base, part);
    }
  }

  lemma {:induction false} StrippedSegments(path: string)
    ensures Segments(Stripped(path)) == Segments(path)
  {
    if path != "" && path[0] == '/' {
      StrippedSegments(path[1..]);
      SegmentsAbsolute(path[1..]);
      assert "/" + path[1..] == path;
    }
  }

  /**
   * Where the machine puts a path is where the explorer's own resolver, started
   * at the home directory, would put it.
   */
  lemma VirtualFolds(home: string, path: string)
    requires "/" <= home && L.NoDots(Segments(home))
    ensures Segments(Virtual(home, path)) == Segments(L.Resolved(home, path))
    ensures L.NoDots(Segments(Virtual(home, path)))
  {
    SegmentsClean(home);
    SegmentsClean(path);
    SplitHasNoSlash(path);
    L.WalkClean(L.Start(home, path), Split(path));
    SegmentsOfAbsolute(L.Walk(L.Start(home, path), Split(path)));
    WalkSkipsEmpty(L.Start(home, path), Split(path));
    if path == "" || path == "." {
      assert Split("") == [""] && Split(".") == ["."] by { SplitWord("."); }
      assert NonEmpty([""]) == [] by { assert [""][1..] == []; }
      assert NonEmpty(["."]) == ["."] by { assert ["."][1..] == []; }
      assert ["."][..0] == [];
    } else if "/" <= path {
      NormalizeFolds(path);
    } else {
      JoinFolds(home, path);
      NormalizeFolds(JoinTo(home, path));
      SegmentsClean(JoinTo(home, path));
      WalkPlain([], Segments(JoinTo(home, path)));
      L.WalkConcat([], Segments(home), Segments(path));
      WalkPlain([], Segments(home));
      assert [] + Segments(home) == Segments(home);
      assert [] + Segments(JoinTo(home, path)) == Segments(JoinTo(home, path));
    }
  }

  /** The paths the machine answers with its home directory, just as the manifest writes it. */
  predicate Bare(path: string) {
    path == "" || path == "."
  }

  lemma VirtualHasNoDots(home: string, path: string)
    requires "/" <= home && (Bare(path) ==> L.NoDots(Segments(home)))
    ensures L.NoDots(Segments(Virtual(home, path)))
  {
    if Bare(path) {
    } else if "/" <= path {
      NormalizeFolds(path);
    } else {
      NormalizeFolds(JoinTo(home, path));
    }
  }

  /** The real path of whatever the client sent is the fold of the root and the virtual path. */
  lemma RealFolds(home: string, root: string, path: string)
    requires "/" <= home && "/" <= root
    ensures Segments(Real(home, root, path)) == L.Walk([], Segments(root) + Segments(Virtual(home, path)))
    ensures L.NoDots(Segments(Real(home, root, path)))
  {
    StrippedSegments(Virtual(home, path));
    JoinFolds(root, Stripped(Virtual(home, path)));
  }

  // ------------------------------------------------------------------ climbing

  /** How far `n` segments lead down: names less `..`, a `.` counting for nothing. */
  function Height(segments: Path, n: nat): int
    requires n <= |segments|
  {
    if n == 0 then 0
    else
      Height(segments, n - 1)
        + if segments[n - 1] == "." || segments[n - 1] == "" then 0 else if segments[n - 1] == ".." then -1 else 1
  }

  /** Some beginning of the path holds more `..` than names. */
  ghost predicate Climbs(segments: Path) {
    exists n | 0 <= n <= |segments| :: Height(segments, n) < 0
  }

  /** Up to where it has not climbed, a path is walked above its base. */
  lemma {:induction false} WalkAbove(base: Path, segments: Path, n: nat)
    requires n <= |segments| && forall k | 0 <= k <= n :: Height(segments, k) >= 0
    ensures L.Walk(base, segments[..n]) == base + L.Walk([], segments[..n])
    ensures |L.Walk([], segments[..n])| == Height(segments, n)
  {
    if n == 0 {
      assert segments[..0] == [] && base + [] == base;
    } else {
      WalkAbove(base, segments, n - 1);
      assert segments[..n][..n - 1] == segments[..n - 1];
      assert Height(segments, n) >= 0 && Height(segments, n - 1) >= 0;
      StepAbove(base, L.Walk([], segments[..n - 1]), segments[n - 1]);
    }
  }

  lemma StepAbove(base: Path, above: Path, segment: string)
    requires segment == ".." ==> above != []
    ensures L.StepInto(base + above, segment) == base + L.StepInto(above, segment)
  {
    if segment == ".." {
      assert (base + above)[..|base + above| - 1] == base + above[..|above| - 1];
    } else {
      assert base + above + [segment] == base + (above + [segment]);
    }
  }

  /** Once a path has climbed off a name it does not hold, the name is gone. */
  lemma {:induction false} WalkLeaves(name: string, segments: Path, n: nat)
    requires n <= |segments| && name !in segments
    requires exists k | 0 <= k <= n :: Height(segments, k) < 0
    ensures name !in L.Walk([name], segments[..n])
  {
    if n > 0 {
      assert segments[..n][..n - 1] == segments[..n - 1];
      assert segments[n - 1] in segments;
      var before := L.Walk([name], segments[..n - 1]);
      if k :| 0 <= k <= n - 1 && Height(segments, k) < 0 {
        WalkLeaves(name, segments, n - 1);
        StepHolds(before, segments[n - 1], name);
      } else {
        WalkAbove([name], segments, n - 1);
        assert Height(segments, n) < 0;
        assert L.Walk([], segments[..n - 1]) == [] && before == [name];
        assert L.Walk([name], segments[..n]) == L.Popped([name]);
      }
    }
  }

  lemma StepHolds(base: Path, segment: string, name: string)
    requires name !in base && segment != name
    ensures name !in L.StepInto(base, segment)
  {
  }

  /** A name longer than any of these. */
  function FreshName(segments: Path): (name: string)
    ensures name != "" && forall c | c in name :: c == 'a'
    ensures forall s | s in segments :: |s| < |name|
    ensures name !in segments
  {
    if segments == [] then "a"
    else
      var rest := FreshName(segments[1..]);
      rest + seq(|segments[0]| + 1, _ => 'a')
  }

  ghost predicate UnderRoot(home: string, root: string, path: string)
    requires "/" <= home && "/" <= root
  {
    Segments(root) <= Segments(Real(home, root, path))
  }

  /**
   * The real path is the root with the virtual path, its own dots folded, under
   * it: for whatever the client sends, as long as a home directory answered as
   * it is written does not climb.
   */
  lemma RealStaysUnder(home: string, root: string, path: string)
    requires "/" <= home && "/" <= root && L.NoDots(Segments(root))
    requires Bare(path) ==> !Climbs(Segments(home))
    ensures Segments(Real(home, root, path)) == Segments(root) + L.Walk([], Segments(Virtual(home, path)))
    ensures UnderRoot(home, root, path) && L.NoDots(Segments(Real(home, root, path)))
  {
    var v := Segments(Virtual(home, path));
    RealFolds(home, root, path);
    SegmentsClean(root);
    SegmentsClean(Virtual(home, path));
    L.WalkConcat([], Segments(root), v);
    WalkPlain([], Segments(root));
    assert [] + Segments(root) == Segments(root);
    if Bare(path) {
      forall k | 0 <= k <= |v| ensures Height(v, k) >= 0 {}
      WalkAbove(Segments(root), v, |v|);
      assert v[..|v|] == v;
    } else {
      VirtualHasNoDots(home, path);
      WalkPlain(Segments(root), v);
      WalkPlain([], v);
      assert [] + v == v;
    }
  }

  /** A root that a climbing home leaves: one name the home does not hold. */
  lemma ClimbingLeaves(home: string, path: string) returns (root: string)
    requires "/" <= home && Bare(path) && Climbs(Segments(home))
    ensures "/" <= root && L.NoDots(Segments(root)) && !UnderRoot(home, root, path)
  {
    var v := Segments(home);
    var name := FreshName(v);
    root := Absolute([name]);
    assert name[0] in name && name[0] == 'a';
    assert CleanPath([name]);
    SegmentsOfAbsolute([name]);
    RealFolds(home, root, path);
    L.WalkConcat([], [name], v);
    WalkPlain([], [name]);
    assert [] + [name] == [name];
    var k :| 0 <= k <= |v| && Height(v, k) < 0;
    WalkLeaves(name, v, |v|);
    assert v[..|v|] == v;
    assert [name][0] in [name];
  }

  /**
   * Under every root, exactly when the path is not one that the machine answers
   * with its home, or the home does not climb: `/a/../b` may be a home, `/..`
   * may not.
   */
  lemma UnderEveryRootExactly(home: string, path: string)
    requires "/" <= home
    ensures (forall root: string | "/" <= root && L.NoDots(Segments(root)) :: UnderRoot(home, root, path))
      <==> !Bare(path) || !Climbs(Segments(home))
  {
    if Bare(path) && Climbs(Segments(home)) {
      var root := ClimbingLeaves(home, path);
    } else {
      forall root: string | "/" <= root && L.NoDots(Segments(root)) ensures UnderRoot(home, root, path) {
        RealStaysUnder(home, root, path);
      }
    }
  }

  lemma UpSegments()
    ensures Segments("/..") == [".."] && Stripped("/..") == ".." && Segments("..") == [".."]
  {
    assert "/.." == "/" + ".." && "/.."[1..] == "..";
    SegmentsAbsolute("..");
    SplitWord("..");
    assert [".."][1..] == [];
  }

  /** A home directory that climbs is followed out of the tree. */
  lemma ClimbingHomeLeaves(root: string)
    requires "/" <= root && L.NoDots(Segments(root))
    ensures Segments(Real("/..", root, "")) == L.Popped(Segments(root))
  {
    UpSegments();
    JoinFolds(root, "..");
    L.WalkConcat([], Segments(root), [".."]);
    SegmentsClean(root);
    WalkPlain([], Segments(root));
    assert [] + Segments(root) == Segments(root);
    assert [".."][..0] == [];
    assert L.Walk(Segments(root), [".."]) == L.Popped(Segments(root));
  }

  /** Asking for the virtual path of a virtual path changes nothing, an unnormalised home aside. */
  lemma VirtualSettles(home: string, path: string)
    requires "/" <= home
    ensures Virtual(home, Virtual(home, path)) == Virtual(home, path)
      <==> ((path == "" || path == ".") ==> Normalize(home) == home)
  {
    if path != "" && path != "." {
      if "/" <= path { NormalizeSettles(path); } else { NormalizeSettles(JoinTo(home, path)); }
    }
  }

  lemma NormalizeSettles(path: string)
    requires "/" <= path
    ensures "/" <= Normalize(path) && Normalize(Normalize(path)) == Normalize(path)
  {
    var n := Normalize(path);
    NormalizeFolds(path);
    NormalizeFolds(n);
    SegmentsClean(n);
    WalkPlain([], Segments(n));
    assert [] + Segments(n) == Segments(n);
    WalkSkipsEmpty([], Split(n));
    WalkSkipsEmpty([], Split(path));
    var folded := L.Walk([], Split(path));
    assert L.Walk([], Split(n)) == folded;
    if folded != [] {
      SplitHasNoSlash(path);
      L.WalkClean([], Split(path));
      LastIsNoSlash(folded);
    }
  }

  lemma {:induction false} LastIsNoSlash(p: Path)
    requires p != [] && CleanPath(p)
    ensures Join(p) != "" && Join(p)[|Join(p)| - 1] != '/'
  {
    if |p| == 1 {
      assert Clean(p[0]);
    } else {
      LastIsNoSlash(p[1..]);
    }
  }
}
