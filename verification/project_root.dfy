/**
 The project root of a directory: the nearest directory, walking up from it,
 that holds a `.git` entry, or `/` when none below the root does. The root
 itself is never tested. The filesystem check `fs.existsSync` is the
 parameter `present`.
 */
module ProjectRoot {
  import opened Paths

  type Exists = Path -> bool

  /** Only `.git` marks a project root. */
  predicate IsProjectRoot(dir: Path, present: Exists) {
    present(dir + [".git"])
  }

  /** The marker is the path `path.join(dir, '.git')`. */
  lemma GitMarker(dir: Path, present: Exists)
    ensures IsProjectRoot(dir, present) <==> present(Join(dir, ".git"))
  {
    JoinName(dir, ".git");
  }

  /** The prefixes of `p`, from `p` itself up to (excluding) the one of length `n`, none a root. */
  predicate NoRootAbove(p: Path, n: nat, present: Exists) {
    forall k | n < k <= |p| :: !IsProjectRoot(p[..k], present)
  }

  /** Reference definition: test `p`, then its parent, and stop at `/`. */
  function NearestRoot(p: Path, present: Exists): Path
    decreases |p|
  {
    if p == [] then []
    else if IsProjectRoot(p, present) then p
    else NearestRoot(Dirname(p), present)
  }

  /**
   `findProjectRoot`: walks up with `path.dirname` until a root is found or
   `/` is reached.
   */
  method FindProjectRoot(dirPath: Path, present: Exists) returns (r: Path)
    ensures r == [] || IsProjectRoot(r, present)
    ensures |r| <= |dirPath|
    ensures r == dirPath[..|r|]
    ensures NoRootAbove(dirPath, |r|, present)
  {
    var current := dirPath;
    while current != []
      invariant |current| <= |dirPath| && current == dirPath[..|current|]
      invariant NoRootAbove(dirPath, |current|, present)
      decreases |current|
    {
      if IsProjectRoot(current, present) {
        break;
      }
      StepUp(dirPath, current, present);
      current := Dirname(current);
    }
    r := current;
  }

  /** A directory that is not a root extends the rootless stretch by one, and defers to its parent. */
  lemma StepUp(dirPath: Path, current: Path, present: Exists)
    requires current != [] && !IsProjectRoot(current, present)
    requires |current| <= |dirPath| && current == dirPath[..|current|]
    requires NoRootAbove(dirPath, |current|, present)
    ensures Dirname(current) == dirPath[..|current| - 1]
    ensures NoRootAbove(dirPath, |current| - 1, present)
  {
  }

  /** At most one ancestor satisfies all three: the answer is determined by the directory and the filesystem. */
  lemma ProjectRootUnique(p: Path, present: Exists, r1: Path, r2: Path)
    requires r1 == [] || IsProjectRoot(r1, present)
    requires r2 == [] || IsProjectRoot(r2, present)
    requires |r1| <= |p| && r1 == p[..|r1|] && NoRootAbove(p, |r1|, present)
    requires |r2| <= |p| && r2 == p[..|r2|] && NoRootAbove(p, |r2|, present)
    ensures r1 == r2
  {
  }

  /** The reference answer is an ancestor (or `/`) that is a root and has no root below it. */
  lemma {:induction false} NearestRootMeetsSpec(p: Path, present: Exists)
    ensures var r := NearestRoot(p, present);
            (r == [] || IsProjectRoot(r, present)) && |r| <= |p| && r == p[..|r|] && NoRootAbove(p, |r|, present)
    decreases |p|
  {
    if p != [] && !IsProjectRoot(p, present) {
      var up := Dirname(p);
      NearestRootMeetsSpec(up, present);
      var r := NearestRoot(up, present);
      assert up == p[..|p| - 1];
      assert r == p[..|r|];
      forall k | |r| < k <= |p|
        ensures !IsProjectRoot(p[..k], present)
      {
        if k < |p| {
          assert p[..k] == up[..k];
        } else {
          assert p[..k] == p;
        }
      }
    } else if p != [] {
      assert p[..|p|] == p;
    }
  }

  /** Whatever meets the contract of `FindProjectRoot` is the reference answer. */
  lemma FindsNearestRoot(p: Path, present: Exists, r: Path)
    requires r == [] || IsProjectRoot(r, present)
    requires |r| <= |p| && r == p[..|r|] && NoRootAbove(p, |r|, present)
    ensures r == NearestRoot(p, present)
  {
    NearestRootMeetsSpec(p, present);
    ProjectRootUnique(p, present, r, NearestRoot(p, present));
  }

  /** A directory other than `/` that is itself a root is its own project root. */
  lemma RootIsItsOwn(p: Path, present: Exists)
    requires p != [] && IsProjectRoot(p, present)
    ensures NearestRoot(p, present) == p
  {
  }

  /** A directory inside a project (but not inside a nested one) finds that project. */
  lemma {:induction false} InsideProject(root: Path, below: Path, present: Exists)
    requires root != [] && IsProjectRoot(root, present)
    requires forall k | 0 < k <= |below| :: !IsProjectRoot(root + below[..k], present)
    ensures NearestRoot(root + below, present) == root
    decreases |below|
  {
    if below != [] {
      var p := root + below;
      assert below[..|below|] == below;
      assert !IsProjectRoot(p, present);
      var up := below[..|below| - 1];
      assert Dirname(p) == root + up;
      forall k | 0 < k <= |up|
        ensures !IsProjectRoot(root + up[..k], present)
      {
        assert up[..k] == below[..k];
      }
      InsideProject(root, up, present);
    } else {
      assert root + below == root;
    }
  }
}
