/**
 POSIX paths as the find-file picker and the project-root search use them:
 an absolute, normalized path is the sequence of its components, with `[]`
 standing for `/`. `path.dirname` drops the last component, and
 `path.join(dir, value)` splits `value` at `/` and resolves the pieces
 against `dir` (empty and `.` pieces are skipped, `..` goes up, staying at
 the root).
 */
module Paths {
  import opened LineSplit

  type Path = seq<string>

  predicate NoSlash(s: string) {
    forall i | 0 <= i < |s| :: s[i] != '/'
  }

  /** A name a directory listing can hold: one normal component. */
  predicate ValidName(n: string) {
    n != "" && n != "." && n != ".." && NoSlash(n)
  }

  predicate ValidPath(p: Path) {
    forall i | 0 <= i < |p| :: ValidName(p[i])
  }

  /** `path.dirname`: the parent, and `/` for `/`. */
  function Dirname(p: Path): (d: Path)
    ensures p == [] ==> d == []
    ensures p != [] ==> d + [p[|p| - 1]] == p
  {
    if p == [] then [] else p[..|p| - 1]
  }

  /** The pieces joined back with `/` between them. */
  function JoinSlash(pieces: seq<string>): string
    decreases |pieces|
  {
    if pieces == [] then ""
    else if |pieces| == 1 then pieces[0]
    else pieces[0] + "/" + JoinSlash(pieces[1..])
  }

  /** The pieces of `s` between its slashes; `s` has one more piece than slashes. */
  function Segments(s: string): (segs: seq<string>)
    ensures |segs| >= 1
    ensures forall i | 0 <= i < |segs| :: NoSlash(segs[i])
    ensures JoinSlash(segs) == s
    decreases |s|
  {
    var k := IndexOf(s, '/');
    if k < 0 then [s]
    else
      var tail := Segments(s[k + 1..]);
      ConsPiece(s, k, tail);
      [s[..k]] + tail
  }

  lemma ConsPiece(s: string, k: nat, tail: seq<string>)
    requires k < |s| && s[k] == '/' && forall j | 0 <= j < k :: s[j] != '/'
    requires |tail| >= 1 && JoinSlash(tail) == s[k + 1..]
    requires forall i | 0 <= i < |tail| :: NoSlash(tail[i])
    ensures JoinSlash([s[..k]] + tail) == s
    ensures forall i | 0 <= i < |[s[..k]] + tail| :: NoSlash(([s[..k]] + tail)[i])
  {
    var r := [s[..k]] + tail;
    assert r[1..] == tail;
    assert JoinSlash(r) == s[..k] + "/" + s[k + 1..];
    assert s == s[..k] + "/" + s[k + 1..];
  }

  /** Splitting undoes joining slash-free pieces. */
  lemma {:induction false} SegmentsOfJoin(pieces: seq<string>)
    requires |pieces| >= 1
    requires forall i | 0 <= i < |pieces| :: NoSlash(pieces[i])
    ensures Segments(JoinSlash(pieces)) == pieces
    decreases |pieces|
  {
    if |pieces| == 1 {
      assert IndexOf(pieces[0], '/') < 0;
    } else {
      var s := JoinSlash(pieces);
      var k := |pieces[0]|;
      assert s == pieces[0] + "/" + JoinSlash(pieces[1..]);
      assert s[k] == '/';
      assert forall j | 0 <= j < k :: s[j] == pieces[0][j];
      IndexOfIs(s, '/', k);
      assert s[..k] == pieces[0];
      assert s[k + 1..] == JoinSlash(pieces[1..]);
      SegmentsOfJoin(pieces[1..]);
      assert pieces == [pieces[0]] + pieces[1..];
    }
  }

  /** One piece of a joined path. */
  function ResolveOne(p: Path, piece: string): Path {
    if piece == "" || piece == "." then p
    else if piece == ".." then Dirname(p)
    else p + [piece]
  }

  /** The pieces resolved left to right against `base`. */
  function Resolve(base: Path, pieces: seq<string>): Path
    decreases |pieces|
  {
    if pieces == [] then base
    else ResolveOne(Resolve(base, pieces[..|pieces| - 1]), pieces[|pieces| - 1])
  }

  /** `path.join(dir, value)`. */
  function Join(dir: Path, value: string): (p: Path)
    ensures ValidPath(dir) ==> ValidPath(p)
  {
    JoinStaysValid(dir, Segments(value));
    Resolve(dir, Segments(value))
  }

  lemma {:induction false} JoinStaysValid(base: Path, pieces: seq<string>)
    requires forall i | 0 <= i < |pieces| :: NoSlash(pieces[i])
    ensures ValidPath(base) ==> ValidPath(Resolve(base, pieces))
    decreases |pieces|
  {
    if pieces != [] {
      JoinStaysValid(base, pieces[..|pieces| - 1]);
    }
  }

  /** Resolving in two steps is resolving the concatenation. */
  lemma {:induction false} ResolveAppend(base: Path, a: seq<string>, b: seq<string>)
    ensures Resolve(base, a + b) == Resolve(Resolve(base, a), b)
    decreases |b|
  {
    if b == [] {
      assert a + b == a;
    } else {
      ResolveAppend(base, a, b[..|b| - 1]);
      assert (a + b)[..|a + b| - 1] == a + b[..|b| - 1];
    }
  }

  /** Normal names are appended unchanged. */
  lemma {:induction false} ResolveNames(base: Path, names: seq<string>)
    requires ValidPath(names)
    ensures Resolve(base, names) == base + names
    decreases |names|
  {
    if names != [] {
      ResolveNames(base, names[..|names| - 1]);
      assert names == names[..|names| - 1] + [names[|names| - 1]];
    }
  }

  /** Joining a directory with a plain name gives the child, and its dirname is the directory again. */
  lemma JoinName(dir: Path, name: string)
    requires ValidName(name)
    ensures Join(dir, name) == dir + [name]
    ensures Dirname(Join(dir, name)) == dir
  {
    assert IndexOf(name, '/') < 0;
    ResolveNames(dir, [name]);
  }

  /** The string form: `/` for the root, otherwise `/` before each component. */
  function Format(p: Path): (s: string)
    ensures |s| >= 1 && s[0] == '/'
  {
    "/" + JoinSlash(p)
  }

  /** The root is the only path printed as `/`. */
  lemma FormatIsRoot(p: Path)
    requires ValidPath(p)
    ensures Format(p) == "/" <==> p == []
  {
    if p != [] {
      if |p| == 1 {
        assert JoinSlash(p) == p[0];
      } else {
        assert JoinSlash(p) == p[0] + "/" + JoinSlash(p[1..]);
      }
    }
  }

  /** Joining the root with a path's string form gives the path back. */
  lemma FormatRoundTrip(p: Path)
    requires ValidPath(p)
    ensures Join([], Format(p)) == p
  {
    if p == [] {
      assert Segments("/") == ["", ""] by {
        SegmentsOfJoin(["", ""]);
      }
    } else {
      assert Format(p) == JoinSlash([""] + p) by {
        assert ([""] + p)[1..] == p;
      }
      SegmentsOfJoin([""] + p);
      ResolveAppend([], [""], p);
      ResolveNames([], p);
    }
  }
}
