/**
 The find-file picker: directory entries with their icons, the ordering that
 lists directories before files, the listing of a directory with its `..`
 entry, and the navigation the typed value triggers.

 The label order `localeCompare` is a parameter `lc` (negative: before,
 positive: after); JavaScript's `Array.prototype.sort` is a stable sort, and
 it is modelled as a stable insertion sort.
 */
module FindFile {
  import opened Options
  import opened Paths

  datatype EntryType = File | Directory | BrokenSymlink

  datatype DirectoryEntry = DirectoryEntry(itemLabel: string, fullPath: Path, entryType: EntryType)

  /** What `fs.stat` of an entry's full path gave: a failure, or whether it is a directory. */
  datatype StatOutcome = StatFailed | Stat(isDirectory: bool)

  /** One `readdir` result with the outcome of its `stat`. */
  datatype Dirent = Dirent(name: string, stat: StatOutcome)

  type LabelOrder = (string, string) -> int

  function TypeIcon(t: EntryType): string {
    match t
    case File => "$(file-text)"
    case Directory => "$(file-directory)"
    case BrokenSymlink => "$(circle-slash)"
  }

  const ParentLabel: string := "$(file-directory) .."

  /** The entry of `d` inside `parentDir`: a failed `stat` marks a broken symlink. */
  function MakeEntry(parentDir: Path, d: Dirent): (e: DirectoryEntry)
    ensures e.fullPath == Join(parentDir, d.name)
    ensures e.entryType == BrokenSymlink <==> d.stat.StatFailed?
    ensures e.entryType == Directory <==> d.stat == Stat(true)
    ensures e.itemLabel == TypeIcon(e.entryType) + " " + d.name
  {
    var t :=
      match d.stat
      case StatFailed => BrokenSymlink
      case Stat(isDirectory) => if isDirectory then Directory else File;
    DirectoryEntry(TypeIcon(t) + " " + d.name, Join(parentDir, d.name), t)
  }

  lemma IconsDiffer(t1: EntryType, t2: EntryType, n1: string, n2: string)
    requires t1 != t2
    ensures TypeIcon(t1) + " " + n1 != TypeIcon(t2) + " " + n2
  {
    var k := if t1 == BrokenSymlink || t2 == BrokenSymlink then 2 else 7;
    assert (TypeIcon(t1) + " " + n1)[k] != (TypeIcon(t2) + " " + n2)[k];
  }

  /** A label names its type and its name: the icons already differ within their first eight characters. */
  lemma LabelInjective(t1: EntryType, t2: EntryType, n1: string, n2: string)
    requires TypeIcon(t1) + " " + n1 == TypeIcon(t2) + " " + n2
    ensures t1 == t2 && n1 == n2
  {
    var l1, l2 := TypeIcon(t1) + " " + n1, TypeIcon(t2) + " " + n2;
    if t1 != t2 {
      IconsDiffer(t1, t2, n1, n2);
    }
    var prefix := TypeIcon(t1) + " ";
    assert l1 == prefix + n1 && l2 == prefix + n2;
    assert l1[|prefix|..] == n1;
    assert l2[|prefix|..] == n2;
  }

  /** Two entries with the same label have the same type and the same name. */
  lemma LabelDeterminesEntry(dir: Path, d1: Dirent, d2: Dirent)
    requires MakeEntry(dir, d1).itemLabel == MakeEntry(dir, d2).itemLabel
    ensures MakeEntry(dir, d1).entryType == MakeEntry(dir, d2).entryType
    ensures d1.name == d2.name
  {
    LabelInjective(MakeEntry(dir, d1).entryType, MakeEntry(dir, d2).entryType, d1.name, d2.name);
  }

  /** The synthetic `..` entry: a directory entry for the parent. */
  function ParentFor(dir: Path): (e: DirectoryEntry)
    ensures e.entryType == Directory && e.itemLabel == ParentLabel
    ensures dir == [] ==> e.fullPath == []
    ensures dir != [] ==> e.fullPath + [dir[|dir| - 1]] == dir
  {
    DirectoryEntry(ParentLabel, Dirname(dir), Directory)
  }

  /** No listed name gets the `..` label: `readdir` never returns `..`. */
  lemma ParentLabelIsUnique(dir: Path, d: Dirent)
    requires ValidName(d.name)
    ensures MakeEntry(dir, d).itemLabel != ParentLabel
  {
    var e := MakeEntry(dir, d);
    if e.itemLabel == ParentLabel {
      LabelInjective(e.entryType, Directory, d.name, "..");
    }
  }

  // ---------------------------------------------------------------------------
  // Ordering

  predicate IsDir(e: DirectoryEntry) {
    e.entryType == Directory
  }

  /** Directories before everything else; within one class, by label. */
  function CmpEntries(e1: DirectoryEntry, e2: DirectoryEntry, lc: LabelOrder): (r: int)
    ensures IsDir(e1) && !IsDir(e2) ==> r < 0
    ensures IsDir(e2) && !IsDir(e1) ==> r > 0
    ensures IsDir(e1) == IsDir(e2) ==> r == lc(e1.itemLabel, e2.itemLabel)
  {
    if IsDir(e1) && !IsDir(e2) then -1
    else if IsDir(e2) && !IsDir(e1) then 1
    else lc(e1.itemLabel, e2.itemLabel)
  }

  function Sign(x: int): int {
    if x < 0 then -1 else if x > 0 then 1 else 0
  }

  /** An antisymmetric label order makes the entry order antisymmetric. */
  lemma CmpAntisymmetric(e1: DirectoryEntry, e2: DirectoryEntry, lc: LabelOrder)
    requires Sign(lc(e1.itemLabel, e2.itemLabel)) == -Sign(lc(e2.itemLabel, e1.itemLabel))
    ensures Sign(CmpEntries(e1, e2, lc)) == -Sign(CmpEntries(e2, e1, lc))
  {
  }

  /** A transitive label order makes the entry order transitive. */
  lemma CmpTransitive(e1: DirectoryEntry, e2: DirectoryEntry, e3: DirectoryEntry, lc: LabelOrder)
    requires lc(e1.itemLabel, e2.itemLabel) <= 0 && lc(e2.itemLabel, e3.itemLabel) <= 0 ==> lc(e1.itemLabel, e3.itemLabel) <= 0
    requires CmpEntries(e1, e2, lc) <= 0 && CmpEntries(e2, e3, lc) <= 0
    ensures CmpEntries(e1, e3, lc) <= 0
  {
  }

  /** No directory comes after a non-directory. */
  predicate DirsFirst(s: seq<DirectoryEntry>) {
    forall i, j | 0 <= i < j < |s| :: IsDir(s[j]) ==> IsDir(s[i])
  }

  predicate Sorted(s: seq<DirectoryEntry>, lc: LabelOrder) {
    forall i | 0 < i < |s| :: CmpEntries(s[i - 1], s[i], lc) <= 0
  }

  /** `e` placed before the first element it does not sort after. */
  function Insert(e: DirectoryEntry, xs: seq<DirectoryEntry>, lc: LabelOrder): (r: seq<DirectoryEntry>)
    ensures multiset(r) == multiset(xs) + multiset{e}
    ensures |r| == |xs| + 1 && (r[0] == e || (xs != [] && r[0] == xs[0]))
    decreases |xs|
  {
    if xs == [] then [e]
    else if CmpEntries(e, xs[0], lc) <= 0 then
      [e] + xs
    else
      assert xs == [xs[0]] + xs[1..];
      [xs[0]] + Insert(e, xs[1..], lc)
  }

  /** Inserting keeps directories first: a directory stops before the first non-directory, a non-directory passes every directory. */
  lemma {:induction false} InsertDirsFirst(e: DirectoryEntry, xs: seq<DirectoryEntry>, lc: LabelOrder)
    requires DirsFirst(xs)
    ensures DirsFirst(Insert(e, xs, lc))
    decreases |xs|
  {
    if xs != [] && CmpEntries(e, xs[0], lc) > 0 {
      InsertDirsFirst(e, xs[1..], lc);
      var rest := Insert(e, xs[1..], lc);
      var r := [xs[0]] + rest;
      assert IsDir(e) ==> IsDir(xs[0]);
      forall i, j | 0 <= i < j < |r| && IsDir(r[j])
        ensures IsDir(r[i])
      {
        if i == 0 {
          assert r[j] in multiset(rest);
          assert r[j] == e || r[j] in multiset(xs[1..]);
          if r[j] != e {
            var k :| 0 <= k < |xs[1..]| && xs[1..][k] == r[j];
            assert xs[k + 1] == r[j];
          }
        }
      }
    }
  }

  /** `Array.prototype.sort(cmpEntries)`, stable. */
  function SortEntries(es: seq<DirectoryEntry>, lc: LabelOrder): (r: seq<DirectoryEntry>)
    ensures multiset(r) == multiset(es)
    ensures DirsFirst(r)
    decreases |es|
  {
    if es == [] then []
    else
      assert es == [es[0]] + es[1..];
      InsertDirsFirst(es[0], SortEntries(es[1..], lc), lc);
      Insert(es[0], SortEntries(es[1..], lc), lc)
  }

  /** The label order needs only to rank every two labels one way or the other. */
  predicate Connex(lc: LabelOrder, labels: set<string>) {
    forall a, b | a in labels && b in labels :: lc(a, b) <= 0 || lc(b, a) <= 0
  }

  function Labels(es: seq<DirectoryEntry>): set<string> {
    set i | 0 <= i < |es| :: es[i].itemLabel
  }

  lemma {:induction false} InsertSorted(e: DirectoryEntry, xs: seq<DirectoryEntry>, lc: LabelOrder, labels: set<string>)
    requires Sorted(xs, lc) && Connex(lc, labels)
    requires e.itemLabel in labels && Labels(xs) <= labels
    ensures Sorted(Insert(e, xs, lc), lc)
    decreases |xs|
  {
    if xs != [] && CmpEntries(e, xs[0], lc) > 0 {
      assert xs[0].itemLabel in Labels(xs);
      assert CmpEntries(xs[0], e, lc) <= 0;
      assert Labels(xs[1..]) <= Labels(xs) by {
        forall l | l in Labels(xs[1..]) ensures l in Labels(xs) {
          var i :| 0 <= i < |xs[1..]| && xs[1..][i].itemLabel == l;
          assert xs[i + 1].itemLabel == l;
        }
      }
      InsertSorted(e, xs[1..], lc, labels);
      var rest := Insert(e, xs[1..], lc);
      assert rest[0] == e || (|xs| > 1 && rest[0] == xs[1]);
    }
  }

  /** With a connex label order the sorted entries are ordered pairwise along the list. */
  lemma {:induction false} SortEntriesSorted(es: seq<DirectoryEntry>, lc: LabelOrder)
    requires Connex(lc, Labels(es))
    ensures Sorted(SortEntries(es, lc), lc)
    decreases |es|
  {
    if es != [] {
      assert Labels(es[1..]) <= Labels(es) by {
        forall l | l in Labels(es[1..]) ensures l in Labels(es) {
          var i :| 0 <= i < |es[1..]| && es[1..][i].itemLabel == l;
          assert es[i + 1].itemLabel == l;
        }
      }
      assert Connex(lc, Labels(es[1..]));
      SortEntriesSorted(es[1..], lc);
      var sorted := SortEntries(es[1..], lc);
      assert Labels(sorted) <= Labels(es) by {
        forall l | l in Labels(sorted) ensures l in Labels(es) {
          var i :| 0 <= i < |sorted| && sorted[i].itemLabel == l;
          assert sorted[i] in multiset(es[1..]);
          var j :| 0 <= j < |es[1..]| && es[1..][j] == sorted[i];
          assert es[j + 1].itemLabel == l;
        }
      }
      assert es[0].itemLabel in Labels(es);
      InsertSorted(es[0], sorted, lc, Labels(es));
    }
  }

  // ---------------------------------------------------------------------------
  // Listing

  function MakeEntries(dir: Path, dirents: seq<Dirent>): (es: seq<DirectoryEntry>)
    ensures |es| == |dirents|
    ensures forall i | 0 <= i < |dirents| :: es[i] == MakeEntry(dir, dirents[i])
  {
    seq(|dirents|, i requires 0 <= i < |dirents| => MakeEntry(dir, dirents[i]))
  }

  /** The sorted entries of `dir`, after a `..` entry unless `dir` is the root. */
  function ListFiles(dir: Path, dirents: seq<Dirent>, lc: LabelOrder): (r: seq<DirectoryEntry>)
    ensures |r| == |dirents| + (if dir == [] then 0 else 1)
    ensures dir != [] ==> r[0] == ParentFor(dir)
    ensures multiset(if dir == [] then r else r[1..]) == multiset(MakeEntries(dir, dirents))
    ensures DirsFirst(r)
  {
    var items := SortEntries(MakeEntries(dir, dirents), lc);
    assert |items| == |multiset(items)|;
    if dir != [] then
      var r := [ParentFor(dir)] + items;
      assert r[1..] == items;
      r
    else items
  }

  /** Listed names are valid, so exactly the first entry of a non-root listing carries the `..` label. */
  lemma ListingParentEntry(dir: Path, dirents: seq<Dirent>, lc: LabelOrder, i: nat)
    requires forall k | 0 <= k < |dirents| :: ValidName(dirents[k].name)
    requires i < |ListFiles(dir, dirents, lc)|
    ensures ListFiles(dir, dirents, lc)[i].itemLabel == ParentLabel <==> dir != [] && i == 0
  {
    var r := ListFiles(dir, dirents, lc);
    var items := if dir == [] then r else r[1..];
    var es := MakeEntries(dir, dirents);
    if dir == [] || i > 0 {
      var e := if dir == [] then r[i] else r[i];
      assert e in multiset(items) by {
        if dir != [] { assert items[i - 1] == e; }
      }
      assert e in multiset(es);
      var k :| 0 <= k < |es| && es[k] == e;
      ParentLabelIsUnique(dir, dirents[k]);
    }
  }

  /** Under a connex label order the entries after `..` are sorted as well. */
  lemma ListingSorted(dir: Path, dirents: seq<Dirent>, lc: LabelOrder)
    requires Connex(lc, Labels(MakeEntries(dir, dirents)))
    ensures var r := ListFiles(dir, dirents, lc);
            Sorted(if dir == [] then r else r[1..], lc)
  {
    SortEntriesSorted(MakeEntries(dir, dirents), lc);
    var r := ListFiles(dir, dirents, lc);
    if dir != [] {
      assert r[1..] == SortEntries(MakeEntries(dir, dirents), lc);
    }
  }

  // ---------------------------------------------------------------------------
  // Navigation

  /** The picker's current directory (its title) and the typed value. */
  datatype Picker = Picker(dir: Path, value: string)

  /** `changeToDirectory`: the title becomes `dir`; the value stays. */
  function ChangeToDirectory(p: Picker, dir: Path): Picker {
    p.(dir := dir)
  }

  function ClearValue(p: Picker): Picker {
    p.(value := "")
  }

  /** Up one directory, keeping the typed value; nothing above the root. */
  function GoToParent(p: Picker): (q: Picker)
    ensures q.value == p.value
    ensures p.dir == [] ==> q == p
    ensures p.dir != [] ==> q.dir + [p.dir[|p.dir| - 1]] == p.dir
  {
    if p.dir == [] then p else ChangeToDirectory(p, Dirname(p.dir))
  }

  /** Going up from a child directory returns to the directory. */
  lemma GoToParentOfChild(dir: Path, name: string, value: string)
    requires ValidName(name)
    ensures GoToParent(Picker(Join(dir, name), value)) == Picker(dir, value)
  {
    JoinName(dir, name);
  }

  /** Going up `n` times. */
  function GoUp(p: Picker, n: nat): Picker
    decreases n
  {
    if n == 0 then p else GoUp(GoToParent(p), n - 1)
  }

  /** As many steps up as the path is deep reach the root, and the root is a fixed point. */
  lemma {:induction false} GoUpReachesRoot(p: Picker, n: nat)
    requires n >= |p.dir|
    ensures GoUp(p, n) == Picker([], p.value)
    decreases n
  {
    if n > 0 {
      GoUpReachesRoot(GoToParent(p), n - 1);
    }
  }

  /**
   A typed `~` (while HOME is set) or `/` clears the value and switches
   directory, answering true; any other value changes nothing and answers
   false. `home` is None when HOME is unset or empty.
   */
  function MaybeChangeTo(p: Picker, where: string, home: Option<Path>): (r: (Picker, bool))
    ensures r.1 <==> (where == "~" && home.Some?) || where == "/"
    ensures !r.1 ==> r.0 == p
    ensures r.1 ==> r.0.value == ""
    ensures where == "/" ==> r.0.dir == []
    ensures where == "~" && home.Some? ==> r.0.dir == home.value
  {
    if where == "~" && home.Some? then
      (ChangeToDirectory(ClearValue(p), home.value), true)
    else if where == "/" then
      (ChangeToDirectory(ClearValue(p), []), true)
    else
      (p, false)
  }

  /** The handler sees the picker's own value; after a switch that value is empty, so the next call does nothing. */
  lemma MaybeChangeToSettles(p: Picker, where: string, home: Option<Path>)
    requires p.value == where
    ensures var q := MaybeChangeTo(p, where, home).0;
            MaybeChangeTo(q, q.value, home) == (q, false)
  {
  }

  /** The path the typed value names relative to the current directory; none for an empty value. */
  function PathFromCurrentValue(p: Picker): (r: Option<Path>)
    ensures r.None? <==> p.value == ""
    ensures r.Some? && ValidPath(p.dir) ==> ValidPath(r.value)
  {
    if p.value != "" then Some(Join(p.dir, p.value)) else None
  }

  /** A plain name lands in the current directory, and its dirname is that directory. */
  lemma PathFromPlainName(p: Picker)
    requires ValidName(p.value)
    ensures PathFromCurrentValue(p) == Some(p.dir + [p.value])
    ensures Dirname(PathFromCurrentValue(p).value) == p.dir
  {
    JoinName(p.dir, p.value);
  }

  /** A value written as an absolute path still joins below the current directory, as `path.join` does. */
  lemma PathFromAbsoluteValue(p: Picker, q: Path)
    requires ValidPath(q)
    ensures PathFromCurrentValue(p.(value := Format(q))) == Some(p.dir + q)
  {
    var v := Format(q);
    if q == [] {
      SegmentsOfJoin(["", ""]);
      assert JoinSlash(["", ""]) == "/";
      assert ["", ""][..1] == [""];
      assert Resolve(p.dir, [""]) == p.dir;
      assert p.dir + q == p.dir;
    } else {
      assert v == JoinSlash([""] + q) by {
        assert ([""] + q)[1..] == q;
      }
      SegmentsOfJoin([""] + q);
      ResolveAppend(p.dir, [""], q);
      ResolveNames(p.dir, q);
    }
  }
}
