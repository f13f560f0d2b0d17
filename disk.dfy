/**
 * The part of the host filesystem the server looks at, as a finite value: a map
 * from path strings to entries. It stands for what the JDK's `Files` and `Path`
 * calls report about those paths.
 */
module Disk {
  import opened Lang

  /** One name inside a directory: never empty, never containing the separator. */
  type Name = s: string | s != [] && '/' !in s witness "a"

  /** A point on the time line, kept opaque. */
  datatype Instant = Instant(epochNanos: int)

  /** A file timestamp as the attribute read reports it; `instant` is its `toInstant()`. */
  datatype FileTime = FileTime(instant: Instant)

  /**
   * What a path resolves to, links followed. A directory lists the names it
   * holds, in the order the platform returns them.
   */
  datatype Kind =
    | Directory(children: seq<Name>, size: nat)
    | RegularFile(bytes: seq<Byte>)
    | Other(size: nat)

  /**
   * One existing path. `isLink` says the path itself is a symbolic link (whose
   * target `kind` describes); `hidden` is None when the platform's hidden check
   * throws an IOException.
   */
  datatype Entry = Entry(
    kind: Kind,
    isLink: bool,
    hidden: Option<bool>,
    readable: bool,
    writable: bool,
    executable: bool,
    lastModified: Option<FileTime>,
    creationTime: Option<FileTime>)
  {
    /** The size the basic attribute read reports. */
    function Size(): (n: nat)
      ensures kind.RegularFile? ==> n == |kind.bytes|
    {
      match kind
      case Directory(_, n) => n
      case RegularFile(b) => |b|
      case Other(n) => n
    }

    /** A tree walk that does not follow links enters this entry. */
    predicate Descends() {
      kind.Directory? && !isLink
    }
  }

  /** The filesystem: a path absent from the map does not exist. */
  type Tree = map<string, Entry>

  /** `Files.isDirectory(path)`. */
  predicate IsDirectory(fs: Tree, p: string) {
    p in fs && fs[p].kind.Directory?
  }

  /** `Files.isRegularFile(path)`. */
  predicate IsRegularFile(fs: Tree, p: string) {
    p in fs && fs[p].kind.RegularFile?
  }

  /** `Files.isReadable(path)`. */
  predicate IsReadable(fs: Tree, p: string) {
    p in fs && fs[p].readable
  }

  /** A path string in the form `Path.toString()` gives: no doubled separator, no trailing one except for the root. */
  predicate Normalized(q: string) {
    (forall i :: 0 <= i < |q| - 1 ==> !(q[i] == '/' && q[i + 1] == '/'))
    && (|q| > 1 ==> q[|q| - 1] != '/')
  }

  /** Runs of separators shrunk to one. */
  function CollapseSeparators(p: string): (r: string)
    ensures p != [] ==> r != [] && r[0] == p[0] && r[|r| - 1] == p[|p| - 1]
    ensures forall i :: 0 <= i < |r| - 1 ==> !(r[i] == '/' && r[i + 1] == '/')
    ensures (forall i :: 0 <= i < |p| - 1 ==> !(p[i] == '/' && p[i + 1] == '/')) ==> r == p
  {
    if |p| < 2 then p
    else if p[0] == '/' && p[1] == '/' then CollapseSeparators(p[1..])
    else [p[0]] + CollapseSeparators(p[1..])
  }

  /**
   * `Paths.get(p).toString()` on a Unix file system: doubled separators are
   * collapsed and a trailing separator dropped, so "/tmp//a/" becomes "/tmp/a".
   */
  function PathString(p: string): (q: string)
    ensures Normalized(q)
    ensures Normalized(p) ==> q == p
    ensures q == [] <==> p == []
  {
    var c := CollapseSeparators(p);
    if |c| > 1 && c[|c| - 1] == '/' then c[..|c| - 1] else c
  }

  /** `dir.resolve(name).toString()`: the path of a directory's entry. */
  function Child(dir: string, name: Name): (c: string)
    ensures |c| > |dir|
    ensures dir <= c
    ensures Normalized(dir) ==> Normalized(c)
    ensures c[|c| - 1] == name[|name| - 1] && c[|c| - 1] != '/'
  {
    if dir == [] then name
    else if dir[|dir| - 1] == '/' then dir + name
    else dir + "/" + name
  }

  /** The text after the last separator. */
  function LastSegment(p: string): (r: string)
    ensures '/' !in r
    ensures |r| <= |p|
  {
    if p == [] || p[|p| - 1] == '/' then []
    else LastSegment(p[..|p| - 1]) + [p[|p| - 1]]
  }

  /**
   * `path.getFileName()` as a string, None where the JDK returns null: a path
   * that ends in the separator is a root (such as "/"), which has no name.
   */
  function FileName(p: string): (r: Option<string>)
    ensures r.None? <==> p != [] && p[|p| - 1] == '/'
    ensures r.Some? ==> '/' !in r.value
  {
    if p != [] && p[|p| - 1] == '/' then None else Some(LastSegment(p))
  }

  lemma {:induction false} LastSegmentAfterSeparator(a: string, n: string)
    requires a == [] || a[|a| - 1] == '/'
    requires '/' !in n
    ensures LastSegment(a + n) == n
    decreases |n|
  {
    if n == [] {
      assert a + n == a;
    } else {
      var k := |n| - 1;
      assert (a + n)[..|a + n| - 1] == a + n[..k];
      LastSegmentAfterSeparator(a, n[..k]);
      assert n == n[..k] + [n[k]];
    }
  }

  /** The name of an entry's path is the name it has in its directory. */
  lemma FileNameOfChild(dir: string, name: Name)
    ensures FileName(Child(dir, name)) == Some(name)
  {
    var c := Child(dir, name);
    if dir == [] {
      LastSegmentAfterSeparator([], name);
      assert [] + name == name;
    } else if dir[|dir| - 1] == '/' {
      LastSegmentAfterSeparator(dir, name);
    } else {
      LastSegmentAfterSeparator(dir + "/", name);
      assert dir + "/" + name == (dir + "/") + name;
    }
    assert c[|c| - 1] == name[|name| - 1];
  }

  /** `Files.list(dir)`: the paths of a directory's entries, in listing order. */
  function ListPaths(fs: Tree, dir: string): (r: seq<string>)
    requires IsDirectory(fs, dir)
    ensures |r| == |fs[dir].kind.children|
    ensures forall i :: 0 <= i < |r| ==> r[i] == Child(dir, fs[dir].kind.children[i])
  {
    var names := fs[dir].kind.children;
    seq(|names|, i requires 0 <= i < |names| => Child(dir, names[i]))
  }

  /** The existing paths longer than `p`: shrinks on every step down the tree. */
  function Longer(fs: Tree, p: string): set<string> {
    set k | k in fs && |k| > |p|
  }

  lemma LongerShrinks(fs: Tree, p: string, c: string)
    requires c in fs && |c| > |p|
    ensures |Longer(fs, c)| < |Longer(fs, p)|
  {
    var big, small := Longer(fs, p), Longer(fs, c);
    assert small <= big;
    assert c in big - small;
    assert big == small + (big - small);
    assert |big| == |small| + |big - small|;
  }

  /** Every path of `r` lies strictly below `dir`, names an entry, and is normalized when `dir` is. */
  predicate AllBelow(dir: string, r: seq<string>) {
    && (forall i :: 0 <= i < |r| ==> |r[i]| > |dir| && dir <= r[i])
    && (Normalized(dir) ==> forall i :: 0 <= i < |r| ==> Normalized(r[i]))
    && (forall i :: 0 <= i < |r| ==> FileName(r[i]).Some?)
  }

  /** One step of the walk keeps every path below the directory walked. */
  lemma AllBelowStep(dir: string, c: string, below: seq<string>, rest: seq<string>)
    requires |c| > |dir| && dir <= c && (Normalized(dir) ==> Normalized(c)) && FileName(c).Some?
    requires AllBelow(c, below) && AllBelow(dir, rest)
    ensures AllBelow(dir, [c] + below + rest)
  {
    var r := [c] + below + rest;
    forall i | 0 <= i < |r|
      ensures |r[i]| > |dir| && dir <= r[i] && (Normalized(dir) ==> Normalized(r[i])) && FileName(r[i]).Some?
    {
      if i == 0 {
        assert r[i] == c;
      } else if i <= |below| {
        assert r[i] == below[i - 1];
      } else {
        assert r[i] == rest[i - 1 - |below|];
      }
    }
  }

  /**
   * The pre-order walk below `dir` over the entries `names` of that directory:
   * every entry's path, each followed by the walk below it when the walk enters it.
   */
  function WalkBelow(fs: Tree, dir: string, names: seq<Name>): (r: seq<string>)
    ensures forall i :: 0 <= i < |r| ==> |r[i]| > |dir| && dir <= r[i]
    ensures Normalized(dir) ==> forall i :: 0 <= i < |r| ==> Normalized(r[i])
    ensures forall i :: 0 <= i < |r| ==> FileName(r[i]).Some?
    ensures forall j :: 0 <= j < |names| ==> Child(dir, names[j]) in r
    decreases |Longer(fs, dir)|, |names|
  {
    if names == [] then []
    else
      var c := Child(dir, names[0]);
      var below :=
        if c in fs && fs[c].Descends() then
          LongerShrinks(fs, dir, c);
          WalkBelow(fs, c, fs[c].kind.children)
        else [];
      var rest := WalkBelow(fs, dir, names[1..]);
      AllBelowStep(dir, c, below, rest);
      assert forall j :: 1 <= j < |names| ==> names[j] == names[1..][j - 1];
      [c] + below + rest
  }

  /**
   * `Files.walk(root)` without FOLLOW_LINKS: the root first, then, when the root
   * itself is a directory and not a link, everything below it.
   */
  function WalkPaths(fs: Tree, root: string): (r: seq<string>)
    ensures |r| > 0 && r[0] == root
    ensures forall i :: 0 <= i < |r| ==> root <= r[i]
    ensures Normalized(root) ==> forall i :: 0 <= i < |r| ==> Normalized(r[i])
  {
    [root] + if root in fs && fs[root].Descends() then WalkBelow(fs, root, fs[root].kind.children) else []
  }

  /** An entry the walk does not enter contributes its own path alone. */
  lemma WalkBelowLeaf(fs: Tree, dir: string, n: Name, rest: seq<Name>)
    requires !(Child(dir, n) in fs && fs[Child(dir, n)].Descends())
    ensures WalkBelow(fs, dir, [n] + rest) == [Child(dir, n)] + WalkBelow(fs, dir, rest)
  {
    assert ([n] + rest)[1..] == rest;
  }

  /** An entry the walk enters is followed by everything below it, before its later siblings. */
  lemma WalkBelowEnter(fs: Tree, dir: string, n: Name, rest: seq<Name>)
    requires Child(dir, n) in fs && fs[Child(dir, n)].Descends()
    ensures var c := Child(dir, n);
      WalkBelow(fs, dir, [n] + rest) == [c] + WalkBelow(fs, c, fs[c].kind.children) + WalkBelow(fs, dir, rest)
  {
    assert ([n] + rest)[1..] == rest;
  }

  /** A subdirectory holding one file is walked as itself, then that file. */
  lemma WalkOneSubdirectory(fs: Tree, q: string, s: Name, f: Name)
    requires Child(q, s) in fs && fs[Child(q, s)].Descends() && fs[Child(q, s)].kind.children == [f]
    requires IsRegularFile(fs, Child(Child(q, s), f))
    ensures WalkBelow(fs, q, [s]) == [Child(q, s), Child(Child(q, s), f)]
  {
    var cs := Child(q, s);
    WalkBelowLeaf(fs, cs, f, []);
    assert [f] + [] == [f];
    WalkBelowEnter(fs, q, s, []);
    assert [s] + [] == [s];
  }

  /** Two files before the rest of a directory come first, in order. */
  lemma WalkTwoFiles(fs: Tree, q: string, a: Name, b: Name, s: Name)
    requires IsRegularFile(fs, Child(q, a)) && IsRegularFile(fs, Child(q, b))
    ensures WalkBelow(fs, q, [a, b, s]) == [Child(q, a), Child(q, b)] + WalkBelow(fs, q, [s])
  {
    WalkBelowLeaf(fs, q, b, [s]);
    assert [b] + [s] == [b, s];
    WalkBelowLeaf(fs, q, a, [b, s]);
    assert [a] + [b, s] == [a, b, s];
  }

  /** A directory holding two files and a subdirectory with one file is walked in pre-order. */
  lemma WalkSample(fs: Tree, q: string, a: Name, b: Name, s: Name, f: Name)
    requires q in fs && fs[q].Descends() && fs[q].kind.children == [a, b, s]
    requires IsRegularFile(fs, Child(q, a)) && IsRegularFile(fs, Child(q, b))
    requires Child(q, s) in fs && fs[Child(q, s)].Descends() && fs[Child(q, s)].kind.children == [f]
    requires IsRegularFile(fs, Child(Child(q, s), f))
    ensures WalkPaths(fs, q) == [q, Child(q, a), Child(q, b), Child(q, s), Child(Child(q, s), f)]
  {
    WalkOneSubdirectory(fs, q, s, f);
    WalkTwoFiles(fs, q, a, b, s);
  }

  /** `p` is one of the entries of the directory `q`. */
  predicate EntryOf(fs: Tree, q: string, p: string) {
    q in fs && fs[q].kind.Directory? && exists m :: m in fs[q].kind.children && p == Child(q, m)
  }

  /** The walk below a directory reaches the entries of every directory it enters. */
  lemma {:induction false} WalkBelowClosed(fs: Tree, dir: string, names: seq<Name>, p: string, m: Name)
    requires p in WalkBelow(fs, dir, names)
    requires p in fs && fs[p].Descends() && m in fs[p].kind.children
    ensures Child(p, m) in WalkBelow(fs, dir, names)
    decreases |Longer(fs, dir)|, |names|
  {
    var c := Child(dir, names[0]);
    var tail := WalkBelow(fs, dir, names[1..]);
    if c in fs && fs[c].Descends() {
      LongerShrinks(fs, dir, c);
      var below := WalkBelow(fs, c, fs[c].kind.children);
      WalkBelowEntered(fs, dir, names);
      if p == c {
        var j :| 0 <= j < |fs[c].kind.children| && fs[c].kind.children[j] == m;
        assert Child(c, fs[c].kind.children[j]) in below;
      } else if p in below {
        WalkBelowClosed(fs, c, fs[c].kind.children, p, m);
      } else {
        WalkBelowClosed(fs, dir, names[1..], p, m);
      }
    } else {
      WalkBelowSkipped(fs, dir, names);
      WalkBelowClosed(fs, dir, names[1..], p, m);
    }
  }

  /** What the walk reports when it enters its first entry: that entry, everything below it, the rest. */
  lemma WalkBelowEntered(fs: Tree, dir: string, names: seq<Name>)
    requires names != [] && Child(dir, names[0]) in fs && fs[Child(dir, names[0])].Descends()
    ensures var c := Child(dir, names[0]);
      forall x :: x in WalkBelow(fs, dir, names) <==>
        x == c || x in WalkBelow(fs, c, fs[c].kind.children) || x in WalkBelow(fs, dir, names[1..])
  {
    var c := Child(dir, names[0]);
    assert WalkBelow(fs, dir, names) == [c] + WalkBelow(fs, c, fs[c].kind.children) + WalkBelow(fs, dir, names[1..]);
  }

  /** What the walk reports when it does not enter its first entry: that entry, then the rest. */
  lemma WalkBelowSkipped(fs: Tree, dir: string, names: seq<Name>)
    requires names != [] && !(Child(dir, names[0]) in fs && fs[Child(dir, names[0])].Descends())
    ensures forall x :: x in WalkBelow(fs, dir, names) <==> x == Child(dir, names[0]) || x in WalkBelow(fs, dir, names[1..])
  {
    var c := Child(dir, names[0]);
    var tail := WalkBelow(fs, dir, names[1..]);
    assert WalkBelow(fs, dir, names) == [c] + [] + tail;
    assert [c] + [] + tail == [c] + tail;
  }

  /**
   * Everything the walk below a directory reports is one of the names it started
   * from, or an entry of a directory the walk entered.
   */
  lemma {:induction false} WalkBelowParent(fs: Tree, dir: string, names: seq<Name>, p: string)
    requires p in WalkBelow(fs, dir, names)
    ensures (exists m :: m in names && p == Child(dir, m))
      || (exists q :: q in WalkBelow(fs, dir, names) && q in fs && fs[q].Descends() && EntryOf(fs, q, p))
    decreases |Longer(fs, dir)|, |names|
  {
    var r := WalkBelow(fs, dir, names);
    var c := Child(dir, names[0]);
    var tail := WalkBelow(fs, dir, names[1..]);
    if p == c {
      assert names[0] in names;
    } else if c in fs && fs[c].Descends() && p in WalkBelow(fs, c, fs[c].kind.children) {
      LongerShrinks(fs, dir, c);
      var below := WalkBelow(fs, c, fs[c].kind.children);
      assert r == [c] + below + tail;
      WalkBelowParent(fs, c, fs[c].kind.children, p);
      if exists m :: m in fs[c].kind.children && p == Child(c, m) {
        assert EntryOf(fs, c, p);
        assert c in r;
      } else {
        var q :| q in below && q in fs && fs[q].Descends() && EntryOf(fs, q, p);
        assert q in r;
      }
    } else {
      var below := if c in fs && fs[c].Descends() then WalkBelow(fs, c, fs[c].kind.children) else [];
      assert r == [c] + below + tail;
      assert p in tail;
      WalkBelowParent(fs, dir, names[1..], p);
      if exists m :: m in names[1..] && p == Child(dir, m) {
        var m :| m in names[1..] && p == Child(dir, m);
        assert m in names;
      } else {
        var q :| q in tail && q in fs && fs[q].Descends() && EntryOf(fs, q, p);
        assert q in r;
      }
    }
  }

  /** Whenever the walk reports a directory it enters, it reports that directory's entries too. */
  lemma WalkPathsClosed(fs: Tree, root: string, p: string, m: Name)
    requires p in WalkPaths(fs, root)
    requires p in fs && fs[p].Descends() && m in fs[p].kind.children
    ensures Child(p, m) in WalkPaths(fs, root)
  {
    var kids := fs[root].kind.children;
    if p == root {
      var j :| 0 <= j < |kids| && kids[j] == m;
      assert Child(root, kids[j]) in WalkBelow(fs, root, kids);
    } else {
      WalkBelowClosed(fs, root, kids, p, m);
    }
  }

  /**
   * The walk reports nothing but the root and the entries of directories it
   * entered, so with the previous lemma it is exactly the tree below the root.
   */
  lemma WalkPathsParent(fs: Tree, root: string, p: string)
    requires p in WalkPaths(fs, root)
    ensures p == root || exists q :: q in WalkPaths(fs, root) && q in fs && fs[q].Descends() && EntryOf(fs, q, p)
  {
    if p != root {
      var kids := fs[root].kind.children;
      var below := WalkBelow(fs, root, kids);
      assert WalkPaths(fs, root) == [root] + below;
      WalkBelowParent(fs, root, kids, p);
      if exists m :: m in kids && p == Child(root, m) {
        assert EntryOf(fs, root, p);
      } else {
        var q :| q in below && q in fs && fs[q].Descends() && EntryOf(fs, q, p);
        assert q in WalkPaths(fs, root);
      }
    }
  }

  /** A walk started at a link, or at anything but a directory, reports the start alone. */
  lemma WalkOfLeaf(fs: Tree, root: string)
    requires root !in fs || !fs[root].Descends()
    ensures WalkPaths(fs, root) == [root]
  {
  }
}
