/** Directory trees and the two worklist walks over them: the bulk copy and the latest modification time. */
module TreeWalk {
  import opened Text

  /** `Special`: a symbolic link or a device, which is not followed. */
  datatype Node = File(content: string, mtime: int) | Special(mtime: int) | Dir(entries: seq<Entry>)

  datatype Entry = Entry(name: string, node: Node)

  type Path = seq<string>

  /** Names are unique within a directory. */
  ghost predicate WellFormed(n: Node) {
    n.Dir? ==>
      && (forall i :: 0 <= i < |n.entries| ==> WellFormed(n.entries[i].node))
      && (forall i, j :: 0 <= i < j < |n.entries| ==> n.entries[i].name != n.entries[j].name)
  }

  function Child(entries: seq<Entry>, name: string): (r: Option<Node>)
    ensures r.Some? ==> exists i :: 0 <= i < |entries| && entries[i].name == name && entries[i].node == r.value
  {
    if entries == [] then None
    else if entries[0].name == name then Some(entries[0].node)
    else Child(entries[1..], name)
  }

  /** The node a path leads to. */
  function Find(n: Node, q: Path): (r: Option<Node>)
    decreases |q|
  {
    if q == [] then Some(n)
    else if !n.Dir? then None
    else
      var child :- Child(n.entries, q[0]);
      Find(child, q[1..])
  }

  function Size(n: Node): (k: nat)
    ensures k >= 1
  {
    if n.Dir? then 1 + SizeOf(n.entries) else 1
  }

  function SizeOf(entries: seq<Entry>): (k: nat) {
    if entries == [] then 0 else Size(entries[0].node) + SizeOf(entries[1..])
  }

  // ---------- Paths ----------

  lemma {:induction false} ChildIs(entries: seq<Entry>, i: nat)
    requires i < |entries| && forall i, j :: 0 <= i < j < |entries| ==> entries[i].name != entries[j].name
    ensures Child(entries, entries[i].name) == Some(entries[i].node)
  {
    if i > 0 {
      assert entries[1..][i - 1] == entries[i];
      ChildIs(entries[1..], i - 1);
    }
  }

  lemma {:induction false} FindJoin(n: Node, d: Path, q: Path)
    requires Find(n, d).Some?
    ensures Find(n, d + q) == Find(Find(n, d).value, q)
    decreases |d|
  {
    if d == [] {
      assert d + q == q;
    } else {
      assert (d + q)[1..] == d[1..] + q;
      FindJoin(Child(n.entries, d[0]).value, d[1..], q);
    }
  }

  lemma {:induction false} FoundIsWellFormed(n: Node, d: Path)
    requires WellFormed(n) && Find(n, d).Some?
    ensures WellFormed(Find(n, d).value)
    decreases |d|
  {
    if d != [] {
      FoundIsWellFormed(Child(n.entries, d[0]).value, d[1..]);
    }
  }

  ghost predicate IsDirAt(tree: Node, d: Path) { Find(tree, d).Some? && Find(tree, d).value.Dir? }

  function EntriesAt(tree: Node, d: Path): (es: seq<Entry>)
    requires IsDirAt(tree, d)
  {
    Find(tree, d).value.entries
  }

  lemma EntryIsFound(tree: Node, d: Path, j: nat)
    requires WellFormed(tree) && IsDirAt(tree, d) && j < |EntriesAt(tree, d)|
    ensures var e := EntriesAt(tree, d)[j]; Find(tree, d + [e.name]) == Some(e.node)
  {
    hide WellFormed;
    var es := EntriesAt(tree, d);
    FoundIsWellFormed(tree, d);
    assert forall i, j :: 0 <= i < j < |es| ==> es[i].name != es[j].name by { NamesAreUnique(Find(tree, d).value); }
    ChildIs(es, j);
    FindJoin(tree, d, [es[j].name]);
    assert [es[j].name][1..] == [];
  }

  lemma NamesAreUnique(n: Node)
    requires WellFormed(n) && n.Dir?
    ensures forall i, j :: 0 <= i < j < |n.entries| ==> n.entries[i].name != n.entries[j].name
  {
  }

  /** What lies below a path lies below one of its entries; below a file or link there is nothing. */
  lemma BelowIsInAnEntry(tree: Node, d: Path, q: Path)
    requires Find(tree, d).Some? && d < q && Find(tree, q).Some?
    ensures IsDirAt(tree, d)
    ensures exists j :: 0 <= j < |EntriesAt(tree, d)| && d + [EntriesAt(tree, d)[j].name] <= q
  {
    var rest := q[|d|..];
    assert q == d + rest;
    FindJoin(tree, d, rest);
    var es := EntriesAt(tree, d);
    assert Child(es, rest[0]).Some?;
    var j :| 0 <= j < |es| && es[j].name == rest[0];
    assert d + [es[j].name] <= q;
  }

  // ---------- The worklist ----------

  ghost predicate DirsOn(tree: Node, stack: seq<Path>) { forall k :: 0 <= k < |stack| ==> IsDirAt(tree, stack[k]) }

  /** Something on the stack will lead to `q`. */
  ghost predicate Awaits(stack: seq<Path>, q: Path) { exists k :: 0 <= k < |stack| && stack[k] < q }

  /** `q` is, or lies below, one of the entries from the `i`-th on. */
  ghost predicate Ahead(d: Path, es: seq<Entry>, i: nat, q: Path) {
    exists j :: i <= j < |es| && d + [es[j].name] <= q
  }

  /** Nothing of the tree is forgotten: it is done, or waits on the stack, or is ahead in this directory. */
  ghost predicate Covered(tree: Node, done: set<Path>, stack: seq<Path>, d: Path, es: seq<Entry>, i: nat) {
    forall q :: q != [] && Find(tree, q).Some? ==> q in done || Awaits(stack, q) || Ahead(d, es, i, q)
  }

  ghost function Work(tree: Node, stack: seq<Path>): (k: nat)
    requires DirsOn(tree, stack)
  {
    if stack == [] then 0 else Work(tree, stack[..|stack| - 1]) + Size(Find(tree, stack[|stack| - 1]).value)
  }

  lemma StartCovers(tree: Node)
    requires tree.Dir?
    ensures DirsOn(tree, [[]]) && Covered(tree, {}, [[]], [], [], 0)
  {
    assert IsDirAt(tree, []);
    var stack: seq<Path> := [[]];
    forall q: Path | q != []
      ensures Awaits(stack, q)
    {
      assert stack[0] < q;
    }
  }

  /** Taking a directory off the stack puts its entries ahead. */
  lemma PopCovers(tree: Node, done: set<Path>, stack: seq<Path>)
    requires stack != [] && DirsOn(tree, stack) && Covered(tree, done, stack, [], [], 0)
    ensures var n := |stack| - 1;
            && DirsOn(tree, stack[..n]) && IsDirAt(tree, stack[n])
            && Covered(tree, done, stack[..n], stack[n], EntriesAt(tree, stack[n]), 0)
            && Work(tree, stack) == Work(tree, stack[..n]) + 1 + SizeOf(EntriesAt(tree, stack[n]))
  {
    hide Find;
    var n := |stack| - 1;
    var d, rest := stack[n], stack[..n];
    assert forall k :: 0 <= k < n ==> rest[k] == stack[k];
    assert IsDirAt(tree, d);
    var es := EntriesAt(tree, d);
    forall q | q != [] && Find(tree, q).Some? && q !in done && !Awaits(rest, q)
      ensures Ahead(d, es, 0, q)
    {
      assert Awaits(stack, q);
      var k :| 0 <= k < |stack| && stack[k] < q;
      assert k == n;
      BelowIsInAnEntry(tree, d, q);
    }
  }

  /** Once the `i`-th entry is done, and pushed if it is a directory, the next ones are ahead. */
  lemma EntryCovers(tree: Node, done: set<Path>, stack: seq<Path>, d: Path, es: seq<Entry>, i: nat)
    requires WellFormed(tree) && DirsOn(tree, stack) && IsDirAt(tree, d) && es == EntriesAt(tree, d) && i < |es|
    requires Covered(tree, done, stack, d, es, i)
    ensures var here := d + [es[i].name];
            var more := if es[i].node.Dir? then stack + [here] else stack;
            && DirsOn(tree, more) && Covered(tree, done + {here}, more, d, es, i + 1)
            && Work(tree, more) + SizeOf(es[i + 1..]) <= Work(tree, stack) + SizeOf(es[i..])
  {
    hide Find, WellFormed, Size;
    var here := d + [es[i].name];
    var more := if es[i].node.Dir? then stack + [here] else stack;
    EntryIsFound(tree, d, i);
    assert IsDirAt(tree, here) <==> es[i].node.Dir?;
    assert forall k :: 0 <= k < |stack| ==> more[k] == stack[k];
    forall q | q != [] && Find(tree, q).Some? && q != here && q !in done && !Awaits(more, q)
      ensures Ahead(d, es, i + 1, q)
    {
      AwaitsMore(stack, more, q);
      assert Ahead(d, es, i, q);
      var j :| i <= j < |es| && d + [es[j].name] <= q;
      NotBelowHere(tree, more, es[i].node.Dir?, here, q);
      assert j != i;
    }
    assert es[i..][1..] == es[i + 1..] && es[i..][0] == es[i];
    WorkPush(tree, stack, here, es[i].node);
  }

  lemma AwaitsMore(stack: seq<Path>, more: seq<Path>, q: Path)
    requires |stack| <= |more| && forall k :: 0 <= k < |stack| ==> more[k] == stack[k]
    ensures Awaits(stack, q) ==> Awaits(more, q)
  {
  }

  lemma NotBelowHere(tree: Node, stack: seq<Path>, pushed: bool, here: Path, q: Path)
    requires Find(tree, here).Some? && (IsDirAt(tree, here) <==> pushed) && Find(tree, q).Some? && q != here
    requires !Awaits(stack, q) && (pushed ==> stack != [] && stack[|stack| - 1] == here)
    ensures !(here <= q)
  {
    hide Find;
    assert stack != [] && stack[|stack| - 1] < q ==> Awaits(stack, q);
    if here <= q {
      BelowIsInAnEntry(tree, here, q);
      assert false;
    }
  }

  lemma WorkPush(tree: Node, stack: seq<Path>, here: Path, n: Node)
    requires DirsOn(tree, stack) && Find(tree, here) == Some(n)
    ensures n.Dir? ==> DirsOn(tree, stack + [here]) && Work(tree, stack + [here]) == Work(tree, stack) + Size(n)
  {
  }

  // ---------- Copying ----------

  datatype DiskEntry = Folder | Document(content: string)

  /** What lies below the destination directory. */
  type Disk = map<Path, DiskEntry>

  function Shape(n: Node): (e: DiskEntry)
    requires !n.Special?
  {
    if n.Dir? then Folder else Document(n.content)
  }

  /** `n` can be put at `q`: no link, and no file where a directory goes or the other way round. */
  predicate Fits(disk: Disk, q: Path, n: Node) { !n.Special? && (q in disk ==> disk[q].Folder? == n.Dir?) }

  ghost predicate Copyable(tree: Node, disk: Disk) {
    forall q :: q != [] && Find(tree, q).Some? ==> Fits(disk, q, Find(tree, q).value)
  }

  /** `out` is `disk` with exactly the paths `done` of the tree laid over it. */
  ghost predicate Laid(tree: Node, disk: Disk, done: set<Path>, out: Disk) {
    && (forall q :: q in done ==> q != [] && Find(tree, q).Some? && Fits(disk, q, Find(tree, q).value)
                                  && q in out && out[q] == Shape(Find(tree, q).value))
    && (forall q :: q !in done ==> (q in out <==> q in disk) && (q in disk ==> out[q] == disk[q]))
  }

  /** `out` is `disk` with the whole tree laid over it. */
  ghost predicate Overlay(tree: Node, disk: Disk, out: Disk) {
    forall q ::
      if q != [] && Find(tree, q).Some?
      then !Find(tree, q).value.Special? && q in out && out[q] == Shape(Find(tree, q).value)
      else (q in out <==> q in disk) && (q in disk ==> out[q] == disk[q])
  }

  lemma NoneLaid(tree: Node, disk: Disk)
    ensures Laid(tree, disk, {}, disk)
  {
  }

  lemma LayOne(tree: Node, disk: Disk, done: set<Path>, out: Disk, q: Path)
    requires Laid(tree, disk, done, out) && q != [] && Find(tree, q).Some?
    ensures Fits(out, q, Find(tree, q).value) <==> Fits(disk, q, Find(tree, q).value)
    ensures Fits(disk, q, Find(tree, q).value) ==> Laid(tree, disk, done + {q}, out[q := Shape(Find(tree, q).value)])
  {
    hide Find;
  }

  /** The copy succeeds exactly on a directory without links whose kinds agree with what is there, and
      then lays the tree over the destination; a failed copy has laid some of it and touched nothing else. */
  method CopyDirRecursive(src: Option<Node>, disk: Disk) returns (ok: bool, out: Disk, ghost done: set<Path>)
    requires src.Some? ==> WellFormed(src.value)
    ensures ok <==> src.Some? && src.value.Dir? && Copyable(src.value, disk)
    ensures ok ==> Overlay(src.value, disk, out)
    ensures if src.Some? && src.value.Dir? then Laid(src.value, disk, done, out) else out == disk
  {
    hide Find, WellFormed, Size, Covered, Laid, Overlay;
    out, done := disk, {};
    if src.None? || !src.value.Dir? {
      return false, out, done;
    }
    var tree := src.value;
    var stack: seq<Path> := [[]];
    StartCovers(tree);
    NoneLaid(tree, disk);
    while stack != []
      invariant DirsOn(tree, stack) && Covered(tree, done, stack, [], [], 0) && Laid(tree, disk, done, out)
      decreases Work(tree, stack)
    {
      PopCovers(tree, done, stack);
      ghost var work := Work(tree, stack);
      var d := stack[|stack| - 1];
      stack := stack[..|stack| - 1];
      var es := EntriesAt(tree, d);
      assert es[0..] == es;
      for i := 0 to |es|
        invariant DirsOn(tree, stack) && Covered(tree, done, stack, d, es, i) && Laid(tree, disk, done, out)
        invariant Work(tree, stack) + SizeOf(es[i..]) < work
      {
        var node, here := es[i].node, d + [es[i].name];
        EntryIsFound(tree, d, i);
        LayOne(tree, disk, done, out, here);
        if !Fits(out, here, node) {
          assert !Copyable(tree, disk);
          return false, out, done;
        }
        EntryCovers(tree, done, stack, d, es, i);
        if node.Dir? {
          out := out[here := Folder];
          stack := stack + [here];
        } else {
          out := out[here := Document(node.content)];
        }
        done := done + {here};
      }
      DirectoryDone(tree, done, stack, d, es);
    }
    AllDone(tree, disk, done, out);
    return true, out, done;
  }

  lemma DirectoryDone(tree: Node, done: set<Path>, stack: seq<Path>, d: Path, es: seq<Entry>)
    requires Covered(tree, done, stack, d, es, |es|)
    ensures Covered(tree, done, stack, [], [], 0)
  {
  }

  lemma AllDone(tree: Node, disk: Disk, done: set<Path>, out: Disk)
    requires Covered(tree, done, [], [], [], 0) && Laid(tree, disk, done, out)
    ensures Copyable(tree, disk) && Overlay(tree, disk, out)
  {
  }

  // ---------- Latest modification ----------

  /** The modification time of the file or link at a path. */
  function LeafTime(tree: Node, q: Path): (t: Option<int>) {
    var n :- Find(tree, q);
    if q == [] || n.Dir? then None else Some(n.mtime)
  }

  /** `latest` is the greatest modification time among the leaves in `done`. */
  ghost predicate LatestOf(tree: Node, done: set<Path>, latest: Option<int>) {
    && (forall q :: q in done && LeafTime(tree, q).Some? ==> latest.Some? && LeafTime(tree, q).value <= latest.value)
    && (latest.Some? ==> exists q :: q in done && LeafTime(tree, q) == latest)
  }

  function Later(latest: Option<int>, t: Option<int>): (r: Option<int>) {
    if t.None? || (latest.Some? && latest.value >= t.value) then latest else t
  }

  lemma LatestNext(tree: Node, done: set<Path>, latest: Option<int>, q: Path)
    requires LatestOf(tree, done, latest)
    ensures LatestOf(tree, done + {q}, Later(latest, LeafTime(tree, q)))
  {
  }

  /** The time is that of the newest file or link anywhere below; there is none exactly when there are no
      files or links. A missing directory has none; a root that is no directory is an error. */
  method LatestMtime(root: Option<Node>) returns (ok: bool, latest: Option<int>)
    requires root.Some? ==> WellFormed(root.value)
    ensures ok <==> root.None? || root.value.Dir?
    ensures latest.Some? ==> root.Some? && exists q :: LeafTime(root.value, q) == latest
    ensures ok && root.Some? ==> forall q :: LeafTime(root.value, q).Some? ==>
              latest.Some? && LeafTime(root.value, q).value <= latest.value
  {
    hide Find, WellFormed, Size, Covered, LatestOf, LeafTime;
    latest := None;
    if root.None? {
      return true, None;
    }
    var tree := root.value;
    if !tree.Dir? {
      return false, None;
    }
    var stack: seq<Path> := [[]];
    ghost var done: set<Path> := {};
    StartCovers(tree);
    NoneLatest(tree);
    while stack != []
      invariant DirsOn(tree, stack) && Covered(tree, done, stack, [], [], 0) && LatestOf(tree, done, latest)
      decreases Work(tree, stack)
    {
      PopCovers(tree, done, stack);
      ghost var work := Work(tree, stack);
      var d := stack[|stack| - 1];
      stack := stack[..|stack| - 1];
      var es := EntriesAt(tree, d);
      assert es[0..] == es;
      for i := 0 to |es|
        invariant DirsOn(tree, stack) && Covered(tree, done, stack, d, es, i) && LatestOf(tree, done, latest)
        invariant Work(tree, stack) + SizeOf(es[i..]) < work
      {
        var node, here := es[i].node, d + [es[i].name];
        EntryIsFound(tree, d, i);
        LeafTimeIs(tree, here, node);
        LatestNext(tree, done, latest, here);
        EntryCovers(tree, done, stack, d, es, i);
        if node.Dir? {
          stack := stack + [here];
        } else if latest.None? || latest.value < node.mtime {
          latest := Some(node.mtime);
        }
        done := done + {here};
      }
      DirectoryDone(tree, done, stack, d, es);
    }
    WalkedAll(tree, done, latest);
    return true, latest;
  }

  lemma NoneLatest(tree: Node)
    ensures LatestOf(tree, {}, None)
  {
  }

  lemma WalkedAll(tree: Node, done: set<Path>, latest: Option<int>)
    requires Covered(tree, done, [], [], [], 0) && LatestOf(tree, done, latest)
    ensures latest.Some? ==> exists q :: LeafTime(tree, q) == latest
    ensures forall q :: LeafTime(tree, q).Some? ==> latest.Some? && LeafTime(tree, q).value <= latest.value
  {
  }

  lemma LeafTimeIs(tree: Node, q: Path, n: Node)
    requires q != [] && Find(tree, q) == Some(n)
    ensures LeafTime(tree, q) == if n.Dir? then None else Some(n.mtime)
  {
  }
}
