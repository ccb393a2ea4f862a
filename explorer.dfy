/**
 * src/explorer.rs: the walker that sends every file under an entry path,
 * except those under an ignored path, into a channel. The directory tree is a
 * `Node` value, the channel is the sequence of paths sent into it.
 */
module Explorer {
  import opened Wrappers
  import opened FileTree

  /**
   * `is_not_ignore_file_impl`: without an ignore list every file is kept;
   * with one, a file is kept when no entry of the list is a component prefix
   * of its path.
   */
  predicate IsNotIgnoreFile(ignoreList: Option<seq<Path>>, p: Path) {
    match ignoreList
    case None => true
    case Some(list) => forall i :: 0 <= i < |list| ==> !ComponentPrefix(list[i], p)
  }

  /** A file is kept exactly when no list entry is a whole-component prefix: `/a/bc` is kept under `/a/b`. */
  lemma IsNotIgnoreFileSpec(list: seq<Path>, p: Path)
    ensures IsNotIgnoreFile(None, p)
    ensures IsNotIgnoreFile(Some([]), p)
    ensures !IsNotIgnoreFile(Some(list), p) <==> exists q :: q in list && ComponentPrefix(q, p)
    ensures IsNotIgnoreFile(Some([["a", "b"]]), ["a", "bc"])
    ensures !IsNotIgnoreFile(Some([["a", "b"]]), ["a", "b", "c.rs"])
  {
    if !IsNotIgnoreFile(Some(list), p) {
      var i :| 0 <= i < |list| && ComponentPrefix(list[i], p);
      assert list[i] in list;
    }
    assert ["a", "bc"][..2] != ["a", "b"] by {
      assert ["a", "bc"][..2][1] == "bc";
    }
    assert ["a", "b", "c.rs"][..2] == ["a", "b"];
    assert [["a", "b"]][0] == ["a", "b"];
  }

  // ---------------------------------------------------------------------------
  // What a walk sends

  /**
   * The paths `walk_dir_impl(p)` sends, for the node `n` found at `p`: a kept
   * file is sent; a directory's entries are walked in `read_dir` order at
   * `p` joined with their names; anything else sends nothing.
   */
  function Walk(ignoreList: Option<seq<Path>>, p: Path, n: Node): seq<Path>
    decreases n, 1
  {
    match n
    case File(_) => if IsNotIgnoreFile(ignoreList, p) then [p] else []
    case Dir(_, children) => WalkChildren(ignoreList, p, children)
    case _ => []
  }

  /** The walks of a directory's entries, in order; entries that failed are dropped. */
  function WalkChildren(ignoreList: Option<seq<Path>>, dir: Path, children: seq<Node>): seq<Path>
    decreases children, 0
  {
    if children == [] then []
    else
      var last := children[|children| - 1];
      WalkChildren(ignoreList, dir, children[..|children| - 1]) +
      (if last.FailedEntry? then [] else Walk(ignoreList, dir + [last.name], last))
  }

  /** The walk of the first `i + 1` entries is the walk of the first `i`, then that of entry `i`. */
  lemma WalkChildrenStep(ignoreList: Option<seq<Path>>, dir: Path, children: seq<Node>, i: nat)
    requires i < |children|
    ensures WalkChildren(ignoreList, dir, children[..i + 1])
      == WalkChildren(ignoreList, dir, children[..i])
         + (if children[i].FailedEntry? then [] else Walk(ignoreList, dir + [children[i].name], children[i]))
  {
    assert children[..i + 1][..i] == children[..i];
  }

  /** Every file below `n`, kept or not, in the walk's order. */
  function AllFiles(p: Path, n: Node): seq<Path>
    decreases n, 1
  {
    match n
    case File(_) => [p]
    case Dir(_, children) => AllFilesOf(p, children)
    case _ => []
  }

  function AllFilesOf(dir: Path, children: seq<Node>): seq<Path>
    decreases children, 0
  {
    if children == [] then []
    else
      var last := children[|children| - 1];
      AllFilesOf(dir, children[..|children| - 1]) +
      (if last.FailedEntry? then [] else AllFiles(dir + [last.name], last))
  }

  /** The kept paths of `ps`, in order. */
  function Kept(ignoreList: Option<seq<Path>>, ps: seq<Path>): (r: seq<Path>)
    ensures |r| <= |ps|
    ensures forall q :: q in r <==> q in ps && IsNotIgnoreFile(ignoreList, q)
    ensures (forall q :: q in ps ==> !IsNotIgnoreFile(ignoreList, q)) ==> r == []
  {
    if ps == [] then []
    else
      var last := ps[|ps| - 1];
      assert ps == ps[..|ps| - 1] + [last];
      Kept(ignoreList, ps[..|ps| - 1]) + (if IsNotIgnoreFile(ignoreList, last) then [last] else [])
  }

  lemma {:induction false} KeptAppend(ignoreList: Option<seq<Path>>, a: seq<Path>, b: seq<Path>)
    ensures Kept(ignoreList, a + b) == Kept(ignoreList, a) + Kept(ignoreList, b)
    decreases |b|
  {
    if b != [] {
      var init, last := b[..|b| - 1], b[|b| - 1];
      assert b == init + [last];
      assert a + b == (a + init) + [last];
      var x := if IsNotIgnoreFile(ignoreList, last) then [last] else [];
      calc {
        Kept(ignoreList, a + b);
        { KeptSnoc(ignoreList, a + init, last); }
        Kept(ignoreList, a + init) + x;
        { KeptAppend(ignoreList, a, init); }
        (Kept(ignoreList, a) + Kept(ignoreList, init)) + x;
        Kept(ignoreList, a) + (Kept(ignoreList, init) + x);
        { KeptSnoc(ignoreList, init, last); }
        Kept(ignoreList, a) + Kept(ignoreList, b);
      }
    } else {
      assert a + b == a;
    }
  }

  lemma KeptSnoc(ignoreList: Option<seq<Path>>, ps: seq<Path>, x: Path)
    ensures Kept(ignoreList, ps + [x]) == Kept(ignoreList, ps) + (if IsNotIgnoreFile(ignoreList, x) then [x] else [])
  {
    assert (ps + [x])[..|ps|] == ps;
  }

  /** No path occurs twice. */
  predicate NoDuplicates(ps: seq<Path>) {
    forall i, j :: 0 <= i < j < |ps| ==> ps[i] != ps[j]
  }

  lemma {:induction false} KeptNoDuplicates(ignoreList: Option<seq<Path>>, ps: seq<Path>)
    requires NoDuplicates(ps)
    ensures NoDuplicates(Kept(ignoreList, ps))
  {
    if ps != [] {
      var init, last := ps[..|ps| - 1], ps[|ps| - 1];
      KeptNoDuplicates(ignoreList, init);
      forall i | 0 <= i < |init| ensures init[i] != last {
        assert init[i] == ps[i];
      }
    }
  }

  /** The walk sends exactly the kept files below `n`, in order. */
  lemma {:induction false} WalkIsKeptFiles(ignoreList: Option<seq<Path>>, p: Path, n: Node)
    ensures Walk(ignoreList, p, n) == Kept(ignoreList, AllFiles(p, n))
    decreases n, 1
  {
    match n
    case File(_) =>
      assert AllFiles(p, n) == [] + [p];
    case Dir(_, children) =>
      WalkChildrenIsKeptFiles(ignoreList, p, children);
    case _ =>
  }

  lemma {:induction false} WalkChildrenIsKeptFiles(ignoreList: Option<seq<Path>>, dir: Path, children: seq<Node>)
    ensures WalkChildren(ignoreList, dir, children) == Kept(ignoreList, AllFilesOf(dir, children))
    decreases children, 0
  {
    if children != [] {
      var init, last := children[..|children| - 1], children[|children| - 1];
      WalkChildrenIsKeptFiles(ignoreList, dir, init);
      if !last.FailedEntry? {
        WalkIsKeptFiles(ignoreList, dir + [last.name], last);
      }
      var tail := if last.FailedEntry? then [] else AllFiles(dir + [last.name], last);
      KeptAppend(ignoreList, AllFilesOf(dir, init), tail);
    }
  }

  /** Without an ignore list the walk sends every file. */
  lemma NoIgnoreListSendsAll(p: Path, n: Node)
    ensures Walk(None, p, n) == AllFiles(p, n)
  {
    WalkIsKeptFiles(None, p, n);
    KeptNone(AllFiles(p, n));
  }

  lemma {:induction false} KeptNone(ps: seq<Path>)
    ensures Kept(None, ps) == ps
  {
    if ps != [] {
      KeptNone(ps[..|ps| - 1]);
      assert ps == ps[..|ps| - 1] + [ps[|ps| - 1]];
    }
  }

  /**
   * Every file below `n` lies under `p`; a file at `p` is the only one, and
   * below a directory every file is strictly deeper than the directory, so
   * a directory itself is never sent.
   */
  lemma {:induction false} AllFilesUnder(p: Path, n: Node)
    ensures forall q :: q in AllFiles(p, n) ==> ComponentPrefix(p, q)
    ensures n.File? ==> AllFiles(p, n) == [p]
    ensures !n.File? ==> forall q :: q in AllFiles(p, n) ==> |q| > |p|
    decreases n, 1
  {
    match n
    case File(_) =>
    case Dir(_, children) =>
      AllFilesOfUnder(p, children);
    case _ =>
  }

  /** Below a directory, every file lies under `dir` joined with the name of one of its (non-failed) entries. */
  lemma {:induction false} AllFilesOfUnder(dir: Path, children: seq<Node>)
    ensures forall q :: q in AllFilesOf(dir, children) ==>
      |q| > |dir| && q[..|dir|] == dir
      && exists k :: 0 <= k < |children| && !children[k].FailedEntry? && q[|dir|] == children[k].name
    decreases children, 0
  {
    if children != [] {
      var init, last := children[..|children| - 1], children[|children| - 1];
      AllFilesOfUnder(dir, init);
      forall q | q in AllFilesOf(dir, children)
        ensures |q| > |dir| && q[..|dir|] == dir
        ensures exists k :: 0 <= k < |children| && !children[k].FailedEntry? && q[|dir|] == children[k].name
      {
        if q in AllFilesOf(dir, init) {
          var k :| 0 <= k < |init| && !init[k].FailedEntry? && q[|dir|] == init[k].name;
          assert children[k] == init[k];
        } else {
          assert !last.FailedEntry? && q in AllFiles(dir + [last.name], last);
          AllFilesUnder(dir + [last.name], last);
          assert q[..|dir| + 1] == dir + [last.name];
          assert q[..|dir|] == q[..|dir| + 1][..|dir|];
          assert q[|dir|] == q[..|dir| + 1][|dir|];
          assert children[|children| - 1] == last;
        }
      }
    }
  }

  /** The names of a directory's entries are distinct, and so on all the way down. */
  predicate DistinctNames(n: Node)
    decreases n, 1
  {
    match n
    case Dir(_, children) => DistinctNamesOf(children)
    case _ => true
  }

  predicate DistinctNamesOf(children: seq<Node>)
    decreases children, 0
  {
    && (forall i, j :: 0 <= i < j < |children| && !children[i].FailedEntry? && !children[j].FailedEntry?
          ==> children[i].name != children[j].name)
    && (forall i :: 0 <= i < |children| ==> DistinctNames(children[i]))
  }

  /** In a tree whose directories list each name once, no file is found twice. */
  lemma {:induction false} AllFilesNoDuplicates(p: Path, n: Node)
    requires DistinctNames(n)
    ensures NoDuplicates(AllFiles(p, n))
    decreases n, 1
  {
    match n
    case File(_) =>
    case Dir(_, children) =>
      AllFilesOfNoDuplicates(p, children);
    case _ =>
  }

  lemma {:induction false} AllFilesOfNoDuplicates(dir: Path, children: seq<Node>)
    requires DistinctNamesOf(children)
    ensures NoDuplicates(AllFilesOf(dir, children))
    decreases children, 0
  {
    if children != [] {
      var init, last := children[..|children| - 1], children[|children| - 1];
      assert DistinctNamesOf(init) by {
        forall i | 0 <= i < |init| ensures DistinctNames(init[i]) {
          assert init[i] == children[i];
        }
      }
      AllFilesOfNoDuplicates(dir, init);
      if !last.FailedEntry? {
        assert DistinctNames(children[|children| - 1]);
        AllFilesNoDuplicates(dir + [last.name], last);
        AllFilesOfUnder(dir, init);
        AllFilesUnder(dir + [last.name], last);
        var a, b := AllFilesOf(dir, init), AllFiles(dir + [last.name], last);
        forall x | x in a ensures |x| > |dir| && x[|dir|] != last.name {
          var k :| 0 <= k < |init| && !init[k].FailedEntry? && x[|dir|] == init[k].name;
          assert children[k] == init[k];
        }
        forall q | q in b ensures |q| > |dir| && q[|dir|] == last.name {
          assert ComponentPrefix(dir + [last.name], q);
          assert q[|dir|] == q[..|dir| + 1][|dir|];
        }
        SeparatedNoDuplicates(a, b, |dir|, last.name);
      }
    }
  }

  /** Two duplicate-free lists of paths that differ at component `k` have no duplicates together. */
  lemma SeparatedNoDuplicates(a: seq<Path>, b: seq<Path>, k: nat, name: string)
    requires NoDuplicates(a) && NoDuplicates(b)
    requires forall x | x in a :: |x| > k && x[k] != name
    requires forall q | q in b :: |q| > k && q[k] == name
    ensures NoDuplicates(a + b)
  {
    forall i, j | 0 <= i < j < |a + b| ensures (a + b)[i] != (a + b)[j] {
      if j < |a| {
      } else if i >= |a| {
        assert (a + b)[i] == b[i - |a|] && (a + b)[j] == b[j - |a|];
      } else {
        assert (a + b)[i] in a && (a + b)[j] in b;
        assert (a + b)[i][k] != (a + b)[j][k];
      }
    }
  }

  /**
   * Every kept file below the entry is sent exactly once (given distinct
   * names per directory), and nothing else is sent.
   */
  lemma WalkSendsKeptFilesOnce(ignoreList: Option<seq<Path>>, p: Path, n: Node)
    requires DistinctNames(n)
    ensures NoDuplicates(Walk(ignoreList, p, n))
    ensures forall q :: q in Walk(ignoreList, p, n) <==> q in AllFiles(p, n) && IsNotIgnoreFile(ignoreList, q)
  {
    WalkIsKeptFiles(ignoreList, p, n);
    AllFilesNoDuplicates(p, n);
    KeptNoDuplicates(ignoreList, AllFiles(p, n));
  }

  /** Nothing under an ignored path is sent, though the walk goes on into it. */
  lemma IgnoredSubtreeSendsNothing(list: seq<Path>, p: Path, n: Node, i: nat)
    requires i < |list| && ComponentPrefix(list[i], p)
    ensures Walk(Some(list), p, n) == []
  {
    WalkIsKeptFiles(Some(list), p, n);
    AllFilesUnder(p, n);
    forall q | q in AllFiles(p, n) ensures !IsNotIgnoreFile(Some(list), q) {
      assert q[..|list[i]|] == q[..|p|][..|list[i]|];
    }
  }

  /** The walks of two runs of entries, one after the other. */
  lemma {:induction false} WalkChildrenAppend(ignoreList: Option<seq<Path>>, dir: Path, a: seq<Node>, b: seq<Node>)
    ensures WalkChildren(ignoreList, dir, a + b) == WalkChildren(ignoreList, dir, a) + WalkChildren(ignoreList, dir, b)
    decreases |b|
  {
    if b != [] {
      var init, last := b[..|b| - 1], b[|b| - 1];
      assert b == init + [last];
      assert a + b == (a + init) + [last];
      assert (a + init + [last])[..|a + init|] == a + init;
      assert (init + [last])[..|init|] == init;
      var x := if last.FailedEntry? then [] else Walk(ignoreList, dir + [last.name], last);
      calc {
        WalkChildren(ignoreList, dir, a + b);
        WalkChildren(ignoreList, dir, a + init) + x;
        { WalkChildrenAppend(ignoreList, dir, a, init); }
        (WalkChildren(ignoreList, dir, a) + WalkChildren(ignoreList, dir, init)) + x;
        WalkChildren(ignoreList, dir, a) + (WalkChildren(ignoreList, dir, init) + x);
        WalkChildren(ignoreList, dir, a) + WalkChildren(ignoreList, dir, b);
      }
    } else {
      assert a + b == a;
    }
  }

  /**
   * A failed entry, an unreadable directory or something that is neither
   * file nor directory sends nothing, and the walk goes on with its siblings.
   */
  lemma FailedEntrySkipped(ignoreList: Option<seq<Path>>, dir: Path, a: seq<Node>, x: Node, b: seq<Node>)
    requires x.FailedEntry? || x.Unreadable? || x.Special?
    ensures WalkChildren(ignoreList, dir, a + [x] + b) == WalkChildren(ignoreList, dir, a + b)
  {
    WalkChildrenAppend(ignoreList, dir, a + [x], b);
    WalkChildrenAppend(ignoreList, dir, a, [x]);
    WalkChildrenAppend(ignoreList, dir, a, b);
    assert [x][..0] == [];
  }

  // ---------------------------------------------------------------------------
  // The walker

  /**
   * `Explorer`: the ignore list and the sending end of the channel. `sent` is
   * what has been delivered; `receiverOpen` says whether the receiving end
   * still exists, and a send to a closed channel is dropped.
   */
  class Explorer {
    const ignoreList: Option<seq<Path>>
    var receiverOpen: bool
    var sent: seq<Path>

    /** `Explorer::new`: a fresh channel, nothing sent yet. */
    constructor (ignoreList: Option<seq<Path>>)
      ensures this.ignoreList == ignoreList
      ensures receiverOpen && sent == []
    {
      this.ignoreList := ignoreList;
      receiverOpen := true;
      sent := [];
    }

    /** `let _ = self.sender.send(..)`: a failed send is ignored. */
    method Send(p: Path)
      modifies this
      ensures receiverOpen == old(receiverOpen)
      ensures sent == if receiverOpen then old(sent) + [p] else old(sent)
    {
      if receiverOpen {
        sent := sent + [p];
      }
    }

    /** `walk_dir_impl`, on the node `n` found at path `p`. */
    method WalkDirImpl(p: Path, n: Node)
      modifies this
      decreases n, 1
      ensures receiverOpen == old(receiverOpen)
      ensures sent == if receiverOpen then old(sent) + Walk(ignoreList, p, n) else old(sent)
    {
      if IsFile(n) && IsNotIgnoreFile(ignoreList, p) {
        Send(p);
      } else if IsDir(n) {
        if n.Dir? {
          WalkEntries(p, n.children);
        }
      }
    }

    /** The loop of `walk_dir_impl` over the entries of the directory at `p`; entries that failed are skipped. */
    method WalkEntries(p: Path, children: seq<Node>)
      modifies this
      decreases children, 0
      ensures receiverOpen == old(receiverOpen)
      ensures sent == if receiverOpen then old(sent) + WalkChildren(ignoreList, p, children) else old(sent)
    {
      ghost var sent0 := sent;
      for i := 0 to |children|
        invariant receiverOpen == old(receiverOpen)
        invariant receiverOpen ==> sent == sent0 + WalkChildren(ignoreList, p, children[..i])
        invariant !receiverOpen ==> sent == sent0
      {
        var entry := children[i];
        WalkChildrenStep(ignoreList, p, children, i);
        if !entry.FailedEntry? {
          ghost var done := WalkChildren(ignoreList, p, children[..i]);
          ghost var before := sent;
          WalkDirImpl(p + [entry.name], entry);
          ghost var step := Walk(ignoreList, p + [entry.name], entry);
          assert receiverOpen ==> sent == before + step;
          assert sent0 + done + step == sent0 + (done + step);
        } else {
          assert WalkChildren(ignoreList, p, children[..i + 1]) == WalkChildren(ignoreList, p, children[..i]) + [];
        }
      }
      assert children[..|children|] == children;
    }

    /** `walk_directory`: walks from the entry path. */
    method WalkDirectory(entry: Path, n: Node)
      modifies this
      ensures receiverOpen == old(receiverOpen)
      ensures sent == if receiverOpen then old(sent) + Walk(ignoreList, entry, n) else old(sent)
    {
      WalkDirImpl(entry, n);
    }
  }
}
