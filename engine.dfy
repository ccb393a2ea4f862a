/**
 * src/engine.rs: the newer pipeline. `explore` walks the entry path and
 * sends one `Content` message per file that is not ignored, counting them in
 * `total_files`; `calculate` then sends one `End` per worker. A worker turns
 * each `Content` into a `Detail` through the configuration and
 * `calculate` of src/calculate.rs. The channel is the sequence of messages
 * sent into it.
 */
module Engine {
  import opened Wrappers
  import opened FileTree
  import opened Registry
  import opened Details
  import Config
  import Calculate
  import Explorer

  /** `Report`: the per-language rows and the totals. */
  datatype Report = Report(languages: seq<LanguageDetail>, sum: SumDetail)

  /** `Report::new` stores both parts unchanged. */
  function NewReport(languages: seq<LanguageDetail>, sum: SumDetail): (r: Report)
    ensures r.languages == languages && r.sum == sum
  {
    Report(languages, sum)
  }

  /** `Message`: a file to count, or the signal for one worker to stop. */
  datatype Message = Content(path: Path) | End

  /**
   * `is_ignored_file_impl`: a directory is never ignored; another path is
   * ignored when some entry of the list is a component prefix of it.
   */
  predicate IsIgnoredFile(ignoreList: seq<Path>, p: Path, isDir: bool)
    ensures IsIgnoredFile(ignoreList, p, isDir) ==> !isDir && ignoreList != []
  {
    if isDir then false
    else exists i :: 0 <= i < |ignoreList| && ComponentPrefix(ignoreList[i], p)
  }

  /**
   * A directory is never ignored and the empty list ignores nothing; for a
   * file, being ignored here is exactly not being kept by the explorer's
   * `is_not_ignore_file_impl` with the same list, so `/a/bc` is not under
   * `/a/b`.
   */
  lemma IsIgnoredFileSpec(list: seq<Path>, p: Path)
    ensures !IsIgnoredFile(list, p, true)
    ensures !IsIgnoredFile([], p, false)
    ensures IsIgnoredFile(list, p, false) <==> !Explorer.IsNotIgnoreFile(Some(list), p)
    ensures !IsIgnoredFile([["a", "b"]], ["a", "bc"], false)
  {
    Explorer.IsNotIgnoreFileSpec(list, p);
  }

  /** The tree has no directory `read_dir` cannot open and no entry it reports as failed: `explore` unwraps both. */
  predicate NoReadErrors(n: Node)
    decreases n, 1
  {
    match n
    case Unreadable(_) => false
    case FailedEntry => false
    case Dir(_, children) => NoReadErrorsOf(children)
    case _ => true
  }

  predicate NoReadErrorsOf(children: seq<Node>)
    decreases children, 0
  {
    forall i :: 0 <= i < |children| ==> NoReadErrors(children[i])
  }

  /** The `Content` messages for `ps`, in order. */
  function Contents(ps: seq<Path>): (r: seq<Message>)
    ensures |r| == |ps|
  {
    if ps == [] then [] else Contents(ps[..|ps| - 1]) + [Content(ps[|ps| - 1])]
  }

  /** Message `i` is the `Content` of path `i`. */
  lemma {:induction false} ContentsAt(ps: seq<Path>)
    ensures forall i :: 0 <= i < |ps| ==> Contents(ps)[i] == Content(ps[i])
  {
    if ps != [] {
      ContentsAt(ps[..|ps| - 1]);
    }
  }

  /** `k` `End` messages. */
  function Ends(k: nat): (r: seq<Message>)
    ensures |r| == k
    ensures forall i :: 0 <= i < k ==> r[i] == End
  {
    seq(k, _ => End)
  }

  lemma {:induction false} ContentsAppend(a: seq<Path>, b: seq<Path>)
    ensures Contents(a + b) == Contents(a) + Contents(b)
    decreases |b|
  {
    if b == [] {
      assert a + b == a;
    } else {
      var init, last := b[..|b| - 1], b[|b| - 1];
      assert (a + b)[..|a + b| - 1] == a + init;
      assert (a + b)[|a + b| - 1] == last;
      calc {
        Contents(a + b);
        Contents(a + init) + [Content(last)];
        { ContentsAppend(a, init); }
        (Contents(a) + Contents(init)) + [Content(last)];
        Contents(a) + (Contents(init) + [Content(last)]);
        Contents(a) + Contents(b);
      }
    }
  }

  /** The number of `End` messages in `ms`. */
  function CountEnds(ms: seq<Message>): nat {
    if ms == [] then 0 else CountEnds(ms[..|ms| - 1]) + (if ms[|ms| - 1].End? then 1 else 0)
  }

  /**
   * What `calculate` puts in the channel: the files first, each once, then
   * exactly one `End` per worker, so no worker stops before every file has
   * been sent.
   */
  lemma {:induction false} MessageOrder(ps: seq<Path>, capacity: nat)
    ensures var ms := Contents(ps) + Ends(capacity);
      && CountEnds(ms) == capacity
      && (forall i :: 0 <= i < |ps| ==> ms[i] == Content(ps[i]))
      && (forall i :: |ps| <= i < |ms| ==> ms[i] == End)
    decreases capacity
  {
    var ms := Contents(ps) + Ends(capacity);
    if capacity == 0 {
      assert ms == Contents(ps);
      ContentsAt(ps);
      NoEndsInContents(ps);
    } else {
      assert ms[..|ms| - 1] == Contents(ps) + Ends(capacity - 1);
      MessageOrder(ps, capacity - 1);
    }
  }

  lemma {:induction false} NoEndsInContents(ps: seq<Path>)
    ensures CountEnds(Contents(ps)) == 0
  {
    if ps != [] {
      assert Contents(ps)[..|ps| - 1] == Contents(ps[..|ps| - 1]);
      NoEndsInContents(ps[..|ps| - 1]);
    }
  }

  /** The file extension as `Path::extension` hands it to `get_by_extension`. */
  function ExtensionOf(p: Path): (r: Option<OsStr>)
    ensures r.Some? <==> Extension(p).Some?
    ensures r.Some? ==> r.value == Unicode(Extension(p).value)
  {
    match Extension(p)
    case None => None
    case Some(e) => Some(Unicode(e))
  }

  /**
   * The details the workers collect from the messages `ms`: for each
   * `Content`, the profile for its extension and, when there is one and the
   * file can be read, its `Detail`. Workers take the messages in some order;
   * this is the order of the channel.
   */
  function Collected(config: Config.Config, ms: seq<Message>, disk: Disk): (r: seq<Calculate.FileDetail>)
    ensures |r| <= |ms|
    decreases |ms|
  {
    if ms == [] then []
    else
      var rest := Collected(config, ms[..|ms| - 1], disk);
      match ms[|ms| - 1]
      case End => rest
      case Content(p) =>
        match Config.GetByExtension(config, ExtensionOf(p))
        case None => rest
        case Some(info) =>
          match Calculate.DetailOf(disk(p), info)
          case Ok(d) => rest + [d]
          case Err(_) => rest
  }

  /**
   * `End` messages contribute nothing, and each `Content` at most one
   * `Detail`.
   */
  lemma {:induction false} CollectedSpec(config: Config.Config, ps: seq<Path>, capacity: nat, disk: Disk)
    ensures Collected(config, Contents(ps) + Ends(capacity), disk) == Collected(config, Contents(ps), disk)
    ensures |Collected(config, Contents(ps), disk)| <= |ps|
    decreases capacity
  {
    if capacity == 0 {
      assert Contents(ps) + Ends(capacity) == Contents(ps);
      CollectedAtMostOne(config, ps, disk);
    } else {
      var ms := Contents(ps) + Ends(capacity);
      assert ms[..|ms| - 1] == Contents(ps) + Ends(capacity - 1);
      CollectedSpec(config, ps, capacity - 1, disk);
    }
  }

  lemma {:induction false} CollectedAtMostOne(config: Config.Config, ps: seq<Path>, disk: Disk)
    ensures |Collected(config, Contents(ps), disk)| <= |ps|
  {
    if ps != [] {
      assert Contents(ps)[..|ps| - 1] == Contents(ps[..|ps| - 1]);
      CollectedAtMostOne(config, ps[..|ps| - 1], disk);
    }
  }

  /**
   * `Engine`: the ignore list, the configuration, the entry path, the number
   * of files sent and the channel. The atomic counters the code declares but
   * never updates are left out.
   */
  class Engine {
    const ignoreList: seq<Path>
    const config: Config.Config
    const entry: Path
    var totalFiles: nat
    var channel: seq<Message>

    /**
     * `Engine::new`: a missing entry is replaced by the current directory; an
     * ignore list that could not be read is empty; the configuration is the
     * default table; nothing has been sent.
     */
    constructor (entry: Path, entryExists: bool, currentDir: Path, readIgnoreList: Option<seq<Path>>)
      ensures this.entry == if entryExists then entry else currentDir
      ensures ignoreList == if readIgnoreList.Some? then readIgnoreList.value else []
      ensures config == Built(Config.Entries)
      ensures totalFiles == 0 && channel == []
    {
      var c := Config.Default();
      this.entry := if entryExists then entry else currentDir;
      ignoreList := if readIgnoreList.Some? then readIgnoreList.value else [];
      config := c;
      totalFiles := 0;
      channel := [];
    }

    /**
     * `explore`, on the node `n` found at path `p`: sends exactly the files
     * the explorer's walk would send with the same list, and counts each.
     */
    method Explore(p: Path, n: Node)
      requires NoReadErrors(n)
      modifies this
      decreases n, 1
      ensures channel == old(channel) + Contents(Explorer.Walk(Some(ignoreList), p, n))
      ensures totalFiles == old(totalFiles) + |Explorer.Walk(Some(ignoreList), p, n)|
    {
      IsIgnoredFileSpec(ignoreList, p);
      if IsFile(n) && !IsIgnoredFile(ignoreList, p, IsDir(n)) {
        totalFiles := totalFiles + 1;
        channel := channel + [Content(p)];
      } else if IsDir(n) {
        ExploreEntries(p, n.children);
      }
    }

    /** The loop of `explore` over the entries of the directory at `p`. */
    method ExploreEntries(p: Path, children: seq<Node>)
      requires NoReadErrorsOf(children)
      modifies this
      decreases children, 0
      ensures channel == old(channel) + Contents(Explorer.WalkChildren(Some(ignoreList), p, children))
      ensures totalFiles == old(totalFiles) + |Explorer.WalkChildren(Some(ignoreList), p, children)|
    {
      for i := 0 to |children|
        invariant channel == old(channel) + Contents(Explorer.WalkChildren(Some(ignoreList), p, children[..i]))
        invariant totalFiles == old(totalFiles) + |Explorer.WalkChildren(Some(ignoreList), p, children[..i])|
      {
        var child := children[i];
        assert NoReadErrors(child);
        Explorer.WalkChildrenStep(Some(ignoreList), p, children, i);
        ghost var done := Explorer.WalkChildren(Some(ignoreList), p, children[..i]);
        ghost var step := Explorer.Walk(Some(ignoreList), p + [child.name], child);
        ghost var before := channel;
        ghost var count := totalFiles;
        Explore(p + [child.name], child);
        assert channel == before + Contents(step) && totalFiles == count + |step|;
        ContentsAppend(done, step);
        assert before + Contents(step) == old(channel) + Contents(done + step);
      }
      assert children[..|children|] == children;
    }

    /** The loop of `calculate` that sends one `End` per worker. */
    method SendEnds(capacity: nat)
      modifies this
      ensures channel == old(channel) + Ends(capacity)
      ensures totalFiles == old(totalFiles)
    {
      for i := 0 to capacity
        invariant channel == old(channel) + Ends(i)
        invariant totalFiles == old(totalFiles)
      {
        channel := channel + [End];
      }
    }

    /**
     * `calculate`'s sending side: explore the entry, then send the `End`s.
     * The messages are the walk's files, then `capacity` `End`s, and
     * `total_files` is the number of files sent.
     */
    method Dispatch(root: Node, capacity: nat)
      requires NoReadErrors(root)
      modifies this
      ensures channel == old(channel) + Contents(Explorer.Walk(Some(ignoreList), entry, root)) + Ends(capacity)
      ensures totalFiles == old(totalFiles) + |Explorer.Walk(Some(ignoreList), entry, root)|
    {
      Explore(entry, root);
      SendEnds(capacity);
    }
  }
}
