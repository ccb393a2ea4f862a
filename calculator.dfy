/**
 * src/calculator.rs: the older pipeline stage. `Manager` is a second
 * `language!` table, `statistical_detail_impl` runs the same classification
 * loop as src/calculate.rs and builds a six-field `Detail` with `files = 1`,
 * and `Detail` can be summed with `+` and `+=`.
 */
module Calculator {
  import opened Wrappers
  import opened Text
  import opened Language
  import opened Classifier
  import opened Registry
  import opened FileTree
  import Calculate

  // ---------------------------------------------------------------------------
  // Detail

  /** `Detail` of src/calculator.rs. `files`, `blank`, `comment` and `code` are `usize`, `bytes` is `u64`. */
  datatype Detail = Detail(language: string, files: nat, bytes: nat, blank: nat, comment: nat, code: nat)

  /** `Detail::new`: the fields in argument order. */
  function New(language: string, files: nat, bytes: nat, blank: nat, comment: nat, code: nat): (d: Detail)
    ensures d.language == language && d.files == files && d.bytes == bytes
    ensures d.blank == blank && d.comment == comment && d.code == code
  {
    Detail(language, files, bytes, blank, comment, code)
  }

  /**
   * `impl Add for Detail`, as written: `language` is the left operand's,
   * `files`, `bytes`, `blank` and `comment` are summed, but `code` is
   * `self.code + rhs.comment`.
   */
  function Add(a: Detail, b: Detail): (r: Detail)
    ensures r.language == a.language && r.files == a.files + b.files && r.bytes == a.bytes + b.bytes
    ensures Counted(r) + b.code == Counted(a) + Counted(b) + b.comment
  {
    Detail(a.language, a.files + b.files, a.bytes + b.bytes, a.blank + b.blank, a.comment + b.comment,
      a.code + b.comment)
  }

  /** The sum `+` was evidently meant to be: every counter pointwise, `language` from the left. */
  function AddPointwise(a: Detail, b: Detail): (r: Detail)
    ensures r.language == a.language && r.files == a.files + b.files && r.bytes == a.bytes + b.bytes
    ensures Counted(r) == Counted(a) + Counted(b)
  {
    a.(files := a.files + b.files, bytes := a.bytes + b.bytes, blank := a.blank + b.blank,
       comment := a.comment + b.comment, code := a.code + b.code)
  }

  /** A `Detail` with every counter zero. */
  function Zero(language: string): (z: Detail)
    ensures z.language == language
    ensures z.files + z.bytes + z.blank + z.comment + z.code == 0
  {
    Detail(language, 0, 0, 0, 0, 0)
  }

  /** The total number of lines a `Detail` accounts for. */
  function Counted(d: Detail): nat {
    d.blank + d.comment + d.code
  }

  /** `Add` agrees with the pointwise sum exactly when the right operand has as many comment lines as code lines. */
  lemma AddIsPointwiseIff(a: Detail, b: Detail)
    ensures Add(a, b) == AddPointwise(a, b) <==> b.comment == b.code
    ensures Add(a, b).(code := 0) == AddPointwise(a, b).(code := 0)
  {
    if Add(a, b) == AddPointwise(a, b) {
      assert Add(a, b).code == AddPointwise(a, b).code;
    }
  }

  /** A concrete pair on which `Add` loses the right operand's code lines. */
  lemma AddLosesCode()
    ensures var a, b := New("Rust", 1, 10, 0, 0, 3), New("Rust", 1, 20, 0, 1, 5);
      Add(a, b).code == 4 && AddPointwise(a, b).code == 8
      && Counted(Add(a, b)) != Counted(a) + Counted(b)
  {
  }

  /** The pointwise sum keeps the line totals: its lines are the lines of both operands. */
  lemma AddPointwiseLines(a: Detail, b: Detail)
    ensures Counted(AddPointwise(a, b)) == Counted(a) + Counted(b)
    ensures AddPointwise(a, b).files == a.files + b.files && AddPointwise(a, b).language == a.language
  {
  }

  /** The pointwise sum is associative and, apart from `language`, commutative, with `Zero` as identity. */
  lemma AddPointwiseLaws(a: Detail, b: Detail, c: Detail)
    ensures AddPointwise(AddPointwise(a, b), c) == AddPointwise(a, AddPointwise(b, c))
    ensures AddPointwise(a, b) == AddPointwise(b, a).(language := a.language)
    ensures AddPointwise(a, Zero(a.language)) == a && AddPointwise(Zero(a.language), a) == a
  {
  }

  /** A `Detail` the code changes in place: `impl AddAssign for Detail` works on `&mut self`. */
  class DetailCell {
    var language: string
    var files: nat
    var bytes: nat
    var blank: nat
    var comment: nat
    var code: nat

    function Value(): (d: Detail)
      reads this
    {
      Detail(language, files, bytes, blank, comment, code)
    }

    constructor (d: Detail)
      ensures Value() == d
    {
      language, files, bytes, blank, comment, code := d.language, d.files, d.bytes, d.blank, d.comment, d.code;
    }

    /** `add_assign`: every counter grows by the right operand's, `language` is untouched. */
    method AddAssign(rhs: Detail)
      modifies this
      ensures Value() == AddPointwise(old(Value()), rhs)
    {
      files := files + rhs.files;
      bytes := bytes + rhs.bytes;
      blank := blank + rhs.blank;
      comment := comment + rhs.comment;
      code := code + rhs.code;
    }
  }

  // ---------------------------------------------------------------------------
  // Manager: the rows of the `language!` table for the languages of src/config.rs
  // (C, Go, Python and Rust alike in both tables, the rest differing in name,
  // extensions or pairs), with `Less` and `Sass`, which take over extensions
  // that src/config.rs gives to CSS

  const CStyle := [Pair("/*", "*/")]

  const CLang := Lang("C", ["c"], ["//"], CStyle)
  const CHeaderLang := Lang("C Header", ["h"], ["//"], CStyle)
  const CppLang := Lang("C++", ["cc", "cpp", "cxx", "c++", "pcc", "tpp"], ["//"], CStyle)
  const CppHeaderLang := Lang("C++ Header", ["hh", "hpp", "hxx", "inl", "ipp"], ["//"], CStyle)
  const CSSLang := Lang("CSS", ["css"], ["//"], CStyle)
  const GoLang := Lang("Go", ["go"], ["//"], [Pair("/*", "*/"), Pair("/**", "*/")])
  const HtmlLang := Lang("Html", ["html", "xhtml", "hml"], [], [Pair("<!--", "-->")])
  const JavaScriptLang := Lang("JavaScript", ["js", "mjs"], ["//"], CStyle)
  const JsonLang := Lang("JSON", ["json"])
  const LessLang := Lang("Less", ["less"], ["//"], CStyle)
  const MarkdownLang := Lang("Markdown", ["md", "markdown"])
  const PythonLang := Lang("Python", ["py"], ["#"], [Pair("'''", "'''"), Pair("\"", "\"")])
  const RustLang := Lang("Rust", ["rs"], ["//", "///", "///!"], CStyle)
  const RubyLang := Lang("Ruby", ["rb"], ["#"], [Pair("=begin", "=end")])
  const SassLang := Lang("Sass", ["sass", "scss"], ["//"], CStyle)
  const ScalaLang := Lang("Scala", ["scala", "sc"], ["//"], CStyle)

  /** The modelled `language!` invocations of `MANAGER`, in their order in the table. */
  const Entries: seq<Info> := [
    CLang, CHeaderLang, CppLang, CppHeaderLang, CSSLang, GoLang, HtmlLang, JavaScriptLang,
    JsonLang, LessLang, MarkdownLang, PythonLang, RustLang, RubyLang, SassLang, ScalaLang
  ]

  /** The `MANAGER` initializer: runs the invocations against two empty maps. */
  method NewManager() returns (m: Table)
    ensures m == Built(Entries)
  {
    m := Build(Entries);
  }

  /** `Manager::get_by_extension`: a non-Unicode or unlisted extension gives `None`. */
  function GetByExtension(m: Table, ext: OsStr): (r: Option<Info>)
    ensures ext.NonUnicode? ==> r.None?
    ensures ext.Unicode? ==> r == Lookup(m, ext.s)
  {
    match ToStr(ext)
    case None => None
    case Some(s) => Lookup(m, s)
  }

  /** `get_by_extension` in `MANAGER`. */
  function Resolve(ext: string): Option<Info> {
    GetByExtension(Built(Entries), Unicode(ext))
  }

  /** `rs` is Rust with prefixes `//`, `///` and `///!` and the pair slash-star .. star-slash. */
  lemma RustProfile()
    ensures Resolve("rs") == Some(Info("Rust", ["rs"], ["//", "///", "///!"], [Pair("/*", "*/")]))
  {
    ListedAt(Entries, 12, "rs");
  }

  /** `json` is JSON, with no comment syntax. */
  lemma JsonProfile()
    ensures Resolve("json") == Some(Info("JSON", ["json"], [], []))
  {
    ListedAt(Entries, 8, "json");
  }

  /** `go` is Go, whose pair slash-star is declared before slash-star-star. */
  lemma GoProfile()
    ensures Resolve("go") == Some(GoLang)
    ensures GoLang.multi == [Pair("/*", "*/"), Pair("/**", "*/")]
  {
    ListedAt(Entries, 5, "go");
  }

  /** `rb` is Ruby; this table gives it the pair `=begin` .. `=end`. */
  lemma RubyProfile()
    ensures Resolve("rb") == Some(Info("Ruby", ["rb"], ["#"], [Pair("=begin", "=end")]))
  {
    ListedAt(Entries, 13, "rb");
  }

  /** Matching is exact: `Rs` is not `rs`. */
  lemma ExactMatchOnly()
    ensures Resolve("Rs") == None
  {
    forall j | 0 <= j < |Entries| ensures "Rs" !in Entries[j].fileExt {
    }
    UnlistedNotFound(Entries, "Rs");
  }

  /**
   * In Go, a line beginning with slash-star-star that does not end with
   * star-slash opens the first pair, slash-star, since the first declared
   * match wins; `Go` and `Gradle` list the longer opener second.
   */
  lemma GoDocCommentOpensFirstPair(line: string)
    requires StartsWith(line, "/**") && !EndsWith(line, "*/")
    ensures Step(None, line, GoLang.single, GoLang.multi) == (Comment, Some(Pair("/*", "*/")))
  {
    assert line[..2] == line[..3][..2];
    assert !StartsWith(line, "//") by {
      assert line[1] == '*';
    }
    assert !HasSinglePrefix(line, GoLang.single);
    FirstPairOpens(line, GoLang.single, GoLang.multi, 0);
  }

  // ---------------------------------------------------------------------------
  // statistical_detail_impl and the per-file chain

  /** What `statistical_detail_impl` returns for a file with data `data` under profile `info`. */
  function StatisticalDetail(data: FileData, info: Info): (r: Result<Detail, Calculate.Error>)
    ensures r.Ok? <==> data.text.Some? && data.size.Some?
    ensures data.text.None? ==> r == Err(Calculate.ReadFailed)
    ensures data.text.Some? && data.size.None? ==> r == Err(Calculate.MetadataFailed)
    ensures r.Ok? ==> r.value.files == 1 && r.value.language == info.name && r.value.bytes == data.size.value
  {
    if data.text.None? then Err(Calculate.ReadFailed)
    else if data.size.None? then Err(Calculate.MetadataFailed)
    else
      var r := Classify(Text.Lines(data.text.value), info.single, info.multi);
      Ok(Detail(info.name, 1, data.size.value, r.blank, r.comment, r.code))
  }

  /** `statistical_detail_impl`: the loop is the same `CountLines` as in src/calculate.rs. */
  method StatisticalDetailImpl(data: FileData, info: Info) returns (r: Result<Detail, Calculate.Error>)
    ensures r == StatisticalDetail(data, info)
  {
    if data.text.None? {
      return Err(Calculate.ReadFailed);
    }
    var content := data.text.value;
    if data.size.None? {
      return Err(Calculate.MetadataFailed);
    }
    var bytes := data.size.value;
    var blank, comment, code := CountLines(content, info.single, info.multi);
    return Ok(New(info.name, 1, bytes, blank, comment, code));
  }

  /**
   * Both entry points classify alike: they fail on the same inputs with the
   * same error, and on success agree on language, bytes and the three counts;
   * this one adds `files = 1`, and its counts add up to the number of lines.
   */
  lemma SameClassificationAsCalculate(data: FileData, info: Info)
    ensures StatisticalDetail(data, info).Ok? <==> Calculate.DetailOf(data, info).Ok?
    ensures StatisticalDetail(data, info).Err? ==>
      StatisticalDetail(data, info).error == Calculate.DetailOf(data, info).error
    ensures StatisticalDetail(data, info).Ok? ==>
      var d, e := StatisticalDetail(data, info).value, Calculate.DetailOf(data, info).value;
      && d.files == 1
      && d == Detail(e.language, 1, e.bytes, e.blank, e.comment, e.code)
      && Counted(d) == |Text.Lines(data.text.value)|
  {
    if data.text.Some? && data.size.Some? {
      assert data == FileData(Some(data.text.value), Some(data.size.value));
      SameCountsOnRead(data.text.value, data.size.value, info);
    }
  }

  /** On a file that was read, both carry the counts of `Classify`, and those account for every line. */
  lemma SameCountsOnRead(text: string, size: nat, info: Info)
    ensures var data := FileData(Some(text), Some(size));
      var d, e := StatisticalDetail(data, info).value, Calculate.DetailOf(data, info).value;
      && d == Detail(e.language, 1, e.bytes, e.blank, e.comment, e.code)
      && Counted(d) == |Text.Lines(text)|
  {
  }

  /**
   * The closure `calculate` submits for one file name: its extension, the
   * profile for it, and the file's `Detail`, each step ending the chain on
   * `None`. `disk` gives each path's text and metadata.
   */
  function ProcessFile(m: Table, p: Path, disk: Disk): (r: Option<Detail>)
    ensures r.Some? ==> Extension(p).Some? && r.value.files == 1
  {
    match Extension(p)
    case None => None
    case Some(ext) =>
      match GetByExtension(m, Unicode(ext))
      case None => None
      case Some(info) => ToOption(StatisticalDetail(disk(p), info))
  }

  /**
   * A file name yields a `Detail` exactly when it has an extension, that
   * extension is registered and the file can be read; the `Detail` then
   * counts one file in the registered language.
   */
  lemma ProcessFileSpec(m: Table, p: Path, disk: Disk)
    ensures ProcessFile(m, p, disk).Some? <==>
      && Extension(p).Some?
      && GetByExtension(m, Unicode(Extension(p).value)).Some?
      && disk(p).text.Some? && disk(p).size.Some?
    ensures ProcessFile(m, p, disk).Some? ==>
      var d, info := ProcessFile(m, p, disk).value, GetByExtension(m, Unicode(Extension(p).value)).value;
      && d.files == 1 && d.language == info.name && d.bytes == disk(p).size.value
      && Counted(d) == |Text.Lines(disk(p).text.value)|
  {
    if Extension(p).Some? && GetByExtension(m, Unicode(Extension(p).value)).Some? {
      SameClassificationAsCalculate(disk(p), GetByExtension(m, Unicode(Extension(p).value)).value);
    }
  }

  /**
   * The details the submitted closures send for the received file names, in
   * the order the names were received (the thread pool may deliver them in
   * another order).
   */
  function Sent(m: Table, names: seq<Path>, disk: Disk): (r: seq<Detail>)
    ensures |r| <= |names|
    decreases |names|
  {
    if names == [] then []
    else
      var last := names[|names| - 1];
      Sent(m, names[..|names| - 1], disk) + (match ProcessFile(m, last, disk) case None => [] case Some(d) => [d])
  }

  /** Each file name contributes at most one `Detail`, and every `Detail` counts one file. */
  lemma {:induction false} SentAtMostOnePerName(m: Table, names: seq<Path>, disk: Disk)
    ensures |Sent(m, names, disk)| <= |names|
    ensures forall d :: d in Sent(m, names, disk) ==> d.files == 1
  {
    if names != [] {
      var last := names[|names| - 1];
      SentAtMostOnePerName(m, names[..|names| - 1], disk);
      ProcessFileSpec(m, last, disk);
    }
  }
}
