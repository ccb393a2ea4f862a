/**
 * src/config.rs: the language table (`Config::default`, all of its 19
 * `language!` invocations) and `Config::get_by_extension`.
 */
module Config {
  import opened Wrappers
  import opened Language
  import opened Registry
  import opened FileTree

  /** `Config`: the `languages` and `ext_to_name` maps. */
  type Config = Table

  const CStyle := [Pair("/*", "*/")]

  const CLang := Lang("C", ["c"], ["//"], CStyle)
  const CHeaderLang := Lang("CHeader", ["h"], ["//"], CStyle)
  const CppLang := Lang("Cpp", ["cpp"], ["//"], CStyle)
  const CppHeaderLang := Lang("CppHeader", ["hpp"], ["//"], CStyle)
  const CSSLang := Lang("CSS", ["css", "sass", "less", "scss"], ["//"], CStyle)
  const GoLang := Lang("Go", ["go"], ["//"], [Pair("/*", "*/"), Pair("/**", "*/")])
  const HtmlLang := Lang("Html", ["html", "xhtml", "hml"])
  const HaskellLang := Lang("Haskell", ["hs"], ["--"], [Pair("{-", "-}")])
  const JavaScriptLang := Lang("JavaScript", ["js", "ejs"], ["//"], CStyle)
  const JsonLang := Lang("Json", ["json"])
  const JuliaLang := Lang("Julia", ["jl"], ["#"], [Pair("#=", "=#")])
  const JavaLang := Lang("Java", ["java"], ["//"], CStyle)
  const MarkdownLang := Lang("Markdown", ["md"])
  // the second pair is r#"""#, a single double quote
  const PythonLang := Lang("Python", ["py"], ["#"], [Pair("'''", "'''"), Pair("\"", "\"")])
  const RustLang := Lang("Rust", ["rs"], ["//", "///", "///!"], CStyle)
  const RubyLang := Lang("Ruby", ["rb"], ["#"], [Pair("=", "=")])
  const ScalaLang := Lang("Scala", ["scala"], ["//"], CStyle)
  const ShellLang := Lang("Shell", ["sh"], ["#"])
  const TypeScriptLang := Lang("TypeScript", ["ts"], ["//"], CStyle)

  /** The `language!` invocations of `Config::default`, in order. */
  const Entries: seq<Info> := [
    CLang, CHeaderLang, CppLang, CppHeaderLang, CSSLang,
    GoLang, HtmlLang, HaskellLang, JavaScriptLang, JsonLang,
    JuliaLang, JavaLang, MarkdownLang, PythonLang, RustLang,
    RubyLang, ScalaLang, ShellLang, TypeScriptLang
  ]

  /** `Config::default`: runs the invocations against two empty maps. */
  method Default() returns (c: Config)
    ensures c == Built(Entries)
  {
    c := Build(Entries);
  }

  /** `Config::get_by_extension`: no extension, a non-Unicode one or an unlisted one gives `None`. */
  function GetByExtension(c: Config, ext: Option<OsStr>): (r: Option<Info>)
    ensures ext.None? ==> r.None?
    ensures ext.Some? && ext.value.NonUnicode? ==> r.None?
    ensures ext.Some? && ext.value.Unicode? ==> r == Lookup(c, ext.value.s)
  {
    match ext
    case None => None
    case Some(o) =>
      match ToStr(o)
      case None => None
      case Some(s) => Lookup(c, s)
  }

  // ---------------------------------------------------------------------------
  // What the default table resolves

  /** Resolves an extension in the default table. */
  function Resolve(ext: string): Option<Info> {
    GetByExtension(Built(Entries), Some(Unicode(ext)))
  }

  // `rs` is Rust, with prefixes `//`, `///`, `///!` and the pair slash-star .. star-slash.
  lemma RustProfile()
    ensures Resolve("rs") == Some(Info("Rust", ["rs"], ["//", "///", "///!"], [Pair("/*", "*/")]))
  {
    ListedAt(Entries, 14, "rs");
  }

  // Go lists the pair slash-star before slash-star-star.
  lemma GoProfile()
    ensures Resolve("go") == Some(Info("Go", ["go"], ["//"], [Pair("/*", "*/"), Pair("/**", "*/")]))
  {
    ListedAt(Entries, 5, "go");
  }

  /** Python's pairs are `'''` and a single `"`, each closing itself. */
  lemma PythonProfile()
    ensures Resolve("py") == Some(Info("Python", ["py"], ["#"], [Pair("'''", "'''"), Pair("\"", "\"")]))
  {
    ListedAt(Entries, 13, "py");
  }

  /** Ruby uses the pair `=`..`=`. */
  lemma RubyProfile()
    ensures Resolve("rb") == Some(Info("Ruby", ["rb"], ["#"], [Pair("=", "=")]))
  {
    ListedAt(Entries, 15, "rb");
  }

  /** Json has no comment syntax at all. */
  lemma JsonProfile()
    ensures Resolve("json") == Some(Info("Json", ["json"], [], []))
  {
    ListedAt(Entries, 9, "json");
  }

  /** Html has no comment syntax at all. */
  lemma HtmlProfile()
    ensures Resolve("html") == Some(Info("Html", ["html", "xhtml", "hml"], [], []))
  {
    ListedAt(Entries, 6, "html");
  }

  /** Markdown has no comment syntax at all. */
  lemma MarkdownProfile()
    ensures Resolve("md") == Some(Info("Markdown", ["md"], [], []))
  {
    ListedAt(Entries, 12, "md");
  }

  /** CSS is registered for `css`, `sass`, `less` and `scss`. */
  lemma CssProfile(ext: string)
    requires ext == "css" || ext == "sass" || ext == "less" || ext == "scss"
    ensures Resolve(ext) == Some(Info("CSS", ["css", "sass", "less", "scss"], ["//"], [Pair("/*", "*/")]))
  {
    CssNotShadowed(ext);
    ListedAt(Entries, 4, ext);
  }

  lemma CssNotShadowed(ext: string)
    requires ext == "css" || ext == "sass" || ext == "less" || ext == "scss"
    ensures forall j | 4 < j < |Entries| :: ext !in Entries[j].fileExt && Entries[j].name != "CSS"
  {
  }

  /** Matching is exact: `RS` is not `rs`. */
  lemma ExactMatchOnly()
    ensures Resolve("RS") == None
  {
    forall j | 0 <= j < |Entries| ensures "RS" !in Entries[j].fileExt {
    }
    UnlistedNotFound(Entries, "RS");
  }

  /** An extension no entry lists is not found. */
  lemma UnknownExtension()
    ensures Resolve("xyz") == None
  {
    forall j | 0 <= j < |Entries| ensures "xyz" !in Entries[j].fileExt {
    }
    UnlistedNotFound(Entries, "xyz");
  }
}
