/**
 * A language profile, the `Info` record of src/config.rs and
 * src/calculator.rs (the two files name its first field `name` and
 * `language`; the record is otherwise the same).
 */
module Language {

  /** A block-comment delimiter pair `(start, end)`. */
  datatype Pair = Pair(start: string, end: string)

  /** A language: its name, its file extensions, its single-line comment prefixes and its block-comment pairs, each in declared order. */
  datatype Info = Info(name: string, fileExt: seq<string>, single: seq<string>, multi: seq<Pair>)

  /**
   * One invocation of the `language!` macro. The four-argument form gives all
   * fields; the three-argument form leaves `multi` empty and the two-argument
   * form leaves `single` and `multi` empty, which the default values express.
   */
  function Lang(name: string, ext: seq<string>, single: seq<string> := [], multi: seq<Pair> := []): (info: Info)
    ensures info.name == name && info.fileExt == ext
    ensures info.single == single && info.multi == multi
  {
    Info(name, ext, single, multi)
  }
}
