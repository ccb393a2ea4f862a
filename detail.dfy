/**
 * src/detail.rs: the four-field `Detail` with `i32` counters and derived
 * equality, plus the per-language and total records the report is made of.
 */
module Details {
  import opened Wrappers

  /** Rust's `i32`. */
  newtype i32 = x: int | -0x8000_0000 <= x < 0x8000_0000

  /** `Detail`: a language and its blank, comment and code counts. Equality is the derived, field-wise one. */
  datatype Detail = Detail(language: string, blank: i32, comment: i32, code: i32)

  /** `Detail::new`: the fields in argument order. */
  function New(language: string, blank: i32, comment: i32, code: i32): (d: Detail)
    ensures d.language == language && d.blank == blank && d.comment == comment && d.code == code
  {
    Detail(language, blank, comment, code)
  }

  /** Two details are equal exactly when all four fields are, and `new` is injective. */
  lemma EqualIffFieldsEqual(a: Detail, b: Detail)
    ensures a == b <==> a.language == b.language && a.blank == b.blank && a.comment == b.comment && a.code == b.code
    ensures New(a.language, a.blank, a.comment, a.code) == a
  {
  }

  /**
   * Which counts an `i32` field can hold: none of 2147483648 lines or more.
   * The program converts nothing; this only states the range.
   */
  function ToI32(n: nat): (r: Option<i32>)
    ensures r.Some? <==> n < 0x8000_0000
    ensures r.Some? ==> r.value as int == n && 0 <= r.value
  {
    if n < 0x8000_0000 then Some(n as i32) else None
  }

  /** A language's row of the report: the fields `sort_by` reads. */
  datatype LanguageDetail = LanguageDetail(language: string, bytes: nat, blank: nat, comment: nat, code: nat)

  /** The totals row of the report. */
  datatype SumDetail = SumDetail(bytes: nat, blank: nat, comment: nat, code: nat)
}
