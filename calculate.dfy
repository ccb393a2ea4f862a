/**
 * src/calculate.rs: `calculate_impl` reads a file, classifies its lines with
 * the profile's comment syntax, and returns its `Detail`.
 */
module Calculate {
  import opened Wrappers
  import opened Text
  import opened Language
  import opened Classifier
  import opened FileTree

  /** The ways reading a file can fail (the `?` on `read_to_string` and on `metadata`). */
  datatype Error = ReadFailed | MetadataFailed

  /** The `Detail` this snapshot builds with `Detail::new(language, bytes, blank, comment, code)`. */
  datatype FileDetail = FileDetail(language: string, bytes: nat, blank: nat, comment: nat, code: nat)

  /** What `calculate_impl` returns for a file with data `data` under profile `info`. */
  function DetailOf(data: FileData, info: Info): (r: Result<FileDetail, Error>)
    ensures r.Ok? <==> data.text.Some? && data.size.Some?
    ensures r.Err? ==> r.error == if data.text.None? then ReadFailed else MetadataFailed
    ensures r.Ok? ==> r.value.language == info.name && r.value.bytes == data.size.value
  {
    if data.text.None? then Err(ReadFailed)
    else if data.size.None? then Err(MetadataFailed)
    else
      var r := Classify(Lines(data.text.value), info.single, info.multi);
      Ok(FileDetail(info.name, data.size.value, r.blank, r.comment, r.code))
  }

  /** `calculate_impl`: the classification loop is `CountLines`. */
  method CalculateImpl(data: FileData, info: Info) returns (r: Result<FileDetail, Error>)
    ensures r == DetailOf(data, info)
  {
    if data.text.None? {
      return Err(ReadFailed);
    }
    var content := data.text.value;
    if data.size.None? {
      return Err(MetadataFailed);
    }
    var bytes := data.size.value;
    var blank, comment, code := CountLines(content, info.single, info.multi);
    return Ok(FileDetail(info.name, bytes, blank, comment, code));
  }

  /**
   * A file yields a `Detail` exactly when both its text and its metadata can
   * be read, a read failure being reported first. The `Detail` carries the
   * profile's name and the on-disk length, and its three counts add up to the
   * number of lines of the text.
   */
  lemma DetailOfSpec(data: FileData, info: Info)
    ensures DetailOf(data, info).Ok? <==> data.text.Some? && data.size.Some?
    ensures data.text.None? ==> DetailOf(data, info) == Err(ReadFailed)
    ensures data.text.Some? && data.size.None? ==> DetailOf(data, info) == Err(MetadataFailed)
    ensures DetailOf(data, info).Ok? ==>
      var d := DetailOf(data, info).value;
      && d.language == info.name
      && d.bytes == data.size.value
      && d.blank + d.comment + d.code == |Lines(data.text.value)|
  {
    if data.text.Some? {
      ClassifyCountsEveryLine(Lines(data.text.value), info.single, info.multi);
    }
  }

  /** The byte count comes from the metadata alone: two files with the same text get the same counts. */
  lemma CountsIndependentOfSize(text: string, n: nat, m: nat, info: Info)
    ensures var a, b := DetailOf(FileData(Some(text), Some(n)), info), DetailOf(FileData(Some(text), Some(m)), info);
      a.Ok? && b.Ok? && a.value.bytes == n && b.value.bytes == m
      && a.value.(bytes := 0) == b.value.(bytes := 0)
  {
  }
}
