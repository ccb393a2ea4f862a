/**
 * The per-file line classifier: the `'here:` loop of `calculate_impl` in
 * src/calculate.rs, repeated verbatim in `statistical_detail_impl` of
 * src/calculator.rs. Each line of the file is trimmed and counted as blank,
 * comment or code; the only state carried from line to line is `in_comment`,
 * the block-comment pair currently open.
 *
 * `Step` states the rules for one trimmed line, `Classify` folds them over the
 * lines of a file, and `CountLines` is the loop itself, proved to compute
 * `Classify`.
 */
module Classifier {
  import opened Wrappers
  import opened Text
  import opened Language

  /** What one line is counted as. */
  datatype Kind = Blank | Comment | Code

  /** The loop's variables after some lines: the three counters and `in_comment`. */
  datatype Scan = Scan(blank: nat, comment: nat, code: nat, open: Option<Pair>)

  /** The variables before the first line. */
  const Initial := Scan(0, 0, 0, None)

  function Total(s: Scan): nat {
    s.blank + s.comment + s.code
  }

  /** Some single-line prefix begins the (trimmed) line. */
  predicate HasSinglePrefix(line: string, single: seq<string>) {
    exists i :: 0 <= i < |single| && StartsWith(line, single[i])
  }

  /**
   * Index of the first pair, in declared order, whose `start` begins the line;
   * `|multi|` when there is none.
   */
  function FirstOpener(line: string, multi: seq<Pair>): (k: nat)
    ensures k <= |multi|
    ensures k < |multi| ==> StartsWith(line, multi[k].start)
    ensures forall j :: 0 <= j < k ==> !StartsWith(line, multi[j].start)
  {
    if multi == [] then 0
    else if StartsWith(line, multi[0].start) then 0
    else 1 + FirstOpener(line, multi[1..])
  }

  /**
   * The rules for one trimmed line, given the pair `open` left open by the
   * lines before it: what the line counts as, and what is open after it.
   *  - A blank line is blank, whatever is open.
   *  - A line beginning with a single-line prefix is a comment, whatever is
   *    open, and the open pair stays open.
   *  - While a pair is open, only that pair is considered and the line is a
   *    comment; it closes the pair when it begins with the pair's `start`
   *    or ends with its `end`.
   *  - Otherwise the first pair whose `start` begins the line opens, and the
   *    line is a comment; it closes again on the same line only when the line
   *    ends with `end` and is at least `len(start) + len(end)` bytes long.
   *  - A line nothing matched is code.
   */
  function Step(open: Option<Pair>, line: string, single: seq<string>, multi: seq<Pair>): (r: (Kind, Option<Pair>))
    ensures r.0 == Blank <==> line == []
    ensures r.0 != Comment ==> r.1 == open
  {
    if line == [] then (Blank, open)
    else if HasSinglePrefix(line, single) then (Comment, open)
    else match open
      case Some(d) =>
        if d !in multi then (Code, open)
        else if StartsWith(line, d.start) || EndsWith(line, d.end) then (Comment, None)
        else (Comment, open)
      case None =>
        var k := FirstOpener(line, multi);
        if k == |multi| then (Code, None)
        else if EndsWith(line, multi[k].end) && Utf8Len(line) >= Utf8Len(multi[k].start) + Utf8Len(multi[k].end)
        then (Comment, None)
        else (Comment, Some(multi[k]))
  }

  /** The variables after one more (untrimmed) line of the file. */
  function Next(s: Scan, raw: string, single: seq<string>, multi: seq<Pair>): (r: Scan)
    ensures s.blank <= r.blank && s.comment <= r.comment && s.code <= r.code
  {
    var (kind, open) := Step(s.open, Trim(raw), single, multi);
    match kind
    case Blank => Scan(s.blank + 1, s.comment, s.code, open)
    case Comment => Scan(s.blank, s.comment + 1, s.code, open)
    case Code => Scan(s.blank, s.comment, s.code + 1, open)
  }

  /** The variables after `lines`, starting from `s`. */
  function Resume(s: Scan, lines: seq<string>, single: seq<string>, multi: seq<Pair>): (r: Scan)
    decreases |lines|
  {
    if lines == [] then s
    else Next(Resume(s, lines[..|lines| - 1], single, multi), lines[|lines| - 1], single, multi)
  }

  /** The variables after all of `lines`, starting with no block open. */
  function Classify(lines: seq<string>, single: seq<string>, multi: seq<Pair>): (r: Scan)
    ensures Total(r) == |lines|
  {
    ResumeCountsEveryLine(Initial, lines, single, multi);
    Resume(Initial, lines, single, multi)
  }

  /**
   * The classification loop. `content` is the file's text; the counters are
   * returned, `in_comment` is local to the loop.
   */
  method CountLines(content: string, single: seq<string>, multi: seq<Pair>) returns (blank: nat, comment: nat, code: nat)
    ensures var r := Classify(Lines(content), single, multi);
      blank == r.blank && comment == r.comment && code == r.code
  {
    var lines := Lines(content);
    blank, comment, code := 0, 0, 0;
    var inComment: Option<Pair> := None;

    label Here:
    for i := 0 to |lines|
      invariant Resume(Initial, lines[..i], single, multi) == Scan(blank, comment, code, inComment)
    {
      assert lines[..i + 1][..i] == lines[..i];
      ghost var s0 := Scan(blank, comment, code, inComment);
      assert Resume(Initial, lines[..i + 1], single, multi) == Next(s0, lines[i], single, multi);
      var line := Trim(lines[i]);
      StepCases(inComment, line, single, multi);

      // empty line
      if line == [] {
        blank := blank + 1;
        continue;
      }

      // match single line comments
      var isSingle := MatchSingle(line, single);
      if isSingle {
        comment := comment + 1;
        continue Here;
      }

      // match multi line comments
      var inBlock;
      inBlock, inComment := MatchPairs(line, multi, inComment);
      if inBlock {
        comment := comment + 1;
        continue Here;
      }

      code := code + 1;
    }
    assert lines[..|lines|] == lines;
  }

  /** How `Step` splits its cases, in the order the loop of `CountLines` tests them. */
  lemma StepCases(open: Option<Pair>, line: string, single: seq<string>, multi: seq<Pair>)
    ensures line == [] ==> Step(open, line, single, multi) == (Blank, open)
    ensures line != [] && HasSinglePrefix(line, single) ==> Step(open, line, single, multi) == (Comment, open)
    ensures line != [] && !HasSinglePrefix(line, single) ==>
      Step(open, line, single, multi) == Step(open, line, [], multi)
  {
  }

  /** The loop over the single-line prefixes: whether one of them begins the line. */
  method MatchSingle(line: string, single: seq<string>) returns (found: bool)
    ensures found <==> HasSinglePrefix(line, single)
  {
    for j := 0 to |single|
      invariant forall j' :: 0 <= j' < j ==> !StartsWith(line, single[j'])
    {
      if StartsWith(line, single[j]) {
        return true;
      }
    }
    return false;
  }

  /**
   * The pair-matching loop of one non-blank line that no single-line prefix
   * begins: whether the line is in a block comment, and the open pair after
   * it. `inComment` is the open pair before the line.
   */
  method MatchPairs(line: string, multi: seq<Pair>, open0: Option<Pair>) returns (inBlock: bool, inComment: Option<Pair>)
    requires line != []
    ensures (if inBlock then Comment else Code, inComment) == Step(open0, line, [], multi)
  {
    inBlock := false;
    inComment := open0;
    for j := 0 to |multi|
      invariant inComment == open0
      invariant inComment.None? ==> forall j' :: 0 <= j' < j ==> !StartsWith(line, multi[j'].start)
      invariant inComment.Some? ==> forall j' :: 0 <= j' < j ==> multi[j'] != inComment.value
    {
      var start, end := multi[j].start, multi[j].end;
      if inComment.Some? && inComment.value != multi[j] {
        continue;
      }

      // a block comment may open and close on one line
      var sameLine := false;
      if StartsWith(line, start) {
        match inComment {
          case Some(_) =>
            inBlock := true;
            inComment := None;
            return;
          case None =>
            sameLine := true;
            inComment := Some(multi[j]);
        }
      }

      // this line is in a comment
      if inComment.Some? {
        inBlock := true;
        if EndsWith(line, end) {
          if sameLine {
            if Utf8Len(line) >= Utf8Len(start) + Utf8Len(end) {
              inComment := None;
            }
          } else {
            inComment := None;
          }
        }
        return;
      }
    }
    if inComment.Some? {
      assert inComment.value !in multi;
    } else {
      assert FirstOpener(line, multi) == |multi|;
    }
  }

  // ---------------------------------------------------------------------------
  // Properties of the rules

  /** Every line increments exactly one counter, starting from any variables. */
  lemma {:induction false} ResumeCountsEveryLine(s: Scan, lines: seq<string>, single: seq<string>, multi: seq<Pair>)
    ensures Total(Resume(s, lines, single, multi)) == Total(s) + |lines|
    decreases |lines|
  {
    if lines != [] {
      ResumeCountsEveryLine(s, lines[..|lines| - 1], single, multi);
    }
  }

  /** `blank + comment + code` is the number of lines of the file. */
  lemma ClassifyCountsEveryLine(lines: seq<string>, single: seq<string>, multi: seq<Pair>)
    ensures Total(Classify(lines, single, multi)) == |lines|
  {
    ResumeCountsEveryLine(Initial, lines, single, multi);
  }

  /** The open pair is always one of the declared pairs. */
  lemma {:induction false} ClassifyOpenIsDeclared(lines: seq<string>, single: seq<string>, multi: seq<Pair>)
    ensures var o := Classify(lines, single, multi).open; o.None? || o.value in multi
    decreases |lines|
  {
    if lines != [] {
      ClassifyOpenIsDeclared(lines[..|lines| - 1], single, multi);
    }
  }

  /**
   * Blank first: a line of white space only counts as blank and leaves the
   * open pair as it was, even inside a block comment.
   */
  lemma BlankLineKeepsState(s: Scan, raw: string, single: seq<string>, multi: seq<Pair>)
    requires AllWhitespace(raw)
    ensures Next(s, raw, single, multi) == Scan(s.blank + 1, s.comment, s.code, s.open)
  {
    TrimEmptyIffAllWhitespace(raw);
  }

  /**
   * A non-blank line that begins with a single-line prefix counts as one
   * comment and leaves the open pair as it was, whether or not a block is open.
   */
  lemma SinglePrefixKeepsState(s: Scan, raw: string, single: seq<string>, multi: seq<Pair>, i: nat)
    requires !AllWhitespace(raw)
    requires i < |single| && StartsWith(Trim(raw), single[i])
    ensures Next(s, raw, single, multi) == Scan(s.blank, s.comment + 1, s.code, s.open)
  {
    TrimEmptyIffAllWhitespace(raw);
  }

  /**
   * While a declared pair is open, a non-blank line is a comment, never code;
   * it closes the pair exactly when it begins with the pair's `start` or ends
   * with its `end`, unless a single-line prefix took it first.
   */
  lemma InsideBlockIsComment(s: Scan, raw: string, single: seq<string>, multi: seq<Pair>)
    requires s.open.Some? && s.open.value in multi
    requires !AllWhitespace(raw)
    ensures Next(s, raw, single, multi).comment == s.comment + 1
    ensures Next(s, raw, single, multi).code == s.code
    ensures var line, d := Trim(raw), s.open.value;
      Next(s, raw, single, multi).open
        == if !HasSinglePrefix(line, single) && (StartsWith(line, d.start) || EndsWith(line, d.end)) then None else s.open
  {
    TrimEmptyIffAllWhitespace(raw);
  }

  /**
   * From a declared state, a line counts as code exactly when it is not blank,
   * no single-line prefix begins it, no block is open and no pair's `start`
   * begins it.
   */
  lemma CodeIff(open: Option<Pair>, line: string, single: seq<string>, multi: seq<Pair>)
    requires open.None? || open.value in multi
    ensures Step(open, line, single, multi).0 == Code
      <==> && line != []
           && !HasSinglePrefix(line, single)
           && open.None?
           && forall j :: 0 <= j < |multi| ==> !StartsWith(line, multi[j].start)
  {
  }

  /**
   * With no block open, a non-blank line without a single-line prefix whose
   * first matching pair (in declared order) is `multi[k]` is a comment; the
   * pair stays open unless the line also ends with `end` and is long enough to
   * hold both markers.
   */
  lemma FirstPairOpens(line: string, single: seq<string>, multi: seq<Pair>, k: nat)
    requires line != [] && !HasSinglePrefix(line, single)
    requires k < |multi| && StartsWith(line, multi[k].start)
    requires forall j :: 0 <= j < k ==> !StartsWith(line, multi[j].start)
    ensures Step(None, line, single, multi).0 == Comment
    ensures Step(None, line, single, multi).1
      == if EndsWith(line, multi[k].end) && Utf8Len(line) >= Utf8Len(multi[k].start) + Utf8Len(multi[k].end)
         then None else Some(multi[k])
  {
    var f := FirstOpener(line, multi);
    assert f == k;
  }

  // ---------------------------------------------------------------------------
  // Lines that do not touch the state

  /** Adds counts to the counters and keeps the open pair. */
  function Shift(s: Scan, blank: nat, comment: nat, code: nat): Scan {
    Scan(s.blank + blank, s.comment + comment, s.code + code, s.open)
  }

  /** Classifying `a + b` is classifying `a` and then `b`. */
  lemma {:induction false} ResumeAppend(s: Scan, a: seq<string>, b: seq<string>, single: seq<string>, multi: seq<Pair>)
    ensures Resume(s, a + b, single, multi) == Resume(Resume(s, a, single, multi), b, single, multi)
    decreases |b|
  {
    if b == [] {
      assert a + b == a;
    } else {
      assert (a + b)[..|a + b| - 1] == a + b[..|b| - 1];
      ResumeAppend(s, a, b[..|b| - 1], single, multi);
    }
  }

  /** The counters never influence the classification: counts added before are carried through. */
  lemma {:induction false} ResumeShift(s: Scan, lines: seq<string>, single: seq<string>, multi: seq<Pair>, blank: nat, comment: nat, code: nat)
    ensures Resume(Shift(s, blank, comment, code), lines, single, multi)
         == Shift(Resume(s, lines, single, multi), blank, comment, code)
    decreases |lines|
  {
    if lines != [] {
      ResumeShift(s, lines[..|lines| - 1], single, multi, blank, comment, code);
    }
  }

  /**
   * Inserting a line of white space anywhere in a file adds one blank line and
   * changes nothing else: neither the other counts nor the block state that
   * later lines see.
   */
  lemma BlankLineIsNeutral(a: seq<string>, w: string, b: seq<string>, single: seq<string>, multi: seq<Pair>)
    requires AllWhitespace(w)
    ensures Classify(a + [w] + b, single, multi) == Shift(Classify(a + b, single, multi), 1, 0, 0)
  {
    var s := Classify(a, single, multi);
    calc {
      Classify(a + [w] + b, single, multi);
    ==  { ResumeAppend(Initial, a + [w], b, single, multi); }
      Resume(Classify(a + [w], single, multi), b, single, multi);
    ==  { ResumeAppend(Initial, a, [w], single, multi); ResumeOne(s, w, single, multi); }
      Resume(Next(s, w, single, multi), b, single, multi);
    ==  { BlankLineKeepsState(s, w, single, multi); }
      Resume(Shift(s, 1, 0, 0), b, single, multi);
    ==  { ResumeShift(s, b, single, multi, 1, 0, 0); }
      Shift(Resume(s, b, single, multi), 1, 0, 0);
    ==  { ResumeAppend(Initial, a, b, single, multi); }
      Shift(Classify(a + b, single, multi), 1, 0, 0);
    }
  }

  /**
   * Inserting a non-blank line that begins with a single-line prefix anywhere
   * in a file adds one comment line and changes nothing else.
   */
  lemma SingleCommentIsNeutral(a: seq<string>, w: string, b: seq<string>, single: seq<string>, multi: seq<Pair>, i: nat)
    requires !AllWhitespace(w)
    requires i < |single| && StartsWith(Trim(w), single[i])
    ensures Classify(a + [w] + b, single, multi) == Shift(Classify(a + b, single, multi), 0, 1, 0)
  {
    var s := Classify(a, single, multi);
    calc {
      Classify(a + [w] + b, single, multi);
    ==  { ResumeAppend(Initial, a + [w], b, single, multi); }
      Resume(Classify(a + [w], single, multi), b, single, multi);
    ==  { ResumeAppend(Initial, a, [w], single, multi); ResumeOne(s, w, single, multi); }
      Resume(Next(s, w, single, multi), b, single, multi);
    ==  { SinglePrefixKeepsState(s, w, single, multi, i); }
      Resume(Shift(s, 0, 1, 0), b, single, multi);
    ==  { ResumeShift(s, b, single, multi, 0, 1, 0); }
      Shift(Resume(s, b, single, multi), 0, 1, 0);
    ==  { ResumeAppend(Initial, a, b, single, multi); }
      Shift(Classify(a + b, single, multi), 0, 1, 0);
    }
  }

  lemma ResumeOne(s: Scan, w: string, single: seq<string>, multi: seq<Pair>)
    ensures Resume(s, [w], single, multi) == Next(s, w, single, multi)
  {
    assert [w][..0] == [];
  }
}
