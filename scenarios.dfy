/**
 * Worked examples of the classifier on short files with the Rust and Python
 * profiles: the line-by-line behaviour the loop in src/calculate.rs gives.
 */
module Scenarios {
  import opened Wrappers
  import opened Text
  import opened Language
  import opened Classifier

  const RustSingle := ["//", "///", "///!"]
  const RustMulti := [Pair("/*", "*/")]
  const PythonMulti := [Pair("'''", "'''"), Pair("\"", "\"")]

  /** A line with no surrounding white space is its own trim. */
  lemma TrimKeeps(s: string)
    requires s != [] && !IsWhitespace(s[0]) && !IsWhitespace(s[|s| - 1])
    ensures Trim(s) == s
  {
  }

  /** A line comment, an opening line, a blank line and a closing brace: one blank, one comment, two code. */
  lemma LineCommentAndCode()
    ensures Classify(["// hi", "f() {", "", "}"], RustSingle, RustMulti) == Scan(1, 1, 2, None)
  {
    var l0, l1, l2, l3 := "// hi", "f() {", "", "}";
    Unfold4(l0, l1, l2, l3, RustSingle, RustMulti);
    LineCommentRust(Initial, "// hi");
    CodeRust(Scan(0, 1, 0, None), "f() {");
    BlankLineKeepsState(Scan(0, 1, 1, None), "", RustSingle, RustMulti);
    CodeRust(Scan(1, 1, 1, None), "}");
  }

  /** A block over three lines is three comment lines, and closes on the last. */
  lemma ThreeLineBlock()
    ensures Classify(["/*", "text", "*/"], RustSingle, RustMulti) == Scan(0, 3, 0, None)
  {
    Unfold3("/*", "text", "*/", RustSingle, RustMulti);
    OpenRust(Initial, "/*");
    InsideRust(Scan(0, 1, 0, Some(RustPair)), "text");
    CloseRust(Scan(0, 2, 0, Some(RustPair)), "*/");
  }

  /** A block opened and closed on one line is one comment line; the next line is code again. */
  lemma SameLineBlock()
    ensures Classify(["/* short */", "x"], RustSingle, RustMulti) == Scan(0, 1, 1, None)
  {
    Unfold2("/* short */", "x", RustSingle, RustMulti);
    SameLineRust();
    CodeRust(Scan(0, 1, 0, None), "x");
  }

  // The three-character line slash-star-slash ends with the closer but is too short to close the
  // block it opens, so the block stays open and the next line is a comment.
  lemma ShortLineStaysOpen()
    ensures Classify(["/*/", "x"], RustSingle, RustMulti) == Scan(0, 2, 0, Some(RustPair))
  {
    Unfold2("/*/", "x", RustSingle, RustMulti);
    ShortRust();
    InsideRust(Scan(0, 1, 0, Some(RustPair)), "x");
  }

  /** A blank line inside a block counts as blank and the block stays open. */
  lemma BlankInsideBlock()
    ensures Classify(["/*", "  ", "*/", "x"], RustSingle, RustMulti) == Scan(1, 2, 1, None)
  {
    Unfold4("/*", "  ", "*/", "x", RustSingle, RustMulti);
    OpenRust(Initial, "/*");
    var l1 := "  ";
    assert AllWhitespace(l1);
    TrimEmptyIffAllWhitespace(l1);
    assert Next(Scan(0, 1, 0, Some(RustPair)), l1, RustSingle, RustMulti) == Scan(1, 1, 0, Some(RustPair));
    CloseRust(Scan(1, 1, 0, Some(RustPair)), "*/");
    CodeRust(Scan(1, 2, 0, None), "x");
  }

  /** A line comment inside a block counts as comment and does not close the block. */
  lemma LineCommentInsideBlock()
    ensures Classify(["/*", "// */"], RustSingle, RustMulti) == Scan(0, 2, 0, Some(RustPair))
  {
    Unfold2("/*", "// */", RustSingle, RustMulti);
    OpenRust(Initial, "/*");
    LineCommentRust(Scan(0, 1, 0, Some(RustPair)), "// */");
  }

  /** Seeing the opener again closes the block rather than nesting: the line after is code. */
  lemma OpenerClosesBlock()
    ensures Classify(["/* a", "/* b", "c"], RustSingle, RustMulti) == Scan(0, 2, 1, None)
  {
    Unfold3("/* a", "/* b", "c", RustSingle, RustMulti);
    OpenRust(Initial, "/* a");
    CloseRust(Scan(0, 1, 0, Some(RustPair)), "/* b");
    CodeRust(Scan(0, 2, 0, None), "c");
  }

  /** Python: a line of three quotes opens a docstring, the next such line closes it, and the line after is code. */
  lemma PythonDocstring()
    ensures Classify([Triple, "doc", Triple, "x = 1"], ["#"], PythonMulti) == Scan(0, 3, 1, None)
  {
    Unfold4(Triple, "doc", Triple, "x = 1", ["#"], PythonMulti);
    PythonOpen();
    PythonInside(Scan(0, 1, 0, Some(PythonMulti[0])));
    PythonClose(Scan(0, 2, 0, Some(PythonMulti[0])));
    PythonCode(Scan(0, 3, 0, None));
  }

  const RustPair := Pair("/*", "*/")
  const Triple := "\'\'\'"

  lemma Utf8LenAscii(s: string)
    requires forall i :: 0 <= i < |s| ==> (s[i] as int) < 0x80
    ensures Utf8Len(s) == |s|
  {
  }

  /** A line that starts with the opener and does not end with the closer opens a Rust block. */
  lemma OpenRust(s: Scan, l: string)
    requires s.open == None
    requires l == "/*" || l == "/* a"
    ensures Next(s, l, RustSingle, RustMulti) == Scan(s.blank, s.comment + 1, s.code, Some(RustPair))
  {
    TrimKeeps(l);
    assert !HasSinglePrefix(l, RustSingle) by {
      assert l[1] == '*';
    }
    assert StartsWith(l, "/*") && !EndsWith(l, "*/");
  }

  /** Inside a Rust block, a line with neither the opener nor the closer is a comment and keeps it open. */
  lemma InsideRust(s: Scan, l: string)
    requires s.open == Some(RustPair)
    requires l == "text" || l == "x"
    ensures Next(s, l, RustSingle, RustMulti) == Scan(s.blank, s.comment + 1, s.code, Some(RustPair))
  {
    TrimKeeps(l);
    assert !HasSinglePrefix(l, RustSingle) by {
      assert l[0] != '/';
    }
    assert !StartsWith(l, "/*") && !EndsWith(l, "*/");
  }

  /** Inside a Rust block, a line starting with the opener or ending with the closer closes it. */
  lemma CloseRust(s: Scan, l: string)
    requires s.open == Some(RustPair)
    requires l == "*/" || l == "/* b"
    ensures Next(s, l, RustSingle, RustMulti) == Scan(s.blank, s.comment + 1, s.code, None)
  {
    TrimKeeps(l);
    assert !HasSinglePrefix(l, RustSingle) by {
      assert l[0] != '/' || l[1] != '/';
    }
    assert StartsWith(l, "/*") || EndsWith(l, "*/");
  }

  /** A line starting with `//` is a comment and keeps the block state. */
  lemma LineCommentRust(s: Scan, l: string)
    requires l == "// hi" || l == "// */"
    ensures Next(s, l, RustSingle, RustMulti) == Scan(s.blank, s.comment + 1, s.code, s.open)
  {
    TrimKeeps(l);
    assert StartsWith(l, RustSingle[0]);
  }

  /** Outside a block, a line with no comment marker is code. */
  lemma CodeRust(s: Scan, l: string)
    requires s.open == None
    requires l == "x" || l == "c" || l == "f() {" || l == "}"
    ensures Next(s, l, RustSingle, RustMulti) == Scan(s.blank, s.comment, s.code + 1, None)
  {
    TrimKeeps(l);
    assert !HasSinglePrefix(l, RustSingle) by {
      assert l[0] != '/';
    }
    assert FirstOpener(l, RustMulti) == 1;
  }

  lemma SameLineRust()
    ensures Next(Initial, "/* short */", RustSingle, RustMulti) == Scan(0, 1, 0, None)
  {
    var l := "/* short */";
    TrimKeeps(l);
    assert !HasSinglePrefix(l, RustSingle) by {
      assert l[1] == '*';
    }
    assert StartsWith(l, "/*") && EndsWith(l, "*/");
    assert Utf8Len(l) >= |l| == 11;
    Utf8LenAscii("/*");
    Utf8LenAscii("*/");
    assert FirstOpener(l, RustMulti) == 0;
  }

  lemma ShortRust()
    ensures Next(Initial, "/*/", RustSingle, RustMulti) == Scan(0, 1, 0, Some(RustPair))
  {
    var l := "/*/";
    TrimKeeps(l);
    assert !HasSinglePrefix(l, RustSingle) by {
      assert l[1] == '*';
    }
    assert StartsWith(l, "/*") && EndsWith(l, "*/");
    Utf8LenAscii(l);
    Utf8LenAscii("/*");
    Utf8LenAscii("*/");
    assert FirstOpener(l, RustMulti) == 0;
  }

  lemma PythonOpen()
    ensures Next(Initial, Triple, ["#"], PythonMulti) == Scan(0, 1, 0, Some(PythonMulti[0]))
  {
    TrimKeeps(Triple);
    assert !HasSinglePrefix(Triple, ["#"]) by {
      assert Triple[0] != '#';
    }
    assert StartsWith(Triple, PythonMulti[0].start) && EndsWith(Triple, PythonMulti[0].end);
    Utf8LenAscii(Triple);
    assert FirstOpener(Triple, PythonMulti) == 0;
  }

  lemma PythonInside(s: Scan)
    requires s.open == Some(PythonMulti[0])
    ensures Next(s, "doc", ["#"], PythonMulti) == Scan(s.blank, s.comment + 1, s.code, s.open)
  {
    var l := "doc";
    TrimKeeps(l);
    assert !HasSinglePrefix(l, ["#"]) by {
      assert l[0] != '#';
    }
    assert !StartsWith(l, Triple) && !EndsWith(l, Triple);
  }

  lemma PythonClose(s: Scan)
    requires s.open == Some(PythonMulti[0])
    ensures Next(s, Triple, ["#"], PythonMulti) == Scan(s.blank, s.comment + 1, s.code, None)
  {
    TrimKeeps(Triple);
    assert !HasSinglePrefix(Triple, ["#"]) by {
      assert Triple[0] != '#';
    }
    assert StartsWith(Triple, Triple);
  }

  lemma PythonCode(s: Scan)
    requires s.open == None
    ensures Next(s, "x = 1", ["#"], PythonMulti) == Scan(s.blank, s.comment, s.code + 1, None)
  {
    var l := "x = 1";
    TrimKeeps(l);
    assert !HasSinglePrefix(l, ["#"]) by {
      assert l[0] != '#';
    }
    assert !StartsWith(l, Triple) && !StartsWith(l, "\"");
    assert FirstOpener(l, PythonMulti) == 2;
  }

  lemma Snoc(xs: seq<string>, x: string, single: seq<string>, multi: seq<Pair>)
    ensures Classify(xs + [x], single, multi) == Next(Classify(xs, single, multi), x, single, multi)
  {
    assert (xs + [x])[..|xs|] == xs;
  }

  lemma Unfold2(a: string, b: string, single: seq<string>, multi: seq<Pair>)
    ensures Classify([a, b], single, multi) == Next(Next(Initial, a, single, multi), b, single, multi)
  {
    assert [a, b][..1] == [a];
    assert [a][..0] == [];
    assert Resume(Initial, [a], single, multi) == Next(Initial, a, single, multi);
  }

  lemma Unfold3(a: string, b: string, c: string, single: seq<string>, multi: seq<Pair>)
    ensures Classify([a, b, c], single, multi) == Next(Classify([a, b], single, multi), c, single, multi)
    ensures Classify([a, b], single, multi) == Next(Next(Initial, a, single, multi), b, single, multi)
  {
    Unfold2(a, b, single, multi);
    Snoc([a, b], c, single, multi);
    assert [a, b] + [c] == [a, b, c];
  }

  lemma Unfold4(a: string, b: string, c: string, d: string, single: seq<string>, multi: seq<Pair>)
    ensures Classify([a, b, c, d], single, multi) == Next(Classify([a, b, c], single, multi), d, single, multi)
    ensures Classify([a, b, c], single, multi) == Next(Classify([a, b], single, multi), c, single, multi)
    ensures Classify([a, b], single, multi) == Next(Next(Initial, a, single, multi), b, single, multi)
  {
    Unfold3(a, b, c, single, multi);
    Snoc([a, b, c], d, single, multi);
    assert [a, b, c] + [d] == [a, b, c, d];
  }

  /** The text of a file split into lines: the final newline ends the last line, it does not start another. */
  lemma SplitIntoLines()
    ensures Lines("a\r\n\nb\n") == ["a", "", "b"]
  {
    LinesStep1();
    LinesStep2();
    LinesStep3();
  }

  lemma LinesStep1()
    ensures Lines("a\r\n\nb\n") == ["a"] + Lines("\nb\n")
  {
    var s := "a\r\n\nb\n";
    assert NewlineIndex(s) == 2 by {
      assert s[1..] == "\r\n\nb\n" && s[2..] == "\n\nb\n";
    }
    assert s[..2] == "a\r" && s[3..] == "\nb\n";
    assert DropCarriageReturn("a\r") == "a";
  }

  lemma LinesStep2()
    ensures Lines("\nb\n") == [""] + Lines("b\n")
  {
    var t := "\nb\n";
    assert NewlineIndex(t) == 0;
    assert t[..0] == "" && t[1..] == "b\n";
  }

  lemma LinesStep3()
    ensures Lines("b\n") == ["b"]
  {
    var u := "b\n";
    assert NewlineIndex(u) == 1 by {
      assert u[1..] == "\n";
    }
    assert u[..1] == "b" && u[2..] == "";
  }
}
