/**
 * The few operations on Rust's `str` that the line classifier relies on:
 * `starts_with`, `ends_with`, `len` (a length in UTF-8 bytes), `trim` and
 * `lines`. A Rust string is modelled as the sequence of its Unicode scalar
 * values; byte lengths are computed from the UTF-8 encoding of each value.
 */
module Text {

  /** `s.starts_with(p)` for a string pattern `p`. */
  predicate StartsWith(s: string, p: string)
    ensures p == [] ==> StartsWith(s, p)
    ensures StartsWith(s, p) ==> |p| <= |s| && (|p| == |s| ==> s == p)
  {
    |p| <= |s| && s[..|p|] == p
  }

  /** `s.ends_with(p)` for a string pattern `p`. */
  predicate EndsWith(s: string, p: string)
    ensures p == [] ==> EndsWith(s, p)
    ensures EndsWith(s, p) ==> |p| <= |s| && (|p| == |s| ==> s == p)
  {
    |p| <= |s| && s[|s| - |p|..] == p
  }

  /** Number of bytes UTF-8 uses for one scalar value. */
  function Utf8Width(c: char): (w: nat)
    ensures 1 <= w <= 4
    ensures w == 1 <==> (c as int) < 0x80
  {
    if (c as int) < 0x80 then 1
    else if (c as int) < 0x800 then 2
    else if (c as int) < 0x1_0000 then 3
    else 4
  }

  /** `s.len()`: the length of `s` in UTF-8 bytes. */
  function Utf8Len(s: string): (n: nat)
    ensures |s| <= n <= 4 * |s|
  {
    if s == [] then 0 else Utf8Len(s[..|s| - 1]) + Utf8Width(s[|s| - 1])
  }

  /** `char::is_whitespace`: the Unicode White_Space property. */
  predicate IsWhitespace(c: char)
    ensures (c as int) < 0x80 ==> (IsWhitespace(c) <==> c == ' ' || '\t' <= c <= '\r')
  {
    || ('\t' <= c <= '\r')
    || c == ' '
    || c == '\U{85}'
    || c == '\U{A0}'
    || c == '\U{1680}'
    || ('\U{2000}' <= c <= '\U{200A}')
    || c == '\U{2028}'
    || c == '\U{2029}'
    || c == '\U{202F}'
    || c == '\U{205F}'
    || c == '\U{3000}'
  }

  predicate AllWhitespace(s: string) {
    forall i :: 0 <= i < |s| ==> IsWhitespace(s[i])
  }

  /** `str::trim_start`. */
  function TrimStart(s: string): (r: string)
    ensures |r| <= |s|
    ensures r != [] ==> !IsWhitespace(r[0])
    decreases |s|
  {
    if s != [] && IsWhitespace(s[0]) then TrimStart(s[1..]) else s
  }

  /** `str::trim_end`. */
  function TrimEnd(s: string): (r: string)
    ensures |r| <= |s|
    ensures r != [] ==> !IsWhitespace(r[|r| - 1])
    decreases |s|
  {
    if s != [] && IsWhitespace(s[|s| - 1]) then TrimEnd(s[..|s| - 1]) else s
  }

  /** `str::trim`: strips leading and trailing white space. */
  function Trim(s: string): (r: string)
    ensures |r| <= |s|
    ensures r != [] ==> !IsWhitespace(r[0]) && !IsWhitespace(r[|r| - 1])
  {
    TrimEndCut(TrimStart(s));
    TrimEnd(TrimStart(s))
  }

  /** `TrimStart` removes a white-space prefix: the rest of `s` is kept. */
  lemma {:induction false} TrimStartCut(s: string)
    ensures TrimStart(s) == s[|s| - |TrimStart(s)|..]
    ensures AllWhitespace(s[..|s| - |TrimStart(s)|])
    decreases |s|
  {
    if s != [] && IsWhitespace(s[0]) {
      TrimStartCut(s[1..]);
      var n, m := |s|, |TrimStart(s)|;
      assert s[1..][n - 1 - m..] == s[n - m..];
      var w := s[..n - m];
      forall k | 0 <= k < |w| ensures IsWhitespace(w[k]) {
        if k > 0 {
          assert w[k] == s[1..][..n - 1 - m][k - 1];
        }
      }
    }
  }

  /** `TrimEnd` removes a white-space suffix: the rest of `s` is kept. */
  lemma {:induction false} TrimEndCut(s: string)
    ensures TrimEnd(s) == s[..|TrimEnd(s)|]
    ensures AllWhitespace(s[|TrimEnd(s)|..])
    decreases |s|
  {
    if s != [] && IsWhitespace(s[|s| - 1]) {
      TrimEndCut(s[..|s| - 1]);
      var t := TrimEnd(s[..|s| - 1]);
      assert s[|t|..] == s[..|s| - 1][|t|..] + [s[|s| - 1]];
    }
  }

  /**
   * `trim` returns the part of `s` between a white-space prefix and a
   * white-space suffix, and that part neither begins nor ends with white space.
   */
  lemma TrimIsInfix(s: string)
    ensures var t := Trim(s);
      exists i :: 0 <= i && i + |t| <= |s| && t == s[i..i + |t|]
        && AllWhitespace(s[..i]) && AllWhitespace(s[i + |t|..])
    ensures Trim(s) != [] ==> !IsWhitespace(Trim(s)[0]) && !IsWhitespace(Trim(s)[|Trim(s)| - 1])
  {
    TrimStartCut(s);
    var u := TrimStart(s);
    TrimEndCut(u);
    var t := TrimEnd(u);
    var i := |s| - |u|;
    assert u == s[i..] && t == u[..|t|];
    assert t == s[i..i + |t|];
    assert s[i + |t|..] == u[|t|..];
    assert AllWhitespace(s[..i]) && AllWhitespace(s[i + |t|..]);
    if t != [] {
      assert t[0] == u[0];
    }
  }

  /** A line is blank after `trim` exactly when it is all white space. */
  lemma TrimEmptyIffAllWhitespace(s: string)
    ensures Trim(s) == [] <==> AllWhitespace(s)
  {
    TrimStartCut(s);
    var u := TrimStart(s);
    TrimEndCut(u);
    if Trim(s) == [] {
      assert u[0..] == u;
      assert u == [];
      assert s[..|s|] == s;
    }
  }

  /** Index of the first `'\n'` in `s`, or `|s|` when there is none. */
  function NewlineIndex(s: string): (i: nat)
    ensures i <= |s|
    ensures i < |s| ==> s[i] == '\n'
    ensures forall k :: 0 <= k < i ==> s[k] != '\n'
  {
    if s == [] || s[0] == '\n' then 0 else 1 + NewlineIndex(s[1..])
  }

  /** Removes one trailing `'\r'` (the `"\r\n"` line ending). */
  function DropCarriageReturn(s: string): string {
    if s != [] && s[|s| - 1] == '\r' then s[..|s| - 1] else s
  }

  /**
   * `str::lines`: splits at `'\n'`, drops a `'\r'` right before a `'\n'`, and
   * yields no empty final line for a string that ends with a line break.
   */
  function Lines(s: string): (r: seq<string>)
    ensures |r| <= |s|
    ensures r == [] <==> s == []
    decreases |s|
  {
    if s == [] then []
    else
      var i := NewlineIndex(s);
      if i == |s| then [s]
      else [DropCarriageReturn(s[..i])] + Lines(s[i + 1..])
  }

  /** Number of occurrences of `'\n'` in `s`. */
  function NewlineCount(s: string): nat {
    if s == [] then 0 else (if s[0] == '\n' then 1 else 0) + NewlineCount(s[1..])
  }

  lemma {:induction false} NewlineCountAppend(a: string, b: string)
    ensures NewlineCount(a + b) == NewlineCount(a) + NewlineCount(b)
  {
    if a != [] {
      assert (a + b)[1..] == a[1..] + b;
      NewlineCountAppend(a[1..], b);
    } else {
      assert a + b == b;
    }
  }

  lemma {:induction false} NewlineFree(s: string)
    requires forall k :: 0 <= k < |s| ==> s[k] != '\n'
    ensures NewlineCount(s) == 0
  {
    if s != [] {
      NewlineFree(s[1..]);
    }
  }

  /**
   * The number of lines of `s` is its number of line breaks, plus one for a
   * final line that has no line break.
   */
  lemma {:induction false} LinesCount(s: string)
    ensures |Lines(s)| == NewlineCount(s) + (if s != [] && s[|s| - 1] != '\n' then 1 else 0)
    decreases |s|
  {
    if s != [] {
      var i := NewlineIndex(s);
      if i == |s| {
        assert s[..i] == s;
        NewlineFree(s);
      } else {
        var t := s[i + 1..];
        assert |Lines(s)| == 1 + |Lines(t)|;
        LinesCount(t);
        NewlineSplit(s, i);
        if t != [] {
          assert t[|t| - 1] == s[|s| - 1];
        }
      }
    }
  }

  /** Splitting at the first line break: one break, then those of the rest. */
  lemma NewlineSplit(s: string, i: nat)
    requires i < |s| && s[i] == '\n'
    requires forall k :: 0 <= k < i ==> s[k] != '\n'
    ensures NewlineCount(s) == 1 + NewlineCount(s[i + 1..])
  {
    NewlineFree(s[..i]);
    assert s == s[..i] + ([s[i]] + s[i + 1..]);
    NewlineCountAppend(s[..i], [s[i]] + s[i + 1..]);
    NewlineCountAppend([s[i]], s[i + 1..]);
    assert NewlineCount([s[i]]) == 1 by {
      assert [s[i]][1..] == [];
    }
  }

  /** No line returned by `lines` contains a line break. */
  lemma {:induction false} LinesHaveNoBreak(s: string)
    ensures forall j, k :: 0 <= j < |Lines(s)| && 0 <= k < |Lines(s)[j]| ==> Lines(s)[j][k] != '\n'
    decreases |s|
  {
    if s != [] {
      var i := NewlineIndex(s);
      if i < |s| {
        LinesHaveNoBreak(s[i + 1..]);
      }
    }
  }
}
