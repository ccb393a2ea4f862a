/**
 * src/bin/cloc.rs: the step of `main` that orders the per-language rows by
 * the column the user chose, with `Vec::sort_by` and a closure built on
 * `compare`. `sort_by` is a stable sort; the model sorts by stable
 * insertion, which yields the same order.
 */
module Cloc {
  import opened Util
  import opened Details

  /** `SortBy`: the column to order the rows by. */
  datatype SortBy = Name | Size | Blank | Comment | Code

  /** The value a row is ordered by. */
  datatype Key = Text(s: string) | Count(n: nat)

  /** The field the closure compares for each `SortBy`. */
  function KeyOf(sortBy: SortBy, d: LanguageDetail): (k: Key)
    ensures k.Text? <==> sortBy == Name
  {
    match sortBy
    case Name => Text(d.language)
    case Size => Count(d.bytes)
    case Blank => Count(d.blank)
    case Comment => Count(d.comment)
    case Code => Count(d.code)
  }

  /** `<` between two keys of the same column. */
  predicate KeyLess(a: Key, b: Key)
    ensures KeyLess(a, b) ==> a.Text? == b.Text? && a != b
  {
    match (a, b)
    case (Text(x), Text(y)) => StrLess(x, y)
    case (Count(x), Count(y)) => x < y
    case _ => false
  }

  /** The closure passed to `sort_by`: `compare` on the chosen field. */
  function Cmp(sortBy: SortBy, prev: LanguageDetail, next: LanguageDetail): (o: Ordering)
    ensures o == Less <==> KeyLess(KeyOf(sortBy, prev), KeyOf(sortBy, next))
  {
    match sortBy
    case Name => Compare(StrLessFn(), prev.language, next.language)
    case Size => Compare(IntLess(), prev.bytes, next.bytes)
    case Blank => Compare(IntLess(), prev.blank, next.blank)
    case Comment => Compare(IntLess(), prev.comment, next.comment)
    case Code => Compare(IntLess(), prev.code, next.code)
  }

  /** The closure orders rows as their keys: `Less` iff the first key is smaller, `Equal` iff the keys are equal. */
  lemma CmpIsKeyOrder(sortBy: SortBy, a: LanguageDetail, b: LanguageDetail)
    ensures Cmp(sortBy, a, b) == Less <==> KeyLess(KeyOf(sortBy, a), KeyOf(sortBy, b))
    ensures Cmp(sortBy, a, b) == Greater <==> KeyLess(KeyOf(sortBy, b), KeyOf(sortBy, a))
    ensures Cmp(sortBy, a, b) == Equal <==> KeyOf(sortBy, a) == KeyOf(sortBy, b)
  {
    if sortBy == Name {
      CompareStr(a.language, b.language);
    }
  }

  lemma KeyLessIrreflexive(k: Key)
    ensures !KeyLess(k, k)
  {
    if k.Text? {
      StrLessIrreflexive(k.s);
    }
  }

  lemma KeyLessTransitive(a: Key, b: Key, c: Key)
    requires KeyLess(a, b) && KeyLess(b, c)
    ensures KeyLess(a, c)
  {
    if a.Text? {
      StrLessTransitive(a.s, b.s, c.s);
    }
  }

  /** Two keys of the same column are equal or ordered one way. */
  lemma KeyLessTotal(sortBy: SortBy, a: LanguageDetail, b: LanguageDetail)
    ensures KeyOf(sortBy, a) == KeyOf(sortBy, b) || KeyLess(KeyOf(sortBy, a), KeyOf(sortBy, b)) || KeyLess(KeyOf(sortBy, b), KeyOf(sortBy, a))
  {
    if sortBy == Name && a.language != b.language {
      StrLessTotal(a.language, b.language);
    }
  }

  // ---------------------------------------------------------------------------
  // The stable sort

  /** Where a stable insertion puts `x` into `s`: after every row whose key is not greater than `x`'s, counting from the end. */
  function InsertPos(sortBy: SortBy, s: seq<LanguageDetail>, x: LanguageDetail): (p: nat)
    ensures p <= |s|
    ensures forall m :: p <= m < |s| ==> KeyLess(KeyOf(sortBy, x), KeyOf(sortBy, s[m]))
    ensures p == 0 || !KeyLess(KeyOf(sortBy, x), KeyOf(sortBy, s[p - 1]))
  {
    if s == [] then 0
    else if KeyLess(KeyOf(sortBy, x), KeyOf(sortBy, s[|s| - 1])) then InsertPos(sortBy, s[..|s| - 1], x)
    else |s|
  }

  /** `s` with `x` inserted after the last row whose key is not above `x`'s. */
  function Insert(sortBy: SortBy, s: seq<LanguageDetail>, x: LanguageDetail): (r: seq<LanguageDetail>)
    ensures |r| == |s| + 1
  {
    var p := InsertPos(sortBy, s, x);
    s[..p] + [x] + s[p..]
  }

  /** The rows after `languages.sort_by(..)`. */
  function Sort(sortBy: SortBy, s: seq<LanguageDetail>): (r: seq<LanguageDetail>)
    ensures |r| == |s|
    decreases |s|
  {
    if s == [] then [] else Insert(sortBy, Sort(sortBy, s[..|s| - 1]), s[|s| - 1])
  }

  /** The rows are in non-decreasing key order. */
  predicate Sorted(sortBy: SortBy, s: seq<LanguageDetail>)
    ensures Sorted(sortBy, s) ==> forall i :: 0 < i < |s| ==> !KeyLess(KeyOf(sortBy, s[i]), KeyOf(sortBy, s[i - 1]))
    ensures |s| <= 1 ==> Sorted(sortBy, s)
  {
    forall i, j :: 0 <= i < j < |s| ==> !KeyLess(KeyOf(sortBy, s[j]), KeyOf(sortBy, s[i]))
  }

  /** The rows of `s` whose key equals `k`, in order. */
  function WithKey(sortBy: SortBy, k: Key, s: seq<LanguageDetail>): (r: seq<LanguageDetail>)
    ensures |r| <= |s|
  {
    if s == [] then []
    else WithKey(sortBy, k, s[..|s| - 1]) + (if KeyOf(sortBy, s[|s| - 1]) == k then [s[|s| - 1]] else [])
  }

  lemma {:induction false} WithKeyAppend(sortBy: SortBy, k: Key, a: seq<LanguageDetail>, b: seq<LanguageDetail>)
    ensures WithKey(sortBy, k, a + b) == WithKey(sortBy, k, a) + WithKey(sortBy, k, b)
    decreases |b|
  {
    if b == [] {
      assert a + b == a;
    } else {
      var init, last := b[..|b| - 1], b[|b| - 1];
      assert (a + b)[..|a + b| - 1] == a + init;
      assert (a + b)[|a + b| - 1] == last;
      var x := if KeyOf(sortBy, last) == k then [last] else [];
      calc {
        WithKey(sortBy, k, a + b);
        WithKey(sortBy, k, a + init) + x;
        { WithKeyAppend(sortBy, k, a, init); }
        (WithKey(sortBy, k, a) + WithKey(sortBy, k, init)) + x;
        WithKey(sortBy, k, a) + (WithKey(sortBy, k, init) + x);
        WithKey(sortBy, k, a) + WithKey(sortBy, k, b);
      }
    }
  }

  lemma InsertSorted(sortBy: SortBy, s: seq<LanguageDetail>, x: LanguageDetail)
    requires Sorted(sortBy, s)
    ensures Sorted(sortBy, Insert(sortBy, s, x))
  {
    var p := InsertPos(sortBy, s, x);
    var t := Insert(sortBy, s, x);
    forall i, j | 0 <= i < j < |t| ensures !KeyLess(KeyOf(sortBy, t[j]), KeyOf(sortBy, t[i])) {
      if i < p && j == p {
        // t[i] == s[i] and x is not below s[p - 1], which is not below s[i]
        KeyLessTotal(sortBy, s[p - 1], x);
        if i < p - 1 {
          KeyLessTotal(sortBy, s[i], s[p - 1]);
          if KeyLess(KeyOf(sortBy, x), KeyOf(sortBy, s[i])) {
            KeyLessTransitive(KeyOf(sortBy, s[p - 1]), KeyOf(sortBy, x), KeyOf(sortBy, s[i]));
          }
        }
      } else if i == p && j > p {
        // t[j] == s[j - 1], which is above x
        if KeyLess(KeyOf(sortBy, s[j - 1]), KeyOf(sortBy, x)) {
          KeyLessTransitive(KeyOf(sortBy, s[j - 1]), KeyOf(sortBy, x), KeyOf(sortBy, s[j - 1]));
          KeyLessIrreflexive(KeyOf(sortBy, s[j - 1]));
        }
      } else if i < p && j > p {
        assert t[i] == s[i] && t[j] == s[j - 1];
      } else if j < p {
        assert t[i] == s[i] && t[j] == s[j];
      } else {
        assert t[i] == s[i - 1] && t[j] == s[j - 1];
      }
    }
  }

  /** Inserting `x` adds it to the rows of its key at the end, and leaves the rows of every other key as they were. */
  lemma InsertWithKey(sortBy: SortBy, k: Key, s: seq<LanguageDetail>, x: LanguageDetail)
    ensures WithKey(sortBy, k, Insert(sortBy, s, x)) == WithKey(sortBy, k, s) + (if KeyOf(sortBy, x) == k then [x] else [])
  {
    var p := InsertPos(sortBy, s, x);
    var xs := if KeyOf(sortBy, x) == k then [x] else [];
    assert s == s[..p] + s[p..];
    WithKeyAppend(sortBy, k, s[..p], s[p..]);
    WithKeyAppend(sortBy, k, s[..p] + [x], s[p..]);
    WithKeyAppend(sortBy, k, s[..p], [x]);
    assert [x][..0] == [];
    if KeyOf(sortBy, x) == k {
      WithKeyAbove(sortBy, k, s[p..]);
    }
  }

  /** No row strictly above `k` has key `k`. */
  lemma {:induction false} WithKeyAbove(sortBy: SortBy, k: Key, s: seq<LanguageDetail>)
    requires forall m :: 0 <= m < |s| ==> KeyLess(k, KeyOf(sortBy, s[m]))
    ensures WithKey(sortBy, k, s) == []
  {
    if s != [] {
      WithKeyAbove(sortBy, k, s[..|s| - 1]);
      KeyLessIrreflexive(k);
    }
  }

  /**
   * `sort_by` leaves the rows sorted by the chosen column, as a permutation of
   * the rows it was given, and stable: the rows sharing any one key keep
   * their relative order.
   */
  lemma SortSpec(sortBy: SortBy, s: seq<LanguageDetail>)
    ensures Sorted(sortBy, Sort(sortBy, s))
    ensures multiset(Sort(sortBy, s)) == multiset(s)
    ensures forall k :: WithKey(sortBy, k, Sort(sortBy, s)) == WithKey(sortBy, k, s)
  {
    SortIsSorted(sortBy, s);
    SortIsPermutation(sortBy, s);
    forall k ensures WithKey(sortBy, k, Sort(sortBy, s)) == WithKey(sortBy, k, s) {
      SortIsStable(sortBy, k, s);
    }
  }

  lemma {:induction false} SortIsSorted(sortBy: SortBy, s: seq<LanguageDetail>)
    ensures Sorted(sortBy, Sort(sortBy, s))
    decreases |s|
  {
    if s != [] {
      SortIsSorted(sortBy, s[..|s| - 1]);
      InsertSorted(sortBy, Sort(sortBy, s[..|s| - 1]), s[|s| - 1]);
    }
  }

  lemma {:induction false} SortIsPermutation(sortBy: SortBy, s: seq<LanguageDetail>)
    ensures multiset(Sort(sortBy, s)) == multiset(s)
    decreases |s|
  {
    if s != [] {
      var init, last := s[..|s| - 1], s[|s| - 1];
      var r := Sort(sortBy, init);
      var p := InsertPos(sortBy, r, last);
      assert Sort(sortBy, s) == r[..p] + [last] + r[p..];
      SortIsPermutation(sortBy, init);
      MultisetOfInsert(r, p, last);
      assert multiset(s) == multiset(init) + multiset{last} by {
        assert s == init + [last];
      }
    }
  }

  /** Putting `x` at position `p` adds one `x` to the multiset. */
  lemma MultisetOfInsert(r: seq<LanguageDetail>, p: nat, x: LanguageDetail)
    requires p <= |r|
    ensures multiset(r[..p] + [x] + r[p..]) == multiset(r) + multiset{x}
  {
    assert r == r[..p] + r[p..];
  }

  lemma {:induction false} SortIsStable(sortBy: SortBy, k: Key, s: seq<LanguageDetail>)
    ensures WithKey(sortBy, k, Sort(sortBy, s)) == WithKey(sortBy, k, s)
    decreases |s|
  {
    if s != [] {
      var init, last := s[..|s| - 1], s[|s| - 1];
      SortIsStable(sortBy, k, init);
      InsertWithKey(sortBy, k, Sort(sortBy, init), last);
    }
  }

  /** The rows sorted after one more row: the new row inserted into the sorted rows before it. */
  lemma SortStep(sortBy: SortBy, s: seq<LanguageDetail>, i: nat)
    requires i < |s|
    ensures Sort(sortBy, s[..i + 1]) == Insert(sortBy, Sort(sortBy, s[..i]), s[i])
  {
    assert s[..i + 1][..i] == s[..i];
  }

  /** Sorting by name orders the rows by language; `"Go"` comes before `"Rust"`. */
  lemma SortByNameExample()
    ensures var go, rs := LanguageDetail("Go", 10, 1, 2, 3), LanguageDetail("Rust", 5, 1, 1, 1);
      Sort(Name, [rs, go]) == [go, rs] && Sort(Size, [go, rs]) == [rs, go]
  {
    var go, rs := LanguageDetail("Go", 10, 1, 2, 3), LanguageDetail("Rust", 5, 1, 1, 1);
    assert [rs, go][..1] == [rs] && [go, rs][..1] == [go];
    assert Sort(Name, [rs]) == [rs] && Sort(Size, [go]) == [go] by {
      assert [rs][..0] == [] && [go][..0] == [];
    }
    assert StrLess("Go", "Rust");
    assert InsertPos(Name, [rs], go) == 0 by {
      assert [rs][..0] == [];
    }
    assert InsertPos(Size, [go], rs) == 0 by {
      assert [go][..0] == [];
    }
  }

  /**
   * `languages.sort_by(..)` in place, as a stable insertion sort over the
   * array; only the rows change, so the totals computed beside them are
   * untouched.
   */
  method SortLanguages(a: array<LanguageDetail>, sortBy: SortBy)
    modifies a
    ensures a[..] == Sort(sortBy, old(a[..]))
  {
    ghost var s0 := a[..];
    for i := 0 to a.Length
      invariant a[..i] == Sort(sortBy, s0[..i])
      invariant a[i..] == s0[i..]
    {
      SortStep(sortBy, s0, i);
      assert a[i] == s0[i];
      ghost var before := a[..];
      assert before[i + 1..] == s0[i + 1..];
      InsertLast(a, i, sortBy);
    }
    assert a[..] == a[..a.Length] && s0[..a.Length] == s0;
  }

  /** One pass of the insertion: moves `a[i]` down past the rows above it, into the sorted `a[..i]`. */
  method InsertLast(a: array<LanguageDetail>, i: nat, sortBy: SortBy)
    requires i < a.Length
    modifies a
    ensures a[..i + 1] == Insert(sortBy, old(a[..i]), old(a[i]))
    ensures a[i + 1..] == old(a[i + 1..])
  {
    ghost var prefix := a[..i];
    ghost var rest := a[i + 1..];
    var x := a[i];
    var j := ShiftUp(a, i, x, sortBy);
    a[j] := x;
    InsertedAt(sortBy, prefix, x, j, a[..i + 1]);
    assert a[i + 1..] == rest;
  }

  /** The inner loop of the insertion: moves the rows of `a[..i]` whose key is above `x`'s one place up and returns the gap it leaves. */
  method ShiftUp(a: array<LanguageDetail>, i: nat, x: LanguageDetail, sortBy: SortBy) returns (j: nat)
    requires i < a.Length
    modifies a
    ensures j <= i
    ensures forall m :: 0 <= m < j ==> a[m] == old(a[m])
    ensures forall m :: j < m <= i ==> a[m] == old(a[m - 1])
    ensures forall m :: i < m < a.Length ==> a[m] == old(a[m])
    ensures forall m :: j <= m < i ==> KeyLess(KeyOf(sortBy, x), KeyOf(sortBy, old(a[m])))
    ensures j == 0 || !KeyLess(KeyOf(sortBy, x), KeyOf(sortBy, old(a[j - 1])))
  {
    j := i;
    while j > 0 && KeyLess(KeyOf(sortBy, x), KeyOf(sortBy, a[j - 1]))
      invariant j <= i
      invariant forall m :: 0 <= m < j ==> a[m] == old(a[m])
      invariant forall m :: j < m <= i ==> a[m] == old(a[m - 1])
      invariant forall m :: i < m < a.Length ==> a[m] == old(a[m])
      invariant forall m :: j <= m < i ==> KeyLess(KeyOf(sortBy, x), KeyOf(sortBy, old(a[m])))
    {
      a[j] := a[j - 1];
      j := j - 1;
    }
  }

  /** A sequence holding `s` with `x` placed at the insertion point is `Insert(sortBy, s, x)`. */
  lemma InsertedAt(sortBy: SortBy, s: seq<LanguageDetail>, x: LanguageDetail, j: nat, r: seq<LanguageDetail>)
    requires j <= |s| && |r| == |s| + 1
    requires forall m :: j <= m < |s| ==> KeyLess(KeyOf(sortBy, x), KeyOf(sortBy, s[m]))
    requires j == 0 || !KeyLess(KeyOf(sortBy, x), KeyOf(sortBy, s[j - 1]))
    requires forall m :: 0 <= m < j ==> r[m] == s[m]
    requires r[j] == x
    requires forall m :: j < m < |r| ==> r[m] == s[m - 1]
    ensures r == Insert(sortBy, s, x)
  {
    InsertPosAt(sortBy, s, x, j);
    var t := s[..j] + [x] + s[j..];
    forall m | 0 <= m < |r| ensures r[m] == t[m] {
      if m < j {
        assert t[m] == s[m];
      } else if j < m {
        assert t[m] == s[m - 1];
      }
    }
  }

  /** The insertion point is the one position with every row after it above `x` and the row before it not above `x`. */
  lemma {:induction false} InsertPosAt(sortBy: SortBy, s: seq<LanguageDetail>, x: LanguageDetail, j: nat)
    requires j <= |s|
    requires forall m :: j <= m < |s| ==> KeyLess(KeyOf(sortBy, x), KeyOf(sortBy, s[m]))
    requires j == 0 || !KeyLess(KeyOf(sortBy, x), KeyOf(sortBy, s[j - 1]))
    ensures InsertPos(sortBy, s, x) == j
    decreases |s|
  {
    if s != [] && j < |s| {
      InsertPosAt(sortBy, s[..|s| - 1], x, j);
    }
  }
}
