/**
 * src/util.rs: the three-way `compare` over a `PartialOrd` type, here over
 * any strict order `lt` (`a < b` is `lt(a, b)`, `a > b` is `lt(b, a)`), and
 * the orders it is used with: integers, and strings compared as Rust
 * compares `&str`.
 */
module Util {
  datatype Ordering = Less | Equal | Greater

  /** `compare`: `Less` when `a < b`, else `Greater` when `a > b`, else `Equal`. */
  function Compare<T>(lt: (T, T) -> bool, a: T, b: T): (o: Ordering)
    ensures o == Less <==> lt(a, b)
    ensures o == Greater <==> !lt(a, b) && lt(b, a)
    ensures o == Equal <==> !lt(a, b) && !lt(b, a)
  {
    if lt(a, b) then Less else if lt(b, a) then Greater else Equal
  }

  /** `lt` is irreflexive, transitive and total on distinct values. */
  ghost predicate StrictTotalOrder<T(!new)>(lt: (T, T) -> bool) {
    && (forall a :: !lt(a, a))
    && (forall a, b, c :: lt(a, b) && lt(b, c) ==> lt(a, c))
    && (forall a, b :: a != b ==> lt(a, b) || lt(b, a))
  }

  /**
   * Over a strict total order, `compare` is `Less` iff `a < b`, `Greater`
   * iff `a > b`, `Equal` iff `a == b`, and swapping the arguments swaps
   * `Less` and `Greater`.
   */
  lemma CompareSpec<T(!new)>(lt: (T, T) -> bool, a: T, b: T)
    requires StrictTotalOrder(lt)
    ensures Compare(lt, a, b) == Less <==> lt(a, b)
    ensures Compare(lt, a, b) == Greater <==> lt(b, a)
    ensures Compare(lt, a, b) == Equal <==> a == b
    ensures Compare(lt, a, b) == Less <==> Compare(lt, b, a) == Greater
    ensures Compare(lt, a, a) == Equal
  {
    assert !lt(a, a);
  }

  /** `<` on integers. */
  function IntLess(): (T: (int, int) -> bool)
    ensures forall a: int, b: int :: T(a, b) <==> a < b
  {
    (a: int, b: int) => a < b
  }

  /** For integers, `compare` is `Less`, `Greater` or `Equal` as `a < b`, `a > b` or `a == b`. */
  lemma CompareInt(a: int, b: int)
    ensures Compare(IntLess(), a, b) == Less <==> a < b
    ensures Compare(IntLess(), a, b) == Greater <==> a > b
    ensures Compare(IntLess(), a, b) == Equal <==> a == b
  {
  }

  /**
   * `<` on `&str`: lexicographic on the UTF-8 bytes, which is lexicographic
   * on the characters by code point; a proper prefix comes first.
   */
  predicate StrLess(a: string, b: string)
    ensures StrLess(a, b) ==> a != b
    ensures b == [] ==> !StrLess(a, b)
    decreases |a|
  {
    if a == [] then b != []
    else if b == [] then false
    else if a[0] != b[0] then a[0] < b[0]
    else StrLess(a[1..], b[1..])
  }

  lemma {:induction false} StrLessIrreflexive(a: string)
    ensures !StrLess(a, a)
    decreases |a|
  {
    if a != [] {
      StrLessIrreflexive(a[1..]);
    }
  }

  lemma {:induction false} StrLessTransitive(a: string, b: string, c: string)
    requires StrLess(a, b) && StrLess(b, c)
    ensures StrLess(a, c)
    decreases |a|
  {
    if a != [] && a[0] == b[0] && b[0] == c[0] {
      StrLessTransitive(a[1..], b[1..], c[1..]);
    }
  }

  lemma {:induction false} StrLessTotal(a: string, b: string)
    requires a != b
    ensures StrLess(a, b) || StrLess(b, a)
    decreases |a|
  {
    if a != [] && b != [] && a[0] == b[0] {
      assert a[1..] != b[1..] by {
        assert a == [a[0]] + a[1..] && b == [b[0]] + b[1..];
      }
      StrLessTotal(a[1..], b[1..]);
    }
  }

  function StrLessFn(): (T: (string, string) -> bool)
    ensures forall a: string, b: string :: T(a, b) <==> StrLess(a, b)
  {
    (a: string, b: string) => StrLess(a, b)
  }

  /** String `<` is a strict total order. */
  lemma StrLessIsStrictTotalOrder()
    ensures StrictTotalOrder(StrLessFn())
  {
    forall a: string ensures !StrLess(a, a) {
      StrLessIrreflexive(a);
    }
    forall a: string, b: string, c: string | StrLess(a, b) && StrLess(b, c) ensures StrLess(a, c) {
      StrLessTransitive(a, b, c);
    }
    forall a: string, b: string | a != b ensures StrLess(a, b) || StrLess(b, a) {
      StrLessTotal(a, b);
    }
  }

  /** For strings, `compare` is `Equal` exactly on equal strings and antisymmetric; `"Go" < "Rust"` and `"Rust" < "Rusty"`. */
  lemma CompareStr(a: string, b: string)
    ensures Compare(StrLessFn(), a, b) == Equal <==> a == b
    ensures Compare(StrLessFn(), a, b) == Less <==> Compare(StrLessFn(), b, a) == Greater
    ensures Compare(StrLessFn(), "Go", "Rust") == Less
    ensures Compare(StrLessFn(), "Rust", "Rusty") == Less
  {
    StrLessIsStrictTotalOrder();
    CompareSpec(StrLessFn(), a, b);
    assert StrLess("Rust", "Rusty") by {
      assert "Rust"[1..] == "ust" && "Rusty"[1..] == "usty";
      assert "ust"[1..] == "st" && "usty"[1..] == "sty";
      assert "st"[1..] == "t" && "sty"[1..] == "ty";
      assert "t"[1..] == "" && "ty"[1..] == "y";
    }
  }
}
