/** The arithmetic of the calculator skill: `add`, `subtract`, `multiply`
    and `divide`, each variadic, over exact reals in place of Python floats.

    `subtract`, `multiply` and `divide` are `functools.reduce` over the
    operands, and `add` is Python's `sum`, itself a left fold of `+` that
    starts from 0. All four are written with the one left fold `FoldLeft`,
    and each is related to a closed form (`Total`, `Product`) that does not
    depend on evaluation order. */
module Calculator {
  import opened Results

  /** The error `divide` raises (a `ValueError` in the program). */
  datatype ArithError = DivisionByZero

  /** The binary operators the folds combine operands with. */
  datatype BinOp = Plus | Minus | Times | Over

  /** No element of `ds` is zero, so each may serve as a divisor. */
  predicate NonZero(ds: seq<real>) {
    forall i :: 0 <= i < |ds| ==> ds[i] != 0.0
  }

  function Step(op: BinOp, a: real, b: real): real
    requires op == Over ==> b != 0.0
  {
    match op
    case Plus => a + b
    case Minus => a - b
    case Times => a * b
    case Over => a / b
  }

  /** `reduce(op, [acc] + xs)`: combine `acc` with each element of `xs`,
      from left to right. */
  function FoldLeft(op: BinOp, acc: real, xs: seq<real>): real
    requires op == Over ==> NonZero(xs)
    decreases |xs|
  {
    if xs == [] then acc else FoldLeft(op, Step(op, acc, xs[0]), xs[1..])
  }

  // ---------------------------------------------------------------------
  // Reference definitions

  /** The sum of all elements. */
  function Total(xs: seq<real>): real {
    if xs == [] then 0.0 else xs[0] + Total(xs[1..])
  }

  /** The product of all elements. */
  function Product(xs: seq<real>): real {
    if xs == [] then 1.0 else xs[0] * Product(xs[1..])
  }

  /** A product is zero exactly when one of its factors is. */
  lemma {:induction false} ProductNonZero(xs: seq<real>)
    ensures Product(xs) != 0.0 <==> NonZero(xs)
    decreases |xs|
  {
    if xs != [] {
      ProductNonZero(xs[1..]);
      var x, p := xs[0], Product(xs[1..]);
      assert Product(xs) == x * p;
      assert NonZero(xs) <==> x != 0.0 && NonZero(xs[1..]) by {
        if x != 0.0 && NonZero(xs[1..]) {
          forall i | 1 <= i < |xs| ensures xs[i] != 0.0 {
            assert xs[i] == xs[1..][i - 1];
          }
        }
      }
    }
  }

  // ---------------------------------------------------------------------
  // The operations

  /** `add`: the sum of all operands; 0 for none. */
  function Add(xs: seq<real>): (r: real)
    ensures r == Total(xs)
    ensures xs == [] ==> r == 0.0
  {
    FoldPlusIsTotal(0.0, xs);
    FoldLeft(Plus, 0.0, xs)
  }

  /** `subtract`: 0 for no operands, the operand itself for one, and
      otherwise the first operand minus all the others. */
  function Subtract(xs: seq<real>): (r: real)
    ensures xs == [] ==> r == 0.0
    ensures |xs| == 1 ==> r == xs[0]
    ensures xs != [] ==> r == xs[0] - Total(xs[1..])
  {
    if |xs| == 0 then 0.0
    else if |xs| == 1 then xs[0]
    else
      FoldMinusIsDifference(xs[0], xs[1..]);
      FoldLeft(Minus, xs[0], xs[1..])
  }

  /** `multiply`: the product of all operands, except that no operands give
      0 rather than the empty product 1. */
  function Multiply(xs: seq<real>): (r: real)
    ensures xs == [] ==> r == 0.0 && r != Product(xs)
    ensures xs != [] ==> r == Product(xs)
  {
    if |xs| == 0 then 0.0
    else
      FoldTimesIsProduct(xs[0], xs[1..]);
      FoldLeft(Times, xs[0], xs[1..])
  }

  /** The scan over the divisors that precedes the division: true exactly
      when none of them is zero. */
  function CheckDivisors(ds: seq<real>): (ok: bool)
    ensures ok <==> NonZero(ds)
  {
    if ds == [] then true
    else if ds[0] == 0.0 then false
    else CheckDivisors(ds[1..])
  }

  /** `divide`: 0 for no operands, the operand itself for one (even when it
      is zero), an error when any operand after the first is zero, and
      otherwise the first operand divided by the product of the others. */
  function Divide(xs: seq<real>): (r: Result<real, ArithError>)
    ensures r.Failure? <==> exists i :: 1 <= i < |xs| && xs[i] == 0.0
    ensures r.Failure? ==> r.error == DivisionByZero
    ensures |xs| == 0 ==> r == Success(0.0)
    ensures |xs| == 1 ==> r == Success(xs[0])
    ensures |xs| >= 2 && Product(xs[1..]) != 0.0 ==> r == Success(xs[0] / Product(xs[1..]))
  {
    if |xs| == 0 then Success(0.0)
    else if |xs| == 1 then Success(xs[0])
    else if !CheckDivisors(xs[1..]) then
      assert exists i :: 1 <= i < |xs| && xs[i] == 0.0 by {
        var j :| 0 <= j < |xs[1..]| && xs[1..][j] == 0.0;
        assert xs[j + 1] == 0.0;
      }
      ProductNonZero(xs[1..]);
      Failure(DivisionByZero)
    else
      FoldOverIsQuotient(xs[0], xs[1..]);
      Success(FoldLeft(Over, xs[0], xs[1..]))
  }

  // ---------------------------------------------------------------------
  // The folds against their closed forms

  /** Adding the elements one by one to `acc` adds their sum. */
  lemma {:induction false} FoldPlusIsTotal(acc: real, xs: seq<real>)
    ensures FoldLeft(Plus, acc, xs) == acc + Total(xs)
    decreases |xs|
  {
    if xs != [] {
      FoldPlusIsTotal(acc + xs[0], xs[1..]);
    }
  }

  /** Subtracting the elements one by one from `acc` subtracts their sum. */
  lemma {:induction false} FoldMinusIsDifference(acc: real, xs: seq<real>)
    ensures FoldLeft(Minus, acc, xs) == acc - Total(xs)
    decreases |xs|
  {
    if xs != [] {
      FoldMinusIsDifference(acc - xs[0], xs[1..]);
    }
  }

  /** Multiplying `acc` by the elements one by one multiplies it by their product. */
  lemma {:induction false} FoldTimesIsProduct(acc: real, xs: seq<real>)
    ensures FoldLeft(Times, acc, xs) == acc * Product(xs)
    decreases |xs|
  {
    if xs != [] {
      var x, rest := xs[0], xs[1..];
      var p := Product(rest);
      FoldTimesIsProduct(acc * x, rest);
      assert FoldLeft(Times, acc, xs) == FoldLeft(Times, acc * x, rest) by {
        assert Step(Times, acc, x) == acc * x;
      }
      assert Product(xs) == x * p;
      MulAssoc(acc, x, p);
    }
  }

  lemma MulAssoc(a: real, b: real, c: real)
    ensures a * b * c == a * (b * c)
  {
  }

  /** Dividing `acc` by non-zero elements one by one divides it by their product. */
  lemma {:induction false} FoldOverIsQuotient(acc: real, xs: seq<real>)
    requires NonZero(xs)
    ensures Product(xs) != 0.0 && FoldLeft(Over, acc, xs) == acc / Product(xs)
    decreases |xs|
  {
    ProductNonZero(xs);
    if xs != [] {
      var x, rest := xs[0], xs[1..];
      var p := Product(rest);
      FoldOverIsQuotient(acc / x, rest);
      assert FoldLeft(Over, acc, xs) == FoldLeft(Over, acc / x, rest) by {
        assert Step(Over, acc, x) == acc / x;
      }
      assert Product(xs) == x * p;
      DivideTwice(acc, x, p);
    }
  }

  lemma DivideTwice(a: real, b: real, c: real)
    requires b != 0.0 && c != 0.0
    ensures a / b / c == a / (b * c)
  {
    var q := a / b / c;
    assert q * c == a / b;
    assert q * c * b == a;
    assert q * (b * c) == a;
  }

  // ---------------------------------------------------------------------
  // Order independence of the sum and the product

  /** The sum of `ys` is its element at `i` plus the sum of the others. */
  lemma {:induction false} TotalRemove(ys: seq<real>, i: nat)
    requires i < |ys|
    ensures Total(ys) == ys[i] + Total(ys[..i] + ys[i + 1..])
    decreases i
  {
    if i == 0 {
      assert ys[..0] + ys[1..] == ys[1..];
    } else {
      var tail := ys[1..];
      TotalRemove(tail, i - 1);
      var rest := tail[..i - 1] + tail[i..];
      assert ys[..i] + ys[i + 1..] == [ys[0]] + rest;
      assert ([ys[0]] + rest)[1..] == rest;
    }
  }

  /** The product of `ys` is its element at `i` times the product of the others. */
  lemma {:induction false} ProductRemove(ys: seq<real>, i: nat)
    requires i < |ys|
    ensures Product(ys) == ys[i] * Product(ys[..i] + ys[i + 1..])
    decreases i
  {
    if i == 0 {
      assert ys[..0] + ys[1..] == ys[1..];
    } else {
      var tail := ys[1..];
      ProductRemove(tail, i - 1);
      var rest := tail[..i - 1] + tail[i..];
      assert ys[..i] + ys[i + 1..] == [ys[0]] + rest;
      assert ([ys[0]] + rest)[1..] == rest;
      Rearrange(ys[0], ys[i], Product(rest));
    }
  }

  lemma Rearrange(a: real, x: real, b: real)
    ensures a * (x * b) == x * (a * b)
  {
  }

  /** Taking the first element out of `xs` and an equal one out of a
      permutation `ys` of it leaves two permutations of each other. */
  lemma RemoveMatching(xs: seq<real>, ys: seq<real>, i: nat)
    requires multiset(xs) == multiset(ys)
    requires xs != [] && i < |ys| && ys[i] == xs[0]
    ensures multiset(xs[1..]) == multiset(ys[..i] + ys[i + 1..])
  {
    assert xs == [xs[0]] + xs[1..];
    assert ys == ys[..i] + [ys[i]] + ys[i + 1..];
    calc {
      multiset(xs[1..]);
      multiset(xs) - multiset{xs[0]};
      multiset(ys) - multiset{ys[i]};
      multiset(ys[..i]) + multiset(ys[i + 1..]);
      multiset(ys[..i] + ys[i + 1..]);
    }
  }

  /** The sum does not depend on the order of the operands. */
  lemma {:induction false} TotalPermutation(xs: seq<real>, ys: seq<real>)
    requires multiset(xs) == multiset(ys)
    ensures Total(xs) == Total(ys)
    decreases |xs|
  {
    if xs == [] {
      assert |multiset(ys)| == 0;
    } else {
      assert xs[0] in multiset(ys);
      var i :| 0 <= i < |ys| && ys[i] == xs[0];
      RemoveMatching(xs, ys, i);
      TotalPermutation(xs[1..], ys[..i] + ys[i + 1..]);
      TotalRemove(ys, i);
    }
  }

  /** The product does not depend on the order of the operands. */
  lemma {:induction false} ProductPermutation(xs: seq<real>, ys: seq<real>)
    requires multiset(xs) == multiset(ys)
    ensures Product(xs) == Product(ys)
    decreases |xs|
  {
    if xs == [] {
      assert |multiset(ys)| == 0;
    } else {
      assert xs[0] in multiset(ys);
      var i :| 0 <= i < |ys| && ys[i] == xs[0];
      RemoveMatching(xs, ys, i);
      ProductPermutation(xs[1..], ys[..i] + ys[i + 1..]);
      ProductRemove(ys, i);
    }
  }

  // ---------------------------------------------------------------------
  // Properties that relate the operations

  /** `add` gives the same result for its operands in any order. */
  lemma AddAnyOrder(xs: seq<real>, ys: seq<real>)
    requires multiset(xs) == multiset(ys)
    ensures Add(xs) == Add(ys)
  {
    TotalPermutation(xs, ys);
  }

  /** `multiply` gives the same result for its operands in any order. */
  lemma MultiplyAnyOrder(xs: seq<real>, ys: seq<real>)
    requires multiset(xs) == multiset(ys)
    ensures Multiply(xs) == Multiply(ys)
  {
    ProductPermutation(xs, ys);
  }

  /** Adding back what `subtract` took away gives the first operand again. */
  lemma SubtractUndoesAdd(xs: seq<real>)
    requires xs != []
    ensures Subtract(xs) + Add(xs[1..]) == xs[0]
  {
  }

  /** Multiplying a successful quotient by the divisors gives the dividend again. */
  lemma DivideUndoesMultiply(xs: seq<real>, q: real)
    requires |xs| >= 2 && Divide(xs) == Success(q)
    ensures q * Multiply(xs[1..]) == xs[0]
  {
    ProductNonZero(xs[1..]);
  }
}
