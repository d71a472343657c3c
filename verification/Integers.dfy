/** BigInt arithmetic and sums. */
module Integers {
  import opened Collation

  function Abs(a: int): nat {
    if a < 0 then -a else a
  }

  /** BigInt `a / b`: truncates toward zero. */
  function BigDiv(a: int, b: int): int
    requires b != 0
  {
    if (a < 0) == (b < 0) then Abs(a) / Abs(b) else -(Abs(a) / Abs(b))
  }

  /** BigInt `a % b`: takes the sign of `a`. */
  function BigMod(a: int, b: int): int
    requires b != 0
  {
    a - b * BigDiv(a, b)
  }

  /** On the operands the allocators meet, truncation is floor division. */
  lemma BigDivFloors(a: int, b: int)
    requires a >= 0 && b > 0
    ensures BigDiv(a, b) == a / b && BigMod(a, b) == a % b
    ensures 0 <= BigMod(a, b) < b && a == BigDiv(a, b) * b + BigMod(a, b)
  {
  }

  lemma MulOrdered(a: int, b: int, c: int)
    requires a <= b && c >= 0
    ensures a * c <= b * c
    ensures a < b && c > 0 ==> a * c < b * c
  {
  }

  /** A number at least `g * d + q` with `q < d` has quotient at least `g`. */
  lemma LargerQuotient(f: int, r: int, g: int, q: int, d: int)
    requires d > 0 && 0 <= r < d && 0 <= q < d
    requires f * d + r >= g * d + q
    ensures f >= g && (f == g ==> r >= q)
  {
    assert (f + 1) * d == f * d + d;
    if f < g {
      MulOrdered(f + 1, g, d);
    }
  }

  lemma ExactQuotient(q: int, d: int)
    requires d > 0
    ensures q * d % d == 0 && q * d / d == q
  {
    var x := q * d;
    LargerQuotient(x / d, x % d, q, 0, d);
    LargerQuotient(q, 0, x / d, x % d, d);
  }

  function Sum(s: seq<int>): int {
    if |s| == 0 then 0 else Sum(s[..|s| - 1]) + s[|s| - 1]
  }

  lemma {:induction false} SumOrdered(a: seq<int>, b: seq<int>)
    requires |a| == |b| && forall i :: 0 <= i < |a| ==> a[i] <= b[i]
    ensures Sum(a) <= Sum(b)
  {
    if |a| > 0 {
      SumOrdered(a[..|a| - 1], b[..|b| - 1]);
    }
  }

  // ----- counting, used for how many list elements satisfy a test -----

  function CountIf<T>(s: seq<T>, test: T -> bool): nat {
    if |s| == 0 then 0 else CountIf(s[..|s| - 1], test) + if test(s[|s| - 1]) then 1 else 0
  }

  lemma {:induction false} CountAppend<T>(s: seq<T>, t: seq<T>, test: T -> bool)
    ensures CountIf(s + t, test) == CountIf(s, test) + CountIf(t, test)
  {
    if |t| == 0 {
      assert s + t == s;
    } else {
      assert (s + t)[..|s + t| - 1] == s + t[..|t| - 1];
      CountAppend(s, t[..|t| - 1], test);
    }
  }

  lemma {:induction false} CountPermute<T>(s: seq<T>, t: seq<T>, test: T -> bool)
    requires multiset(s) == multiset(t)
    ensures CountIf(s, test) == CountIf(t, test)
  {
    if |s| == 0 {
      assert |multiset(t)| == 0;
    } else {
      var init, last := s[..|s| - 1], s[|s| - 1];
      var before, after := TakeOut(s, t);
      CountPermute(init, before + after, test);
      CountAppend(before, after, test);
      CountAppend(before + [last], after, test);
      CountAppend(before, [last], test);
    }
  }

  lemma {:induction false} CountBounds<T>(s: seq<T>, test: T -> bool)
    ensures CountIf(s, test) <= |s|
    ensures (forall i :: 0 <= i < |s| ==> test(s[i])) ==> CountIf(s, test) == |s|
    ensures CountIf(s, test) == 0 <==> forall i :: 0 <= i < |s| ==> !test(s[i])
  {
    if |s| > 0 {
      var init := s[..|s| - 1];
      CountBounds(init, test);
      assert forall i :: 0 <= i < |init| ==> init[i] == s[i];
      if CountIf(s, test) == 0 {
        forall i | 0 <= i < |s| ensures !test(s[i]) {
          assert i < |init| ==> !test(init[i]);
        }
      } else if !test(s[|s| - 1]) {
        var i :| 0 <= i < |init| && test(init[i]);
        assert test(s[i]);
      }
    }
  }
}
