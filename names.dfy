/**
 The final tie-break of the standings compares team names. The service uses
 `localeCompare`; this model stands in for it with plain lexicographic order
 by Unicode code point. The two differ: a locale collation orders
 "arsenal" before "Chelsea" where code-point order does not, and it may
 report two distinct but canonically equivalent names as equal, which the
 code-point order never does.
 */
module TeamNames {

  /**
   Three-way comparison of two names: negative when `x` sorts first, zero when
   they are equal, positive when `y` sorts first.
   */
  function NameCompare(x: string, y: string): (r: int)
    ensures -1 <= r <= 1
  {
    if x == [] && y == [] then 0
    else if x == [] then -1
    else if y == [] then 1
    else if x[0] < y[0] then -1
    else if y[0] < x[0] then 1
    else NameCompare(x[1..], y[1..])
  }

  /**
   Lexicographic order stated directly: `x` is a proper prefix of `y`, or at the
   first position where they differ `x` has the smaller character.
   */
  ghost predicate LexLess(x: string, y: string)
  {
    (|x| < |y| && x == y[..|x|]) ||
    (exists k :: 0 <= k < |x| && k < |y| && x[..k] == y[..k] && x[k] < y[k])
  }

  /** The comparison is zero exactly for equal names. */
  lemma {:induction false} NameCompareZero(x: string, y: string)
    ensures NameCompare(x, y) == 0 <==> x == y
  {
    if x != [] && y != [] && x[0] == y[0] {
      NameCompareZero(x[1..], y[1..]);
      assert x == [x[0]] + x[1..];
      assert y == [y[0]] + y[1..];
    }
  }

  /** Swapping the arguments negates the comparison. */
  lemma {:induction false} NameCompareAntisymmetric(x: string, y: string)
    ensures NameCompare(y, x) == -NameCompare(x, y)
  {
    if x != [] && y != [] && x[0] == y[0] {
      NameCompareAntisymmetric(x[1..], y[1..]);
    }
  }

  /** "Sorts no later than" is transitive. */
  lemma {:induction false} NameCompareTransitive(x: string, y: string, z: string)
    requires NameCompare(x, y) <= 0 && NameCompare(y, z) <= 0
    ensures NameCompare(x, z) <= 0
  {
    if x != [] && y != [] && z != [] && x[0] == y[0] == z[0] {
      NameCompareTransitive(x[1..], y[1..], z[1..]);
    }
  }

  /** A negative comparison means exactly that `x` is lexicographically smaller. */
  lemma {:induction false} NameCompareIsLexicographic(x: string, y: string)
    ensures NameCompare(x, y) < 0 <==> LexLess(x, y)
  {
    if x == [] {
      if y != [] {
        assert x == y[..0];
      }
    } else if y == [] {
      assert !LexLess(x, y);
    } else if x[0] < y[0] {
      assert x[..0] == y[..0];
    } else if y[0] < x[0] {
      LexLessFirst(x, y);
    } else {
      NameCompareIsLexicographic(x[1..], y[1..]);
      LexLessTail(x, y);
    }
  }

  /** A lexicographically smaller name does not start with a larger character. */
  lemma LexLessFirst(x: string, y: string)
    requires x != [] && y != []
    ensures LexLess(x, y) ==> x[0] <= y[0]
  {
    if |x| < |y| && x == y[..|x|] {
      assert x[0] == y[..|x|][0];
    }
    forall k | 0 < k < |x| && k < |y| && x[..k] == y[..k]
      ensures x[0] == y[0]
    {
      assert x[0] == x[..k][0];
      assert y[0] == y[..k][0];
    }
  }

  /** Names with the same first character compare as their tails do. */
  lemma LexLessTail(x: string, y: string)
    requires x != [] && y != [] && x[0] == y[0]
    ensures LexLess(x, y) <==> LexLess(x[1..], y[1..])
  {
    if LexLess(x, y) {
      LexLessDropHead(x, y);
    }
    if LexLess(x[1..], y[1..]) {
      LexLessAddHead(x, y);
    }
  }

  lemma LexLessDropHead(x: string, y: string)
    requires x != [] && y != [] && x[0] == y[0] && LexLess(x, y)
    ensures LexLess(x[1..], y[1..])
  {
    var x', y' := x[1..], y[1..];
    if |x| < |y| && x == y[..|x|] {
      assert x' == y'[..|x'|];
    } else {
      var k :| 0 <= k < |x| && k < |y| && x[..k] == y[..k] && x[k] < y[k];
      assert k != 0;
      assert x'[..k - 1] == x[1..k] == y[1..k] == y'[..k - 1];
      assert x'[k - 1] < y'[k - 1];
    }
  }

  lemma LexLessAddHead(x: string, y: string)
    requires x != [] && y != [] && x[0] == y[0] && LexLess(x[1..], y[1..])
    ensures LexLess(x, y)
  {
    var x', y' := x[1..], y[1..];
    if |x'| < |y'| && x' == y'[..|x'|] {
      assert x == [x[0]] + x';
      assert y[..|x|] == [y[0]] + y'[..|x'|];
    } else {
      var k :| 0 <= k < |x'| && k < |y'| && x'[..k] == y'[..k] && x'[k] < y'[k];
      assert x[..k + 1] == [x[0]] + x'[..k];
      assert y[..k + 1] == [y[0]] + y'[..k];
      assert x[k + 1] < y[k + 1];
    }
  }

}
