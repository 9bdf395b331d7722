/**
 * Go strings are immutable sequences of bytes, and Go's `<` on strings compares
 * them byte by byte: the first differing byte decides, and when one string is a
 * prefix of the other the shorter one is smaller.
 */
module GoStrings {

  newtype Byte = b: int | 0 <= b < 256

  type GoString = seq<Byte>

  /** Go's `a < b` on strings, defined by recursion on the leading bytes. */
  predicate LexLess(a: GoString, b: GoString)
    decreases |a|
  {
    if |b| == 0 then false
    else if |a| == 0 then true
    else if a[0] != b[0] then a[0] < b[0]
    else LexLess(a[1..], b[1..])
  }

  /**
   * An independent description of the same order: `a` is a proper prefix of
   * `b`, or the two agree up to some position `k` where `a` has the smaller byte.
   */
  ghost predicate LexLessSpec(a: GoString, b: GoString) {
    || (|a| < |b| && a == b[..|a|])
    || exists k :: 0 <= k < |a| && k < |b| && a[..k] == b[..k] && a[k] < b[k]
  }

  /** The recursive order and the prefix/first-difference description coincide. */
  lemma {:induction false} LexLessMeaning(a: GoString, b: GoString)
    ensures LexLess(a, b) <==> LexLessSpec(a, b)
    decreases |a|
  {
    if |b| == 0 {
    } else if |a| == 0 {
      assert a == b[..0];
    } else if a[0] != b[0] {
      if a[0] < b[0] {
        assert a[..0] == b[..0];
      } else {
        forall k | 0 < k <= |a| && k <= |b|
          ensures a[..k] != b[..k]
        {
          assert a[..k][0] != b[..k][0];
        }
        if |a| < |b| {
          assert b[..|a|][0] != a[0];
        }
      }
    } else {
      LexLessMeaning(a[1..], b[1..]);
      var a', b' := a[1..], b[1..];
      if LexLessSpec(a', b') {
        if |a'| < |b'| && a' == b'[..|a'|] {
          assert a == [a[0]] + a' && b[..|a|] == [b[0]] + b'[..|a'|];
        } else {
          var k :| 0 <= k < |a'| && k < |b'| && a'[..k] == b'[..k] && a'[k] < b'[k];
          assert a[..k + 1] == [a[0]] + a'[..k] && b[..k + 1] == [b[0]] + b'[..k];
        }
      }
      if LexLessSpec(a, b) {
        if |a| < |b| && a == b[..|a|] {
          assert a' == b'[..|a'|];
        } else {
          var k :| 0 <= k < |a| && k < |b| && a[..k] == b[..k] && a[k] < b[k];
          assert k > 0;
          assert a'[..k - 1] == a[..k][1..] == b[..k][1..] == b'[..k - 1];
          assert a'[k - 1] < b'[k - 1];
        }
      }
    }
  }

  lemma {:induction false} LexLessIrreflexive(a: GoString)
    ensures !LexLess(a, a)
    decreases |a|
  {
    if |a| > 0 {
      LexLessIrreflexive(a[1..]);
    }
  }

  lemma {:induction false} LexLessAsymmetric(a: GoString, b: GoString)
    ensures LexLess(a, b) ==> !LexLess(b, a)
    decreases |a|
  {
    if |a| > 0 && |b| > 0 && a[0] == b[0] {
      LexLessAsymmetric(a[1..], b[1..]);
    }
  }

  lemma {:induction false} LexLessTransitive(a: GoString, b: GoString, c: GoString)
    ensures LexLess(a, b) && LexLess(b, c) ==> LexLess(a, c)
    decreases |a|
  {
    if |a| > 0 && |b| > 0 && |c| > 0 && a[0] == b[0] == c[0] {
      LexLessTransitive(a[1..], b[1..], c[1..]);
    }
  }

  /** For any two strings exactly one of `a < b`, `b < a` and `a == b` holds. */
  lemma {:induction false} LexLessTrichotomous(a: GoString, b: GoString)
    ensures LexLess(a, b) || LexLess(b, a) || a == b
    ensures !(LexLess(a, b) && LexLess(b, a))
    ensures a == b ==> !LexLess(a, b)
    decreases |a|
  {
    LexLessAsymmetric(a, b);
    LexLessIrreflexive(a);
    if |a| > 0 && |b| > 0 && a[0] == b[0] {
      LexLessTrichotomous(a[1..], b[1..]);
      if a[1..] == b[1..] {
        assert a == [a[0]] + a[1..] && b == [b[0]] + b[1..];
      }
    }
  }
}
