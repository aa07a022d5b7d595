/**
 * The relational operators `<`, `<=`, `>`, `>=` of JavaScript applied to two
 * strings: the strings are compared character by character from the left,
 * the first position where they differ decides, and a proper prefix is
 * smaller than the longer string.
 */
module JsString {

  /** JavaScript `a < b` on strings. */
  predicate Less(a: string, b: string)
    decreases |a|
  {
    if a == [] then b != []
    else if b == [] then false
    else if a[0] != b[0] then a[0] < b[0]
    else Less(a[1..], b[1..])
  }

  /** JavaScript `a <= b` on strings, which the language defines as `!(b < a)`. */
  predicate LessOrEqual(a: string, b: string) {
    !Less(b, a)
  }

  /**
   * Position-based reading of `a < b`: `a` and `b` agree on their first `k`
   * characters, and there either `a` has ended while `b` goes on, or both go on
   * and `a`'s character is the smaller one.
   */
  ghost predicate SplitsAt(a: string, b: string, k: nat) {
    k <= |a| && k < |b| && a[..k] == b[..k] && (k == |a| || a[k] < b[k])
  }

  /** `Less` is exactly the position-based lexicographic order. */
  lemma {:induction false} LessIffSplits(a: string, b: string)
    ensures Less(a, b) <==> exists k: nat :: SplitsAt(a, b, k)
  {
    if a == [] {
      if b != [] {
        assert SplitsAt(a, b, 0);
      }
    } else if b == [] {
    } else if a[0] != b[0] {
      if a[0] < b[0] {
        assert SplitsAt(a, b, 0);
      } else {
        forall k: nat ensures !SplitsAt(a, b, k) {
          if 0 < k <= |a| && k < |b| {
            assert a[..k][0] == a[0] && b[..k][0] == b[0];
          }
        }
      }
    } else {
      LessIffSplits(a[1..], b[1..]);
      if Less(a[1..], b[1..]) {
        var k: nat :| SplitsAt(a[1..], b[1..], k);
        assert a[..k + 1] == [a[0]] + a[1..][..k];
        assert b[..k + 1] == [b[0]] + b[1..][..k];
        assert SplitsAt(a, b, k + 1);
      } else {
        forall k: nat ensures !SplitsAt(a, b, k) {
          if 0 < k <= |a| && k < |b| {
            assert a[1..][..k - 1] == a[..k][1..];
            assert b[1..][..k - 1] == b[..k][1..];
            assert !SplitsAt(a[1..], b[1..], k - 1);
          }
        }
      }
    }
  }

  /** No string is smaller than itself. */
  lemma {:induction false} LessIrreflexive(a: string)
    ensures !Less(a, a)
  {
    if a != [] {
      LessIrreflexive(a[1..]);
    }
  }

  /** Of two distinct strings exactly one is the smaller. */
  lemma {:induction false} LessTrichotomous(a: string, b: string)
    ensures a == b || Less(a, b) || Less(b, a)
    ensures !(Less(a, b) && Less(b, a))
  {
    if a != [] && b != [] && a[0] == b[0] {
      LessTrichotomous(a[1..], b[1..]);
      if a[1..] == b[1..] {
        assert a == [a[0]] + a[1..] && b == [b[0]] + b[1..];
      }
    }
  }

  /** `Less` is transitive. */
  lemma {:induction false} LessTransitive(a: string, b: string, c: string)
    requires Less(a, b) && Less(b, c)
    ensures Less(a, c)
  {
    if a != [] && a[0] == b[0] && b[0] == c[0] {
      LessTransitive(a[1..], b[1..], c[1..]);
    }
  }

  /** `LessOrEqual` is a total order: reflexive, antisymmetric, transitive, total. */
  lemma LessOrEqualTotalOrder(a: string, b: string, c: string)
    ensures LessOrEqual(a, a)
    ensures LessOrEqual(a, b) && LessOrEqual(b, a) ==> a == b
    ensures LessOrEqual(a, b) && LessOrEqual(b, c) ==> LessOrEqual(a, c)
    ensures LessOrEqual(a, b) || LessOrEqual(b, a)
  {
    LessIrreflexive(a);
    LessTrichotomous(a, b);
    LessTrichotomous(b, c);
    LessTrichotomous(a, c);
    if a != b && b != c && LessOrEqual(a, b) && LessOrEqual(b, c) {
      LessTransitive(a, b, c);
    }
  }
}
