/**
 * Java's String.compareTo and the lexicographic order it induces on strings.
 */
module StringOrder {

  /** String.compareTo: the difference of the first pair of characters that
      differ, or the difference of the lengths when one string is a prefix of
      the other. */
  function CompareTo(s: string, t: string): int
    decreases |s|
  {
    if |s| == 0 || |t| == 0 then |s| - |t|
    else if s[0] != t[0] then s[0] as int - t[0] as int
    else CompareTo(s[1..], t[1..])
  }

  /** Lexicographic order, stated independently of CompareTo: `s` is a proper
      prefix of `t`, or at the first position where they differ `s` holds the
      smaller character. */
  ghost predicate Precedes(s: string, t: string) {
    || (|s| < |t| && s == t[..|s|])
    || exists k :: 0 <= k < |s| && k < |t| && s[..k] == t[..k] && s[k] < t[k]
  }

  /** compareTo is zero exactly on equal strings. */
  lemma {:induction false} CompareToZero(s: string, t: string)
    ensures CompareTo(s, t) == 0 <==> s == t
    decreases |s|
  {
    if |s| > 0 && |t| > 0 && s[0] == t[0] {
      CompareToZero(s[1..], t[1..]);
      assert s == [s[0]] + s[1..] && t == [t[0]] + t[1..];
    }
  }

  /** Swapping the arguments negates the result. */
  lemma {:induction false} CompareToAntisymmetric(s: string, t: string)
    ensures CompareTo(t, s) == -CompareTo(s, t)
    decreases |s|
  {
    if |s| > 0 && |t| > 0 && s[0] == t[0] {
      CompareToAntisymmetric(s[1..], t[1..]);
    }
  }

  /** A negative result means exactly that `s` precedes `t` lexicographically. */
  lemma {:induction false} CompareToNegative(s: string, t: string)
    ensures CompareTo(s, t) < 0 <==> Precedes(s, t)
    decreases |s|
  {
    if |s| == 0 {
      assert s == t[..0];
    } else if |t| == 0 {
      assert !Precedes(s, t);
    } else if s[0] != t[0] {
      if s[0] < t[0] {
        assert s[..0] == t[..0];
      } else {
        assert s[0] != t[..|t|][0];
      }
    } else {
      var s', t' := s[1..], t[1..];
      CompareToNegative(s', t');
      if Precedes(s', t') {
        if |s'| < |t'| && s' == t'[..|s'|] {
          assert s == [s[0]] + s' && t[..|s|] == [t[0]] + t'[..|s'|];
        } else {
          var k :| 0 <= k < |s'| && k < |t'| && s'[..k] == t'[..k] && s'[k] < t'[k];
          assert s[..k + 1] == [s[0]] + s'[..k] && t[..k + 1] == [t[0]] + t'[..k];
          assert s[k + 1] < t[k + 1];
        }
      }
      if Precedes(s, t) {
        if |s| < |t| && s == t[..|s|] {
          assert s' == t'[..|s'|];
        } else {
          var k :| 0 <= k < |s| && k < |t| && s[..k] == t[..k] && s[k] < t[k];
          assert k > 0;
          assert s'[..k - 1] == s[..k][1..] && t'[..k - 1] == t[..k][1..];
          assert s'[k - 1] < t'[k - 1];
        }
      }
    }
  }

  /** The order compareTo defines is transitive. */
  lemma {:induction false} CompareToTransitive(a: string, b: string, c: string)
    requires CompareTo(a, b) < 0 && CompareTo(b, c) < 0
    ensures CompareTo(a, c) < 0
    decreases |a|
  {
    if |a| > 0 && |b| > 0 && |c| > 0 && a[0] == b[0] == c[0] {
      CompareToTransitive(a[1..], b[1..], c[1..]);
    }
  }
}
