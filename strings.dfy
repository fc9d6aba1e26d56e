/** String comparisons used by the endpoints: code-point order, prefixes,
    and case-insensitive substring search. */
module Strings {

  /** `a <= b` in lexicographic code-point order, as Python compares `str`. */
  predicate Le(a: string, b: string)
  {
    if a == [] then true
    else if b == [] then false
    else a[0] < b[0] || (a[0] == b[0] && Le(a[1..], b[1..]))
  }

  /** `a < b` in the same order. */
  predicate Lt(a: string, b: string)
  {
    !Le(b, a)
  }

  lemma {:induction false} LeReflexive(a: string)
    ensures Le(a, a)
  {
    if a != [] {
      LeReflexive(a[1..]);
    }
  }

  lemma {:induction false} LeTotal(a: string, b: string)
    ensures Le(a, b) || Le(b, a)
  {
    if a != [] && b != [] && a[0] == b[0] {
      LeTotal(a[1..], b[1..]);
    }
  }

  lemma {:induction false} LeTransitive(a: string, b: string, c: string)
    requires Le(a, b) && Le(b, c)
    ensures Le(a, c)
  {
    if a != [] && b != [] && c != [] && a[0] == b[0] && b[0] == c[0] {
      LeTransitive(a[1..], b[1..], c[1..]);
    }
  }

  lemma {:induction false} LeAntisymmetric(a: string, b: string)
    requires Le(a, b) && Le(b, a)
    ensures a == b
  {
    if a != [] && b != [] {
      LeAntisymmetric(a[1..], b[1..]);
      assert a == [a[0]] + a[1..];
      assert b == [b[0]] + b[1..];
    }
  }

  /** `Lt` is the strict part of `Le`: Python's `a < b` is `a <= b and a != b`. */
  lemma LtIsStrictLe(a: string, b: string)
    ensures Lt(a, b) <==> Le(a, b) && a != b
  {
    LeTotal(a, b);
    LeReflexive(a);
    if Le(a, b) && Le(b, a) {
      LeAntisymmetric(a, b);
    }
  }

  /** Python's `s.startswith(p)`. */
  predicate StartsWith(s: string, p: string)
  {
    |p| <= |s| && s[..|p|] == p
  }

  /** `n` occurs in `h` at offset `i`. */
  predicate OccursAt(h: string, n: string, i: int)
  {
    0 <= i && i + |n| <= |h| && h[i..i + |n|] == n
  }

  /** Substring search, scanning `h` left to right. */
  predicate Contains(h: string, n: string)
    decreases |h|
  {
    if StartsWith(h, n) then true
    else if h == [] then false
    else Contains(h[1..], n)
  }

  lemma {:induction false} ContainsIff(h: string, n: string)
    ensures Contains(h, n) <==> exists i :: OccursAt(h, n, i)
    decreases |h|
  {
    if StartsWith(h, n) {
      assert OccursAt(h, n, 0);
    } else if h == [] {
    } else {
      ContainsIff(h[1..], n);
      if Contains(h[1..], n) {
        var i :| OccursAt(h[1..], n, i);
        assert h[1..][i..i + |n|] == h[i + 1..i + 1 + |n|];
        assert OccursAt(h, n, i + 1);
      }
      if i :| OccursAt(h, n, i) {
        assert i != 0;
        assert h[1..][i - 1..i - 1 + |n|] == h[i..i + |n|];
        assert OccursAt(h[1..], n, i - 1);
      }
    }
  }

  /** ASCII upper-case letters to lower case; every other character unchanged. */
  function LowerChar(c: char): (r: char)
    ensures 'A' <= c <= 'Z' ==> 'a' <= r <= 'z' && r as int - c as int == 32
    ensures !('A' <= c <= 'Z') ==> r == c
  {
    if 'A' <= c <= 'Z' then (c as int + 32) as char else c
  }

  function Lower(s: string): (r: string)
    ensures |r| == |s|
    ensures forall i :: 0 <= i < |s| ==> r[i] == LowerChar(s[i])
  {
    seq(|s|, i requires 0 <= i < |s| => LowerChar(s[i]))
  }

  /** Lower-casing twice is lower-casing once. */
  lemma LowerIdempotent(s: string)
    ensures Lower(Lower(s)) == Lower(s)
  {
  }

  /** Django's `icontains`: `n` occurs in `h` when both are folded to one case. */
  predicate ContainsIgnoreCase(h: string, n: string)
    ensures ContainsIgnoreCase(h, n) <==> exists i :: OccursAt(Lower(h), Lower(n), i)
  {
    ContainsIff(Lower(h), Lower(n));
    Contains(Lower(h), Lower(n))
  }

  /** An exact occurrence is also a case-insensitive one, and the case of the
      needle does not matter. */
  lemma {:induction false} ContainsIgnoreCaseProperties(h: string, n: string)
    ensures Contains(h, n) ==> ContainsIgnoreCase(h, n)
    ensures ContainsIgnoreCase(h, n) <==> ContainsIgnoreCase(h, Lower(n))
  {
    LowerIdempotent(n);
    ContainsIff(h, n);
    ContainsIff(Lower(h), Lower(n));
    if i :| OccursAt(h, n, i) {
      assert Lower(h)[i..i + |n|] == Lower(n);
      assert OccursAt(Lower(h), Lower(n), i);
    }
  }
}
