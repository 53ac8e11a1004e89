/** Sequences without repetitions, and taking one element out of them. */
module Sequences {

  ghost predicate Distinct<T>(s: seq<T>) {
    forall i, j :: 0 <= i < j < |s| ==> s[i] != s[j]
  }

  ghost function Elems<T>(s: seq<T>): set<T> {
    set x | x in s
  }

  /** What deattaching an element leaves of a list: everything but its first occurrence. */
  function Without<T(==)>(s: seq<T>, x: T): (r: seq<T>)
    ensures forall i :: 0 <= i < |r| ==> r[i] in s
  {
    if s == [] then [] else if s[0] == x then s[1..] else [s[0]] + Without(s[1..], x)
  }

  lemma {:induction false} WithoutIs<T(!new)>(s: seq<T>, x: T)
    requires Distinct(s)
    ensures Distinct(Without(s, x)) && forall y :: y in Without(s, x) <==> y in s && y != x
  {
    if s != [] {
      WithoutIs(s[1..], x);
      if s[0] == x {
        assert x !in s[1..];
      } else {
        assert s[0] !in s[1..];
        assert Without(s, x) == [s[0]] + Without(s[1..], x);
      }
    }
  }

  lemma {:induction false} WithoutIndex<T>(s: seq<T>, x: T) returns (k: nat)
    ensures x in s ==> k < |s| && s[k] == x && Without(s, x) == s[..k] + s[k+1..]
    ensures x !in s ==> Without(s, x) == s
  {
    if s == [] || s[0] == x {
      k := 0;
    } else {
      var i := WithoutIndex(s[1..], x);
      k := i + 1;
      if x in s[1..] {
        assert [s[0]] + s[1..][..i] == s[..k] && s[1..][i+1..] == s[k+1..];
      }
    }
  }

  lemma {:induction false} WithoutAppended<T>(s: seq<T>, x: T)
    requires x !in s
    ensures Without(s + [x], x) == s
  {
    if s != [] {
      assert (s + [x])[1..] == s[1..] + [x];
      WithoutAppended(s[1..], x);
    }
  }

  /** An element that goes to the end and is then taken out. */
  lemma {:induction false} WithoutBumped<T(!new)>(s: seq<T>, x: T)
    requires Distinct(s)
    ensures Without(Without(s, x) + [x], x) == Without(s, x)
  {
    WithoutIs(s, x);
    WithoutAppended(Without(s, x), x);
  }
}
