/**
 Shared by several parts of the model.
 */
module Basics {

  /** The number of values of a 32-bit word. */
  const U32: int := 0x1_0000_0000

  /** A 32-bit word as a number. */
  type Word = x: int | 0 <= x < 0x1_0000_0000

  /** The size of a page. */
  const PAGE: int := 0x1000

  /** The sequence without the first `a`, as unlinking leaves it. */
  function Without(s: seq<int>, a: int): seq<int> {
    if s == [] then [] else if s[0] == a then s[1..] else [s[0]] + Without(s[1..], a)
  }

  lemma {:induction false} WithoutAt(s: seq<int>, a: int, p: nat)
    requires p < |s| && s[p] == a && a !in s[..p]
    ensures Without(s, a) == s[..p] + s[p + 1..]
  {
    if p > 0 {
      assert s[0] == s[..p][0];
      assert s[1..][..p - 1] == s[..p][1..];
      WithoutAt(s[1..], a, p - 1);
      assert [s[0]] + (s[1..][..p - 1] + s[1..][p..]) == s[..p] + s[p + 1..];
    }
  }

  ghost predicate Distinct(s: seq<int>) {
    forall i, j :: 0 <= i < j < |s| ==> s[i] != s[j]
  }

  /** Dropping position `p` of a sequence without repetitions drops exactly that element. */
  lemma DropMembers(s: seq<int>, p: nat)
    requires Distinct(s) && p < |s|
    ensures Distinct(s[..p] + s[p + 1..])
    ensures forall x :: x in s[..p] + s[p + 1..] <==> x != s[p] && x in s
  {
    var t := s[..p] + s[p + 1..];
    assert forall i :: 0 <= i < |t| ==> t[i] == s[if i < p then i else i + 1];
    forall x | x != s[p] && x in s
      ensures x in t
    {
      var q :| 0 <= q < |s| && s[q] == x;
      assert t[if q < p then q else q - 1] == x;
    }
  }

  lemma {:induction false} WithoutAbsent(s: seq<int>, a: int)
    requires a !in s
    ensures Without(s, a) == s
  {
    if s != [] {
      WithoutAbsent(s[1..], a);
      assert s == [s[0]] + s[1..];
    }
  }

  lemma WithoutMembers(s: seq<int>, a: int)
    requires Distinct(s)
    ensures Distinct(Without(s, a)) && forall x :: x in Without(s, a) <==> x in s && x != a
  {
    if a in s {
      var p :| 0 <= p < |s| && s[p] == a;
      assert a !in s[..p];
      WithoutAt(s, a, p);
      DropMembers(s, p);
    } else {
      WithoutAbsent(s, a);
    }
  }
}
