/**
 Singly linked lists of addresses without repetition, as the kernel chains nodes and
 dentries: pushing at the head and unlinking one element.
 */
module SinglyLinked {
  ghost predicate Distinct(s: seq<nat>)
  {
    forall i, j | 0 <= i < j < |s| :: s[i] != s[j]
  }

  function Without(s: seq<nat>, c: nat): seq<nat>
  {
    if s == [] then [] else if s[0] == c then s[1..] else [s[0]] + Without(s[1..], c)
  }

  lemma DistinctCons(x: nat, s: seq<nat>)
    requires Distinct(s) && x !in s
    ensures Distinct([x] + s)
  {
    var r := [x] + s;
    forall i, j | 0 <= i < j < |r|
      ensures r[i] != r[j]
    {
      assert r[j] == s[j - 1];
    }
  }

  lemma {:induction false} WithoutOne(s: seq<nat>, c: nat)
    requires Distinct(s)
    ensures Distinct(Without(s, c))
    ensures forall x :: x in Without(s, c) <==> x in s && x != c
  {
    if s != [] {
      WithoutOne(s[1..], c);
      assert s == [s[0]] + s[1..];
      assert s[0] !in s[1..];
      if s[0] != c {
        DistinctCons(s[0], Without(s[1..], c));
      }
    }
  }
}
