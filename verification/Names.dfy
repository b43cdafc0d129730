/**
 Unit, module and package names, ordered as Go orders strings: bytewise and
 lexicographically. Every "sorted" promise of the resolver rests on this order.
 */
module Names {

  type Name = string

  /** Strict lexicographic order. */
  predicate Less(a: Name, b: Name) {
    b != [] && (a == [] || a[0] < b[0] || (a[0] == b[0] && Less(a[1..], b[1..])))
  }

  predicate Leq(a: Name, b: Name) {
    a == b || Less(a, b)
  }

  lemma {:induction false} LessIrreflexive(a: Name)
    ensures !Less(a, a)
  {
    if a == [] {
    } else {
      LessIrreflexive(a[1..]);
    }
  }

  lemma {:induction false} LessTransitive(a: Name, b: Name, c: Name)
    requires Less(a, b) && Less(b, c)
    ensures Less(a, c)
  {
    if a != [] && a[0] == b[0] == c[0] {
      LessTransitive(a[1..], b[1..], c[1..]);
    }
  }

  lemma {:induction false} LessTotal(a: Name, b: Name)
    ensures a == b || Less(a, b) || Less(b, a)
  {
    if a != [] && b != [] && a[0] == b[0] {
      LessTotal(a[1..], b[1..]);
      if a[1..] == b[1..] {
        assert a == [a[0]] + a[1..] && b == [b[0]] + b[1..];
      }
    }
  }

  lemma LeqTransitive(a: Name, b: Name, c: Name)
    requires Leq(a, b) && Leq(b, c)
    ensures Leq(a, c)
  {
    if a != b && b != c { LessTransitive(a, b, c); }
  }

  lemma LeqAntisymmetric(a: Name, b: Name)
    requires Leq(a, b) && Leq(b, a)
    ensures a == b
  {
    if a != b {
      LessTransitive(a, b, a);
      LessIrreflexive(a);
    }
  }

  /** One name comes before another when it is a proper prefix of it, or smaller at the first place they differ. */
  lemma {:induction false} LessMeans(a: Name, b: Name)
    ensures Less(a, b) <==> a < b || exists k :: 0 <= k < |a| && k < |b| && a[..k] == b[..k] && a[k] < b[k]
  {
    if a == [] || b == [] {
    } else if a[0] != b[0] {
      assert a[..0] == b[..0];
      assert forall k :: 0 < k < |a| && k < |b| ==> a[..k][0] == a[0] && b[..k][0] == b[0];
    } else {
      LessMeans(a[1..], b[1..]);
      assert a == [a[0]] + a[1..] && b == [b[0]] + b[1..];
      forall k | 0 < k < |a| && k < |b|
        ensures a[..k] == b[..k] <==> a[1..][..k - 1] == b[1..][..k - 1]
        ensures a[k] == a[1..][k - 1] && b[k] == b[1..][k - 1]
      {
        assert a[..k] == [a[0]] + a[1..][..k - 1] && b[..k] == [b[0]] + b[1..][..k - 1];
      }
    }
  }

  predicate Sorted(s: seq<Name>) {
    forall i, j {:trigger Leq(s[i], s[j])} :: 0 <= i < j < |s| ==> Leq(s[i], s[j])
  }

  predicate NoDup(s: seq<Name>) {
    forall i, j :: 0 <= i < j < |s| ==> s[i] != s[j]
  }

  function Elems(s: seq<Name>): (r: set<Name>)
    ensures forall x :: x in r <==> x in s
  {
    set x | x in s
  }

  lemma Appended(s: seq<Name>, x: Name)
    ensures Elems(s + [x]) == Elems(s) + {x}
    ensures x !in s && NoDup(s) ==> NoDup(s + [x])
    ensures NoDup(s + [x]) ==> x !in s && NoDup(s)
  {
    var t := s + [x];
    assert t[|s|] == x;
    assert forall i :: 0 <= i < |s| ==> t[i] == s[i];
  }

  lemma Joined(a: seq<Name>, b: seq<Name>)
    ensures Elems(a + b) == Elems(a) + Elems(b)
  {
  }

  lemma JoinNoDup(a: seq<Name>, b: seq<Name>)
    requires NoDup(a) && NoDup(b) && Elems(a) !! Elems(b)
    ensures NoDup(a + b)
  {
    var c := a + b;
    forall i, j | 0 <= i < j < |c| ensures c[i] != c[j] {
      assert c[i] in Elems(a) || i >= |a|;
      assert c[j] in Elems(b) || j < |a|;
    }
  }

  lemma PrefixElems(s: seq<Name>, i: nat)
    requires i < |s|
    ensures Elems(s[..i + 1]) == Elems(s[..i]) + {s[i]}
  {
    assert s[..i + 1] == s[..i] + [s[i]];
  }

  lemma {:induction false} NoDupSize(s: seq<Name>)
    requires NoDup(s)
    ensures |Elems(s)| == |s|
  {
    if s == [] {
    } else {
      NoDupSize(s[1..]);
      assert Elems(s) == {s[0]} + Elems(s[1..]);
      assert s[0] !in Elems(s[1..]);
    }
  }

  /** A list without repeats holds each element once. */
  lemma {:induction false} NoDupMultiset(s: seq<Name>)
    requires NoDup(s)
    ensures multiset(s) == multiset(Elems(s))
  {
    if s == [] {
    } else {
      var t := s[1..];
      NoDupMultiset(t);
      assert s == [s[0]] + t;
      assert Elems(s) == {s[0]} + Elems(t) && s[0] !in Elems(t);
      assert multiset(s) == multiset{s[0]} + multiset(t);
    }
  }

  lemma CountsNoDup(s: seq<Name>)
    requires forall x :: x in s ==> multiset(s)[x] == 1
    ensures NoDup(s)
  {
    forall i, j | 0 <= i < j < |s| ensures s[i] != s[j] {
      var a, b := s[..j], s[j..];
      assert s == a + b;
      assert multiset(s)[s[i]] == multiset(a)[s[i]] + multiset(b)[s[i]];
      assert s[i] == a[i] && s[i] in a;
      assert s[j] == b[0] && s[j] in b;
    }
  }

  /** Insert x into a sorted list. */
  function Insert(x: Name, s: seq<Name>): (r: seq<Name>)
    requires Sorted(s)
    ensures Sorted(r) && multiset(r) == multiset(s) + multiset{x}
  {
    if s == [] then [x]
    else
      assert s == [s[0]] + s[1..];
      if Leq(x, s[0]) then
        assert forall i :: 0 <= i < |s| ==> Leq(x, s[i]) by {
          forall i | 0 <= i < |s| ensures Leq(x, s[i]) {
            LeqTransitive(x, s[0], s[i]);
          }
        }
        [x] + s
      else
        var rest := Insert(x, s[1..]);
        LessTotal(x, s[0]);
        assert forall y :: y in rest ==> Leq(s[0], y) by {
          forall y | y in rest ensures Leq(s[0], y) {
            assert y in multiset(rest);
          }
        }
        [s[0]] + rest
  }

  /** Models sort.Strings. */
  function SortStrings(s: seq<Name>): (r: seq<Name>)
    ensures Sorted(r) && multiset(r) == multiset(s)
  {
    if s == [] then []
    else
      assert s == [s[0]] + s[1..];
      Insert(s[0], SortStrings(s[1..]))
  }

  /** A sorted list is determined by its multiset of elements. */
  lemma {:induction false} SortedUnique(a: seq<Name>, b: seq<Name>)
    requires Sorted(a) && Sorted(b) && multiset(a) == multiset(b)
    ensures a == b
  {
    if a == [] {
      assert |multiset(b)| == 0;
    } else {
      assert a[0] in multiset(b);
      assert b != [];
      assert b[0] in multiset(a);
      LeqAntisymmetric(a[0], b[0]);
      assert a == [a[0]] + a[1..] && b == [b[0]] + b[1..];
      assert multiset(a[1..]) == multiset(a) - multiset{a[0]};
      SortedUnique(a[1..], b[1..]);
    }
  }

  lemma PermutationFacts(r: seq<Name>, s: seq<Name>)
    requires multiset(r) == multiset(s)
    ensures |r| == |s| && Elems(r) == Elems(s) && (NoDup(s) ==> NoDup(r))
  {
    assert |multiset(r)| == |multiset(s)|;
    forall x ensures x in r <==> x in s {
      assert x in r <==> x in multiset(r);
      assert x in s <==> x in multiset(s);
    }
    if NoDup(s) {
      NoDupMultiset(s);
      CountsNoDup(r);
    }
  }

  /** The elements of a set, in order: what collecting map keys and sorting them yields. */
  ghost predicate Lists(r: seq<Name>, s: set<Name>) {
    Sorted(r) && NoDup(r) && Elems(r) == s
  }

  lemma ListsUnique(a: seq<Name>, b: seq<Name>, s: set<Name>)
    requires Lists(a, s) && Lists(b, s)
    ensures a == b
  {
    NoDupMultiset(a);
    NoDupMultiset(b);
    SortedUnique(a, b);
  }

  /** Range over the keys in any order, append each, sort. */
  method SortedKeys(s: set<Name>) returns (r: seq<Name>)
    ensures Lists(r, s) && |r| == |s|
  {
    var left := s;
    var acc: seq<Name> := [];
    while left != {}
      invariant left <= s && Elems(acc) == s - left && NoDup(acc)
      decreases left
    {
      var x :| x in left;
      acc := acc + [x];
      left := left - {x};
    }
    r := SortStrings(acc);
    PermutationFacts(r, acc);
    NoDupSize(r);
  }
}
