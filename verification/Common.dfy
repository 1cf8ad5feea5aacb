/** Vocabulary shared by the whole model: optional values, the two forms in which the code is
    studied, and the sequence operations that the tables and queues are described with. */
module Common {

  datatype Option<+T> = None | Some(value: T)

  /** `AsWritten` follows the C++ text literally.  `Corrected` differs from it only in the
      branches whose text departs from its evident intent; each such branch says so. */
  datatype Form = AsWritten | Corrected

  predicate Distinct<T(==)>(s: seq<T>) {
    forall i, j :: 0 <= i < j < |s| ==> s[i] != s[j]
  }

  function ToSet<T>(s: seq<T>): set<T> {
    set x | x in s
  }

  function Bit(b: bool): int {
    if b then 1 else 0
  }

  function RemoveAt<T>(s: seq<T>, i: nat): (r: seq<T>)
    requires i < |s|
    ensures |r| == |s| - 1
  {
    s[..i] + s[i + 1..]
  }

  /** The first components of a list of pairs. */
  function Firsts<A, B>(s: seq<(A, B)>): (r: seq<A>)
    ensures |r| == |s|
  {
    if s == [] then [] else [s[0].0] + Firsts(s[1..])
  }

  lemma {:induction false} FirstsConcat<A, B>(a: seq<(A, B)>, b: seq<(A, B)>)
    ensures Firsts(a + b) == Firsts(a) + Firsts(b)
  {
    if a == [] {
      assert a + b == b;
    } else {
      assert (a + b)[1..] == a[1..] + b;
      FirstsConcat(a[1..], b);
    }
  }

  /** The first index of `x`, or |s| when it does not occur. */
  function IndexOf<T(==)>(s: seq<T>, x: T): (i: nat)
    ensures i <= |s|
    ensures x in s <==> i < |s|
    ensures i < |s| ==> s[i] == x
    ensures forall j :: 0 <= j < i ==> s[j] != x
  {
    if s == [] || s[0] == x then 0 else 1 + IndexOf(s[1..], x)
  }

  /** The elements of `s` that lie in `kept`, in their order. */
  function Keep<T(==)>(s: seq<T>, kept: set<T>): (r: seq<T>)
    ensures forall x :: x in r ==> x in s && x in kept
    ensures forall x :: x in s && x in kept ==> x in r
    ensures |r| <= |s|
  {
    if s == [] then []
    else if s[0] in kept then [s[0]] + Keep(s[1..], kept)
    else Keep(s[1..], kept)
  }

  lemma {:induction false} KeepConcat<T>(s: seq<T>, t: seq<T>, kept: set<T>)
    ensures Keep(s + t, kept) == Keep(s, kept) + Keep(t, kept)
  {
    if s == [] {
      assert s + t == t;
    } else {
      assert (s + t)[1..] == s[1..] + t;
      KeepConcat(s[1..], t, kept);
    }
  }

  lemma RemoveAtMembers<T>(s: seq<T>, i: nat)
    requires i < |s| && Distinct(s)
    ensures Distinct(RemoveAt(s, i))
    ensures ToSet(RemoveAt(s, i)) == ToSet(s) - {s[i]}
  {
    forall x | x in ToSet(s) - {s[i]}
      ensures x in ToSet(RemoveAt(s, i))
    {
      var j :| 0 <= j < |s| && s[j] == x;
      assert x == RemoveAt(s, i)[if j < i then j else j - 1];
    }
  }

  lemma DistinctCount<T>(s: seq<T>)
    requires Distinct(s)
    ensures forall a :: multiset(s)[a] == Bit(a in s)
  {
    forall a
      ensures multiset(s)[a] == Bit(a in s)
    {
      if a in s {
        var i := IndexOf(s, a);
        assert s == s[..i] + [a] + s[i + 1..];
        assert multiset(s) == multiset(s[..i]) + multiset{a} + multiset(s[i + 1..]);
        assert a !in s[..i] && a !in s[i + 1..];
      }
    }
  }

  /** `a` can be obtained from `b` by dropping elements. */
  ghost predicate Subsequence<T>(a: seq<T>, b: seq<T>) {
    a == [] ||
    (b != [] && if a[0] == b[0] then Subsequence(a[1..], b[1..]) else Subsequence(a, b[1..]))
  }

  lemma {:induction false} SubsequenceTail<T>(a: seq<T>, b: seq<T>)
    requires a != [] && Subsequence(a, b)
    ensures Subsequence(a[1..], b)
  {
    if a[0] == b[0] {
      if a[1..] != [] && a[1] != b[0] {
      } else if a[1..] != [] {
        SubsequenceTail(a[1..], b[1..]);
      }
    } else {
      SubsequenceTail(a, b[1..]);
      if a[1..] != [] && a[1] == b[0] {
        SubsequenceTail(a[1..], b[1..]);
      }
    }
  }

  lemma {:induction false} SubsequenceRemove<T>(a: seq<T>, b: seq<T>, i: nat)
    requires Subsequence(a, b) && i < |a|
    ensures Subsequence(RemoveAt(a, i), b)
  {
    if i == 0 {
      SubsequenceTail(a, b);
      assert RemoveAt(a, 0) == a[1..];
    } else if a[0] == b[0] {
      SubsequenceRemove(a[1..], b[1..], i - 1);
      assert RemoveAt(a, i)[1..] == RemoveAt(a[1..], i - 1);
    } else {
      SubsequenceRemove(a, b[1..], i);
    }
  }

  lemma {:induction false} SubsequenceMembers<T>(a: seq<T>, b: seq<T>)
    requires Subsequence(a, b)
    ensures forall x :: x in a ==> x in b
    ensures Distinct(b) ==> Distinct(a)
  {
    if a != [] {
      if a[0] == b[0] {
        SubsequenceMembers(a[1..], b[1..]);
        forall x | x in a ensures x in b {
          if x != a[0] { assert x in a[1..]; }
        }
        if Distinct(b) {
          assert a[0] !in b[1..];
          assert a == [a[0]] + a[1..];
        }
      } else {
        SubsequenceMembers(a, b[1..]);
      }
    }
  }

  /** A subsequence keeps the order of what it keeps. */
  lemma {:induction false} SubsequenceOrder<T>(a: seq<T>, b: seq<T>, i: nat, j: nat)
    requires Subsequence(a, b) && Distinct(b)
    requires i < j < |b| && b[i] in a && b[j] in a
    ensures IndexOf(a, b[i]) < IndexOf(a, b[j])
    decreases |b|
  {
    if a[0] == b[0] {
      SubsequenceMembers(a[1..], b[1..]);
      assert b[j] != b[0];
      if i > 0 {
        assert b[i] != b[0];
        assert b[i] in a[1..] && b[j] in a[1..];
        SubsequenceOrder(a[1..], b[1..], i - 1, j - 1);
      }
    } else {
      SubsequenceMembers(a, b[1..]);
      assert b[0] !in b[1..];
      SubsequenceOrder(a, b[1..], i - 1, j - 1);
    }
  }

}
