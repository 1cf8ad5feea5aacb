/** Shared reference counts (Kext/simpleBase.h).  Every counted object of the extension, an
    application, a rule or a message, is created with a count, retained and released, and deletes
    itself inside the `Release` that brings the count to 0. */
module References {
  import opened Common

  /** `refs` is the `references` field of every object created so far, alive or not; `freed` lists
      the deletions in the order they happened. */
  datatype Counts<A> = Counts(refs: map<A, int>, freed: seq<A>) {

    function Track(a: A, n: int): Counts<A>
      requires a !in refs
    {
      this.(refs := refs[a := n])
    }

    function Retain(a: A): Counts<A>
      requires a in refs
    {
      this.(refs := refs[a := refs[a] + 1])
    }

    function Release(a: A): Counts<A>
      requires a in refs
    {
      Counts(refs[a := refs[a] - 1], if refs[a] == 1 then freed + [a] else freed)
    }

    /** Deleted exactly the objects whose count is 0, each exactly once. */
    ghost predicate Good() {
      && Distinct(freed)
      && (forall a :: a in refs ==> refs[a] >= 0)
      && (forall a :: a in freed ==> a in refs && refs[a] == 0)
      && (forall a :: a in refs && refs[a] == 0 ==> a in freed)
    }
  }

  lemma TrackGood<A>(c: Counts<A>, a: A, n: int)
    requires c.Good() && a !in c.refs && n > 0
    ensures c.Track(a, n).Good()
  {}

  /** `Retain` is sound only on an object that has not been deleted. */
  lemma RetainGood<A>(c: Counts<A>, a: A)
    requires c.Good() && a in c.refs
    ensures c.Retain(a).Good() <==> a !in c.freed
  {}

  /** `Release` keeps the law only while somebody still holds the object. */
  lemma ReleaseGood<A>(c: Counts<A>, a: A)
    requires c.Good() && a in c.refs
    ensures c.Release(a).Good() <==> a !in c.freed
    ensures a !in c.freed ==> c.Release(a).freed == if c.refs[a] == 1 then c.freed + [a] else c.freed
  {}

  /** Releasing a whole list, as the drain and clear loops do. */
  function ReleaseAll<A>(c: Counts<A>, s: seq<A>): (r: Counts<A>)
    requires forall a :: a in s ==> a in c.refs
    ensures r.refs.Keys == c.refs.Keys
    decreases |s|
  {
    if s == [] then c else ReleaseAll(c.Release(s[0]), s[1..])
  }

  /** If every object is held at least as often as the list names it, releasing the list lowers each
      count by its number of occurrences and deletes exactly those that drop to 0. */
  lemma {:induction false} ReleaseAllGood<A>(c: Counts<A>, s: seq<A>)
    requires c.Good()
    requires forall a :: a in s ==> a in c.refs
    requires forall a :: a in s ==> c.refs[a] >= multiset(s)[a]
    ensures ReleaseAll(c, s).Good()
    ensures forall a :: a in c.refs ==> ReleaseAll(c, s).refs[a] == c.refs[a] - multiset(s)[a]
    ensures c.freed <= ReleaseAll(c, s).freed
    decreases |s|
  {
    if s != [] {
      assert s == [s[0]] + s[1..];
      assert multiset(s) == multiset{s[0]} + multiset(s[1..]);
      ReleaseGood(c, s[0]);
      ReleaseAllGood(c.Release(s[0]), s[1..]);
    }
  }


  lemma ReleaseOne<A>(c: Counts<A>, a: A)
    requires a in c.refs
    ensures ReleaseAll(c, [a]) == c.Release(a)
  {
    assert [a][1..] == [];
  }

  lemma {:induction false} ReleaseAllConcat<A>(c: Counts<A>, s: seq<A>, t: seq<A>)
    requires forall a :: a in s + t ==> a in c.refs
    ensures ReleaseAll(c, s + t) == ReleaseAll(ReleaseAll(c, s), t)
    decreases |s|
  {
    if s == [] {
      assert s + t == t;
    } else {
      assert (s + t)[0] == s[0] && (s + t)[1..] == s[1..] + t;
      ReleaseAllConcat(c.Release(s[0]), s[1..], t);
    }
  }
}
