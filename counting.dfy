/**
 * Counting helpers shared by the detector and the report: distinct values
 * in order of first appearance (the key order of a Python dict filled in a
 * loop), and Tally, the model of `collections.Counter` over names: one
 * (name, count) entry per distinct name, in first-appearance order.
 */
module Counting {

  predicate Distinct<T(==)>(s: seq<T>)
  {
    forall a, b :: 0 <= a < b < |s| ==> s[a] != s[b]
  }

  /** The distinct values of s, each at the place it first appears. */
  function Unique<T(==)>(s: seq<T>): seq<T>
  {
    if |s| == 0 then []
    else
      var u := Unique(s[..|s| - 1]);
      if s[|s| - 1] in u then u else u + [s[|s| - 1]]
  }

  /** Unique keeps exactly the values of s, once each. */
  lemma {:induction false} UniqueMeaning<T>(s: seq<T>)
    ensures forall x :: x in Unique(s) <==> x in s
    ensures Distinct(Unique(s))
    decreases |s|
  {
    if |s| > 0 {
      var n := |s| - 1;
      UniqueMeaning(s[..n]);
      assert s == s[..n] + [s[n]];
    }
  }

  /** Unique of a longer sequence extends the Unique of its prefix. */
  lemma {:induction false} UniqueAppend<T>(s: seq<T>, x: T)
    ensures Unique(s + [x]) == if x in s then Unique(s) else Unique(s) + [x]
  {
    assert (s + [x])[..|s|] == s;
    UniqueMeaning(s);
  }

  type Tally = seq<(string, nat)>

  function Keys(t: Tally): seq<string>
  {
    if |t| == 0 then [] else [t[0].0] + Keys(t[1..])
  }

  /** The count a Tally holds for u, 0 when u has no entry. */
  function Count(t: Tally, u: string): nat
  {
    if |t| == 0 then 0 else if t[0].0 == u then t[0].1 else Count(t[1..], u)
  }

  function Total(t: Tally): nat
  {
    if |t| == 0 then 0 else t[0].1 + Total(t[1..])
  }

  /** One more occurrence of u: its entry grows by one, or a new entry (u, 1) goes last. */
  function Bump(t: Tally, u: string): (r: Tally)
  {
    if |t| == 0 then [(u, 1)]
    else if t[0].0 == u then [(u, t[0].1 + 1)] + t[1..]
    else [t[0]] + Bump(t[1..], u)
  }

  /** Counter(names). */
  function TallyOf(names: seq<string>): Tally
  {
    if |names| == 0 then [] else Bump(TallyOf(names[..|names| - 1]), names[|names| - 1])
  }

  lemma {:induction false} BumpFacts(t: Tally, u: string)
    ensures forall v :: Count(Bump(t, u), v) == Count(t, v) + (if u == v then 1 else 0)
    ensures Total(Bump(t, u)) == Total(t) + 1
    ensures Keys(Bump(t, u)) == if u in Keys(t) then Keys(t) else Keys(t) + [u]
    ensures (forall k :: 0 <= k < |t| ==> t[k].1 > 0) ==> forall k :: 0 <= k < |Bump(t, u)| ==> Bump(t, u)[k].1 > 0
    decreases |t|
  {
    if |t| > 0 && t[0].0 != u {
      BumpFacts(t[1..], u);
      if forall k :: 0 <= k < |t| ==> t[k].1 > 0 {
        assert forall k :: 0 <= k < |t[1..]| ==> t[1..][k].1 > 0 by {
          forall k | 0 <= k < |t[1..]| ensures t[1..][k].1 > 0 {
            assert t[1..][k] == t[k + 1];
          }
        }
      }
    }
  }

  /** A Counter counts exactly the occurrences of each name, and its counts add up to the number of names. */
  lemma {:induction false} TallyCounts(names: seq<string>)
    ensures forall u :: Count(TallyOf(names), u) == multiset(names)[u]
    ensures Total(TallyOf(names)) == |names|
    decreases |names|
  {
    if |names| > 0 {
      var n := |names| - 1;
      var t, x := TallyOf(names[..n]), names[n];
      assert TallyOf(names) == Bump(t, x);
      TallyCounts(names[..n]);
      BumpFacts(t, x);
      MultisetSnoc(names);
    }
  }

  lemma MultisetSnoc<T>(s: seq<T>)
    requires |s| > 0
    ensures multiset(s) == multiset(s[..|s| - 1]) + multiset{s[|s| - 1]}
  {
    assert s == s[..|s| - 1] + [s[|s| - 1]];
  }

  /** A Counter has one positive entry per distinct name, in order of first appearance. */
  lemma {:induction false} TallyKeys(names: seq<string>)
    ensures Keys(TallyOf(names)) == Unique(names)
    ensures forall k :: 0 <= k < |TallyOf(names)| ==> TallyOf(names)[k].1 > 0
    decreases |names|
  {
    if |names| > 0 {
      var n := |names| - 1;
      var t, x := TallyOf(names[..n]), names[n];
      assert TallyOf(names) == Bump(t, x);
      assert Unique(names) == if x in Unique(names[..n]) then Unique(names[..n]) else Unique(names[..n]) + [x];
      TallyKeys(names[..n]);
      BumpFacts(t, x);
    }
  }

  /**
   * A Counter counts exactly the occurrences of each name, its counts add up
   * to the number of names, and it has one positive entry per distinct name,
   * in order of first appearance.
   */
  lemma TallyMeaning(names: seq<string>)
    ensures forall u :: Count(TallyOf(names), u) == multiset(names)[u]
    ensures Total(TallyOf(names)) == |names|
    ensures Keys(TallyOf(names)) == Unique(names)
    ensures forall k :: 0 <= k < |TallyOf(names)| ==> TallyOf(names)[k].1 > 0
  {
    TallyCounts(names);
    TallyKeys(names);
  }
}
