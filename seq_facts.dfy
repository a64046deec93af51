/** Generic facts about sequences. Stated over an abstract element type, they are cheap to prove
  * and cheap to use, where the same identity over moments, operations or nested sequences makes
  * the solver compare elements. */
module SeqFacts {

  lemma AtLeft<X>(a: seq<X>, b: seq<X>, i: nat)
    requires i < |a|
    ensures (a + b)[i] == a[i]
  {
  }

  lemma AtRight<X>(a: seq<X>, b: seq<X>, i: nat)
    requires i < |b|
    ensures (a + b)[|a| + i] == b[i]
  {
  }

  lemma Regroup<X>(a: seq<X>, b: seq<X>, c: seq<X>, d: seq<X>)
    ensures a + b + c + d == a + (b + (c + d))
  {
  }

  lemma SliceNone<X>(done: seq<X>, s: seq<X>)
    ensures done + s[..0] == done
  {
    assert s[..0] == [];
  }

  lemma SliceAll<X>(done: seq<X>, s: seq<X>)
    ensures done + s[..|s|] == done + s
  {
    assert s[..|s|] == s;
  }

  lemma SliceSnoc<X>(done: seq<X>, s: seq<X>, j: nat)
    requires j < |s|
    ensures done + s[..j + 1] == (done + s[..j]) + [s[j]]
  {
    assert s[..j + 1] == s[..j] + [s[j]];
  }

  /** The elements of a nonempty sequence: its head and those of its tail. */
  lemma MultisetCons<X>(s: seq<X>)
    requires s != []
    ensures multiset(s) == multiset{s[0]} + multiset(s[1..])
  {
    assert s == [s[0]] + s[1..];
  }

  /** Adding first and then rest adds the multiset of both. */
  lemma AddInTwoSteps<X>(before: multiset<X>, mid: multiset<X>, after: multiset<X>,
                         first: multiset<X>, rest: multiset<X>, all: multiset<X>)
    requires mid == before + first && after == mid + rest && all == first + rest
    ensures after == before + all
  {
  }

  lemma MultisetSplit<X>(s: seq<X>, n: nat)
    requires n <= |s|
    ensures multiset(s) == multiset(s[..n]) + multiset(s[n..])
  {
    assert s == s[..n] + s[n..];
  }

  lemma MultisetPrefixCons<X>(s: seq<X>, n: nat)
    requires 1 <= n <= |s|
    ensures multiset(s[..n]) == multiset{s[0]} + multiset(s[1..][..n - 1])
  {
    assert s[..n] == [s[0]] + s[1..][..n - 1];
  }

  lemma ConsSplit<X>(s: seq<X>)
    requires s != []
    ensures [s[0]] + s[1..] == s
  {
  }

  lemma DropOne<X>(s: seq<X>, t: nat)
    requires t < |s|
    ensures s[t..] != [] && s[t..][0] == s[t] && s[t..][1..] == s[t + 1..]
  {
  }

  lemma Assoc<X>(a: seq<X>, b: seq<X>, c: seq<X>)
    ensures a + (b + c) == (a + b) + c
  {
  }
}
