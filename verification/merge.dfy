/** `AutoComplete._combine_dicts`: the additive merge of two successor graphs. */
module Merge {
  import opened Structs

  /** Reference definition of the merge: every key of either graph, mapped to the sum of
      its counts in both. */
  function Merged(a: Graph, b: Graph): Graph
  {
    map k | k in a.Keys + b.Keys :: CountOf(a, k) + CountOf(b, k)
  }

  /** The first loop of `_combine_dicts` (core/autocomplete.py:72-74): every key of `dict2`
      that `dict1` also has gets `dict1`'s count added, in a key order left open here. */
  method AddShared(dict1: Graph, dict2: Graph) returns (r: Graph)
    ensures r.Keys == dict2.Keys
    ensures forall k :: k in r ==> r[k] == CountOf(dict1, k) + dict2[k]
  {
    r := dict2;
    var pending := dict2.Keys;
    while pending != {}
      invariant pending <= dict2.Keys
      invariant r.Keys == dict2.Keys
      invariant forall k :: k in r && k !in pending ==> r[k] == CountOf(dict1, k) + dict2[k]
      invariant forall k :: k in pending ==> r[k] == dict2[k]
      decreases pending
    {
      var k :| k in pending;
      if k in dict1 {
        r := r[k := r[k] + dict1[k]];
      }
      pending := pending - {k};
    }
  }

  /** The second loop of `_combine_dicts` (core/autocomplete.py:76-78): every key of `dict1`
      missing from `into` is copied over with `dict1`'s count, in a key order left open
      here. */
  method CopyMissing(dict1: Graph, into: Graph) returns (r: Graph)
    ensures r.Keys == into.Keys + dict1.Keys
    ensures forall k :: k in r ==> r[k] == if k in into then into[k] else dict1[k]
  {
    r := into;
    var pending := dict1.Keys;
    while pending != {}
      invariant pending <= dict1.Keys
      invariant r.Keys == into.Keys + (dict1.Keys - pending)
      invariant forall k :: k in r ==> r[k] == if k in into then into[k] else dict1[k]
      decreases pending
    {
      var k :| k in pending;
      if k !in r {
        r := r[k := dict1[k]];
      }
      pending := pending - {k};
    }
  }

  /** `_combine_dicts(dict1, dict2)` (core/autocomplete.py:72-80): the shared keys get the
      sum of both counts, and the keys only one side has keep that side's count. */
  method CombineDicts(dict1: Graph, dict2: Graph) returns (r: Graph)
    ensures r.Keys == dict1.Keys + dict2.Keys
    ensures forall k :: k in r ==> r[k] == CountOf(dict1, k) + CountOf(dict2, k)
    ensures r == Merged(dict1, dict2)
  {
    var shared := AddShared(dict1, dict2);
    r := CopyMissing(dict1, shared);
    assert r.Keys == Merged(dict1, dict2).Keys;
  }

  /** Swapping the arguments gives the same graph, so the stored-first call in `train`
      (core/autocomplete.py:216-219) computes what the docstring's order would. */
  lemma MergedCommutes(a: Graph, b: Graph)
    ensures Merged(a, b) == Merged(b, a)
  {
  }

  /** Merging into an empty graph gives the other graph back. */
  lemma MergedEmpty(g: Graph)
    ensures Merged(map[], g) == g
  {
  }

  /** Merging is associative: folding two batches of counts into a graph one after the
      other equals folding in their merge. */
  lemma MergedAssociative(a: Graph, b: Graph, c: Graph)
    ensures Merged(Merged(a, b), c) == Merged(a, Merged(b, c))
  {
    var l, r := Merged(Merged(a, b), c), Merged(a, Merged(b, c));
    assert l.Keys == r.Keys;
    forall k | k in l
      ensures l[k] == r[k]
    {
    }
  }
}
