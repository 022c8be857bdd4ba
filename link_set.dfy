/**
 * The JavaScript `Set` of hrefs that the link-collecting handlers of
 * src/routes.js fill round after round. A Set keeps its members in insertion
 * order (`Array.from(set)` lists them in that order) and ignores an `add` of
 * a member it already holds.
 */
module LinkSet {

  predicate NoDuplicates(s: seq<string>) {
    forall i, j :: 0 <= i < j < |s| ==> s[i] != s[j]
  }

  function Elems(s: seq<string>): set<string> { set x | x in s }

  /** The members of a concatenation are those of its two parts. */
  lemma ElemsConcat(a: seq<string>, b: seq<string>)
    ensures Elems(a + b) == Elems(a) + Elems(b)
  {
  }

  /** `set.size`: the number of distinct members. */
  function Card(s: seq<string>): nat { |Elems(s)| }

  predicate IsPrefix(p: seq<string>, q: seq<string>) { |p| <= |q| && q[..|p|] == p }

  lemma PrefixTrans(p: seq<string>, q: seq<string>, r: seq<string>)
    requires IsPrefix(p, q) && IsPrefix(q, r)
    ensures IsPrefix(p, r)
  {
    assert r[..|p|] == r[..|q|][..|p|];
  }

  /** The insertion-ordered contents after `set.add(h)`. */
  function AddOne(order: seq<string>, h: string): seq<string> {
    if h in order then order else order + [h]
  }

  /**
   * The insertion-ordered contents after `hs.forEach(h => set.add(h))`: the
   * old members stay in place, in their order, and new ones are appended.
   */
  function Union(order: seq<string>, hs: seq<string>): (r: seq<string>)
    ensures |order| <= |r|
  {
    if hs == [] then order else AddOne(Union(order, hs[..|hs| - 1]), hs[|hs| - 1])
  }

  /** The old members stay in place and in their order. */
  lemma {:induction false} UnionPrefix(order: seq<string>, hs: seq<string>)
    ensures IsPrefix(order, Union(order, hs))
  {
    if hs != [] {
      var prev := Union(order, hs[..|hs| - 1]);
      UnionPrefix(order, hs[..|hs| - 1]);
      assert IsPrefix(prev, Union(order, hs)) by {
        assert AddOne(prev, hs[|hs| - 1])[..|prev|] == prev;
      }
      PrefixTrans(order, prev, Union(order, hs));
    }
  }

  /** The members after the batch are the old members and the batch's hrefs. */
  lemma {:induction false} UnionElems(order: seq<string>, hs: seq<string>)
    ensures Elems(Union(order, hs)) == Elems(order) + Elems(hs)
  {
    if hs != [] {
      var init := hs[..|hs| - 1];
      var prev := Union(order, init);
      UnionElems(order, init);
      assert hs == init + [hs[|hs| - 1]];
      assert Elems(hs) == Elems(init) + {hs[|hs| - 1]};
      assert Elems(AddOne(prev, hs[|hs| - 1])) == Elems(prev) + {hs[|hs| - 1]};
    }
  }

  /** Adding never creates a duplicate. */
  lemma {:induction false} UnionDistinct(order: seq<string>, hs: seq<string>)
    requires NoDuplicates(order)
    ensures NoDuplicates(Union(order, hs))
  {
    if hs != [] {
      UnionDistinct(order, hs[..|hs| - 1]);
    }
  }

  /** Adding one batch and then another is adding their concatenation. */
  lemma {:induction false} UnionConcat(order: seq<string>, a: seq<string>, b: seq<string>)
    ensures Union(Union(order, a), b) == Union(order, a + b)
  {
    if b == [] {
      assert a + b == a;
    } else {
      var b' := b[..|b| - 1];
      UnionConcat(order, a, b');
      assert (a + b)[..|a + b| - 1] == a + b';
      assert (a + b)[|a + b| - 1] == b[|b| - 1];
    }
  }

  /** A duplicate-free sequence has as many distinct members as elements. */
  lemma {:induction false} CardOfDistinct(s: seq<string>)
    requires NoDuplicates(s)
    ensures Card(s) == |s|
  {
    if s != [] {
      var t := s[..|s| - 1];
      CardOfDistinct(t);
      assert s == t + [s[|s| - 1]];
      assert Elems(s) == Elems(t) + {s[|s| - 1]};
      assert s[|s| - 1] !in Elems(t);
    }
  }

  /** Adding only hrefs already present changes nothing: re-adding a batch is idempotent. */
  lemma {:induction false} UnionOfKnown(order: seq<string>, hs: seq<string>)
    requires Elems(hs) <= Elems(order)
    ensures Union(order, hs) == order
  {
    if hs != [] {
      var init := hs[..|hs| - 1];
      assert hs == init + [hs[|hs| - 1]];
      assert Elems(init) <= Elems(hs);
      UnionOfKnown(order, init);
      assert hs[|hs| - 1] in Elems(hs);
    }
  }

  lemma UnionIdempotent(order: seq<string>, hs: seq<string>)
    ensures Union(Union(order, hs), hs) == Union(order, hs)
  {
    UnionElems(order, hs);
    UnionOfKnown(Union(order, hs), hs);
  }

  /** The set grows exactly when the batch holds an href not yet present. */
  lemma {:induction false} UnionGrows(order: seq<string>, hs: seq<string>)
    ensures |Union(order, hs)| > |order| <==> !(Elems(hs) <= Elems(order))
  {
    if hs != [] {
      var init, h := hs[..|hs| - 1], hs[|hs| - 1];
      var prev := Union(order, init);
      UnionGrows(order, init);
      assert hs == init + [h];
      assert Elems(hs) == Elems(init) + {h};
      UnionPrefix(order, init);
      if |prev| == |order| {
        assert prev == prev[..|order|];
      }
    }
  }

  /** The `Set` object itself: members in insertion order, and the membership index. */
  class HrefSet {
    var order: seq<string>
    var members: set<string>

    ghost predicate Valid()
      reads this
    {
      members == Elems(order) && NoDuplicates(order)
    }

    /** `new Set()` */
    constructor ()
      ensures Valid() && order == []
    {
      order := [];
      members := {};
    }

    /** `set.size` */
    function Size(): (n: nat)
      reads this
      requires Valid()
      ensures n == |order|
    {
      CardOfDistinct(order);
      |members|
    }

    /** `Array.from(set)` */
    function ToArray(): (a: seq<string>)
      reads this
      requires Valid()
      ensures NoDuplicates(a) && |a| == Size()
    {
      order
    }

    /** `set.add(h)` */
    method Add(h: string)
      requires Valid()
      modifies this
      ensures Valid()
      ensures order == AddOne(old(order), h)
    {
      assert h in members <==> h in order;
      if h !in members {
        order := order + [h];
        members := members + {h};
      }
    }

    /** `hs.forEach(h => set.add(h))` */
    method AddAll(hs: seq<string>)
      requires Valid()
      modifies this
      ensures Valid()
      ensures order == Union(old(order), hs)
    {
      var i := 0;
      while i < |hs|
        invariant 0 <= i <= |hs|
        invariant Valid()
        invariant order == Union(old(order), hs[..i])
      {
        assert hs[..i + 1][..i] == hs[..i];
        Add(hs[i]);
        i := i + 1;
      }
      assert hs[..|hs|] == hs;
    }
  }
}
