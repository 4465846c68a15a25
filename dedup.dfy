/**
 * Removal of duplicate entities: two entities are duplicates when their
 * lower-cased values and their labels agree; the first one met is kept.
 */
module Duplicates {
  import opened Text
  import opened Catalog

  /** The duplicate key `(value.lower(), label)`. */
  function Key(e: Entity): (string, string) {
    (Lower(e.value), e.category)
  }

  function Keys(es: seq<Entity>): set<(string, string)> {
    set e | e in es :: Key(e)
  }

  /** No two entries share a key. */
  predicate DistinctKeys(es: seq<Entity>) {
    forall i, j :: 0 <= i < j < |es| ==> Key(es[i]) != Key(es[j])
  }

  /** Entry i is the first entry with its key. */
  predicate IsFirst(es: seq<Entity>, i: nat)
    requires i < |es|
  {
    forall j :: 0 <= j < i ==> Key(es[j]) != Key(es[i])
  }

  lemma KeysAppend(a: seq<Entity>, b: seq<Entity>)
    ensures Keys(a + b) == Keys(a) + Keys(b)
  {
    forall k | k in Keys(a + b)
      ensures k in Keys(a) + Keys(b)
    {
      var e :| e in a + b && Key(e) == k;
    }
    forall k | k in Keys(a) + Keys(b)
      ensures k in Keys(a + b)
    {
      if k in Keys(a) {
        var e :| e in a && Key(e) == k;
        assert e in a + b;
      } else {
        var e :| e in b && Key(e) == k;
        assert e in a + b;
      }
    }
  }

  /**
   * The entities with duplicates removed: every key of the input is kept once,
   * and no two entries of the result share a key.
   */
  function Dedup(es: seq<Entity>): (r: seq<Entity>)
    ensures Keys(r) == Keys(es)
    ensures DistinctKeys(r)
  {
    if es == [] then []
    else
      var d := Dedup(es[..|es| - 1]);
      var e := es[|es| - 1];
      assert es == es[..|es| - 1] + [e];
      DedupExtend(es[..|es| - 1], d, e);
      if Key(e) in Keys(d) then d else d + [e]
  }

  /** Adding an entry with a new key, and only then, keeps a duplicate-free list with the keys of its input. */
  lemma DedupExtend(es: seq<Entity>, d: seq<Entity>, e: Entity)
    requires Keys(d) == Keys(es) && DistinctKeys(d)
    ensures var r := if Key(e) in Keys(d) then d else d + [e];
      Keys(r) == Keys(es + [e]) && DistinctKeys(r)
  {
    KeysAppend(es, [e]);
    KeysAppend(d, [e]);
    if Key(e) !in Keys(d) {
      assert forall i :: 0 <= i < |d| ==> Key(d[i]) in Keys(d);
    }
  }

  /** One more entry: it is appended exactly when its key has not been seen. */
  lemma DedupStep(es: seq<Entity>, k: nat)
    requires k < |es|
    ensures Dedup(es[..k + 1]) == if Key(es[k]) in Keys(Dedup(es[..k])) then Dedup(es[..k]) else Dedup(es[..k]) + [es[k]]
  {
    assert es[..k + 1][..k] == es[..k];
  }

  /** idx lists, in increasing order, the positions in es of the entries of r, each the first of its key. */
  predicate PicksFirsts(es: seq<Entity>, r: seq<Entity>, idx: seq<nat>) {
    && |idx| == |r|
    && (forall k :: 0 <= k < |idx| ==> idx[k] < |es| && r[k] == es[idx[k]] && IsFirst(es, idx[k]))
    && (forall k, l :: 0 <= k < l < |idx| ==> idx[k] < idx[l])
  }

  /** A choice of first entries in a prefix is still one after an entry is added. */
  lemma PicksFirstsExtend(es: seq<Entity>, r: seq<Entity>, idx: seq<nat>)
    requires es != [] && PicksFirsts(es[..|es| - 1], r, idx)
    ensures PicksFirsts(es, r, idx)
  {
    var prefix := es[..|es| - 1];
    forall k | 0 <= k < |idx|
      ensures IsFirst(es, idx[k])
    {
      assert IsFirst(prefix, idx[k]);
    }
  }

  /** The last entry, when its key is new, extends the choice. */
  lemma PicksFirstsTake(es: seq<Entity>, r: seq<Entity>, idx: seq<nat>)
    requires es != [] && PicksFirsts(es, r, idx)
    requires Key(es[|es| - 1]) !in Keys(es[..|es| - 1])
    requires forall k :: 0 <= k < |idx| ==> idx[k] < |es| - 1
    ensures PicksFirsts(es, r + [es[|es| - 1]], idx + [|es| - 1])
  {
    var n := |es| - 1;
    forall j | 0 <= j < n
      ensures Key(es[j]) != Key(es[n])
    {
      assert es[j] in es[..n];
    }
  }

  /**
   * The result is an order-preserving subsequence of the input: entry k of the
   * result is entry idx[k] of the input, with idx increasing, and that entry is
   * the first of its key.
   */
  lemma {:induction false} DedupSubsequence(es: seq<Entity>) returns (idx: seq<nat>)
    ensures |idx| == |Dedup(es)|
    ensures forall k :: 0 <= k < |idx| ==> idx[k] < |es| && Dedup(es)[k] == es[idx[k]] && IsFirst(es, idx[k])
    ensures forall k, l :: 0 <= k < l < |idx| ==> idx[k] < idx[l]
    decreases |es|
  {
    if es == [] {
      idx := [];
    } else {
      var n := |es| - 1;
      var prefix := es[..n];
      var d := Dedup(prefix);
      idx := DedupSubsequence(prefix);
      PicksFirstsExtend(es, d, idx);
      if Key(es[n]) !in Keys(d) {
        PicksFirstsTake(es, d, idx);
        idx := idx + [n];
      }
    }
  }

  /** Every input entry that is the first of its key is in the result. */
  lemma {:induction false} DedupKeepsFirst(es: seq<Entity>, i: nat)
    requires i < |es| && IsFirst(es, i)
    ensures es[i] in Dedup(es)
    decreases |es|
  {
    var n := |es| - 1;
    var prefix := es[..n];
    if i < n {
      DedupKeepsFirst(prefix, i);
    } else {
      forall e | e in prefix
        ensures Key(e) != Key(es[n])
      {
        var j :| 0 <= j < n && prefix[j] == e;
      }
      assert Key(es[n]) !in Keys(prefix);
    }
  }

  /** A sequence whose keys are already distinct is left unchanged. */
  lemma {:induction false} DedupOfDistinct(es: seq<Entity>)
    requires DistinctKeys(es)
    ensures Dedup(es) == es
    decreases |es|
  {
    if es != [] {
      var n := |es| - 1;
      var prefix, e := es[..n], es[n];
      DistinctLast(es);
      DedupOfDistinct(prefix);
      assert Dedup(es) == prefix + [e];
      assert prefix + [e] == es;
    }
  }

  /** In a duplicate-free sequence, the prefix is duplicate-free and the last key is new. */
  lemma DistinctLast(es: seq<Entity>)
    requires es != [] && DistinctKeys(es)
    ensures DistinctKeys(es[..|es| - 1]) && Key(es[|es| - 1]) !in Keys(es[..|es| - 1])
  {
    var n := |es| - 1;
    var prefix := es[..n];
    assert forall i :: 0 <= i < n ==> prefix[i] == es[i];
    forall x | x in prefix
      ensures Key(x) != Key(es[n])
    {
      var j :| 0 <= j < n && prefix[j] == x;
    }
  }

  /** Removing duplicates twice is removing them once. */
  lemma DedupIdempotent(es: seq<Entity>)
    ensures Dedup(Dedup(es)) == Dedup(es)
  {
    DedupOfDistinct(Dedup(es));
  }

  /**
   * Entries appended later never disturb what an earlier part yields: the result
   * for a + b starts with the result for a, and the rest comes from b.
   */
  lemma {:induction false} DedupAppend(a: seq<Entity>, b: seq<Entity>)
    ensures |Dedup(a)| <= |Dedup(a + b)|
    ensures Dedup(a + b)[..|Dedup(a)|] == Dedup(a)
    ensures forall x :: x in Dedup(a + b)[|Dedup(a)|..] ==> x in b
    decreases |b|
  {
    if b == [] {
      assert a + b == a;
    } else {
      var b' := b[..|b| - 1];
      assert (a + b)[..|a + b| - 1] == a + b';
      assert (a + b)[|a + b| - 1] == b[|b| - 1];
      DedupAppend(a, b');
      var d := Dedup(a + b');
      var r := Dedup(a + b);
      assert r == d || r == d + [b[|b| - 1]];
      assert r[..|d|] == d;
      forall x | x in r[|Dedup(a)|..]
        ensures x in b
      {
        var k :| |Dedup(a)| <= k < |r| && r[k] == x;
        if k < |d| {
          assert x in d[|Dedup(a)|..];
        }
      }
    }
  }
}
