/**
 * `createDAG`: for every start offset of a sentence, the ascending list of
 * end offsets (inclusive) whose span is a trie key, or `[i]` alone when
 * no span starting at `i` is. The code is the same in both copies of
 * `JiebaSegmenter`.
 */
module Dag {
  import opened Tries

  /** The DAG as the source builds it: `Map<Integer, List<Integer>>`. */
  type Graph = map<nat, seq<nat>>

  predicate Ascending(xs: seq<nat>)
  {
    forall a, b :: 0 <= a < b < |xs| ==> xs[a] < xs[b]
  }

  /** The ends `j` in `[lo, |s|)` for which `s[i..j]` (inclusive) is a key, ascending. */
  function Ends(t: Trie, s: string, i: nat, lo: nat): (r: seq<nat>)
    requires i <= lo <= |s|
    decreases |s| - lo
  {
    if lo == |s| then []
    else (if t.IsMatch(s[i..lo + 1]) then [lo] else []) + Ends(t, s, i, lo + 1)
  }

  lemma {:induction false} EndsSorted(t: Trie, s: string, i: nat, lo: nat)
    requires i <= lo <= |s|
    ensures forall k :: 0 <= k < |Ends(t, s, i, lo)| ==> lo <= Ends(t, s, i, lo)[k] < |s|
    ensures Ascending(Ends(t, s, i, lo))
    decreases |s| - lo
  {
    if lo < |s| {
      EndsSorted(t, s, i, lo + 1);
    }
  }

  lemma {:induction false} EndsMembers(t: Trie, s: string, i: nat, lo: nat, j: nat)
    requires i <= lo <= |s|
    ensures j in Ends(t, s, i, lo) <==> lo <= j < |s| && t.IsMatch(s[i..j + 1])
    decreases |s| - lo
  {
    if lo < |s| {
      EndsMembers(t, s, i, lo + 1, j);
    }
  }

  /** The candidate list of offset `i`: its matched ends, or the fallback `[i]`. */
  function Entry(t: Trie, s: string, i: nat): seq<nat>
    requires i < |s|
  {
    var e := Ends(t, s, i, i);
    if e == [] then [i] else e
  }

  /** The DAG of `s`: one entry per offset. */
  function Spec(t: Trie, s: string): Graph
  {
    map i | 0 <= i < |s| :: Entry(t, s, i)
  }

  /** What `calc` relies on: every offset of `[0, n)` has a non-empty ascending list inside `[i, n)`. */
  predicate WellFormed(dag: Graph, n: nat)
  {
    && (forall i :: i in dag ==> i < n)
    && (forall i: nat :: i < n ==> i in dag)
    && (forall i :: i in dag ==> dag[i] != [] && Ascending(dag[i]))
    && (forall i, k :: i in dag && 0 <= k < |dag[i]| ==> i <= dag[i][k] < n)
  }

  lemma SpecWellFormed(t: Trie, s: string)
    ensures WellFormed(Spec(t, s), |s|)
  {
    var dag := Spec(t, s);
    forall i | i in dag ensures dag[i] != [] && Ascending(dag[i]) && forall k :: 0 <= k < |dag[i]| ==> i <= dag[i][k] < |s| {
      EndsSorted(t, s, i, i);
    }
  }

  /** `s[i..j]` (inclusive) is a trie key. */
  predicate Matches(t: Trie, s: string, i: nat, j: nat)
  {
    i <= j < |s| && t.IsMatch(s[i..j + 1])
  }

  /**
   * Admission: `j` is a candidate end of `i` exactly when `s[i..j]` is a
   * trie key, or when `j == i` and no span starting at `i` is a key.
   */
  lemma SpecAdmission(t: Trie, s: string, i: nat, j: nat)
    requires i < |s|
    ensures j in Spec(t, s)[i] <==>
      Matches(t, s, i, j) || (j == i && forall k :: !Matches(t, s, i, k))
  {
    assert Spec(t, s)[i] == Entry(t, s, i);
    EndsMembers(t, s, i, i, j);
    if Ends(t, s, i, i) == [] {
      forall k ensures !Matches(t, s, i, k) {
        EndsMembers(t, s, i, i, k);
      }
    } else {
      var k := Ends(t, s, i, i)[0];
      EndsMembers(t, s, i, i, k);
      assert Matches(t, s, i, k);
    }
  }

  function Got(dag: Graph, i: nat): seq<nat>
  {
    if i in dag then dag[i] else []
  }

  /** A span that is neither key nor prefix ends the growth of `i`: no later end matches. */
  lemma NoEndsAfterDeadEnd(t: Trie, s: string, i: nat, j: nat)
    requires t.Valid() && i <= j < |s|
    requires !t.IsMatch(s[i..j + 1]) && !t.IsPrefix(s[i..j + 1])
    ensures Ends(t, s, i, j) == []
  {
    var e := Ends(t, s, i, j);
    if e != [] {
      EndsMembers(t, s, i, j, e[0]);
      assert false;
    }
  }

  /** Probing `s[i..j]` moves end `j`, when it matches, from the pending ends to the recorded ones. */
  lemma GrowStep(t: Trie, s: string, i: nat, j: nat, had: seq<nat>)
    requires i <= j < |s|
    requires had + Ends(t, s, i, j) == Ends(t, s, i, i)
    ensures (had + (if t.IsMatch(s[i..j + 1]) then [j] else [])) + Ends(t, s, i, j + 1) == Ends(t, s, i, i)
  {
    var m := if t.IsMatch(s[i..j + 1]) then [j] else [];
    var rest := Ends(t, s, i, j + 1);
    assert Ends(t, s, i, j) == m + rest;
    assert (had + m) + rest == had + (m + rest);
  }

  /**
   * The state of `createDAG`'s scan at `(i, j)`: offsets before `i` hold
   * all their ends, `i` holds those found below `j`, later offsets nothing.
   */
  predicate Growing(t: Trie, s: string, dag: Graph, i: nat, j: nat)
  {
    && i <= j <= |s| && (i < |s| ==> j < |s|)
    && (forall k :: k in dag ==> k <= i && k < |s| && dag[k] != [])
    && (forall k :: 0 <= k < i ==> Got(dag, k) == Ends(t, s, k, k))
    && (i < |s| ==> Got(dag, i) + Ends(t, s, i, j) == Ends(t, s, i, i))
  }

  /**
   * One probe of `createDAG`: `s[i0..j0]` is looked up, `j0` recorded when
   * it is a key, and the scan either widens the span or moves to the next
   * offset.
   */
  lemma GrowthStep(t: Trie, s: string, dag0: Graph, i0: nat, j0: nat, dag: Graph, i: nat, j: nat)
    requires t.Valid() && Growing(t, s, dag0, i0, j0) && i0 < |s|
    requires dag == if t.IsMatch(s[i0..j0 + 1]) then dag0[i0 := Got(dag0, i0) + [j0]] else dag0
    requires (t.IsMatch(s[i0..j0 + 1]) || t.IsPrefix(s[i0..j0 + 1])) && j0 + 1 < |s| ==> i == i0 && j == j0 + 1
    requires !(t.IsMatch(s[i0..j0 + 1]) || t.IsPrefix(s[i0..j0 + 1])) || j0 + 1 >= |s| ==> i == i0 + 1 && j == i0 + 1
    ensures Growing(t, s, dag, i, j)
  {
    var had := Got(dag0, i0);
    var m := if t.IsMatch(s[i0..j0 + 1]) then [j0] else [];
    assert Got(dag, i0) == had + m;
    assert forall k :: k != i0 ==> Got(dag, k) == Got(dag0, k);
    if t.IsMatch(s[i0..j0 + 1]) || t.IsPrefix(s[i0..j0 + 1]) {
      GrowStep(t, s, i0, j0, had);
    } else {
      NoEndsAfterDeadEnd(t, s, i0, j0);
      assert Ends(t, s, i0, j0) == m + Ends(t, s, i0, j0 + 1);
    }
    if i == i0 + 1 {
      assert Ends(t, s, i0, j0 + 1) == [];
      assert Got(dag, i0) == Ends(t, s, i0, i0);
      if i < |s| {
        assert Got(dag, i) == [];
      }
    }
  }

  /** `createDAG(sentence)`. */
  method CreateDag(t: Trie, sentence: string) returns (dag: Graph)
    requires t.Valid()
    ensures dag == Spec(t, sentence)
    ensures WellFormed(dag, |sentence|)
  {
    dag := map[];
    var n := |sentence|;
    var i, j := 0, 0;
    while i < n
      invariant Growing(t, sentence, dag, i, j)
      decreases n - i, n - j
    {
      var hit := t.Match(sentence[i..j + 1]);
      ghost var dag0, i0, j0 := dag, i, j;
      if hit.isPrefix || hit.isMatch {
        if hit.isMatch {
          if i !in dag {
            assert [j] == Got(dag, i) + [j];
            dag := dag[i := [j]];
          } else {
            dag := dag[i := dag[i] + [j]];
          }
        }
        j := j + 1;
        if j >= n {
          i := i + 1;
          j := i;
        }
      } else {
        i := i + 1;
        j := i;
      }
      GrowthStep(t, sentence, dag0, i0, j0, dag, i, j);
    }
    dag := AddFallbacks(t, sentence, dag);
  }

  lemma SpecEquality(t: Trie, s: string, dag: Graph)
    requires forall k :: k in dag ==> k < |s|
    requires forall k :: 0 <= k < |s| ==> k in dag && dag[k] == Entry(t, s, k)
    ensures dag == Spec(t, s)
  {
    assert dag.Keys == Spec(t, s).Keys;
  }

  /** The closing loop of `createDAG`: every offset left without a match gets `[i]`. */
  method AddFallbacks(t: Trie, sentence: string, dag0: Graph) returns (dag: Graph)
    requires forall k :: k in dag0 ==> k < |sentence| && dag0[k] != []
    requires forall k :: 0 <= k < |sentence| ==> Got(dag0, k) == Ends(t, sentence, k, k)
    ensures dag == Spec(t, sentence)
    ensures WellFormed(dag, |sentence|)
  {
    dag := dag0;
    var n := |sentence|;
    for i := 0 to n
      invariant forall k :: k in dag ==> k < n && dag[k] != []
      invariant forall k :: 0 <= k < i ==> k in dag && dag[k] == Entry(t, sentence, k)
      invariant forall k :: i <= k < n ==> Got(dag, k) == Ends(t, sentence, k, k)
    {
      assert Got(dag, i) == Ends(t, sentence, i, i);
      if i !in dag {
        dag := dag[i := [i]];
      }
      assert dag[i] == Entry(t, sentence, i);
    }
    SpecEquality(t, sentence, dag);
    SpecWellFormed(t, sentence);
  }
}
