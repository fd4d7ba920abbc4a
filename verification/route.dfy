/**
 * `calc`: the backward dynamic-programming pass that picks, for every
 * offset of a sentence, the end of the word starting there on a path of
 * maximal total score. A word scores `getFreq(word)`; the route entry of
 * offset `i` holds the chosen end and the best score of `s[i..]`. The code
 * is the same in both copies of `JiebaSegmenter`.
 */
module Route {
  import opened Wrappers
  import opened Lexicon
  import opened Dag

  /** `Pair<Integer>(key, freq)` as stored in the route table. */
  datatype Candidate = Candidate(key: nat, freq: real)

  /** The route table: `Map<Integer, Pair<Integer>>`. */
  type RouteTable = map<nat, Candidate>

  /** Choosing the word `s[i..x]` (inclusive) at `i`, then following the table from `x + 1`. */
  function Score(d: Dict, s: string, i: nat, x: nat, r: RouteTable): real
    requires i <= x < |s| && x + 1 in r
  {
    GetFreq(d, s[i..x + 1]) + r[x + 1].freq
  }

  /** Every end in `xs` lies in `[i, |s|)` and has a table entry after it. */
  predicate Fits(s: string, i: nat, xs: seq<nat>, r: RouteTable)
  {
    forall k :: 0 <= k < |xs| ==> i <= xs[k] < |s| && xs[k] + 1 in r
  }

  /**
   * The candidate kept after scanning `xs` in order: the first end, then
   * any later end whose score is strictly greater than the kept one.
   */
  function Best(d: Dict, s: string, i: nat, xs: seq<nat>, r: RouteTable): Candidate
    requires xs != [] && Fits(s, i, xs, r)
    decreases |xs|
  {
    var x := xs[|xs| - 1];
    var f := Score(d, s, i, x, r);
    if |xs| == 1 then Candidate(x, f)
    else
      Keep(Best(d, s, i, xs[..|xs| - 1], r), x, f)
  }

  /** The replacement rule: a later end displaces the kept one only on a strictly greater score. */
  function Keep(c: Candidate, x: nat, f: real): Candidate
  {
    if c.freq < f then Candidate(x, f) else c
  }

  /**
   * The kept candidate is one of `xs` with its own score, no candidate
   * scores more, and (for an ascending list) every smaller end scores
   * strictly less: on a tie the smallest end wins.
   */
  lemma {:induction false} BestChoice(d: Dict, s: string, i: nat, xs: seq<nat>, r: RouteTable)
    requires xs != [] && Fits(s, i, xs, r)
    requires Ascending(xs)
    ensures Best(d, s, i, xs, r).key in xs
    ensures Best(d, s, i, xs, r).freq == Score(d, s, i, Best(d, s, i, xs, r).key, r)
    ensures forall k :: 0 <= k < |xs| ==> Score(d, s, i, xs[k], r) <= Best(d, s, i, xs, r).freq
    ensures forall k :: 0 <= k < |xs| && xs[k] < Best(d, s, i, xs, r).key ==>
      Score(d, s, i, xs[k], r) < Best(d, s, i, xs, r).freq
    decreases |xs|
  {
    if |xs| > 1 {
      var pre := xs[..|xs| - 1];
      assert Fits(s, i, pre, r) by {
        forall k | 0 <= k < |pre| ensures i <= pre[k] < |s| && pre[k] + 1 in r {
          assert pre[k] == xs[k];
        }
      }
      assert Ascending(pre) by {
        forall a, b | 0 <= a < b < |pre| ensures pre[a] < pre[b] {
          assert pre[a] == xs[a] && pre[b] == xs[b];
        }
      }
      BestChoice(d, s, i, pre, r);
      var c := Best(d, s, i, pre, r);
      forall k | 0 <= k < |xs| - 1 ensures xs[k] == pre[k] {
      }
      var b :| 0 <= b < |pre| && pre[b] == c.key;
      assert c.key < xs[|xs| - 1] by {
        assert xs[b] == c.key;
      }
    }
  }

  /** The table for the suffix from `i`: entries `i .. |s|`, with `(0, 0.0)` at `|s|`. */
  function RouteFrom(d: Dict, s: string, dag: Graph, i: nat): (r: RouteTable)
    requires WellFormed(dag, |s|) && i <= |s|
    ensures forall k :: k in r <==> i <= k <= |s|
    decreases |s| - i
  {
    if i == |s| then map[|s| := Candidate(0, 0.0)]
    else
      var r := RouteFrom(d, s, dag, i + 1);
      assert Fits(s, i, dag[i], r);
      r[i := Best(d, s, i, dag[i], r)]
  }

  /** The table `calc` returns. */
  function Routes(d: Dict, s: string, dag: Graph): RouteTable
    requires WellFormed(dag, |s|)
  {
    RouteFrom(d, s, dag, 0)
  }

  /** An entry, once computed, is never changed by the later (smaller) offsets. */
  lemma {:induction false} RouteStable(d: Dict, s: string, dag: Graph, j: nat, i: nat, k: nat)
    requires WellFormed(dag, |s|) && j <= i <= k <= |s|
    ensures RouteFrom(d, s, dag, j)[k] == RouteFrom(d, s, dag, i)[k]
    decreases i - j
  {
    if j < i {
      RouteStable(d, s, dag, j + 1, i, k);
    }
  }

  /**
   * `calc`'s promise for one offset `i < |s|`: the chosen end is one of
   * `dag[i]`, its score is the best one over `dag[i]` against the table
   * itself, and any smaller end scores strictly less. The sentinel entry
   * at `|s|` is `(0, 0.0)`.
   */
  lemma RouteChoice(d: Dict, s: string, dag: Graph, i: nat)
    requires WellFormed(dag, |s|) && i < |s|
    ensures Routes(d, s, dag)[|s|] == Candidate(0, 0.0)
    ensures Fits(s, i, dag[i], Routes(d, s, dag))
    ensures Routes(d, s, dag)[i].key in dag[i]
    ensures Routes(d, s, dag)[i].freq == Score(d, s, i, Routes(d, s, dag)[i].key, Routes(d, s, dag))
    ensures forall x :: x in dag[i] ==> Score(d, s, i, x, Routes(d, s, dag)) <= Routes(d, s, dag)[i].freq
    ensures forall x :: x in dag[i] && x < Routes(d, s, dag)[i].key ==>
      Score(d, s, i, x, Routes(d, s, dag)) < Routes(d, s, dag)[i].freq
  {
    var r := Routes(d, s, dag);
    var ri := RouteFrom(d, s, dag, i + 1);
    RouteStable(d, s, dag, 0, i, i);
    RouteStable(d, s, dag, 0, |s|, |s|);
    forall k | i + 1 <= k <= |s| ensures r[k] == ri[k] {
      RouteStable(d, s, dag, 0, i + 1, k);
    }
    assert Fits(s, i, dag[i], ri);
    BestChoice(d, s, i, dag[i], ri);
    var c := r[i];
    assert c == Best(d, s, i, dag[i], ri);
    forall x | x in dag[i] ensures Score(d, s, i, x, r) == Score(d, s, i, x, ri) {
    }
  }

  /** Every offset before the end has an entry whose chosen end lies in `[k, n)`. */
  predicate Advances(r: RouteTable, n: nat)
  {
    forall k: nat :: k < n ==> k in r && k <= r[k].key < n
  }

  lemma RoutesAdvance(d: Dict, s: string, dag: Graph)
    requires WellFormed(dag, |s|)
    ensures Advances(Routes(d, s, dag), |s|)
  {
    forall k: nat | k < |s| ensures k in Routes(d, s, dag) && k <= Routes(d, s, dag)[k].key < |s| {
      RouteChoice(d, s, dag, k);
    }
  }

  /** A segmentation of `s[i..]` along the DAG, given by the inclusive end of each word. */
  predicate IsWalk(dag: Graph, n: nat, i: nat, ends: seq<nat>)
    decreases |ends|
  {
    if ends == [] then i == n
    else i < n && i in dag && ends[0] in dag[i] && IsWalk(dag, n, ends[0] + 1, ends[1..])
  }

  /** The total score of a walk: the sum of `getFreq` over its words. */
  function WalkScore(d: Dict, s: string, dag: Graph, i: nat, ends: seq<nat>): real
    requires WellFormed(dag, |s|) && IsWalk(dag, |s|, i, ends)
    decreases |ends|
  {
    if ends == [] then 0.0
    else
      assert ends[0] in dag[i];
      GetFreq(d, s[i..ends[0] + 1]) + WalkScore(d, s, dag, ends[0] + 1, ends[1..])
  }

  /** No segmentation along the DAG scores more than the route's entry. */
  lemma {:induction false} RouteOptimal(d: Dict, s: string, dag: Graph, i: nat, ends: seq<nat>)
    requires WellFormed(dag, |s|) && IsWalk(dag, |s|, i, ends)
    ensures i <= |s|
    ensures WalkScore(d, s, dag, i, ends) <= Routes(d, s, dag)[i].freq
    decreases |ends|
  {
    if ends == [] {
      RouteStable(d, s, dag, 0, |s|, |s|);
    } else {
      var x := ends[0];
      RouteOptimal(d, s, dag, x + 1, ends[1..]);
      RouteChoice(d, s, dag, i);
    }
  }

  /** The walk `sentenceProcess` follows: from `i`, jump past each chosen end. */
  function RouteWalk(r: RouteTable, n: nat, i: nat): (ends: seq<nat>)
    requires Advances(r, n) && i <= n
    decreases n - i
  {
    if i == n then [] else [r[i].key] + RouteWalk(r, n, r[i].key + 1)
  }

  /** The route's own walk is a segmentation along the DAG, and it attains the entry's score. */
  lemma {:induction false} RouteWalkAttains(d: Dict, s: string, dag: Graph, i: nat)
    requires WellFormed(dag, |s|) && i <= |s|
    ensures Advances(Routes(d, s, dag), |s|)
    ensures IsWalk(dag, |s|, i, RouteWalk(Routes(d, s, dag), |s|, i))
    ensures WalkScore(d, s, dag, i, RouteWalk(Routes(d, s, dag), |s|, i)) == Routes(d, s, dag)[i].freq
    decreases |s| - i
  {
    RoutesAdvance(d, s, dag);
    var r := Routes(d, s, dag);
    if i == |s| {
      RouteStable(d, s, dag, 0, |s|, |s|);
    } else {
      RouteChoice(d, s, dag, i);
      var x := r[i].key;
      RouteWalkAttains(d, s, dag, x + 1);
      var ends := RouteWalk(r, |s|, i);
      assert ends == [x] + RouteWalk(r, |s|, x + 1);
      assert ends[1..] == RouteWalk(r, |s|, x + 1);
    }
  }

  /** Scanning one more end: the fold over `xs[..k + 1]` in terms of the fold over `xs[..k]`. */
  lemma BestExtend(d: Dict, s: string, i: nat, xs: seq<nat>, k: nat, r: RouteTable)
    requires k < |xs| && Fits(s, i, xs, r)
    ensures Fits(s, i, xs[..k], r) && Fits(s, i, xs[..k + 1], r)
    ensures k == 0 ==> Best(d, s, i, xs[..1], r) == Candidate(xs[0], Score(d, s, i, xs[0], r))
    ensures k > 0 ==>
      Best(d, s, i, xs[..k + 1], r) == Keep(Best(d, s, i, xs[..k], r), xs[k], Score(d, s, i, xs[k], r))
  {
    assert xs[..k + 1][..k] == xs[..k];
    assert xs[..k + 1][k] == xs[k];
  }

  /** `calc(sentence, dag)`. */
  method Calc(d: Dict, sentence: string, dag: Graph) returns (route: RouteTable)
    requires WellFormed(dag, |sentence|)
    ensures route == Routes(d, sentence, dag)
  {
    var n := |sentence|;
    route := map[n := Candidate(0, 0.0)];
    var i: int := n - 1;
    while i > -1
      invariant -1 <= i < n
      invariant route == RouteFrom(d, sentence, dag, i + 1)
    {
      assert Fits(sentence, i, dag[i], route);
      var candidate := Choose(d, sentence, i, dag[i], route);
      route := route[i := candidate];
      i := i - 1;
    }
  }

  /**
   * The inner loop of `calc` for one offset: scan the ends in order and
   * keep a candidate, replacing it only on a strictly greater score.
   * A null candidate is `None`; it cannot survive a non-empty list.
   */
  method Choose(d: Dict, sentence: string, i: nat, xs: seq<nat>, route: RouteTable) returns (c: Candidate)
    requires xs != [] && Fits(sentence, i, xs, route)
    ensures c == Best(d, sentence, i, xs, route)
  {
    var candidate: Option<Candidate> := None;
    for k := 0 to |xs|
      invariant k == 0 ==> candidate == None
      invariant k > 0 ==> Fits(sentence, i, xs[..k], route)
      invariant k > 0 ==> candidate == Some(Best(d, sentence, i, xs[..k], route))
    {
      var x := xs[k];
      var freq := GetFreq(d, sentence[i..x + 1]) + route[x + 1].freq;
      BestExtend(d, sentence, i, xs, k, route);
      if candidate == None {
        candidate := Some(Candidate(x, freq));
      } else if candidate.value.freq < freq {
        candidate := Some(Candidate(x, freq));
      }
    }
    assert xs[..|xs|] == xs;
    c := candidate.value;
  }
}
