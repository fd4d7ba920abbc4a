/**
 * `_process(tokenList, mode, offset)` (and its inlined copies in the
 * `com.huaban` `process`): turning the words of one CJK run into
 * `SegToken`s. SEARCH gives one token per word, end to end from `offset`;
 * INDEX first adds the dictionary 2-grams of words longer than 2 and the
 * dictionary 3-grams of words longer than 3, each inside its word's span.
 */
module Tokens {
  import opened Text
  import opened Lexicon

  /** `SegToken(word, startOffset, endOffset)`, the end exclusive. */
  datatype SegToken = SegToken(word: string, startOffset: nat, endOffset: nat)

  datatype SegMode = Index | Search

  /** The `n` characters of `w` from `j`: `w.substring(j, j + n)`. */
  function Slice(w: string, j: nat, n: nat): string
    requires j + n <= |w|
  {
    w[j..j + n]
  }

  /** The token carries the text found at its span, `text` being placed at `off`. */
  predicate InSpan(t: SegToken, text: string, off: nat)
  {
    && off <= t.startOffset
    && t.endOffset == t.startOffset + |t.word| <= off + |text|
    && text[t.startOffset - off..t.endOffset - off] == t.word
  }

  /**
   * The `n`-grams `w[j..j + n]`, for `j < m` in increasing order, that are
   * dictionary words, each at `[off + j, off + j + n)`.
   */
  function Grams(d: Dict, w: string, n: nat, off: nat, m: nat): seq<SegToken>
    requires m + n <= |w| + 1
  {
    if m == 0 then []
    else
      var j := m - 1;
      Grams(d, w, n, off, j) + (if ContainsWord(d, Slice(w, j, n)) then [SegToken(Slice(w, j, n), off + j, off + j + n)] else [])
  }

  /** Every dictionary `n`-gram with a start below `m` is listed, at its own position. */
  lemma {:induction false} GramsListed(d: Dict, w: string, n: nat, off: nat, m: nat)
    requires m + n <= |w| + 1
    ensures forall j :: 0 <= j < m && ContainsWord(d, Slice(w, j, n)) ==>
      SegToken(Slice(w, j, n), off + j, off + j + n) in Grams(d, w, n, off, m)
  {
    if m > 0 {
      GramsListed(d, w, n, off, m - 1);
    }
  }

  /** Only dictionary `n`-grams are listed, each carrying the text at its span. */
  lemma {:induction false} GramsValid(d: Dict, w: string, n: nat, off: nat, m: nat)
    requires m + n <= |w| + 1
    ensures forall t :: t in Grams(d, w, n, off, m) ==>
      ContainsWord(d, t.word) && |t.word| == n && InSpan(t, w, off)
  {
    if m > 0 {
      GramsValid(d, w, n, off, m - 1);
    }
  }

  /** The extra INDEX tokens of one word: its 2-grams when longer than 2, then its 3-grams when longer than 3. */
  function IndexGrams(d: Dict, w: string, off: nat): seq<SegToken>
  {
    (if |w| > 2 then Grams(d, w, 2, off, |w| - 1) else [])
      + (if |w| > 3 then Grams(d, w, 3, off, |w| - 2) else [])
  }

  /** A 2- or 3-gram of `w`, shorter than `w`, that is a dictionary word and sits at its span. */
  predicate IsGram(d: Dict, w: string, off: nat, t: SegToken)
  {
    (|t.word| == 2 || |t.word| == 3) && |t.word| < |w| && ContainsWord(d, t.word) && InSpan(t, w, off)
  }

  /** Every 2- or 3-gram of `w` shorter than `w` that is a dictionary word is an INDEX token. */
  lemma IndexGramsListed(d: Dict, w: string, off: nat)
    ensures forall j: nat, n: nat :: (n == 2 || n == 3) && n < |w| && j + n <= |w| && ContainsWord(d, Slice(w, j, n)) ==>
      SegToken(Slice(w, j, n), off + j, off + j + n) in IndexGrams(d, w, off)
  {
    if |w| > 2 {
      GramsListed(d, w, 2, off, |w| - 1);
    }
    if |w| > 3 {
      GramsListed(d, w, 3, off, |w| - 2);
    }
  }

  /** Conversely, every INDEX gram is such a gram. */
  lemma IndexGramsValid(d: Dict, w: string, off: nat)
    ensures forall t :: t in IndexGrams(d, w, off) ==> IsGram(d, w, off, t)
  {
    if |w| > 2 {
      GramsValid(d, w, 2, off, |w| - 1);
    }
    if |w| > 3 {
      GramsValid(d, w, 3, off, |w| - 2);
    }
  }

  /** The tokens of one word at `off`: in INDEX mode its grams first, then the word itself. */
  function WordTokens(d: Dict, mode: SegMode, w: string, off: nat): seq<SegToken>
  {
    (if mode == Index then IndexGrams(d, w, off) else []) + [SegToken(w, off, off + |w|)]
  }

  /** `_process(ws, mode, off)`: the first word's tokens at `off`, then the rest's where it ends. */
  function Assemble(d: Dict, mode: SegMode, ws: seq<string>, off: nat): seq<SegToken>
    decreases |ws|
  {
    if ws == [] then []
    else WordTokens(d, mode, ws[0], off) + Assemble(d, mode, ws[1..], off + |ws[0]|)
  }

  /** The INDEX tokens of a word, appended in three steps: its 2-grams, its 3-grams, the word. */
  lemma IndexSteps(d: Dict, w: string, off: nat, before: seq<SegToken>, g2: seq<SegToken>, g3: seq<SegToken>)
    requires g2 == before + (if |w| > 2 then Grams(d, w, 2, off, |w| - 1) else [])
    requires g3 == g2 + (if |w| > 3 then Grams(d, w, 3, off, |w| - 2) else [])
    ensures g3 + [SegToken(w, off, off + |w|)] == before + WordTokens(d, Index, w, off)
  {
  }

  /** The words from `k` on: word `k`'s tokens at `off`, then those of the words after it. */
  lemma AssembleFrom(d: Dict, mode: SegMode, ws: seq<string>, k: nat, off: nat)
    requires k < |ws|
    ensures Assemble(d, mode, ws[k..], off) == WordTokens(d, mode, ws[k], off) + Assemble(d, mode, ws[k + 1..], off + |ws[k]|)
  {
    assert ws[k..][0] == ws[k];
    assert ws[k..][1..] == ws[k + 1..];
  }

  /**
   * One step of `_process`'s loop: once word `k`'s tokens are appended at
   * the running offset `off`, the words from `k2 = k + 1` are left, at
   * `off2`, where word `k` ends.
   */
  lemma AssembleAdvance(d: Dict, mode: SegMode, ws: seq<string>, k: nat, k2: nat, off: nat, off2: nat, whole: seq<SegToken>, tokens: seq<SegToken>, out: seq<SegToken>)
    requires k < |ws| && k2 == k + 1 && off2 == off + |ws[k]|
    requires tokens + Assemble(d, mode, ws[k..], off) == whole
    requires out == tokens + WordTokens(d, mode, ws[k], off)
    ensures out + Assemble(d, mode, ws[k2..], off2) == whole
  {
    AssembleFrom(d, mode, ws, k, off);
    Reassociate(tokens, WordTokens(d, mode, ws[k], off), Assemble(d, mode, ws[k + 1..], off + |ws[k]|), whole, out);
  }

  /** `_process`'s loop starts with no tokens and all the words ahead... */
  lemma AssembleStart(d: Dict, mode: SegMode, ws: seq<string>, offset: nat)
    ensures [] + Assemble(d, mode, ws[0..], offset) == Assemble(d, mode, ws, offset)
  {
    assert ws[0..] == ws;
  }

  /** ... and once no word is ahead, it holds every word's tokens. */
  lemma AssembleDone(d: Dict, mode: SegMode, ws: seq<string>, k: nat, off: nat, whole: seq<SegToken>, tokens: seq<SegToken>)
    requires k == |ws| && tokens + Assemble(d, mode, ws[k..], off) == whole
    ensures tokens == whole
  {
    assert ws[k..] == [];
    assert tokens + [] == tokens;
  }

  lemma Reassociate(tokens: seq<SegToken>, wt: seq<SegToken>, rest: seq<SegToken>, whole: seq<SegToken>, out: seq<SegToken>)
    requires tokens + (wt + rest) == whole && out == tokens + wt
    ensures out + rest == whole
  {
    assert (tokens + wt) + rest == tokens + (wt + rest);
  }

  /** The words of a token list. */
  function WordsOf(ts: seq<SegToken>): seq<string>
  {
    seq(|ts|, k requires 0 <= k < |ts| => ts[k].word)
  }

  /** Each token spans its word's length and starts where the previous one ends, the first at `lo`. */
  predicate Contiguous(ts: seq<SegToken>, lo: nat)
  {
    && (forall k :: 0 <= k < |ts| ==> ts[k].endOffset == ts[k].startOffset + |ts[k].word|)
    && (|ts| > 0 ==> ts[0].startOffset == lo)
    && (forall k :: 0 < k < |ts| ==> ts[k].startOffset == ts[k - 1].endOffset)
  }

  /** Contiguous tokens starting at `lo` end at `lo` plus the length of their text. */
  lemma {:induction false} ContiguousEnd(ts: seq<SegToken>, lo: nat)
    requires Contiguous(ts, lo) && ts != []
    ensures ts[|ts| - 1].endOffset == lo + |Concat(WordsOf(ts))|
    decreases |ts|
  {
    var pre := ts[..|ts| - 1];
    var t := ts[|ts| - 1];
    assert ts == pre + [t];
    assert WordsOf(ts) == WordsOf(pre) + [t.word];
    ConcatAppend(WordsOf(pre), [t.word]);
    assert Concat([t.word]) == t.word;
    if pre != [] {
      assert Contiguous(pre, lo);
      ContiguousEnd(pre, lo);
    }
  }

  /** Two contiguous lists, the second starting where the first ends, form one. */
  lemma ContiguousAppend(a: seq<SegToken>, b: seq<SegToken>, lo: nat)
    requires Contiguous(a, lo)
    requires Contiguous(b, lo + |Concat(WordsOf(a))|)
    ensures Contiguous(a + b, lo)
  {
    if a == [] {
      assert a + b == b;
    } else if b != [] {
      ContiguousEnd(a, lo);
      var ab := a + b;
      forall k | 0 <= k < |ab| ensures ab[k].endOffset == ab[k].startOffset + |ab[k].word| {
        if k >= |a| {
          assert ab[k] == b[k - |a|];
        }
      }
      forall k | 0 < k < |ab| ensures ab[k].startOffset == ab[k - 1].endOffset {
        if k > |a| {
          assert ab[k] == b[k - |a|] && ab[k - 1] == b[k - 1 - |a|];
        } else if k == |a| {
          assert ab[k] == b[0] && ab[k - 1] == a[|a| - 1];
        }
      }
    } else {
      assert a + b == a;
    }
  }

  /**
   * SEARCH mode: one token per word, in order, contiguous from `off`, so
   * the last one ends at `off` plus the length of the words' text.
   */
  lemma {:induction false} AssembleSearch(d: Dict, ws: seq<string>, off: nat)
    ensures WordsOf(Assemble(d, Search, ws, off)) == ws
    ensures Contiguous(Assemble(d, Search, ws, off), off)
    decreases |ws|
  {
    if ws != [] {
      var w := ws[0];
      var t := SegToken(w, off, off + |w|);
      var rest := Assemble(d, Search, ws[1..], off + |w|);
      AssembleSearch(d, ws[1..], off + |w|);
      assert Assemble(d, Search, ws, off) == [t] + rest;
      assert WordsOf([t] + rest) == [w] + WordsOf(rest);
      assert ws == [w] + ws[1..];
      assert Concat(WordsOf([t])) == w + Concat([]);
      ContiguousAppend([t], rest, off);
    }
  }

  /** Every token, gram or word, carries the text at its span. */
  predicate Spans(ts: seq<SegToken>, text: string, off: nat)
  {
    forall t :: t in ts ==> InSpan(t, text, off)
  }

  /** Tokens placed against `w` at `o`, where `w` follows `pre` placed at `off`, are placed against `pre + w`. */
  lemma SpansShift(ts: seq<SegToken>, pre: string, w: string, off: nat, o: nat)
    requires o == off + |pre| && Spans(ts, w, o)
    ensures Spans(ts, pre + w, off)
  {
    forall t | t in ts ensures InSpan(t, pre + w, off) {
      assert (pre + w)[t.startOffset - off..t.endOffset - off] == w[t.startOffset - o..t.endOffset - o];
    }
  }

  /** Tokens placed against `pre` stay placed when more text follows. */
  lemma SpansExtend(ts: seq<SegToken>, pre: string, w: string, off: nat)
    requires Spans(ts, pre, off)
    ensures Spans(ts, pre + w, off)
  {
    forall t | t in ts ensures InSpan(t, pre + w, off) {
      assert (pre + w)[t.startOffset - off..t.endOffset - off] == pre[t.startOffset - off..t.endOffset - off];
    }
  }

  /** A word's tokens are placed against the word itself. */
  lemma WordTokensSpan(d: Dict, mode: SegMode, w: string, off: nat)
    ensures Spans(WordTokens(d, mode, w, off), w, off)
  {
    IndexGramsValid(d, w, off);
    assert w[0..|w|] == w;
  }

  /** In both modes every token lies inside the words' text and carries the text at its span. */
  lemma {:induction false} AssembleSpans(d: Dict, mode: SegMode, ws: seq<string>, off: nat)
    ensures Spans(Assemble(d, mode, ws, off), Concat(ws), off)
    decreases |ws|
  {
    if ws != [] {
      var w := ws[0];
      var o := off + |w|;
      var wt := WordTokens(d, mode, w, off);
      var rest := Assemble(d, mode, ws[1..], o);
      assert Assemble(d, mode, ws, off) == wt + rest;
      assert Concat(ws) == w + Concat(ws[1..]);
      AssembleSpans(d, mode, ws[1..], o);
      WordTokensSpan(d, mode, w, off);
      SpansExtend(wt, w, Concat(ws[1..]), off);
      SpansShift(rest, w, Concat(ws[1..]), off, o);
      SpansAppend(wt, rest, w + Concat(ws[1..]), off);
    }
  }

  lemma SpansAppend(a: seq<SegToken>, b: seq<SegToken>, text: string, off: nat)
    requires Spans(a, text, off) && Spans(b, text, off)
    ensures Spans(a + b, text, off)
  {
  }

  /** A dictionary word of two or three characters. */
  predicate GramWord(d: Dict, t: SegToken)
  {
    ContainsWord(d, t.word) && (|t.word| == 2 || |t.word| == 3)
  }

  lemma AddsGramsStep(d: Dict, ai: seq<SegToken>, sa: seq<SegToken>, g: seq<SegToken>, full: SegToken)
    requires forall t :: t in ai ==> t in sa || GramWord(d, t)
    requires forall t :: t in g ==> GramWord(d, t)
    ensures forall t :: t in (g + [full]) + ai ==> t in [full] + sa || GramWord(d, t)
  {
  }

  /** INDEX mode only adds dictionary 2- and 3-grams to the SEARCH tokens. */
  lemma {:induction false} IndexAddsGrams(d: Dict, ws: seq<string>, off: nat)
    ensures forall t :: t in Assemble(d, Index, ws, off) ==> t in Assemble(d, Search, ws, off) || GramWord(d, t)
    decreases |ws|
  {
    if ws != [] {
      var w := ws[0];
      var o := off + |w|;
      var g := IndexGrams(d, w, off);
      var full := SegToken(w, off, off + |w|);
      assert Assemble(d, Index, ws, off) == (g + [full]) + Assemble(d, Index, ws[1..], o);
      assert Assemble(d, Search, ws, off) == [full] + Assemble(d, Search, ws[1..], o);
      IndexAddsGrams(d, ws[1..], o);
      IndexGramsValid(d, w, off);
      AddsGramsStep(d, Assemble(d, Index, ws[1..], o), Assemble(d, Search, ws[1..], o), g, full);
    }
  }

  /** Every SEARCH token is also an INDEX token. */
  lemma {:induction false} SearchWithinIndex(d: Dict, ws: seq<string>, off: nat)
    ensures forall t :: t in Assemble(d, Search, ws, off) ==> t in Assemble(d, Index, ws, off)
    decreases |ws|
  {
    if ws != [] {
      var o := off + |ws[0]|;
      SearchWithinIndex(d, ws[1..], o);
      assert Assemble(d, Search, ws, off) == WordTokens(d, Search, ws[0], off) + Assemble(d, Search, ws[1..], o);
      assert Assemble(d, Index, ws, off) == WordTokens(d, Index, ws[0], off) + Assemble(d, Index, ws[1..], o);
    }
  }
}
