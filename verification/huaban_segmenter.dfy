/**
 * `com.huaban.analysis.jieba.JiebaSegmenter`. Its `createDAG`, `calc`,
 * `process` and `sentenceProcess` are, statement for statement, the other
 * copy's path with the HMM on (`processBuf` and `_process` written out in
 * place), so they are the `ManlierSegmenter` methods. What differs is the
 * tuning: the shares `suggestFreq` compares, and the prefix registration
 * in `addWord`.
 */
module HuabanSegmenter {
  import opened Wrappers
  import opened Text
  import opened Tries
  import opened Lexicon
  import opened FinalSegs
  import opened HuabanDictionary
  import opened PrefixIndex
  import opened Sentence
  import MS = ManlierSegmenter

  /**
   * The private `addWord(word, actualFreq, normalizeFreq)` of this copy:
   * the word is stored as in the other copy, then every trimmed proper
   * prefix missing from `freqs` is registered with score 0 and reported,
   * and only after that does a zero frequency delete the word. The changes
   * are the word's own entry followed by the prefixes'.
   */
  function Tuned(d: Dict, word: string, actualFreq: int, normalizeFreq: real): (Dict, seq<Change>)
  {
    var (d2, more) := RegisterPrefixes(MS.Stored(d, word, actualFreq, normalizeFreq), word, PrefixLimit(word));
    (if actualFreq == 0 then MS.Deleted(d2, word) else d2, [Change(Some(word), actualFreq as real)] + more)
  }

  /**
   * For every word: `total` moves by the frequency, `minFreq` stays, no key
   * is lost except the word itself on a zero frequency, which also forces
   * it to split and disables its key in the trie; a non-zero frequency
   * leaves the word with the given score, and a new word's key matchable;
   * the trie stays well formed.
   */
  lemma TunedEntries(d: Dict, word: string, actualFreq: int, normalizeFreq: real)
    ensures var r := Tuned(d, word, actualFreq, normalizeFreq).0;
            && r.total == d.total + actualFreq as real && r.minFreq == d.minFreq
            && (forall k :: k in d.freqs && k != word ==> k in r.freqs)
            && (d.Valid() ==> r.Valid())
            && (actualFreq == 0 ==>
                  && word !in r.freqs && r.forceSplit == d.forceSplit + {word}
                  && (!IsBlank(word) ==> !r.trie.IsMatch(Normalize(word))))
            && (actualFreq != 0 ==>
                  && word in r.freqs && r.freqs[word] == normalizeFreq && r.forceSplit == d.forceSplit
                  && (word !in d.freqs && !IsBlank(word) ==> r.trie.IsMatch(Normalize(word))))
  {
    var d1 := MS.Stored(d, word, actualFreq, normalizeFreq);
    var n := PrefixLimit(word);
    PrefixesOnlyAdd(d1, word, n);
    if word != [] {
      LongerKeysKept(d1, word, n, word);
    }
    if word !in d.freqs && !IsBlank(word) {
      RegisteredStaysMatched(d1, word, n, Normalize(word));
    }
  }

  /** For every word the first change is the word's own and every later one reports frequency 0. */
  lemma TunedChanges(d: Dict, word: string, actualFreq: int, normalizeFreq: real)
    ensures var cs := Tuned(d, word, actualFreq, normalizeFreq).1;
            && |cs| >= 1 && cs[0] == Change(Some(word), actualFreq as real)
            && (forall j :: 1 <= j < |cs| ==> cs[j].freq == 0.0)
  {
    var d1 := MS.Stored(d, word, actualFreq, normalizeFreq);
    PrefixesOnlyAdd(d1, word, PrefixLimit(word));
    var cs := Tuned(d, word, actualFreq, normalizeFreq).1;
    var more := RegisterPrefixes(d1, word, PrefixLimit(word)).1;
    assert cs == [Change(Some(word), actualFreq as real)] + more;
    forall j | 1 <= j < |cs|
      ensures cs[j].freq == 0.0
    {
      assert cs[j] == more[j - 1];
    }
  }

  /**
   * For a stored key (lower-case, trimmed) the prefix loop does its job:
   * afterwards every trimmed proper prefix of the word is a key of `freqs`,
   * even when the word itself was deleted; every other entry and the null
   * entry keep their values; and a non-zero frequency leaves the given
   * score.
   */
  lemma TunedKeyEntries(d: Dict, word: string, actualFreq: int, normalizeFreq: real)
    requires IsKey(word)
    ensures var r := Tuned(d, word, actualFreq, normalizeFreq).0;
            && Covers(r.freqs, word, PrefixLimit(word))
            && (forall k :: k in d.freqs && k != word ==> k in r.freqs && r.freqs[k] == d.freqs[k])
            && r.nullFreq == d.nullFreq
            && (actualFreq != 0 ==> word in r.freqs && r.freqs[word] == normalizeFreq)
  {
    var d1 := MS.Stored(d, word, actualFreq, normalizeFreq);
    var n := PrefixLimit(word);
    PrefixesOfKey(d1, word, n);
    var d2 := RegisterPrefixes(d1, word, n).0;
    var r := Tuned(d, word, actualFreq, normalizeFreq).0;
    assert r == if actualFreq == 0 then MS.Deleted(d2, word) else d2;
    forall m | 1 <= m <= n
      ensures Trim(word[..m]) in r.freqs
    {
      assert Trim(word[..m]) in d2.freqs;
      assert |Trim(word[..m])| <= m < |word|;
    }
  }

  /** For a stored key the reported prefixes are ones missing before, proper prefixes of the word, shortest first. */
  lemma TunedKeyChanges(d: Dict, word: string, actualFreq: int, normalizeFreq: real)
    requires IsKey(word)
    ensures var cs := Tuned(d, word, actualFreq, normalizeFreq).1;
            && Lengthening(cs[1..])
            && (forall c :: c in cs[1..] ==> c.word.Some? && |c.word.value| < |word| && c.word.value !in d.freqs)
  {
    var d1 := MS.Stored(d, word, actualFreq, normalizeFreq);
    var n := PrefixLimit(word);
    PrefixChangesOfKey(d1, word, n);
    var more := RegisterPrefixes(d1, word, n).1;
    assert Tuned(d, word, actualFreq, normalizeFreq).1[1..] == more;
    forall c | c in more
      ensures c.word.Some? && |c.word.value| < |word| && c.word.value !in d.freqs
    {
      assert c.word.value !in d1.freqs;
    }
  }

  /** After `delWord` the segmenter treats the word as unknown: `getFreq` falls back to `minFreq`. */
  lemma DeletedIsUnknown(d: Dict, word: string, normalizeFreq: real)
    ensures !ContainsWord(Tuned(d, word, 0, normalizeFreq).0, word)
    ensures GetFreq(Tuned(d, word, 0, normalizeFreq).0, word) == d.minFreq
  {
    TunedEntries(d, word, 0, normalizeFreq);
  }

  /** What the segment's pieces (cut with the HMM) jointly get, plus `1 / total`. */
  function PiecesShare(ops: FloatOps, d: Dict, cut: Cutter, segment: string): real
    requires d.Valid()
  {
    MS.ScoreProduct(ops, d, Segment(d, cut, Hmm, segment), ops.log(ops.div(1.0, d.total))) + ops.div(1.0, d.total)
  }

  /** The segment's own current share; in this copy an unknown segment counts as `log(1 / total)`. */
  function SegmentShare(ops: FloatOps, d: Dict, segment: string): real
  {
    ops.exp(GetOrDefault(d, segment, ops.log(ops.div(1.0, d.total))))
  }

  /** The share `suggestFreq(tune, segment)` settles on to keep the segment whole. */
  function SuggestedShare(ops: FloatOps, d: Dict, cut: Cutter, segment: string): real
    requires d.Valid()
  {
    MS.Larger(PiecesShare(ops, d, cut, segment), SegmentShare(ops, d, segment))
  }

  /**
   * The suggested frequency to keep a segment whole is never below what
   * its pieces jointly get, nor below what it already has.
   */
  lemma SuggestedNotBelow(ops: FloatOps, d: Dict, cut: Cutter, segment: string)
    requires d.Valid() && d.total >= 0.0
    ensures ActualFreq(PiecesShare(ops, d, cut, segment), d.total) <= ActualFreq(SuggestedShare(ops, d, cut, segment), d.total)
    ensures ActualFreq(SegmentShare(ops, d, segment), d.total) <= ActualFreq(SuggestedShare(ops, d, cut, segment), d.total)
  {
    MS.LargerNotBelow(PiecesShare(ops, d, cut, segment), SegmentShare(ops, d, segment), d.total);
  }

  /**
   * Tuning to the suggested frequency keeps the segment whole: unless the
   * frequency truncates to 0, the segment is a known word scored
   * `log(ceil(share))`, which is no lower than the log of what its pieces
   * jointly get, nor than the log of its own former share.
   */
  lemma SuggestedKeepsWhole(ops: FloatOps, d: Dict, cut: Cutter, segment: string)
    requires d.Valid() && LogMonotone(ops) && Rounds(ops)
    ensures var share := SuggestedShare(ops, d, cut, segment);
            var r := Tuned(d, segment, ActualFreq(share, d.total), ops.log(ops.ceil(share))).0;
            ActualFreq(share, d.total) != 0 ==>
              && ContainsWord(r, segment) && GetFreq(r, segment) == ops.log(ops.ceil(share))
              && (0.0 < PiecesShare(ops, d, cut, segment) ==> ops.log(PiecesShare(ops, d, cut, segment)) <= GetFreq(r, segment))
              && (0.0 < SegmentShare(ops, d, segment) ==> ops.log(SegmentShare(ops, d, segment)) <= GetFreq(r, segment))
  {
    var share := SuggestedShare(ops, d, cut, segment);
    TunedEntries(d, segment, ActualFreq(share, d.total), ops.log(ops.ceil(share)));
    assert share <= ops.ceil(share);
  }

  /**
   * Tuning to the frequency suggested for splitting keeps the joined word
   * split: unless the frequency truncates to 0, it is a known word scored
   * `log(floor(share))`, which (for a positive `floor`) is no higher than
   * the log of what the segments jointly get, nor than the log of its own
   * former share.
   */
  lemma SplitTunedNotAbove(ops: FloatOps, d: Dict, segments: seq<string>)
    requires LogMonotone(ops) && Rounds(ops)
    ensures var share := MS.SplitShare(ops, d, segments);
            var w := Concat(segments);
            var r := Tuned(d, w, ActualFreq(share, d.total), ops.log(ops.floor(share))).0;
            ActualFreq(share, d.total) != 0 ==>
              && ContainsWord(r, w) && GetFreq(r, w) == ops.log(ops.floor(share))
              && (0.0 < ops.floor(share) ==>
                    && GetFreq(r, w) <= ops.log(MS.SegmentsShare(ops, d, segments))
                    && GetFreq(r, w) <= ops.log(MS.OwnShare(ops, d, w)))
  {
    var share := MS.SplitShare(ops, d, segments);
    TunedEntries(d, Concat(segments), ActualFreq(share, d.total), ops.log(ops.floor(share)));
    assert ops.floor(share) <= share;
  }

  /**
   * The tuning half of this copy's `JiebaSegmenter`: it shares the
   * dictionary and the forced-split set, and publishes every change list
   * to its listeners (`published`).
   */
  class JiebaSegmenter {
    const wordDict: WordDictionary
    ghost var published: seq<seq<Change>>

    predicate Valid()
      reads this, wordDict
    {
      wordDict.Valid()
    }

    constructor(dict: WordDictionary)
      ensures wordDict == dict && published == []
    {
      wordDict := dict;
      published := [];
    }

    /** The private `addWord(word, actualFreq, normalizeFreq)`; its change list is published. */
    method UpdateWord(word: string, actualFreq: int, normalizeFreq: real)
      requires Valid()
      modifies this, wordDict, wordDict.finalSeg
      ensures Valid()
      ensures wordDict.State() == Tuned(old(wordDict.State()), word, actualFreq, normalizeFreq).0
      ensures published == old(published) + [Tuned(old(wordDict.State()), word, actualFreq, normalizeFreq).1]
    {
      ghost var d0 := wordDict.State();
      wordDict.total := wordDict.total + actualFreq as real;
      if word in wordDict.freqs {
        wordDict.freqs := wordDict.freqs[word := normalizeFreq];
      } else {
        wordDict.freqs := wordDict.freqs[word := normalizeFreq];
        var _ := wordDict.AddWord(word);
      }
      assert wordDict.State() == MS.Stored(d0, word, actualFreq, normalizeFreq);
      var changeList := [Change(Some(word), actualFreq as real)];
      var more := wordDict.AddPrefixes(word);
      changeList := changeList + more;
      ghost var d2 := wordDict.State();
      assert (d2, more) == RegisterPrefixes(MS.Stored(d0, word, actualFreq, normalizeFreq), word, PrefixLimit(word));
      if actualFreq == 0 {
        wordDict.finalSeg.AddForceSplit(word);
        wordDict.freqs := wordDict.freqs - {word};
        var _ := wordDict.DelWord(word);
        assert wordDict.State() == MS.Deleted(d2, word);
      }
      if |changeList| != 0 {
        published := published + [changeList];
      }
    }

    /**
     * `suggestFreq(tune, segment)`: the frequency that keeps `segment`
     * whole; with `tune` the word is stored with score `log(ceil(share))`.
     */
    method SuggestFreq(ops: FloatOps, cut: Cutter, tune: bool, segment: string) returns (actualFreq: int)
      requires Valid()
      modifies this, wordDict, wordDict.finalSeg
      ensures Valid()
      ensures actualFreq == ActualFreq(SuggestedShare(ops, old(wordDict.State()), cut, segment), old(wordDict.total))
      ensures !tune ==> wordDict.State() == old(wordDict.State()) && published == old(published)
      ensures tune ==> wordDict.State() == Tuned(old(wordDict.State()), segment, actualFreq,
                                                 ops.log(ops.ceil(SuggestedShare(ops, old(wordDict.State()), cut, segment)))).0
      ensures tune ==> published == old(published) + [Tuned(old(wordDict.State()), segment, actualFreq,
                                                            ops.log(ops.ceil(SuggestedShare(ops, old(wordDict.State()), cut, segment)))).1]
    {
      var d := wordDict.State();
      var segs := MS.SentenceProcess(d, cut, segment);
      var freq := MS.MultiplyScores(ops, d, segs, ops.log(ops.div(1.0, wordDict.total)));
      freq := MS.Larger(freq + ops.div(1.0, wordDict.total),
                        ops.exp(GetOrDefault(d, segment, ops.log(ops.div(1.0, wordDict.total)))));
      assert freq == SuggestedShare(ops, d, cut, segment);
      actualFreq := ActualFreq(freq, wordDict.total);
      if tune {
        UpdateWord(segment, actualFreq, ops.log(ops.ceil(freq)));
      }
    }

    /**
     * `suggestFreq(tune, segments...)`: the frequency (as a `double`) that
     * splits the joined word into `segments`; with `tune` the joined word is
     * stored with score `log(floor(share))`.
     */
    method SuggestFreqJoined(ops: FloatOps, tune: bool, segments: seq<string>) returns (r: real)
      requires Valid()
      modifies this, wordDict, wordDict.finalSeg
      ensures Valid()
      ensures r == ActualFreq(MS.SplitShare(ops, old(wordDict.State()), segments), old(wordDict.total)) as real
      ensures !tune ==> wordDict.State() == old(wordDict.State()) && published == old(published)
      ensures tune ==> wordDict.State() == Tuned(old(wordDict.State()), Concat(segments), r.Floor,
                                                 ops.log(ops.floor(MS.SplitShare(ops, old(wordDict.State()), segments)))).0
      ensures tune ==> published == old(published) + [Tuned(old(wordDict.State()), Concat(segments), r.Floor,
                                                            ops.log(ops.floor(MS.SplitShare(ops, old(wordDict.State()), segments)))).1]
    {
      var d := wordDict.State();
      var words := Concat(segments);
      var freq := MS.MultiplyScores(ops, d, segments, ops.log(ops.div(1.0, wordDict.total)));
      freq := MS.Smaller(freq, ops.exp(GetOrDefault(d, words, ops.log(0.0))));
      assert freq == MS.SplitShare(ops, d, segments);
      var actualFreq := ActualFreq(freq, wordDict.total);
      if tune {
        UpdateWord(words, actualFreq, ops.log(ops.floor(freq)));
      }
      r := actualFreq as real;
    }

    /** `addWord(word, actualFreq)`: the score is `log(actualFreq / total)`, taken before `total` grows. */
    method AddWord(ops: FloatOps, word: string, actualFreq: int)
      requires Valid()
      modifies this, wordDict, wordDict.finalSeg
      ensures Valid()
      ensures wordDict.State() == Tuned(old(wordDict.State()), word, actualFreq, Norm(ops, actualFreq as real, old(wordDict.total))).0
      ensures published == old(published) + [Tuned(old(wordDict.State()), word, actualFreq, Norm(ops, actualFreq as real, old(wordDict.total))).1]
    {
      UpdateWord(word, actualFreq, Norm(ops, actualFreq as real, wordDict.total));
    }

    /** `addWord(word)`: no longer forced to split, then tuned to its suggested frequency. */
    method AddSuggestedWord(ops: FloatOps, cut: Cutter, word: string)
      requires Valid()
      modifies this, wordDict, wordDict.finalSeg
      ensures Valid()
      ensures var d := old(wordDict.State()).(forceSplit := old(wordDict.finalSeg.forceSplit) - {word});
              wordDict.State() == Tuned(d, word, ActualFreq(SuggestedShare(ops, d, cut, word), d.total),
                                        ops.log(ops.ceil(SuggestedShare(ops, d, cut, word)))).0
      ensures var d := old(wordDict.State()).(forceSplit := old(wordDict.finalSeg.forceSplit) - {word});
              published == old(published) + [Tuned(d, word, ActualFreq(SuggestedShare(ops, d, cut, word), d.total),
                                                   ops.log(ops.ceil(SuggestedShare(ops, d, cut, word)))).1]
    {
      wordDict.finalSeg.DelForceSplit(word);
      var _ := SuggestFreq(ops, cut, true, word);
    }

    /** `delWord(word)`: `addWord(word, 0)`. */
    method DelWord(ops: FloatOps, word: string)
      requires Valid()
      modifies this, wordDict, wordDict.finalSeg
      ensures Valid()
      ensures wordDict.State() == Tuned(old(wordDict.State()), word, 0, Norm(ops, 0.0, old(wordDict.total))).0
      ensures word !in wordDict.freqs && word in wordDict.finalSeg.forceSplit
      ensures !IsBlank(word) ==> !wordDict.trie.IsMatch(Normalize(word))
      ensures published == old(published) + [Tuned(old(wordDict.State()), word, 0, Norm(ops, 0.0, old(wordDict.total))).1]
    {
      AddWord(ops, word, 0);
      TunedEntries(old(wordDict.State()), word, 0, Norm(ops, 0.0, old(wordDict.total)));
    }

    /** `loadUserDict(source)`: the dictionary's change list, published when not empty and nothing was thrown. */
    method LoadUserDict(ops: FloatOps, source: seq<seq<string>>) returns (changes: seq<Change>, thrown: bool)
      requires Valid()
      modifies this, wordDict, wordDict.finalSeg
      ensures Valid()
      ensures Loading(wordDict.State(), changes, thrown) == UserRecords(ops, Loading(old(wordDict.State()), [], false), source)
      ensures published == if thrown || changes == [] then old(published) else old(published) + [changes]
    {
      changes, thrown := wordDict.LoadUserDict(ops, source);
      if thrown {
        return;
      }
      if |changes| != 0 {
        published := published + [changes];
      }
    }
  }
}
