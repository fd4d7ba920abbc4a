/**
 * `org.manlier.analysis.jieba.JiebaSegmenter`: the sentence and paragraph
 * segmentation loops, each proved to compute its specification function.
 */
module ManlierSegmenter {
  import opened Wrappers
  import opened Text
  import opened Lexicon
  import opened FinalSegs
  import opened ManlierDictionary
  import opened Dag
  import opened Route
  import opened Sentence
  import opened Tokens
  import opened Paragraph

  /** `processBuf(tokens, buf)`: the buffer whole when one character or a word, otherwise `FinalSeg.cut`. */
  method ProcessBuf(d: Dict, cut: Cutter, tokens: seq<string>, buf: string) returns (out: seq<string>)
    ensures out == tokens + ProcessBufSpec(d, cut, buf)
    ensures Concat(out) == Concat(tokens) + buf
  {
    if |buf| == 1 {
      out := tokens + [buf];
    } else if ContainsWord(d, buf) {
      out := tokens + [buf];
    } else {
      out := tokens + cut(d.forceSplit, buf);
    }
    ConcatAppend(tokens, ProcessBufSpec(d, cut, buf));
    ProcessBufSpells(d, cut, buf);
  }

  /** The route of a sentence, as `createDAG` and `calc` build it, walks to the end. */
  method WalkRoute(d: Dict, sentence: string) returns (route: RouteTable)
    requires d.Valid()
    ensures Advances(route, |sentence|)
    ensures Words(sentence, route, 0) == SentenceWords(d, sentence)
  {
    var dag := CreateDag(d.trie, sentence);
    route := Calc(d, sentence, dag);
    RoutesAdvance(d, sentence, dag);
  }

  /**
   * One word of `sentenceProcess`: a one-character word joins the buffer
   * `sb`; any other word first sends a non-empty buffer through
   * `processBuf`, then is added itself.
   */
  method ReadWord(d: Dict, cut: Cutter, sentence: string, route: RouteTable, x: nat,
                  ghost seen: seq<string>, ghost cs: seq<Chunk>, sb: string, tokens: seq<string>)
    returns (y: nat, ghost seen2: seq<string>, ghost cs2: seq<Chunk>, buf: string, out: seq<string>)
    requires Advances(route, |sentence|) && x < |sentence|
    requires Words(sentence, route, 0) == seen + Words(sentence, route, x)
    requires Scan(Hmm, seen) == (cs, sb) && tokens == Emit(d, cut, Hmm, cs)
    ensures x < y <= |sentence|
    ensures Words(sentence, route, 0) == seen2 + Words(sentence, route, y)
    ensures Scan(Hmm, seen2) == (cs2, buf) && out == Emit(d, cut, Hmm, cs2)
  {
    y := route[x].key + 1;
    WordsNext(sentence, route, x, y, seen);
    var w := sentence[x..y];
    seen2 := seen + [w];
    if y - x == 1 {
      cs2, buf, out := cs, sb + w, tokens;
      BufferAdvance(Hmm, seen, w, cs, sb, seen2, buf);
    } else {
      cs2 := cs + Flush(sb) + [Word(w)];
      out := tokens;
      if |sb| > 0 {
        out := ProcessBuf(d, cut, out, sb);
      }
      buf := "";
      out := out + [w];
      WordAdvance(d, cut, Hmm, seen, w, cs, sb, tokens, seen2, cs2, out);
    }
  }

  /** `sentenceProcess(sentence)`: the route's words, one-character runs through `processBuf`. */
  method SentenceProcess(d: Dict, cut: Cutter, sentence: string) returns (tokens: seq<string>)
    requires d.Valid()
    ensures tokens == Segment(d, cut, Hmm, sentence)
    ensures Concat(tokens) == sentence
  {
    var route := WalkRoute(d, sentence);
    var n := |sentence|;
    var x := 0;
    var sb := "";
    tokens := [];
    ghost var seen: seq<string> := [];
    ghost var cs: seq<Chunk> := [];
    while x < n
      invariant x <= n
      invariant Words(sentence, route, 0) == seen + Words(sentence, route, x)
      invariant Scan(Hmm, seen) == (cs, sb) && tokens == Emit(d, cut, Hmm, cs)
      decreases n - x
    {
      x, seen, cs, sb, tokens := ReadWord(d, cut, sentence, route, x, seen, cs, sb, tokens);
    }
    assert Words(sentence, route, x) == [];
    ghost var closedTokens := tokens;
    var buf := sb;
    if |buf| > 0 {
      tokens := ProcessBuf(d, cut, tokens, buf);
    }
    SegmentDone(d, cut, sentence, seen, cs, sb, closedTokens, tokens);
  }

  /** `[a-zA-Z0-9]` is found in `w`. */
  predicate FindsAsciiAlnum(w: string)
  {
    exists k :: 0 <= k < |w| && IsAsciiAlnum(w[k])
  }

  /** For a one-character word the pattern test is the character test that `Buffered` uses. */
  lemma FindsSingle(w: string)
    requires |w| == 1
    ensures FindsAsciiAlnum(w) <==> Buffered(NoHmm, w)
  {
    if FindsAsciiAlnum(w) {
      var k :| 0 <= k < |w| && IsAsciiAlnum(w[k]);
      assert k == 0;
    }
  }

  /**
   * One word of `sentenceProcessWithNoHMM`: a single letter or digit joins
   * the buffer `sb`; any other word first adds a non-empty buffer, then
   * itself.
   */
  method ReadWordWithNoHMM(sentence: string, route: RouteTable, x: nat,
                           ghost seen: seq<string>, ghost cs: seq<Chunk>, sb: string, tokens: seq<string>)
    returns (y: nat, ghost seen2: seq<string>, ghost cs2: seq<Chunk>, buf: string, out: seq<string>)
    requires Advances(route, |sentence|) && x < |sentence|
    requires Words(sentence, route, 0) == seen + Words(sentence, route, x)
    requires Scan(NoHmm, seen) == (cs, sb) && tokens == Texts(cs)
    ensures x < y <= |sentence|
    ensures Words(sentence, route, 0) == seen2 + Words(sentence, route, y)
    ensures Scan(NoHmm, seen2) == (cs2, buf) && out == Texts(cs2)
  {
    y := route[x].key + 1;
    WordsNext(sentence, route, x, y, seen);
    var w := sentence[x..y];
    seen2 := seen + [w];
    var single := FindsAsciiAlnum(w) && |w| == 1;
    if |w| == 1 {
      FindsSingle(w);
    }
    assert single == Buffered(NoHmm, w);
    if single {
      cs2, buf, out := cs, sb + w, tokens;
      BufferAdvance(NoHmm, seen, w, cs, sb, seen2, buf);
    } else {
      cs2 := cs + Flush(sb) + [Word(w)];
      out := tokens;
      if |sb| > 0 {
        out := out + [sb];
      }
      buf := "";
      out := out + [w];
      TextAdvance(seen, w, cs, sb, tokens, seen2, cs2, out);
    }
  }

  /** `sentenceProcessWithNoHMM(sentence)`: the route's words, runs of single letters or digits joined. */
  method SentenceProcessWithNoHMM(d: Dict, sentence: string) returns (tokens: seq<string>)
    requires d.Valid()
    ensures tokens == Texts(Group(NoHmm, SentenceWords(d, sentence)))
    ensures Concat(tokens) == sentence
  {
    var route := WalkRoute(d, sentence);
    var n := |sentence|;
    var x := 0;
    var sb := "";
    tokens := [];
    ghost var seen: seq<string> := [];
    ghost var cs: seq<Chunk> := [];
    while x < n
      invariant x <= n
      invariant Words(sentence, route, 0) == seen + Words(sentence, route, x)
      invariant Scan(NoHmm, seen) == (cs, sb) && tokens == Texts(cs)
      decreases n - x
    {
      x, seen, cs, sb, tokens := ReadWordWithNoHMM(sentence, route, x, seen, cs, sb, tokens);
    }
    assert Words(sentence, route, x) == [];
    ghost var closedTokens := tokens;
    var buf := sb;
    if |buf| > 0 {
      tokens := tokens + [sb];
    }
    TextsDone(d, sentence, seen, cs, sb, closedTokens, tokens);
  }

  /** The `n`-gram loop of `_process`: each dictionary `n`-gram of `w` in order, at `off + j`. */
  method AddGrams(d: Dict, tokens: seq<SegToken>, w: string, n: nat, off: nat) returns (out: seq<SegToken>)
    requires n <= |w|
    ensures out == tokens + Grams(d, w, n, off, |w| - n + 1)
  {
    out := tokens;
    var j := 0;
    while j < |w| - n + 1
      invariant j <= |w| - n + 1
      invariant out == tokens + Grams(d, w, n, off, j)
    {
      var gram := w[j..j + n];
      if ContainsWord(d, gram) {
        out := out + [SegToken(gram, off + j, off + j + n)];
      }
      j := j + 1;
    }
  }

  /** The body of `_process`'s INDEX loop for one word: its 2-grams, its 3-grams, then the word. */
  method AddWordTokens(d: Dict, tokens: seq<SegToken>, w: string, off: nat) returns (out: seq<SegToken>)
    ensures out == tokens + WordTokens(d, Index, w, off)
  {
    out := tokens;
    if |w| > 2 {
      out := AddGrams(d, out, w, 2, off);
    }
    ghost var g2 := out;
    if |w| > 3 {
      out := AddGrams(d, out, w, 3, off);
    }
    IndexSteps(d, w, off, tokens, g2, out);
    out := out + [SegToken(w, off, off + |w|)];
  }

  /** `_process(tokenList, mode, offset)`: the words' tokens, end to end from `offset`. */
  method AssembleTokens(d: Dict, mode: SegMode, ws: seq<string>, offset: nat) returns (tokens: seq<SegToken>)
    ensures tokens == Assemble(d, mode, ws, offset)
  {
    if mode == Search {
      tokens := AssembleSearchTokens(d, ws, offset);
    } else {
      tokens := AssembleIndexTokens(d, ws, offset);
    }
  }

  /** The SEARCH branch of `_process`: one token per word. */
  method AssembleSearchTokens(d: Dict, ws: seq<string>, offset: nat) returns (tokens: seq<SegToken>)
    ensures tokens == Assemble(d, Search, ws, offset)
  {
    tokens := [];
    var off: nat := offset;
    var k := 0;
    AssembleStart(d, Search, ws, offset);
    while k < |ws|
      invariant k <= |ws|
      invariant tokens + Assemble(d, Search, ws[k..], off) == Assemble(d, Search, ws, offset)
    {
      var w := ws[k];
      ghost var k0, off0, tokens0 := k, off, tokens;
      tokens := tokens + [SegToken(w, off, off + |w|)];
      off := off + |w|;
      k := k + 1;
      AssembleAdvance(d, Search, ws, k0, k, off0, off, Assemble(d, Search, ws, offset), tokens0, tokens);
    }
    AssembleDone(d, Search, ws, k, off, Assemble(d, Search, ws, offset), tokens);
  }

  /** The INDEX branch of `_process`: each word's grams, then the word. */
  method AssembleIndexTokens(d: Dict, ws: seq<string>, offset: nat) returns (tokens: seq<SegToken>)
    ensures tokens == Assemble(d, Index, ws, offset)
  {
    tokens := [];
    var off: nat := offset;
    var k := 0;
    AssembleStart(d, Index, ws, offset);
    while k < |ws|
      invariant k <= |ws|
      invariant tokens + Assemble(d, Index, ws[k..], off) == Assemble(d, Index, ws, offset)
    {
      var w := ws[k];
      ghost var k0, off0, tokens0 := k, off, tokens;
      tokens := AddWordTokens(d, tokens, w, off);
      off := off + |w|;
      k := k + 1;
      AssembleAdvance(d, Index, ws, k0, k, off0, off, Assemble(d, Index, ws, offset), tokens0, tokens);
    }
    AssembleDone(d, Index, ws, k, off, Assemble(d, Index, ws, offset), tokens);
  }

  /**
   * The block of `process` that closes the pending run `sb` at character
   * `i`: when it is non-empty its words go through `sentenceProcess` and
   * `_process` from `offset`, and the run restarts empty at `i`.
   */
  method CloseRun(d: Dict, cut: Cutter, mode: SegMode, tokens: seq<SegToken>, sb: string, offset: nat, i: nat)
    returns (out: seq<SegToken>, rest: string, next: nat)
    requires d.Valid() && offset + |sb| == i
    ensures out == tokens + RunTokens(d, cut, Hmm, mode, sb, offset)
    ensures rest == [] && next == i
  {
    out, rest, next := tokens, sb, offset;
    if |sb| > 0 {
      var words := SentenceProcess(d, cut, sb);
      var ts := AssembleTokens(d, mode, words, offset);
      out := tokens + ts;
      rest := "";
      next := i;
    }
  }

  /** The other-character branch of `process`: the run through `sentenceProcess` and `_process`, then the character's own token. */
  method CloseChar(d: Dict, cut: Cutter, u: CharUtil, mode: SegMode, para: string, i: nat,
                ghost closed: seq<Piece>, sb: string, offset: nat, tokens: seq<SegToken>)
    returns (ghost closed2: seq<Piece>, run: string, next: nat, out: seq<SegToken>)
    requires d.Valid() && i < |para| && !InRun(u, para[i])
    requires Scanned(d, cut, u, Hmm, mode, para, i, closed, sb, offset, tokens)
    ensures Scanned(d, cut, u, Hmm, mode, para, i + 1, closed2, run, next, out)
  {
    out, run, next := CloseRun(d, cut, mode, tokens, sb, offset, i);
    // `offset` is back at `i` once the run is closed
    assert SegToken(para[i..i + 1], next, next + 1) == SegToken(para[i..i + 1], i, i + 1);
    out := out + [SegToken(para[i..i + 1], next, next + 1)];
    next := next + 1;
    closed2 := closed + [Closed(sb, offset), Single(SegToken(para[i..i + 1], i, i + 1))];
    CloseAdvance(d, cut, u, Hmm, mode, para, i, i + 1, closed, sb, offset, tokens, closed2, run, next, out);
  }

  /** One character of `process`: a run character grows `sb`; any other closes the run through `sentenceProcess` and becomes its own token. */
  method ReadChar(d: Dict, cut: Cutter, u: CharUtil, mode: SegMode, para: string, i: nat,
                ghost closed: seq<Piece>, sb: string, offset: nat, tokens: seq<SegToken>)
    returns (ghost closed2: seq<Piece>, run: string, next: nat, out: seq<SegToken>)
    requires d.Valid() && i < |para|
    requires Scanned(d, cut, u, Hmm, mode, para, i, closed, sb, offset, tokens)
    ensures Scanned(d, cut, u, Hmm, mode, para, i + 1, closed2, run, next, out)
  {
    var ch := u.regularize(para[i]);
    if u.ccFind(ch) {
      closed2, run, next, out := closed, sb + [ch], offset, tokens;
      GrowAdvance(d, cut, u, Hmm, mode, para, i, i + 1, closed, sb, run, offset, tokens);
    } else {
      closed2, run, next, out := CloseChar(d, cut, u, mode, para, i, closed, sb, offset, tokens);
    }
  }

  /** `process(paragraph, mode, HMM)`: without the HMM the work goes to `processWithNoHMM`. */
  method Process(d: Dict, cut: Cutter, u: CharUtil, para: string, mode: SegMode, hmm: bool) returns (tokens: seq<SegToken>)
    requires d.Valid()
    ensures tokens == Paragraph.Process(d, cut, u, if hmm then Hmm else NoHmm, mode, para)
  {
    if !hmm {
      tokens := ProcessWithNoHMM(d, cut, u, para, mode);
      return;
    }
    tokens := [];
    var sb := "";
    var offset: nat := 0;
    ghost var closed: seq<Piece> := [];
    var i := 0;
    while i < |para|
      invariant Scanned(d, cut, u, Hmm, mode, para, i, closed, sb, offset, tokens)
    {
      closed, sb, offset, tokens := ReadChar(d, cut, u, mode, para, i, closed, sb, offset, tokens);
      i := i + 1;
    }
    ProcessEnd(d, cut, u, Hmm, mode, para, closed, sb, offset);
    tokens, sb, offset := CloseRun(d, cut, mode, tokens, sb, offset, i);
  }

  /** The block of `processWithNoHMM` that closes the pending run, through `sentenceProcessWithNoHMM`. */
  method CloseRunWithNoHMM(d: Dict, ghost cut: Cutter, mode: SegMode, tokens: seq<SegToken>, sb: string, offset: nat, i: nat)
    returns (out: seq<SegToken>, rest: string, next: nat)
    requires d.Valid() && offset + |sb| == i
    ensures out == tokens + RunTokens(d, cut, NoHmm, mode, sb, offset)
    ensures rest == [] && next == i
  {
    PlainRunTokens(d, cut, mode, sb, offset);
    out, rest, next := tokens, sb, offset;
    if |sb| > 0 {
      var words := SentenceProcessWithNoHMM(d, sb);
      var ts := AssembleTokens(d, mode, words, offset);
      out := tokens + ts;
      rest := "";
      next := i;
    }
  }

  /** The other-character statement of `processWithNoHMM`: both arms of its `containsWord` test add the same token. */
  method AddOther(d: Dict, tokens: seq<SegToken>, para: string, i: nat, offset: nat) returns (out: seq<SegToken>)
    requires i < |para|
    ensures out == tokens + [SegToken(para[i..i + 1], offset, offset + 1)]
  {
    if ContainsWord(d, para[i..i + 1]) {
      out := tokens + [SegToken(para[i..i + 1], offset, offset + 1)];
    } else {
      out := tokens + [SegToken(para[i..i + 1], offset, offset + 1)];
    }
  }

  /** The other-character branch of `processWithNoHMM`. */
  method CloseCharWithNoHMM(d: Dict, ghost cut: Cutter, u: CharUtil, mode: SegMode, para: string, i: nat,
                ghost closed: seq<Piece>, sb: string, offset: nat, tokens: seq<SegToken>)
    returns (ghost closed2: seq<Piece>, run: string, next: nat, out: seq<SegToken>)
    requires d.Valid() && i < |para| && !InRun(u, para[i])
    requires Scanned(d, cut, u, NoHmm, mode, para, i, closed, sb, offset, tokens)
    ensures Scanned(d, cut, u, NoHmm, mode, para, i + 1, closed2, run, next, out)
  {
    out, run, next := CloseRunWithNoHMM(d, cut, mode, tokens, sb, offset, i);
    out := AddOther(d, out, para, i, next);
    next := next + 1;
    closed2 := closed + [Closed(sb, offset), Single(SegToken(para[i..i + 1], i, i + 1))];
    CloseAdvance(d, cut, u, NoHmm, mode, para, i, i + 1, closed, sb, offset, tokens, closed2, run, next, out);
  }

  /** One character of `processWithNoHMM`, closing runs through `sentenceProcessWithNoHMM`. */
  method ReadCharWithNoHMM(d: Dict, ghost cut: Cutter, u: CharUtil, mode: SegMode, para: string, i: nat,
                ghost closed: seq<Piece>, sb: string, offset: nat, tokens: seq<SegToken>)
    returns (ghost closed2: seq<Piece>, run: string, next: nat, out: seq<SegToken>)
    requires d.Valid() && i < |para|
    requires Scanned(d, cut, u, NoHmm, mode, para, i, closed, sb, offset, tokens)
    ensures Scanned(d, cut, u, NoHmm, mode, para, i + 1, closed2, run, next, out)
  {
    var ch := u.regularize(para[i]);
    if u.ccFind(ch) {
      closed2, run, next, out := closed, sb + [ch], offset, tokens;
      GrowAdvance(d, cut, u, NoHmm, mode, para, i, i + 1, closed, sb, run, offset, tokens);
    } else {
      closed2, run, next, out := CloseCharWithNoHMM(d, cut, u, mode, para, i, closed, sb, offset, tokens);
    }
  }

  /**
   * `processWithNoHMM(paragraph, mode)`: the same scan, runs through
   * `sentenceProcessWithNoHMM`. The HMM segmenter `cut` is never called, so
   * the tokens are those of the specification for every `cut`.
   */
  method ProcessWithNoHMM(d: Dict, ghost cut: Cutter, u: CharUtil, para: string, mode: SegMode) returns (tokens: seq<SegToken>)
    requires d.Valid()
    ensures tokens == Paragraph.Process(d, cut, u, NoHmm, mode, para)
  {
    tokens := [];
    var sb := "";
    var offset: nat := 0;
    ghost var closed: seq<Piece> := [];
    var i := 0;
    while i < |para|
      invariant Scanned(d, cut, u, NoHmm, mode, para, i, closed, sb, offset, tokens)
    {
      closed, sb, offset, tokens := ReadCharWithNoHMM(d, cut, u, mode, para, i, closed, sb, offset, tokens);
      i := i + 1;
    }
    ProcessEnd(d, cut, u, NoHmm, mode, para, closed, sb, offset);
    tokens, sb, offset := CloseRunWithNoHMM(d, cut, mode, tokens, sb, offset, i);
  }

  /**
   * The product `suggestFreq` builds: `Math.pow(Math.E, getOrDefault(seg, dflt))`
   * multiplied in for each segment, from left to right.
   */
  function ScoreProduct(ops: FloatOps, d: Dict, segs: seq<string>, dflt: real): real
  {
    if segs == [] then 1.0
    else ScoreProduct(ops, d, segs[..|segs| - 1], dflt) * ops.exp(GetOrDefault(d, segs[|segs| - 1], dflt))
  }

  /** The first stage of the private `addWord`: `total` grows, the score is stored, a new word is filled into the trie. */
  function Stored(d: Dict, word: string, actualFreq: int, normalizeFreq: real): Dict
  {
    d.(total := d.total + actualFreq as real,
       freqs := d.freqs[word := normalizeFreq],
       trie := if word in d.freqs then d.trie else AddKey(d.trie, word).0)
  }

  /** The last stage on a zero frequency: forced to split, removed from `freqs`, its key disabled. */
  function Deleted(d: Dict, word: string): Dict
  {
    d.(forceSplit := d.forceSplit + {word}, freqs := d.freqs - {word}, trie := DelKey(d.trie, word).0)
  }

  /**
   * The private `addWord(word, actualFreq, normalizeFreq)`: the word is
   * stored under the name given, and a zero frequency then deletes it.
   */
  function Tuned(d: Dict, word: string, actualFreq: int, normalizeFreq: real): Dict
  {
    var d1 := Stored(d, word, actualFreq, normalizeFreq);
    if actualFreq == 0 then Deleted(d1, word) else d1
  }

  /**
   * What tuning does to the dictionary: `total` moves by the frequency; a
   * non-zero frequency puts or replaces the word's score and makes its key
   * matchable, touching the trie only for a new word; a zero frequency
   * leaves the word unknown, forced to split and unmatchable. No other
   * word's entry changes, and the null entry and `minFreq` stay.
   */
  lemma TunedEffect(d: Dict, word: string, actualFreq: int, normalizeFreq: real)
    ensures var r := Tuned(d, word, actualFreq, normalizeFreq);
            && r.total == d.total + actualFreq as real
            && r.minFreq == d.minFreq && r.nullFreq == d.nullFreq
            && (forall k :: k != word ==> (k in r.freqs <==> k in d.freqs))
            && (forall k :: k != word && k in d.freqs ==> r.freqs[k] == d.freqs[k])
            && (d.Valid() ==> r.Valid())
            && (actualFreq != 0 ==>
                  && r.freqs[word] == normalizeFreq && r.forceSplit == d.forceSplit
                  && (word in d.freqs ==> r.trie == d.trie)
                  && (word !in d.freqs && !IsBlank(word) ==> r.trie.IsMatch(Normalize(word))))
            && (actualFreq == 0 ==>
                  && word !in r.freqs && word in r.forceSplit
                  && (!IsBlank(word) ==> !r.trie.IsMatch(Normalize(word))))
  {
  }

  /** After `delWord` the segmenter treats the word as unknown: `getFreq` falls back to `minFreq`. */
  lemma DeletedIsUnknown(d: Dict, word: string, normalizeFreq: real)
    ensures !ContainsWord(Tuned(d, word, 0, normalizeFreq), word)
    ensures GetFreq(Tuned(d, word, 0, normalizeFreq), word) == d.minFreq
  {
  }

  /** What the segment's pieces jointly get, plus `1 / total`; unknown pieces count as `log(1 / total)`. */
  function PiecesShare(ops: FloatOps, d: Dict, segment: string): real
    requires d.Valid()
  {
    ScoreProduct(ops, d, Texts(Group(NoHmm, SentenceWords(d, segment))), ops.log(ops.div(1.0, d.total)))
      + ops.div(1.0, d.total)
  }

  /** What the segments jointly get; unknown segments count as `log(1 / total)`. */
  function SegmentsShare(ops: FloatOps, d: Dict, segments: seq<string>): real
  {
    ScoreProduct(ops, d, segments, ops.log(ops.div(1.0, d.total)))
  }

  /** The word's own current share; an unknown word counts as `log(0)`. */
  function OwnShare(ops: FloatOps, d: Dict, word: string): real
  {
    ops.exp(GetOrDefault(d, word, ops.log(0.0)))
  }

  function Larger(a: real, b: real): real
  {
    if a >= b then a else b
  }

  function Smaller(a: real, b: real): real
  {
    if a <= b then a else b
  }

  /** Keeping the larger of two shares never yields a smaller frequency than either. */
  lemma LargerNotBelow(a: real, b: real, total: real)
    requires 0.0 <= total
    ensures ActualFreq(a, total) <= ActualFreq(Larger(a, b), total)
    ensures ActualFreq(b, total) <= ActualFreq(Larger(a, b), total)
  {
    ActualFreqMonotone(a, Larger(a, b), total);
    ActualFreqMonotone(b, Larger(a, b), total);
  }

  /** Keeping the smaller of two shares never yields a larger frequency than either. */
  lemma SmallerNotAbove(a: real, b: real, total: real)
    requires 0.0 <= total
    ensures ActualFreq(Smaller(a, b), total) <= ActualFreq(a, total)
    ensures ActualFreq(Smaller(a, b), total) <= ActualFreq(b, total)
  {
    ActualFreqMonotone(Smaller(a, b), a, total);
    ActualFreqMonotone(Smaller(a, b), b, total);
  }

  /** The share `suggestFreq(tune, segment)` settles on to keep the segment whole. */
  function SuggestedShare(ops: FloatOps, d: Dict, segment: string): real
    requires d.Valid()
  {
    Larger(PiecesShare(ops, d, segment), OwnShare(ops, d, segment))
  }

  /**
   * The suggested frequency to keep a segment whole is never below what
   * its pieces jointly get, nor below what it already has.
   */
  lemma SuggestedNotBelow(ops: FloatOps, d: Dict, segment: string)
    requires d.Valid() && d.total >= 0.0
    ensures ActualFreq(PiecesShare(ops, d, segment), d.total) <= ActualFreq(SuggestedShare(ops, d, segment), d.total)
    ensures ActualFreq(OwnShare(ops, d, segment), d.total) <= ActualFreq(SuggestedShare(ops, d, segment), d.total)
  {
    LargerNotBelow(PiecesShare(ops, d, segment), OwnShare(ops, d, segment), d.total);
  }

  /** The share `suggestFreq(tune, segments...)` settles on to split the joined word into `segments`. */
  function SplitShare(ops: FloatOps, d: Dict, segments: seq<string>): real
  {
    Smaller(SegmentsShare(ops, d, segments), OwnShare(ops, d, Concat(segments)))
  }

  /**
   * The suggested frequency to split a word into the given segments is
   * never above what the segments jointly get, nor above what the word has.
   */
  lemma SplitNotAbove(ops: FloatOps, d: Dict, segments: seq<string>)
    requires d.total >= 0.0
    ensures ActualFreq(SplitShare(ops, d, segments), d.total) <= ActualFreq(SegmentsShare(ops, d, segments), d.total)
    ensures ActualFreq(SplitShare(ops, d, segments), d.total) <= ActualFreq(OwnShare(ops, d, Concat(segments)), d.total)
  {
    SmallerNotAbove(SegmentsShare(ops, d, segments), OwnShare(ops, d, Concat(segments)), d.total);
  }

  /**
   * Tuning to the suggested frequency keeps the segment whole: unless the
   * frequency truncates to 0, the segment is a known word scored with the
   * log of the suggested share, which is no lower than the log of what its
   * pieces jointly get, nor than the log of its own former share.
   */
  lemma SuggestedKeepsWhole(ops: FloatOps, d: Dict, segment: string)
    requires d.Valid() && LogMonotone(ops)
    ensures var share := SuggestedShare(ops, d, segment);
            var r := Tuned(d, segment, ActualFreq(share, d.total), ops.log(share));
            ActualFreq(share, d.total) != 0 ==>
              && ContainsWord(r, segment) && GetFreq(r, segment) == ops.log(share)
              && (0.0 < PiecesShare(ops, d, segment) ==> ops.log(PiecesShare(ops, d, segment)) <= GetFreq(r, segment))
              && (0.0 < OwnShare(ops, d, segment) ==> ops.log(OwnShare(ops, d, segment)) <= GetFreq(r, segment))
  {
    var share := SuggestedShare(ops, d, segment);
    TunedEffect(d, segment, ActualFreq(share, d.total), ops.log(share));
  }

  /**
   * Tuning to the frequency suggested for splitting keeps the joined word
   * split: unless the frequency truncates to 0, it is a known word scored
   * with the log of the suggested share, which (for a positive share) is no
   * higher than the log of what the segments jointly get, nor than the log
   * of its own former share.
   */
  lemma SplitTunedNotAbove(ops: FloatOps, d: Dict, segments: seq<string>)
    requires LogMonotone(ops)
    ensures var share := SplitShare(ops, d, segments);
            var w := Concat(segments);
            var r := Tuned(d, w, ActualFreq(share, d.total), ops.log(share));
            ActualFreq(share, d.total) != 0 ==>
              && ContainsWord(r, w) && GetFreq(r, w) == ops.log(share)
              && (0.0 < share ==>
                    && GetFreq(r, w) <= ops.log(SegmentsShare(ops, d, segments))
                    && GetFreq(r, w) <= ops.log(OwnShare(ops, d, w)))
  {
    var share := SplitShare(ops, d, segments);
    TunedEffect(d, Concat(segments), ActualFreq(share, d.total), ops.log(share));
  }

  /** The `suggestFreq` loop: the product of `Math.pow(Math.E, getOrDefault(seg, dflt))` over `segs`. */
  method MultiplyScores(ops: FloatOps, d: Dict, segs: seq<string>, dflt: real) returns (freq: real)
    ensures freq == ScoreProduct(ops, d, segs, dflt)
  {
    freq := 1.0;
    for i := 0 to |segs|
      invariant freq == ScoreProduct(ops, d, segs[..i], dflt)
    {
      assert segs[..i + 1][..i] == segs[..i];
      freq := freq * ops.exp(GetOrDefault(d, segs[i], dflt));
    }
    assert segs[..|segs|] == segs;
  }

  /**
   * The tuning half of `JiebaSegmenter`: it shares the dictionary and the
   * HMM segmenter's forced-split set, and publishes every change list to
   * its subscribers (`published`).
   */
  class JiebaSegmenter {
    const wordDict: WordDictionary
    ghost var published: seq<seq<Change>>

    predicate Valid()
      reads this, wordDict
    {
      wordDict.Valid()
    }

    constructor(dict: WordDictionary)
      ensures wordDict == dict && published == []
    {
      wordDict := dict;
      published := [];
    }

    /** The private `addWord(word, actualFreq, normalizeFreq)`; the one-entry change list is published. */
    method UpdateWord(word: string, actualFreq: int, normalizeFreq: real)
      requires Valid()
      modifies this, wordDict, wordDict.finalSeg
      ensures Valid()
      ensures wordDict.State() == Tuned(old(wordDict.State()), word, actualFreq, normalizeFreq)
      ensures published == old(published) + [[Change(Some(word), actualFreq as real)]]
    {
      wordDict.total := wordDict.total + actualFreq as real;
      if word in wordDict.freqs {
        wordDict.freqs := wordDict.freqs[word := normalizeFreq];
      } else {
        wordDict.freqs := wordDict.freqs[word := normalizeFreq];
        var _ := wordDict.AddWord(word);
      }
      var changeList := [Change(Some(word), actualFreq as real)];
      if actualFreq == 0 {
        wordDict.finalSeg.AddForceSplit(word);
        wordDict.freqs := wordDict.freqs - {word};
        var _ := wordDict.DelWord(word);
      }
      if |changeList| != 0 {
        published := published + [changeList];
      }
    }

    /**
     * `suggestFreq(tune, segment)`: the frequency that keeps `segment`
     * whole, and with `tune` the dictionary updated to it.
     */
    method SuggestFreq(ops: FloatOps, tune: bool, segment: string) returns (actualFreq: int)
      requires Valid()
      modifies this, wordDict, wordDict.finalSeg
      ensures Valid()
      ensures actualFreq == ActualFreq(SuggestedShare(ops, old(wordDict.State()), segment), old(wordDict.total))
      ensures !tune ==> wordDict.State() == old(wordDict.State()) && published == old(published)
      ensures tune ==> wordDict.State() == Tuned(old(wordDict.State()), segment, actualFreq,
                                                 ops.log(SuggestedShare(ops, old(wordDict.State()), segment)))
      ensures tune ==> published == old(published) + [[Change(Some(segment), actualFreq as real)]]
    {
      var d := wordDict.State();
      var segs := SentenceProcessWithNoHMM(d, segment);
      var freq := MultiplyScores(ops, d, segs, ops.log(ops.div(1.0, wordDict.total)));
      var segmentPercent := ops.exp(GetOrDefault(d, segment, ops.log(0.0)));
      freq := Larger(freq + ops.div(1.0, wordDict.total), segmentPercent);
      assert freq == SuggestedShare(ops, d, segment);
      actualFreq := ActualFreq(freq, wordDict.total);
      if tune {
        UpdateWord(segment, actualFreq, ops.log(freq));
      }
    }

    /**
     * `suggestFreq(tune, segments...)`: the frequency that splits the joined
     * word into `segments`, and with `tune` the dictionary updated to it.
     */
    method SuggestFreqJoined(ops: FloatOps, tune: bool, segments: seq<string>) returns (actualFreq: int)
      requires Valid()
      modifies this, wordDict, wordDict.finalSeg
      ensures Valid()
      ensures actualFreq == ActualFreq(SplitShare(ops, old(wordDict.State()), segments), old(wordDict.total))
      ensures !tune ==> wordDict.State() == old(wordDict.State()) && published == old(published)
      ensures tune ==> wordDict.State() == Tuned(old(wordDict.State()), Concat(segments), actualFreq,
                                                 ops.log(SplitShare(ops, old(wordDict.State()), segments)))
      ensures tune ==> published == old(published) + [[Change(Some(Concat(segments)), actualFreq as real)]]
    {
      var d := wordDict.State();
      var words := Concat(segments);
      var percent := MultiplyScores(ops, d, segments, ops.log(ops.div(1.0, wordDict.total)));
      var wordsPercent := ops.exp(GetOrDefault(d, words, ops.log(0.0)));
      percent := Smaller(percent, wordsPercent);
      assert percent == SplitShare(ops, d, segments);
      actualFreq := ActualFreq(percent, wordDict.total);
      if tune {
        UpdateWord(words, actualFreq, ops.log(percent));
      }
    }

    /** `addWord(word, actualFreq)`: the score is `log(actualFreq / total)`, taken before `total` grows. */
    method AddWord(ops: FloatOps, word: string, actualFreq: int)
      requires Valid()
      modifies this, wordDict, wordDict.finalSeg
      ensures Valid()
      ensures wordDict.State() == Tuned(old(wordDict.State()), word, actualFreq, Norm(ops, actualFreq as real, old(wordDict.total)))
      ensures published == old(published) + [[Change(Some(word), actualFreq as real)]]
    {
      UpdateWord(word, actualFreq, Norm(ops, actualFreq as real, wordDict.total));
    }

    /** `addWord(word)`: no longer forced to split, then tuned to its suggested frequency. */
    method AddSuggestedWord(ops: FloatOps, word: string)
      requires Valid()
      modifies this, wordDict, wordDict.finalSeg
      ensures Valid()
      ensures var d := old(wordDict.State()).(forceSplit := old(wordDict.finalSeg.forceSplit) - {word});
              wordDict.State() == Tuned(d, word, ActualFreq(SuggestedShare(ops, d, word), d.total),
                                        ops.log(SuggestedShare(ops, d, word)))
      ensures var d := old(wordDict.State()).(forceSplit := old(wordDict.finalSeg.forceSplit) - {word});
              published == old(published) + [[Change(Some(word), ActualFreq(SuggestedShare(ops, d, word), d.total) as real)]]
    {
      wordDict.finalSeg.DelForceSplit(word);
      var _ := SuggestFreq(ops, true, word);
    }

    /** `delWord(word)`: `addWord(word, 0)`. */
    method DelWord(ops: FloatOps, word: string)
      requires Valid()
      modifies this, wordDict, wordDict.finalSeg
      ensures Valid()
      ensures wordDict.State() == Tuned(old(wordDict.State()), word, 0, Norm(ops, 0.0, old(wordDict.total)))
      ensures word !in wordDict.freqs
      ensures published == old(published) + [[Change(Some(word), 0.0)]]
    {
      AddWord(ops, word, 0);
    }

    /**
     * `loadUserDict(source)`: the dictionary's change list, published when
     * not empty; nothing is published when the dictionary's loader throws.
     */
    method LoadUserDict(ops: FloatOps, source: seq<seq<string>>) returns (changes: seq<Change>, thrown: bool)
      requires Valid()
      modifies this, wordDict, wordDict.finalSeg
      ensures Valid()
      ensures var s := UserRecords(ops, Staging(old(wordDict.State()), map[], None, [], false), source);
              var nm := NormMap(ops, s.staged, s.d.total);
              var nn := NormNull(ops, s.stagedNull, s.d.total);
              && thrown == s.thrown
              && wordDict.total == s.d.total && wordDict.trie == s.d.trie
              && wordDict.finalSeg.forceSplit == s.d.forceSplit
              && (thrown ==> wordDict.freqs == old(wordDict.freqs) && wordDict.nullFreq == old(wordDict.nullFreq)
                             && wordDict.minFreq == old(wordDict.minFreq))
              && (!thrown ==>
                    && changes == s.changes
                    && wordDict.freqs == old(wordDict.freqs) + nm
                    && wordDict.nullFreq == (if nn.Some? then nn else old(wordDict.nullFreq))
                    && MinUpdated(wordDict.minFreq, old(wordDict.minFreq), nm, nn))
      ensures published == if thrown || changes == [] then old(published) else old(published) + [changes]
    {
      changes, thrown := wordDict.LoadUserDict(ops, source);
      if thrown {
        return;
      }
      if |changes| != 0 {
        published := published + [changes];
      }
    }
  }
}
