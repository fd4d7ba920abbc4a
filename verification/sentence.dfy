/**
 * What `sentenceProcess` and `sentenceProcessWithNoHMM` compute from a
 * route table: the walk's words, grouped into maximal runs of buffered
 * words and single unbuffered words, each group then emitted as tokens.
 * With the HMM, a buffered word is any one-character word and a run goes
 * through `processBuf`; without it, only a one-character ASCII letter or
 * digit is buffered and a run is emitted whole.
 */
module Sentence {
  import opened Text
  import opened Lexicon
  import opened Dag
  import opened Route

  /**
   * `FinalSeg.cut(buf, tokens)`, which appends the HMM's pieces of `buf`,
   * given the forced-split words. The Viterbi decoder is not part of this
   * model; what the segmenter relies on, and what this type assumes, is
   * that the pieces concatenate back to `buf`.
   */
  type Cutter = f: (set<string>, string) -> seq<string> | forall fs, s :: Concat(f(fs, s)) == s
    witness Whole

  function Whole(fs: set<string>, s: string): seq<string>
  {
    [s]
  }

  /** The words along the route from offset `x`: `sentence.substring(x, route.get(x).key + 1)`, repeatedly. */
  function Words(s: string, r: RouteTable, x: nat): seq<string>
    requires Advances(r, |s|) && x <= |s|
    decreases |s| - x
  {
    if x == |s| then [] else [s[x..r[x].key + 1]] + Words(s, r, r[x].key + 1)
  }

  /** The walk ends exactly at the end: its words are non-empty and spell out `s[x..]`. */
  lemma {:induction false} WordsSpell(s: string, r: RouteTable, x: nat)
    requires Advances(r, |s|) && x <= |s|
    ensures Concat(Words(s, r, x)) == s[x..]
    ensures forall k :: 0 <= k < |Words(s, r, x)| ==> Words(s, r, x)[k] != []
    decreases |s| - x
  {
    if x < |s| {
      var y := r[x].key + 1;
      WordsSpell(s, r, y);
      assert s[x..] == s[x..y] + s[y..];
    }
  }

  /** One step of the walk: the words from `x` are the next word and the words after it. */
  lemma WordsNext(s: string, r: RouteTable, x: nat, y: nat, seen: seq<string>)
    requires Advances(r, |s|) && x < |s| && y == r[x].key + 1
    ensures x < y <= |s|
    ensures seen + Words(s, r, x) == (seen + [s[x..y]]) + Words(s, r, y)
  {
  }

  /** With the HMM (`Hmm`) or without it (`NoHmm`). */
  datatype Policy = Hmm | NoHmm

  /**
   * A word goes to the buffer when it has one character (`y - x == 1`);
   * without the HMM, additionally when that character matches `[a-zA-Z0-9]`.
   */
  predicate Buffered(p: Policy, w: string)
  {
    |w| == 1 && (p == NoHmm ==> IsAsciiAlnum(w[0]))
  }

  /** A flushed buffer (`Run`) or a word emitted as it is (`Word`). */
  datatype Chunk = Run(text: string) | Word(text: string)

  /** A pending buffer becomes a run when it is non-empty (`sb.length() > 0`). */
  function Flush(b: string): seq<Chunk>
  {
    if b == [] then [] else [Run(b)]
  }

  /** The chunks closed so far and the pending buffer, after the words `ws`. */
  function Scan(p: Policy, ws: seq<string>): (seq<Chunk>, string)
    decreases |ws|
  {
    if ws == [] then ([], [])
    else
      var w := ws[|ws| - 1];
      var (cs, b) := Scan(p, ws[..|ws| - 1]);
      if Buffered(p, w) then (cs, b + w) else (cs + Flush(b) + [Word(w)], [])
  }

  /** All chunks of the words `ws`, the last buffer flushed. */
  function Group(p: Policy, ws: seq<string>): seq<Chunk>
  {
    Scan(p, ws).0 + Flush(Scan(p, ws).1)
  }

  function Texts(cs: seq<Chunk>): seq<string>
  {
    seq(|cs|, k requires 0 <= k < |cs| => cs[k].text)
  }

  /** The texts of the `Word` chunks, in order. */
  function WordTexts(cs: seq<Chunk>): seq<string>
    decreases |cs|
  {
    if cs == [] then []
    else (if cs[0].Word? then [cs[0].text] else []) + WordTexts(cs[1..])
  }

  /** The words that are not buffered, in order. */
  function Unbuffered(p: Policy, ws: seq<string>): seq<string>
    decreases |ws|
  {
    if ws == [] then []
    else Unbuffered(p, ws[..|ws| - 1]) + (if Buffered(p, ws[|ws| - 1]) then [] else [ws[|ws| - 1]])
  }

  /** Runs are non-empty, never adjacent, and consist of buffered words' characters. */
  predicate RunsMaximal(p: Policy, cs: seq<Chunk>)
  {
    && (forall k :: 0 <= k < |cs| && cs[k].Run? ==> cs[k].text != [])
    && (forall k :: 0 <= k < |cs| - 1 ==> !(cs[k].Run? && cs[k + 1].Run?))
    && (p == NoHmm ==> forall k, c :: 0 <= k < |cs| && cs[k].Run? && c in cs[k].text ==> IsAsciiAlnum(c))
  }

  lemma {:induction false} WordTextsAppend(a: seq<Chunk>, b: seq<Chunk>)
    ensures WordTexts(a + b) == WordTexts(a) + WordTexts(b)
    decreases |a|
  {
    if a == [] {
      assert a + b == b;
    } else {
      assert (a + b)[0] == a[0];
      assert (a + b)[1..] == a[1..] + b;
      WordTextsAppend(a[1..], b);
    }
  }

  lemma TextsAppend(a: seq<Chunk>, b: seq<Chunk>)
    ensures Concat(Texts(a + b)) == Concat(Texts(a)) + Concat(Texts(b))
  {
    assert Texts(a + b) == Texts(a) + Texts(b);
    ConcatAppend(Texts(a), Texts(b));
  }

  /** Unfolding one step of the scan, for a non-empty word list. */
  lemma ScanLast(p: Policy, ws: seq<string>)
    requires ws != []
    ensures var (cs, b) := Scan(p, ws[..|ws| - 1]);
      Scan(p, ws) == if Buffered(p, ws[|ws| - 1]) then (cs, b + ws[|ws| - 1])
                     else (cs + Flush(b) + [Word(ws[|ws| - 1])], [])
  {
  }

  /** A flushed buffer emits nothing when empty, and its run's tokens otherwise. */
  lemma EmitFlush(d: Dict, cut: Cutter, p: Policy, b: string)
    ensures Emit(d, cut, p, Flush(b)) == if b == [] then [] else EmitChunk(d, cut, p, Run(b))
  {
    if b != [] {
      assert [Run(b)][..0] == [];
    }
  }

  /**
   * One more word `w` after the words `seen`, whose scan is `(cs, b)`: a
   * buffered word joins the buffer; any other word closes the buffer and
   * itself, and their tokens follow the earlier ones.
   */
  lemma ScanEmit(d: Dict, cut: Cutter, p: Policy, seen: seq<string>, w: string, cs: seq<Chunk>, b: string)
    requires Scan(p, seen) == (cs, b)
    ensures Buffered(p, w) ==> Scan(p, seen + [w]) == (cs, b + w)
    ensures !Buffered(p, w) ==> Scan(p, seen + [w]) == (cs + Flush(b) + [Word(w)], [])
    ensures Emit(d, cut, p, cs + Flush(b) + [Word(w)])
      == Emit(d, cut, p, cs) + (if b == [] then [] else EmitChunk(d, cut, p, Run(b))) + [w]
  {
    assert (seen + [w])[..|seen|] == seen;
    ScanLast(p, seen + [w]);
    EmitAppend(d, cut, p, cs + Flush(b), [Word(w)]);
    EmitAppend(d, cut, p, cs, Flush(b));
    EmitFlush(d, cut, p, b);
    assert [Word(w)][..0] == [];
  }

  /** A buffered word after `seen`: the scan `seen2` holds the grown buffer `b2`. */
  lemma BufferAdvance(p: Policy, seen: seq<string>, w: string, cs: seq<Chunk>, b: string, seen2: seq<string>, b2: string)
    requires Scan(p, seen) == (cs, b) && Buffered(p, w)
    requires seen2 == seen + [w] && b2 == b + w
    ensures Scan(p, seen2) == (cs, b2)
  {
    assert seen2[..|seen|] == seen;
  }

  /**
   * Any other word after `seen`: the scan `seen2` has closed the buffer and
   * the word, and `out`, the earlier tokens followed by the buffer's and the
   * word's, are the tokens of all closed chunks.
   */
  lemma WordAdvance(d: Dict, cut: Cutter, p: Policy, seen: seq<string>, w: string, cs: seq<Chunk>, b: string,
                    tokens: seq<string>, seen2: seq<string>, cs2: seq<Chunk>, out: seq<string>)
    requires Scan(p, seen) == (cs, b) && tokens == Emit(d, cut, p, cs) && !Buffered(p, w)
    requires seen2 == seen + [w] && cs2 == cs + Flush(b) + [Word(w)]
    requires out == tokens + (if b == [] then [] else EmitChunk(d, cut, p, Run(b))) + [w]
    ensures Scan(p, seen2) == (cs2, []) && out == Emit(d, cut, p, cs2)
  {
    ScanEmit(d, cut, p, seen, w, cs, b);
  }

  /** All chunks of the words, once the pending buffer `b` is flushed after the closed chunks `cs`. */
  lemma GroupEmit(d: Dict, cut: Cutter, p: Policy, ws: seq<string>, cs: seq<Chunk>, b: string)
    requires Scan(p, ws) == (cs, b)
    ensures Emit(d, cut, p, Group(p, ws)) == Emit(d, cut, p, cs) + (if b == [] then [] else EmitChunk(d, cut, p, Run(b)))
  {
    EmitAppend(d, cut, p, cs, Flush(b));
    EmitFlush(d, cut, p, b);
  }

  /** Without the HMM the tokens do not depend on the HMM segmenter: they are the chunk texts. */
  lemma PlainSegment(d: Dict, cut: Cutter, s: string)
    ensures Segment(d, cut, NoHmm, s) == Texts(Group(NoHmm, SentenceWords(d, s)))
  {
    PlainEmitsTexts(d, cut, Group(NoHmm, SentenceWords(d, s)));
  }

  /** The closed chunks and the pending buffer spell out the words. */
  lemma {:induction false} ScanSpells(p: Policy, ws: seq<string>)
    ensures Concat(Texts(Scan(p, ws).0)) + Scan(p, ws).1 == Concat(ws)
    decreases |ws|
  {
    if ws != [] {
      var pre := ws[..|ws| - 1];
      var w := ws[|ws| - 1];
      assert ws == pre + [w];
      ScanSpells(p, pre);
      ScanLast(p, ws);
      var (cs, b) := Scan(p, pre);
      ConcatAppend(pre, [w]);
      assert Concat([w]) == w;
      if !Buffered(p, w) {
        TextsAppend(cs + Flush(b), [Word(w)]);
        TextsAppend(cs, Flush(b));
        assert Concat(Texts(Flush(b))) == b;
        assert Concat(Texts([Word(w)])) == w;
      }
    }
  }

  /** The closed `Word` chunks are the unbuffered words. */
  lemma {:induction false} ScanWords(p: Policy, ws: seq<string>)
    ensures WordTexts(Scan(p, ws).0) == Unbuffered(p, ws)
    decreases |ws|
  {
    if ws != [] {
      var pre := ws[..|ws| - 1];
      var w := ws[|ws| - 1];
      ScanWords(p, pre);
      ScanLast(p, ws);
      var (cs, b) := Scan(p, pre);
      if !Buffered(p, w) {
        WordTextsAppend(cs + Flush(b), [Word(w)]);
        WordTextsAppend(cs, Flush(b));
        assert WordTexts(Flush(b)) == [];
      }
    }
  }

  /** Closing a buffer and a word after chunks that end in a word keeps runs maximal. */
  lemma CloseKeepsMaximal(p: Policy, cs: seq<Chunk>, b: string, w: string)
    requires RunsMaximal(p, cs) && (cs != [] ==> cs[|cs| - 1].Word?)
    requires p == NoHmm ==> forall c :: c in b ==> IsAsciiAlnum(c)
    ensures RunsMaximal(p, cs + Flush(b) + [Word(w)])
  {
    var out := cs + Flush(b) + [Word(w)];
    forall k | 0 <= k < |out| - 1 ensures !(out[k].Run? && out[k + 1].Run?) {
      if k < |cs| - 1 {
        assert out[k] == cs[k] && out[k + 1] == cs[k + 1];
      } else if k == |cs| - 1 {
        assert out[k] == cs[k];
      }
    }
    forall k | 0 <= k < |out| && out[k].Run? ensures out[k].text != [] {
      if k < |cs| {
        assert out[k] == cs[k];
      }
    }
    if p == NoHmm {
      forall k, c | 0 <= k < |out| && out[k].Run? && c in out[k].text ensures IsAsciiAlnum(c) {
        if k < |cs| {
          assert out[k] == cs[k];
        } else {
          assert out[k] == Run(b);
        }
      }
    }
  }

  /** Runs are maximal, closed chunks end in a word, and the pending buffer holds only buffered characters. */
  lemma {:induction false} ScanShape(p: Policy, ws: seq<string>)
    ensures RunsMaximal(p, Scan(p, ws).0)
    ensures Scan(p, ws).0 != [] ==> Scan(p, ws).0[|Scan(p, ws).0| - 1].Word?
    ensures p == NoHmm ==> forall c :: c in Scan(p, ws).1 ==> IsAsciiAlnum(c)
    decreases |ws|
  {
    if ws != [] {
      var pre := ws[..|ws| - 1];
      var w := ws[|ws| - 1];
      ScanShape(p, pre);
      ScanLast(p, ws);
      var (cs, b) := Scan(p, pre);
      if !Buffered(p, w) {
        CloseKeepsMaximal(p, cs, b, w);
      } else if p == NoHmm {
        assert forall c :: c in b + w ==> c in b || c == w[0];
      }
    }
  }

  /** The chunks spell out the words, their `Word`s are the unbuffered words, and runs are maximal. */
  lemma GroupFacts(p: Policy, ws: seq<string>)
    ensures Concat(Texts(Group(p, ws))) == Concat(ws)
    ensures WordTexts(Group(p, ws)) == Unbuffered(p, ws)
    ensures RunsMaximal(p, Group(p, ws))
  {
    ScanSpells(p, ws);
    ScanWords(p, ws);
    ScanShape(p, ws);
    var (cs, b) := Scan(p, ws);
    TextsAppend(cs, Flush(b));
    WordTextsAppend(cs, Flush(b));
    assert Concat(Texts(Flush(b))) == b;
    assert WordTexts(Flush(b)) == [];
    RunsMaximalFlush(p, cs, b);
  }

  lemma RunsMaximalFlush(p: Policy, cs: seq<Chunk>, b: string)
    requires RunsMaximal(p, cs) && (cs != [] ==> cs[|cs| - 1].Word?)
    requires p == NoHmm ==> forall c :: c in b ==> IsAsciiAlnum(c)
    ensures RunsMaximal(p, cs + Flush(b))
  {
    var out := cs + Flush(b);
    forall k | 0 <= k < |out| - 1 ensures !(out[k].Run? && out[k + 1].Run?) {
      assert out[k] == cs[k];
      if k < |cs| - 1 {
        assert out[k + 1] == cs[k + 1];
      }
    }
    forall k | 0 <= k < |out| && out[k].Run? ensures out[k].text != [] {
      if k < |cs| {
        assert out[k] == cs[k];
      }
    }
    if p == NoHmm {
      forall k, c | 0 <= k < |out| && out[k].Run? && c in out[k].text ensures IsAsciiAlnum(c) {
        if k < |cs| {
          assert out[k] == cs[k];
        }
      }
    }
  }

  /**
   * `processBuf(tokens, buf)`'s contribution: the buffer whole when it is
   * one character or a dictionary word, otherwise `FinalSeg.cut`'s pieces.
   */
  function ProcessBufSpec(d: Dict, cut: Cutter, buf: string): seq<string>
  {
    if |buf| == 1 || ContainsWord(d, buf) then [buf] else cut(d.forceSplit, buf)
  }

  /** `processBuf` neither loses nor adds characters: its pieces spell out the buffer. */
  lemma ProcessBufSpells(d: Dict, cut: Cutter, buf: string)
    ensures Concat(ProcessBufSpec(d, cut, buf)) == buf
  {
    if |buf| == 1 || ContainsWord(d, buf) {
      assert Concat([buf]) == buf + Concat([]);
    }
  }

  /** The tokens of one chunk: a word as it is; a run through `processBuf` with the HMM, whole without. */
  function EmitChunk(d: Dict, cut: Cutter, p: Policy, c: Chunk): seq<string>
  {
    match c
    case Word(w) => [w]
    case Run(b) => if p == Hmm then ProcessBufSpec(d, cut, b) else [b]
  }

  function Emit(d: Dict, cut: Cutter, p: Policy, cs: seq<Chunk>): seq<string>
    decreases |cs|
  {
    if cs == [] then [] else Emit(d, cut, p, cs[..|cs| - 1]) + EmitChunk(d, cut, p, cs[|cs| - 1])
  }

  lemma {:induction false} EmitAppend(d: Dict, cut: Cutter, p: Policy, a: seq<Chunk>, b: seq<Chunk>)
    ensures Emit(d, cut, p, a + b) == Emit(d, cut, p, a) + Emit(d, cut, p, b)
    decreases |b|
  {
    if b == [] {
      assert a + b == a;
    } else {
      var b', c := b[..|b| - 1], b[|b| - 1];
      assert (a + b)[..|a + b| - 1] == a + b';
      assert (a + b)[|a + b| - 1] == c;
      calc {
        Emit(d, cut, p, a + b);
        Emit(d, cut, p, a + b') + EmitChunk(d, cut, p, c);
        { EmitAppend(d, cut, p, a, b'); }
        Emit(d, cut, p, a) + Emit(d, cut, p, b') + EmitChunk(d, cut, p, c);
        { assert Emit(d, cut, p, b) == Emit(d, cut, p, b') + EmitChunk(d, cut, p, c); }
        Emit(d, cut, p, a) + Emit(d, cut, p, b);
      }
    }
  }

  /** Emitted tokens spell out the chunks' texts. */
  lemma {:induction false} EmitSpells(d: Dict, cut: Cutter, p: Policy, cs: seq<Chunk>)
    ensures Concat(Emit(d, cut, p, cs)) == Concat(Texts(cs))
    decreases |cs|
  {
    if cs != [] {
      var pre := cs[..|cs| - 1];
      var c := cs[|cs| - 1];
      EmitSpells(d, cut, p, pre);
      ConcatAppend(Emit(d, cut, p, pre), EmitChunk(d, cut, p, c));
      assert cs == pre + [c];
      TextsAppend(pre, [c]);
      assert Concat(Texts([c])) == c.text;
      if c.Run? && p == Hmm {
        ProcessBufSpells(d, cut, c.text);
      }
      assert Concat(EmitChunk(d, cut, p, c)) == c.text;
    }
  }

  /** The words of a sentence along the route `calc` builds on the DAG `createDAG` builds. */
  function SentenceWords(d: Dict, s: string): seq<string>
  {
    SpecWellFormed(d.trie, s);
    RoutesAdvance(d, s, Spec(d.trie, s));
    Words(s, Routes(d, s, Spec(d.trie, s)), 0)
  }

  /** `sentenceProcess(sentence)` (`Hmm`) and `sentenceProcessWithNoHMM(sentence)` (`NoHmm`). */
  function Segment(d: Dict, cut: Cutter, p: Policy, s: string): seq<string>
  {
    Emit(d, cut, p, Group(p, SentenceWords(d, s)))
  }

  /**
   * Both route walks lose and add nothing: the tokens concatenate to the
   * sentence. The unbuffered words come out in order as their own chunks,
   * and the buffered words form maximal runs.
   */
  lemma SegmentSpells(d: Dict, cut: Cutter, p: Policy, s: string)
    ensures Concat(Segment(d, cut, p, s)) == s
    ensures WordTexts(Group(p, SentenceWords(d, s))) == Unbuffered(p, SentenceWords(d, s))
    ensures RunsMaximal(p, Group(p, SentenceWords(d, s)))
  {
    SpecWellFormed(d.trie, s);
    RoutesAdvance(d, s, Spec(d.trie, s));
    var ws := SentenceWords(d, s);
    WordsSpell(s, Routes(d, s, Spec(d.trie, s)), 0);
    GroupFacts(p, ws);
    EmitSpells(d, cut, p, Group(p, ws));
  }

  /**
   * The end of `sentenceProcess`'s walk over the words `ws` of `s`: the
   * tokens of the closed chunks, then the pending buffer through
   * `processBuf`, are the sentence's tokens and spell it out.
   */
  lemma SegmentDone(d: Dict, cut: Cutter, s: string, ws: seq<string>, cs: seq<Chunk>, b: string,
                    tokens: seq<string>, out: seq<string>)
    requires ws == SentenceWords(d, s) && Scan(Hmm, ws) == (cs, b) && tokens == Emit(d, cut, Hmm, cs)
    requires out == tokens + (if b == [] then [] else ProcessBufSpec(d, cut, b))
    ensures out == Segment(d, cut, Hmm, s) && Concat(out) == s
  {
    GroupEmit(d, cut, Hmm, ws, cs, b);
    SegmentSpells(d, cut, Hmm, s);
  }

  /** The end of `sentenceProcessWithNoHMM`'s walk: the closed chunk texts and then the pending buffer. */
  lemma TextsDone(d: Dict, s: string, ws: seq<string>, cs: seq<Chunk>, b: string, tokens: seq<string>, out: seq<string>)
    requires ws == SentenceWords(d, s) && Scan(NoHmm, ws) == (cs, b) && tokens == Texts(cs)
    requires out == tokens + (if b == [] then [] else [b])
    ensures out == Texts(Group(NoHmm, SentenceWords(d, s))) && Concat(out) == s
  {
    GroupTexts(ws, cs, b);
    PlainSpells(d, s);
  }

  /** Without the HMM the chunk texts of a sentence concatenate to the sentence. */
  lemma PlainSpells(d: Dict, s: string)
    ensures Concat(Texts(Group(NoHmm, SentenceWords(d, s)))) == s
  {
    SpecWellFormed(d.trie, s);
    RoutesAdvance(d, s, Spec(d.trie, s));
    WordsSpell(s, Routes(d, s, Spec(d.trie, s)), 0);
    GroupFacts(NoHmm, SentenceWords(d, s));
  }

  /**
   * Without the HMM every run is emitted as one token, so the tokens are
   * exactly the chunk texts.
   */
  lemma {:induction false} PlainEmitsTexts(d: Dict, cut: Cutter, cs: seq<Chunk>)
    ensures Emit(d, cut, NoHmm, cs) == Texts(cs)
    decreases |cs|
  {
    if cs != [] {
      var pre := cs[..|cs| - 1];
      PlainEmitsTexts(d, cut, pre);
      assert Texts(cs) == Texts(pre) + [cs[|cs| - 1].text];
    }
  }

  lemma TextsCat(a: seq<Chunk>, b: seq<Chunk>)
    ensures Texts(a + b) == Texts(a) + Texts(b)
  {
  }

  /** One more word after `seen` without the HMM: the closed chunk texts grow by the buffer and the word. */
  lemma ScanTexts(seen: seq<string>, w: string, cs: seq<Chunk>, b: string)
    requires Scan(NoHmm, seen) == (cs, b)
    ensures Buffered(NoHmm, w) ==> Scan(NoHmm, seen + [w]) == (cs, b + w)
    ensures !Buffered(NoHmm, w) ==> Scan(NoHmm, seen + [w]) == (cs + Flush(b) + [Word(w)], [])
    ensures Texts(cs + Flush(b) + [Word(w)]) == Texts(cs) + (if b == [] then [] else [b]) + [w]
  {
    assert (seen + [w])[..|seen|] == seen;
    ScanLast(NoHmm, seen + [w]);
    TextsCat(cs + Flush(b), [Word(w)]);
    TextsCat(cs, Flush(b));
  }

  /** Any other word after `seen` without the HMM: the texts `out` are those of all closed chunks. */
  lemma TextAdvance(seen: seq<string>, w: string, cs: seq<Chunk>, b: string,
                    tokens: seq<string>, seen2: seq<string>, cs2: seq<Chunk>, out: seq<string>)
    requires Scan(NoHmm, seen) == (cs, b) && tokens == Texts(cs) && !Buffered(NoHmm, w)
    requires seen2 == seen + [w] && cs2 == cs + Flush(b) + [Word(w)]
    requires out == tokens + (if b == [] then [] else [b]) + [w]
    ensures Scan(NoHmm, seen2) == (cs2, []) && out == Texts(cs2)
  {
    ScanTexts(seen, w, cs, b);
  }

  /** Without the HMM, all chunk texts are the closed ones and then the pending buffer, when non-empty. */
  lemma GroupTexts(ws: seq<string>, cs: seq<Chunk>, b: string)
    requires Scan(NoHmm, ws) == (cs, b)
    ensures Texts(Group(NoHmm, ws)) == Texts(cs) + (if b == [] then [] else [b])
  {
    TextsCat(cs, Flush(b));
  }
}
