/**
 * `process(paragraph, mode)` (both copies, with or without the HMM):
 * characters whose regularised form `ccFind` accepts are collected into
 * a run; any other character first closes the pending run, whose words
 * become tokens from the run's start offset, and then becomes a token of
 * its own, spanning `[i, i + 1)`. A run left at the end is closed last.
 */
module Paragraph {
  import opened Text
  import opened Lexicon
  import opened Sentence
  import opened Tokens

  /**
   * `CharacterUtil.regularize` (full-width to half-width, upper to lower
   * case) and `CharacterUtil.ccFind` (the run alphabet), as given functions:
   * that class is not part of this model.
   */
  datatype CharUtil = CharUtil(regularize: char -> char, ccFind: char -> bool)

  /** The character belongs to a run. */
  predicate InRun(u: CharUtil, c: char)
  {
    u.ccFind(u.regularize(c))
  }

  /** What a token shows for a character: its regularised form inside a run, the character itself outside. */
  function Shown(u: CharUtil, c: char): char
  {
    if InRun(u, c) then u.regularize(c) else c
  }

  /** The paragraph as its tokens show it, character by character. */
  function View(u: CharUtil, para: string): (v: string)
    ensures |v| == |para|
  {
    if para == [] then [] else View(u, para[..|para| - 1]) + [Shown(u, para[|para| - 1])]
  }

  /** Each character of the view is the shown form of the character at the same place. */
  lemma {:induction false} ViewAt(u: CharUtil, para: string, k: nat)
    requires k < |para|
    ensures View(u, para)[k] == Shown(u, para[k])
  {
    var pre := para[..|para| - 1];
    if k < |pre| {
      ViewAt(u, pre, k);
    }
  }

  /** The tokens of a closed run `sb` starting at `off`: its words through `_process`, nothing if it is empty. */
  function RunTokens(d: Dict, cut: Cutter, pol: Policy, mode: SegMode, sb: string, off: nat): seq<SegToken>
  {
    if sb == [] then [] else Assemble(d, mode, Segment(d, cut, pol, sb), off)
  }

  /** What the scan closes: a run of shown characters from `start`, or the token of one other character. */
  datatype Piece = Closed(text: string, start: nat) | Single(token: SegToken)

  /** The state of the scan: the pieces closed so far and the pending run. */
  datatype ScanState = ScanState(closed: seq<Piece>, run: string)

  /** The tokens of one piece: a run's words through `_process`, or the character's own token. */
  function PieceTokens(d: Dict, cut: Cutter, pol: Policy, mode: SegMode, p: Piece): seq<SegToken>
  {
    match p
    case Closed(sb, off) => RunTokens(d, cut, pol, mode, sb, off)
    case Single(t) => [t]
  }

  /** The tokens of the closed pieces, in order. */
  function Emitted(d: Dict, cut: Cutter, pol: Policy, mode: SegMode, ps: seq<Piece>): seq<SegToken>
  {
    if ps == [] then []
    else Emitted(d, cut, pol, mode, ps[..|ps| - 1]) + PieceTokens(d, cut, pol, mode, ps[|ps| - 1])
  }

  /**
   * The pieces closed and the pending run after the first `i` characters:
   * a run character adds its regularised form to the run; any other
   * character closes the run, which started `|sb|` characters back, and
   * then becomes a token spanning `[i - 1, i)` that shows the character
   * itself.
   */
  function ParaScan(u: CharUtil, para: string, i: nat): (r: ScanState)
    requires i <= |para|
    ensures |r.run| <= i
  {
    if i == 0 then ScanState([], []) else ScanNext(u, para, ParaScan(u, para, i - 1), i)
  }

  /** The scan at character `i - 1`, from the state `r` before it. */
  function ScanNext(u: CharUtil, para: string, r: ScanState, i: nat): (r': ScanState)
    requires |r.run| < i <= |para|
    ensures |r'.run| <= |r.run| + 1
  {
    var c := para[i - 1];
    if InRun(u, c) then ScanState(r.closed, r.run + [u.regularize(c)])
    else ScanState(r.closed + [Closed(r.run, i - 1 - |r.run|), Single(SegToken(para[i - 1..i], i - 1, i))], [])
  }

  /** A run character at `i` extends the pending run by its regularised form. */
  lemma ScanGrow(u: CharUtil, para: string, i: nat, closed: seq<Piece>, sb: string)
    requires i < |para| && InRun(u, para[i])
    requires ParaScan(u, para, i) == ScanState(closed, sb)
    ensures ParaScan(u, para, i + 1) == ScanState(closed, sb + [u.regularize(para[i])])
  {
  }

  /** Any other character at `i` closes the pending run, which started at `offset == i - |sb|`, and then itself. */
  lemma ScanClose(u: CharUtil, para: string, i: nat, closed: seq<Piece>, sb: string, offset: nat)
    requires i < |para| && !InRun(u, para[i])
    requires ParaScan(u, para, i) == ScanState(closed, sb) && offset + |sb| == i
    ensures ParaScan(u, para, i + 1) == ScanState(closed + [Closed(sb, offset), Single(SegToken(para[i..i + 1], i, i + 1))], [])
  {
  }

  /**
   * The state of `process` after `i` characters: the scan's closed pieces
   * and pending run, the run's start `offset`, and the tokens of the closed
   * pieces.
   */
  predicate Scanned(d: Dict, cut: Cutter, u: CharUtil, pol: Policy, mode: SegMode, para: string, i: nat,
                    closed: seq<Piece>, sb: string, offset: nat, tokens: seq<SegToken>)
  {
    && i <= |para|
    && ParaScan(u, para, i) == ScanState(closed, sb)
    && offset + |sb| == i
    && tokens == Emitted(d, cut, pol, mode, closed)
  }

  /** One run character read: the state at `i2 == i + 1` holds the grown run `sb2`. */
  lemma GrowAdvance(d: Dict, cut: Cutter, u: CharUtil, pol: Policy, mode: SegMode, para: string, i: nat, i2: nat,
                    closed: seq<Piece>, sb: string, sb2: string, offset: nat, tokens: seq<SegToken>)
    requires i < |para| && InRun(u, para[i]) && i2 == i + 1
    requires Scanned(d, cut, u, pol, mode, para, i, closed, sb, offset, tokens) && sb2 == sb + [u.regularize(para[i])]
    ensures Scanned(d, cut, u, pol, mode, para, i2, closed, sb2, offset, tokens)
  {
    ScanGrow(u, para, i, closed, sb);
  }

  /**
   * One other character read: at `i2 == i + 1` the scan has closed the run
   * and the character, and the tokens `tokens2` are those of all closed
   * pieces.
   */
  lemma CloseAdvance(d: Dict, cut: Cutter, u: CharUtil, pol: Policy, mode: SegMode, para: string, i: nat, i2: nat,
                     closed: seq<Piece>, sb: string, offset: nat, tokens: seq<SegToken>,
                     closed2: seq<Piece>, sb2: string, offset2: nat, tokens2: seq<SegToken>)
    requires i < |para| && !InRun(u, para[i]) && i2 == i + 1
    requires Scanned(d, cut, u, pol, mode, para, i, closed, sb, offset, tokens)
    requires closed2 == closed + [Closed(sb, offset), Single(SegToken(para[i..i + 1], i, i + 1))]
    requires tokens2 == tokens + RunTokens(d, cut, pol, mode, sb, offset) + [SegToken(para[i..i + 1], i, i + 1)]
    requires sb2 == [] && offset2 == i2
    ensures Scanned(d, cut, u, pol, mode, para, i2, closed2, sb2, offset2, tokens2)
  {
    ScanClose(u, para, i, closed, sb, offset);
    EmittedClose(d, cut, pol, mode, closed, sb, offset, SegToken(para[i..i + 1], i, i + 1));
  }

  /** The tokens of the paragraph: those of the pieces the scan closed, then the pending run's, which starts at `offset`. */
  lemma ProcessEnd(d: Dict, cut: Cutter, u: CharUtil, pol: Policy, mode: SegMode, para: string, closed: seq<Piece>, sb: string, offset: nat)
    requires ParaScan(u, para, |para|) == ScanState(closed, sb) && offset + |sb| == |para|
    ensures Process(d, cut, u, pol, mode, para) == Emitted(d, cut, pol, mode, closed) + RunTokens(d, cut, pol, mode, sb, offset)
  {
    PiecesEnd(u, para, closed, sb, offset);
    EmittedLast(d, cut, pol, mode, closed, Closed(sb, offset));
  }

  lemma PiecesEnd(u: CharUtil, para: string, closed: seq<Piece>, sb: string, offset: nat)
    requires ParaScan(u, para, |para|) == ScanState(closed, sb) && offset + |sb| == |para|
    ensures Pieces(u, para) == closed + [Closed(sb, offset)]
  {
  }

  /** The pieces of the whole paragraph: those the scan closed, then the pending run closed at `|para| - |sb|`. */
  function Pieces(u: CharUtil, para: string): seq<Piece>
  {
    var r := ParaScan(u, para, |para|);
    r.closed + [Closed(r.run, |para| - |r.run|)]
  }

  /** `process(paragraph, mode)`: the tokens of all the pieces. */
  function Process(d: Dict, cut: Cutter, u: CharUtil, pol: Policy, mode: SegMode, para: string): seq<SegToken>
  {
    Emitted(d, cut, pol, mode, Pieces(u, para))
  }

  function PieceStart(p: Piece): nat
  {
    match p
    case Closed(_, off) => off
    case Single(t) => t.startOffset
  }

  function PieceText(p: Piece): string
  {
    match p
    case Closed(sb, _) => sb
    case Single(t) => t.word
  }

  /** The pieces lie end to end from 0 to `hi`, each over its own text in `v`. */
  predicate Tiled(ps: seq<Piece>, v: string, hi: nat)
    decreases |ps|
  {
    if ps == [] then hi == 0
    else
      var p := ps[|ps| - 1];
      var lo := PieceStart(p);
      && lo + |PieceText(p)| == hi <= |v|
      && v[lo..hi] == PieceText(p)
      && (p.Single? ==> p.token.endOffset == hi)
      && Tiled(ps[..|ps| - 1], v, lo)
  }

  lemma TiledExtend(ps: seq<Piece>, p: Piece, v: string, hi: nat)
    requires Tiled(ps, v, PieceStart(p)) && PieceStart(p) + |PieceText(p)| == hi <= |v|
    requires v[PieceStart(p)..hi] == PieceText(p) && (p.Single? ==> p.token.endOffset == hi)
    ensures Tiled(ps + [p], v, hi)
  {
    assert (ps + [p])[..|ps|] == ps;
  }

  /** The token of the other character at `i - 1` extends a tiling up to `i - 1` to one up to `i`. */
  lemma TiledOther(qs: seq<Piece>, v: string, para: string, i: nat)
    requires 0 < i <= |para| == |v|
    requires Tiled(qs, v, i - 1) && v[i - 1] == para[i - 1]
    ensures Tiled(qs + [Single(SegToken(para[i - 1..i], i - 1, i))], v, i)
  {
    assert v[i - 1..i] == para[i - 1..i];
    TiledExtend(qs, Single(SegToken(para[i - 1..i], i - 1, i)), v, i);
  }

  /** Closing the run before `i - 1` and the other character at `i - 1` keeps the pieces tiled, now up to `i`. */
  lemma CloseTiled(ps: seq<Piece>, sb: string, v: string, para: string, i: nat)
    requires 0 < i <= |para| == |v| && |sb| < i
    requires Tiled(ps, v, i - 1 - |sb|) && sb == v[i - 1 - |sb|..i - 1] && v[i - 1] == para[i - 1]
    ensures Tiled(ps + [Closed(sb, i - 1 - |sb|), Single(SegToken(para[i - 1..i], i - 1, i))], v, i)
  {
    var run, other := Closed(sb, i - 1 - |sb|), Single(SegToken(para[i - 1..i], i - 1, i));
    assert ps + [run, other] == ps + [run] + [other];
    TiledExtend(ps, run, v, i - 1);
    TiledOther(ps + [run], v, para, i);
  }

  /** A run grown by the character at `i - 1` is the text just before `i`. */
  lemma GrowRun(sb: string, v: string, i: nat)
    requires 0 < i <= |v| && |sb| < i && sb == v[i - 1 - |sb|..i - 1]
    ensures sb + [v[i - 1]] == v[i - |sb + [v[i - 1]]|..i]
  {
  }

  /**
   * The scan state after `i` characters of a paragraph shown as `v`: the
   * closed pieces tile `v` up to the pending run, which is the text just
   * before `i`.
   */
  predicate ScanOk(r: ScanState, v: string, i: nat)
  {
    |r.run| <= i <= |v| && Tiled(r.closed, v, i - |r.run|) && r.run == v[i - |r.run|..i]
  }

  /** A run character grows the pending run, which stays the text just before `i`. */
  lemma GrowStep(u: CharUtil, para: string, v: string, i: nat, r: ScanState)
    requires 0 < i <= |para| == |v| && v[i - 1] == Shown(u, para[i - 1]) && InRun(u, para[i - 1])
    requires ScanOk(r, v, i - 1)
    ensures ScanOk(ScanNext(u, para, r, i), v, i)
  {
    GrowRun(r.run, v, i);
  }

  /** Any other character closes the pending run and then itself: both join the tiling, now up to `i`. */
  lemma CloseStep(u: CharUtil, para: string, v: string, i: nat, r: ScanState)
    requires 0 < i <= |para| == |v| && v[i - 1] == Shown(u, para[i - 1]) && !InRun(u, para[i - 1])
    requires ScanOk(r, v, i - 1)
    ensures ScanOk(ScanNext(u, para, r, i), v, i)
  {
    var t := SegToken(para[i - 1..i], i - 1, i);
    assert ScanNext(u, para, r, i) == ScanState(r.closed + [Closed(r.run, i - 1 - |r.run|), Single(t)], []);
    CloseTiled(r.closed, r.run, v, para, i);
  }

  /** `v` shows `para` character by character. */
  predicate IsView(u: CharUtil, para: string, v: string)
  {
    |v| == |para| && forall k :: 0 <= k < |para| ==> v[k] == Shown(u, para[k])
  }

  lemma ViewIs(u: CharUtil, para: string)
    ensures IsView(u, para, View(u, para))
  {
    forall k | 0 <= k < |para| ensures View(u, para)[k] == Shown(u, para[k]) {
      ViewAt(u, para, k);
    }
  }

  /** The scan state stays in line with the shown text all along the paragraph. */
  lemma {:induction false} ScanTiled(u: CharUtil, para: string, v: string, i: nat)
    requires i <= |para| && IsView(u, para, v)
    ensures ScanOk(ParaScan(u, para, i), v, i)
  {
    if i > 0 {
      ScanTiled(u, para, v, i - 1);
      if InRun(u, para[i - 1]) {
        GrowStep(u, para, v, i, ParaScan(u, para, i - 1));
      } else {
        CloseStep(u, para, v, i, ParaScan(u, para, i - 1));
      }
    }
  }

  /** The whole paragraph is tiled once the pending run is closed. */
  lemma ProcessTiled(u: CharUtil, para: string)
    ensures Tiled(Pieces(u, para), View(u, para), |para|)
  {
    var r := ParaScan(u, para, |para|);
    ViewIs(u, para);
    ScanTiled(u, para, View(u, para), |para|);
    TiledExtend(r.closed, Closed(r.run, |para| - |r.run|), View(u, para), |para|);
  }

  lemma WordsOfAppend(a: seq<SegToken>, b: seq<SegToken>)
    ensures WordsOf(a + b) == WordsOf(a) + WordsOf(b)
    ensures Concat(WordsOf(a + b)) == Concat(WordsOf(a)) + Concat(WordsOf(b))
  {
    assert WordsOf(a + b) == WordsOf(a) + WordsOf(b);
    ConcatAppend(WordsOf(a), WordsOf(b));
  }

  /** In SEARCH mode a closed run's tokens are contiguous from its start and spell it out. */
  lemma RunSearch(d: Dict, cut: Cutter, pol: Policy, sb: string, off: nat)
    ensures Contiguous(RunTokens(d, cut, pol, Search, sb, off), off)
    ensures Concat(WordsOf(RunTokens(d, cut, pol, Search, sb, off))) == sb
  {
    if sb != [] {
      AssembleSearch(d, Segment(d, cut, pol, sb), off);
      SegmentSpells(d, cut, pol, sb);
    }
  }

  /** Tokens tiling `v[..off]` followed by tokens tiling `v[off..hi]` tile `v[..hi]`. */
  lemma TileAppend(ts: seq<SegToken>, rt: seq<SegToken>, v: string, off: nat, hi: nat)
    requires off <= hi <= |v|
    requires Contiguous(ts, 0) && Concat(WordsOf(ts)) == v[..off]
    requires Contiguous(rt, off) && Concat(WordsOf(rt)) == v[off..hi]
    ensures Contiguous(ts + rt, 0) && Concat(WordsOf(ts + rt)) == v[..hi]
  {
    ContiguousAppend(ts, rt, 0);
    WordsOfAppend(ts, rt);
    assert v[..off] + v[off..hi] == v[..hi];
  }

  /** A piece's tokens in SEARCH mode are contiguous from its start and spell its text. */
  lemma PieceSearch(d: Dict, cut: Cutter, pol: Policy, p: Piece)
    requires p.Single? ==> p.token.endOffset == p.token.startOffset + |p.token.word|
    ensures var pt := PieceTokens(d, cut, pol, Search, p);
      Contiguous(pt, PieceStart(p)) && Concat(WordsOf(pt)) == PieceText(p)
  {
    match p
    case Closed(sb, off) =>
      RunSearch(d, cut, pol, sb, off);
    case Single(t) =>
      assert WordsOf([t]) == [t.word];
      assert Concat([t.word]) == t.word;
  }

  lemma EmittedLast(d: Dict, cut: Cutter, pol: Policy, mode: SegMode, ps: seq<Piece>, p: Piece)
    ensures Emitted(d, cut, pol, mode, ps + [p]) == Emitted(d, cut, pol, mode, ps) + PieceTokens(d, cut, pol, mode, p)
  {
    assert (ps + [p])[..|ps|] == ps;
  }
  /** Closing a run and then an other character appends the run's tokens and then the character's token. */
  lemma EmittedClose(d: Dict, cut: Cutter, pol: Policy, mode: SegMode, ps: seq<Piece>, sb: string, off: nat, t: SegToken)
    ensures Emitted(d, cut, pol, mode, ps + [Closed(sb, off), Single(t)])
      == Emitted(d, cut, pol, mode, ps) + RunTokens(d, cut, pol, mode, sb, off) + [t]
  {
    assert ps + [Closed(sb, off), Single(t)] == (ps + [Closed(sb, off)]) + [Single(t)];
    EmittedLast(d, cut, pol, mode, ps + [Closed(sb, off)], Single(t));
    EmittedLast(d, cut, pol, mode, ps, Closed(sb, off));
  }

  /** Without the HMM a run's tokens are those of its chunk texts, whatever the HMM segmenter. */
  lemma PlainRunTokens(d: Dict, cut: Cutter, mode: SegMode, sb: string, off: nat)
    ensures RunTokens(d, cut, NoHmm, mode, sb, off)
      == if sb == [] then [] else Assemble(d, mode, Texts(Group(NoHmm, SentenceWords(d, sb))), off)
  {
    PlainSegment(d, cut, sb);
  }


  /** In SEARCH mode tiled pieces give tokens contiguous from 0 that spell `v[..hi]`. */
  lemma {:induction false} TiledSearch(d: Dict, cut: Cutter, pol: Policy, ps: seq<Piece>, v: string, hi: nat)
    requires Tiled(ps, v, hi)
    ensures Contiguous(Emitted(d, cut, pol, Search, ps), 0)
    ensures Concat(WordsOf(Emitted(d, cut, pol, Search, ps))) == v[..hi]
    decreases |ps|
  {
    if ps != [] {
      var pre, p := ps[..|ps| - 1], ps[|ps| - 1];
      assert ps == pre + [p];
      TiledSearch(d, cut, pol, pre, v, PieceStart(p));
      EmittedLast(d, cut, pol, Search, pre, p);
      PieceSearch(d, cut, pol, p);
      TileAppend(Emitted(d, cut, pol, Search, pre), PieceTokens(d, cut, pol, Search, p), v, PieceStart(p), hi);
    }
  }

  /**
   * SEARCH mode covers the whole paragraph: the tokens are contiguous
   * from 0 and spell out its shown text, so the last one ends at
   * `|para|`.
   */
  lemma ProcessSearch(d: Dict, cut: Cutter, u: CharUtil, pol: Policy, para: string)
    ensures Contiguous(Process(d, cut, u, pol, Search, para), 0)
    ensures Concat(WordsOf(Process(d, cut, u, pol, Search, para))) == View(u, para)
  {
    ProcessTiled(u, para);
    TiledSearch(d, cut, pol, Pieces(u, para), View(u, para), |para|);
  }

  /** A closed run's tokens carry the run's text at their spans. */
  lemma RunSpans(d: Dict, cut: Cutter, pol: Policy, mode: SegMode, sb: string, off: nat)
    ensures Spans(RunTokens(d, cut, pol, mode, sb, off), sb, off)
  {
    if sb != [] {
      AssembleSpans(d, mode, Segment(d, cut, pol, sb), off);
      SegmentSpells(d, cut, pol, sb);
    }
  }

  /** Tokens placed against a slice of a text are placed against the whole text. */
  lemma SpansWithin(ts: seq<SegToken>, v: string, lo: nat, hi: nat)
    requires lo <= hi <= |v| && Spans(ts, v[lo..hi], lo)
    ensures Spans(ts, v, 0)
  {
    forall t | t in ts ensures InSpan(t, v, 0) {
      InSpanWithin(t, v, lo, hi);
    }
  }

  lemma InSpanWithin(t: SegToken, v: string, lo: nat, hi: nat)
    requires lo <= hi <= |v| && InSpan(t, v[lo..hi], lo)
    ensures InSpan(t, v, 0)
  {
    var w := v[lo..hi];
    var a, b := t.startOffset - lo, t.endOffset - lo;
    assert 0 <= a <= b <= |w|;
    forall k | 0 <= k < b - a ensures w[a..b][k] == v[t.startOffset..t.endOffset][k] {
      assert w[a..b][k] == w[a + k] == v[lo + a + k];
    }
    assert |w[a..b]| == |v[t.startOffset..t.endOffset]|;
  }

  /** In both modes tiled pieces give tokens that carry `v`'s text at their spans. */
  lemma {:induction false} TiledSpans(d: Dict, cut: Cutter, pol: Policy, mode: SegMode, ps: seq<Piece>, v: string, hi: nat)
    requires Tiled(ps, v, hi)
    ensures Spans(Emitted(d, cut, pol, mode, ps), v, 0)
    decreases |ps|
  {
    if ps != [] {
      var pre, p := ps[..|ps| - 1], ps[|ps| - 1];
      var lo := PieceStart(p);
      TiledSpans(d, cut, pol, mode, pre, v, lo);
      match p
      case Closed(sb, off) =>
        RunSpans(d, cut, pol, mode, sb, off);
        SpansWithin(RunTokens(d, cut, pol, mode, sb, off), v, off, hi);
      case Single(t) =>
        assert InSpan(t, v, 0);
    }
  }

  /** In both modes every token carries the shown text at its span, inside `[0, |para|)`. */
  lemma ProcessSpans(d: Dict, cut: Cutter, u: CharUtil, pol: Policy, mode: SegMode, para: string)
    ensures Spans(Process(d, cut, u, pol, mode, para), View(u, para), 0)
  {
    ProcessTiled(u, para);
    TiledSpans(d, cut, pol, mode, Pieces(u, para), View(u, para), |para|);
  }

  /** The token of a character outside the run alphabet: `[k, k + 1)`, the character itself as the word. */
  function OtherToken(para: string, k: nat): SegToken
    requires k < |para|
  {
    SegToken(para[k..k + 1], k, k + 1)
  }

  /** Each character outside the run alphabet is closed as a piece of its own. */
  lemma {:induction false} ScanOther(u: CharUtil, para: string, i: nat)
    requires i <= |para|
    ensures forall k :: 0 <= k < i && !InRun(u, para[k]) ==>
      Single(OtherToken(para, k)) in ParaScan(u, para, i).closed
  {
    if i > 0 {
      ScanOther(u, para, i - 1);
    }
  }

  /** A single-character piece's token is emitted. */
  lemma {:induction false} EmittedSingle(d: Dict, cut: Cutter, pol: Policy, mode: SegMode, ps: seq<Piece>, t: SegToken)
    requires Single(t) in ps
    ensures t in Emitted(d, cut, pol, mode, ps)
    decreases |ps|
  {
    var pre := ps[..|ps| - 1];
    if Single(t) in pre {
      EmittedSingle(d, cut, pol, mode, pre, t);
    } else {
      assert ps == pre + [ps[|ps| - 1]];
    }
  }

  /** Closed single-character pieces for the other characters give their tokens. */
  lemma OthersEmitted(d: Dict, cut: Cutter, u: CharUtil, pol: Policy, mode: SegMode, para: string, ps: seq<Piece>)
    requires forall k :: 0 <= k < |para| && !InRun(u, para[k]) ==> Single(OtherToken(para, k)) in ps
    ensures forall k :: 0 <= k < |para| && !InRun(u, para[k]) ==>
      OtherToken(para, k) in Emitted(d, cut, pol, mode, ps)
  {
    forall k | 0 <= k < |para| && !InRun(u, para[k])
      ensures OtherToken(para, k) in Emitted(d, cut, pol, mode, ps)
    {
      EmittedSingle(d, cut, pol, mode, ps, OtherToken(para, k));
    }
  }

  /** Each character outside the run alphabet gets its own token, in both modes. */
  lemma ProcessOther(d: Dict, cut: Cutter, u: CharUtil, pol: Policy, mode: SegMode, para: string)
    ensures forall k :: 0 <= k < |para| && !InRun(u, para[k]) ==>
      OtherToken(para, k) in Process(d, cut, u, pol, mode, para)
  {
    var r := ParaScan(u, para, |para|);
    ScanOther(u, para, |para|);
    assert forall p :: p in r.closed ==> p in Pieces(u, para);
    OthersEmitted(d, cut, u, pol, mode, para, Pieces(u, para));
  }
}
