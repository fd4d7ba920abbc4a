/**
 * The `org.manlier` copy of `WordDictionary`: the main dictionary loader,
 * the user-dictionary loader that stages its entries and merges them, the
 * normalisation of raw frequencies into log-probabilities, and the reset.
 * Each line of a dictionary file reaches the class as the fields of
 * `line.split("[\t ]+")`; a source is the sequence of those field lists.
 */
module ManlierDictionary {
  import opened Wrappers
  import opened Text
  import opened Tries
  import opened Lexicon
  import opened FinalSegs

  // main dictionary

  /** The state after some lines, and whether `Double.valueOf` threw on one of them. */
  datatype Reading = Reading(d: Dict, thrown: bool)

  /**
   * The handler `loadDict` runs on one line: needs two fields; a frequency
   * field that is not a number throws before anything changes; a zero
   * frequency only forces a split.
   */
  function DictRecord(ops: FloatOps, d: Dict, tokens: seq<string>): (r: Reading)
    ensures r.d.minFreq == d.minFreq
    ensures d.Valid() ==> r.d.Valid()
  {
    if |tokens| < 2 then Reading(d, false)
    else
      match ops.valueOf(tokens[1])
      case None => Reading(d, true)
      case Some(freq) =>
        if freq == 0.0 then Reading(d.(forceSplit := d.forceSplit + {tokens[0]}), false)
        else
          var (t, key) := AddKey(d.trie, tokens[0]);
          Reading(PutKey(d.(total := d.total + freq, trie := t), key, freq), false)
  }

  /** The handler run over the first lines of the main dictionary, in order, until one throws. */
  function DictRecords(ops: FloatOps, d: Dict, source: seq<seq<string>>): (r: Reading)
    ensures r.d.minFreq == d.minFreq
    ensures d.Valid() ==> r.d.Valid()
  {
    if source == [] then Reading(d, false)
    else
      var r := DictRecords(ops, d, source[..|source| - 1]);
      if r.thrown then r else DictRecord(ops, r.d, source[|source| - 1])
  }

  /**
   * What one line does: a line of fewer than two fields is ignored; a
   * frequency field that is not a number throws and changes nothing; a zero
   * frequency adds the word to the forced-split set and nothing else; any
   * other frequency is added to `total` and stored, as given, under the key
   * `addWord` returns (the null entry for a blank word), which the trie then
   * matches.
   */
  lemma RecordEffect(ops: FloatOps, d: Dict, tokens: seq<string>)
    ensures |tokens| < 2 ==> DictRecord(ops, d, tokens) == Reading(d, false)
    ensures Malformed(ops, tokens) ==> DictRecord(ops, d, tokens) == Reading(d, true)
    ensures |tokens| >= 2 && ops.valueOf(tokens[1]) == Some(0.0) ==>
              DictRecord(ops, d, tokens) == Reading(d.(forceSplit := d.forceSplit + {tokens[0]}), false)
    ensures |tokens| >= 2 && ops.valueOf(tokens[1]).Some? && ops.valueOf(tokens[1]).value != 0.0 ==>
              var freq := ops.valueOf(tokens[1]).value;
              var r := DictRecord(ops, d, tokens).d;
              !DictRecord(ops, d, tokens).thrown &&
              r.total == d.total + freq && r.forceSplit == d.forceSplit &&
              (IsBlank(tokens[0]) ==> r.freqs == d.freqs && r.nullFreq == Some(freq) && r.trie == d.trie) &&
              (!IsBlank(tokens[0]) ==> r.freqs == d.freqs[Normalize(tokens[0]) := freq] &&
                                       r.nullFreq == d.nullFreq && r.trie.IsMatch(Normalize(tokens[0])))
  {
  }

  /** Once a line has thrown, the lines after it are never read. */
  lemma {:induction false} RecordsThrowStops(ops: FloatOps, d: Dict, source: seq<seq<string>>, n: nat)
    requires n <= |source| && DictRecords(ops, d, source[..n]).thrown
    ensures DictRecords(ops, d, source) == DictRecords(ops, d, source[..n])
    decreases |source| - n
  {
    if n < |source| {
      assert source[..n + 1][..n] == source[..n];
      RecordsThrowStops(ops, d, source, n + 1);
    } else {
      assert source[..n] == source;
    }
  }

  /** A single line whose frequency is not a number, anywhere in the file, makes the whole load throw. */
  lemma MalformedAborts(ops: FloatOps, d: Dict, source: seq<seq<string>>, i: nat)
    requires i < |source| && Malformed(ops, source[i])
    ensures DictRecords(ops, d, source).thrown
  {
    assert source[..i + 1][..i] == source[..i];
    RecordsThrowStops(ops, d, source, i + 1);
  }

  /** When no line throws, `total` ends up as the sum of the frequencies of all lines. */
  lemma {:induction false} RecordsTotal(ops: FloatOps, d: Dict, source: seq<seq<string>>)
    requires !DictRecords(ops, d, source).thrown
    ensures DictRecords(ops, d, source).d.total == d.total + Weights(ops, source)
  {
    if source != [] {
      RecordsTotal(ops, d, source[..|source| - 1]);
    }
  }

  /** Loading never leaves a key in `freqs` that the trie cannot match. */
  lemma {:induction false} RecordsIndexed(ops: FloatOps, d: Dict, source: seq<seq<string>>)
    requires Indexed(d)
    ensures Indexed(DictRecords(ops, d, source).d)
  {
    if source != [] {
      var r := DictRecords(ops, d, source[..|source| - 1]);
      RecordsIndexed(ops, d, source[..|source| - 1]);
      RecordEffect(ops, r.d, source[|source| - 1]);
    }
  }

  /** With a new smallest value, `getFreq` never returns less than `minFreq`. */
  lemma MinIsFloor(d: Dict, w: string, oldMin: real)
    requires MinUpdated(d.minFreq, oldMin, d.freqs, d.nullFreq)
    ensures d.minFreq <= GetFreq(d, w)
  {
  }

  // user dictionary

  /**
   * The state `loadUserDict` carries from line to line: the dictionary,
   * `toBeMergefreqs` and `changeList`, and whether `Double.valueOf` threw.
   */
  datatype Staging = Staging(d: Dict, staged: map<string, real>, stagedNull: Option<real>, changes: seq<Change>,
                             thrown: bool)

  /** The frequency field of a user line: the second field, or 3 when there is none; `None` when it is not a number. */
  function UserFreq(ops: FloatOps, tokens: seq<string>): Option<real>
    requires |tokens| >= 1
  {
    if |tokens| >= 2 then ops.valueOf(tokens[1]) else Some(3.0)
  }

  /** The body of the handler for a line that passes its guard. */
  function StageRecord(ops: FloatOps, s: Staging, tokens: seq<string>): (r: Staging)
    requires |tokens| >= 1
    ensures r.d.minFreq == s.d.minFreq && r.d.freqs == s.d.freqs && r.d.nullFreq == s.d.nullFreq
    ensures s.d.Valid() ==> r.d.Valid()
  {
    match UserFreq(ops, tokens)
    case None => s.(thrown := true)
    case Some(freq) =>
      if freq != 0.0 then
        var (t, key) := AddKey(s.d.trie, tokens[0]);
        var d := s.d.(total := s.d.total + freq, trie := t);
        match key
        case None => Staging(d, s.staged, Some(freq), s.changes + [Change(key, freq)], s.thrown)
        case Some(k) => Staging(d, s.staged[k := freq], s.stagedNull, s.changes + [Change(key, freq)], s.thrown)
      else
        s.(d := s.d.(forceSplit := s.d.forceSplit + {tokens[0]}))
  }

  /**
   * The handler as written. Its guard `tokens.length >= 1` rejects a line of
   * only spaces or tabs, which splits into no fields, but lets an empty line
   * through, because `"".split("[\t ]+")` is `[""]`.
   */
  function UserRecordAsWritten(ops: FloatOps, s: Staging, tokens: seq<string>): Staging
  {
    if |tokens| >= 1 then StageRecord(ops, s, tokens) else s
  }

  /**
   * An empty line is not ignored: it adds the default frequency 3 to
   * `total`, stages a null key and reports the change `(null, 3)`.
   */
  lemma EmptyLineCounted(ops: FloatOps, s: Staging)
    ensures var r := UserRecordAsWritten(ops, s, [""]);
            r.d.total == s.d.total + 3.0 && r.stagedNull == Some(3.0) && r.changes == s.changes + [Change(None, 3.0)]
  {
    assert IsBlank("");
  }

  /** A line of only spaces or tabs has no fields, and the guard as written skips it. */
  lemma WhitespaceLineSkipped(ops: FloatOps, s: Staging)
    ensures UserRecordAsWritten(ops, s, []) == s
  {
  }

  /** The handler with the guard its comment asks for: empty lines are ignored. */
  function UserRecord(ops: FloatOps, s: Staging, tokens: seq<string>): Staging
  {
    if |tokens| >= 1 && !IsEmptyLine(tokens) then StageRecord(ops, s, tokens) else s
  }

  /** The corrected handler leaves an empty line without effect. */
  lemma EmptyLineIgnored(ops: FloatOps, s: Staging)
    ensures UserRecord(ops, s, [""]) == s
  {
  }

  /** The handler over the lines, in order, until one throws. */
  function UserRecords(ops: FloatOps, s: Staging, source: seq<seq<string>>): (r: Staging)
    ensures r.d.minFreq == s.d.minFreq && r.d.freqs == s.d.freqs && r.d.nullFreq == s.d.nullFreq
    ensures s.d.Valid() ==> r.d.Valid()
  {
    if source == [] then s
    else
      var r := UserRecords(ops, s, source[..|source| - 1]);
      if r.thrown then r else UserRecord(ops, r, source[|source| - 1])
  }

  /** A user line that is read and carries a non-zero frequency. */
  predicate Accepted(ops: FloatOps, tokens: seq<string>)
  {
    |tokens| >= 1 && !IsEmptyLine(tokens) && UserFreq(ops, tokens).Some? && UserFreq(ops, tokens).value != 0.0
  }

  /** The change a user line reports, computed from the line alone. */
  function LineChanges(ops: FloatOps, tokens: seq<string>): seq<Change>
  {
    if Accepted(ops, tokens) then
      [Change(if IsBlank(tokens[0]) then None else Some(Normalize(tokens[0])), UserFreq(ops, tokens).value)]
    else []
  }

  function SourceChanges(ops: FloatOps, source: seq<seq<string>>): seq<Change>
  {
    if source == [] then [] else SourceChanges(ops, source[..|source| - 1]) + LineChanges(ops, source[|source| - 1])
  }

  /** The frequency a user line adds to `total`. */
  function UserWeight(ops: FloatOps, tokens: seq<string>): real
  {
    if Accepted(ops, tokens) then UserFreq(ops, tokens).value else 0.0
  }

  function UserWeights(ops: FloatOps, source: seq<seq<string>>): real
  {
    if source == [] then 0.0 else UserWeights(ops, source[..|source| - 1]) + UserWeight(ops, source[|source| - 1])
  }

  /**
   * When no line throws, loading a user dictionary adds every read
   * frequency to `total`, and the change list holds one entry per line with
   * a non-zero frequency, in file order, whatever the dictionary held before.
   */
  lemma {:induction false} UserRecordsEffect(ops: FloatOps, s: Staging, source: seq<seq<string>>)
    requires !UserRecords(ops, s, source).thrown
    ensures UserRecords(ops, s, source).d.total == s.d.total + UserWeights(ops, source)
    ensures UserRecords(ops, s, source).changes == s.changes + SourceChanges(ops, source)
  {
    if source != [] {
      var init := source[..|source| - 1];
      UserRecordsEffect(ops, s, init);
      var s1 := UserRecords(ops, s, init);
      var tokens := source[|source| - 1];
      if Accepted(ops, tokens) {
        assert UserRecords(ops, s, source) == StageRecord(ops, s1, tokens);
      }
    }
  }

  /** Once a line has thrown, the lines after it are never read. */
  lemma {:induction false} UserThrowStops(ops: FloatOps, s: Staging, source: seq<seq<string>>, n: nat)
    requires n <= |source| && UserRecords(ops, s, source[..n]).thrown
    ensures UserRecords(ops, s, source) == UserRecords(ops, s, source[..n])
    decreases |source| - n
  {
    if n < |source| {
      assert source[..n + 1][..n] == source[..n];
      UserThrowStops(ops, s, source, n + 1);
    } else {
      assert source[..n] == source;
    }
  }

  /**
   * A user line whose frequency field is not a number, anywhere in the
   * file, makes the load throw; the lines before it have already moved
   * `total` and filled the trie.
   */
  lemma UserMalformedAborts(ops: FloatOps, s: Staging, source: seq<seq<string>>, i: nat)
    requires i < |source| && Malformed(ops, source[i])
    ensures UserRecords(ops, s, source).thrown
    ensures UserRecords(ops, s, source).d == UserRecords(ops, s, source[..i]).d
  {
    assert source[..i + 1][..i] == source[..i];
    UserThrowStops(ops, s, source, i + 1);
  }

  /** Every staged key is matchable in the trie once the lines are read. */
  lemma {:induction false} StagedIndexed(ops: FloatOps, s: Staging, source: seq<seq<string>>)
    requires forall k :: k in s.staged ==> s.d.trie.IsMatch(k)
    ensures forall k :: k in UserRecords(ops, s, source).staged ==> UserRecords(ops, s, source).d.trie.IsMatch(k)
  {
    if source != [] {
      StagedIndexed(ops, s, source[..|source| - 1]);
    }
  }

  // the class

  class WordDictionary {
    var freqs: map<string, real>
    var nullFreq: Option<real>
    var minFreq: real
    var total: real
    var trie: Trie
    const finalSeg: FinalSeg

    /** The fields as a value, together with the forced-split set of the shared `FinalSeg`. */
    function State(): Dict
      reads this, finalSeg
    {
      Dict(freqs, nullFreq, minFreq, total, trie, finalSeg.forceSplit)
    }

    predicate Valid()
      reads this
    {
      trie.Valid()
    }

    /**
     * The state after the main dictionary `source` is read into the state
     * `before`: normalised against the resulting `total` when no line threw,
     * and as the throwing line left it otherwise.
     */
    predicate LoadedFrom(ops: FloatOps, before: Dict, oldMin: real, source: seq<seq<string>>)
      reads this, finalSeg
    {
      var loaded := DictRecords(ops, before, source);
      if loaded.thrown then State() == loaded.d
      else
        && freqs == NormMap(ops, loaded.d.freqs, loaded.d.total)
        && nullFreq == NormNull(ops, loaded.d.nullFreq, loaded.d.total)
        && total == loaded.d.total && trie == loaded.d.trie && finalSeg.forceSplit == loaded.d.forceSplit
        && MinUpdated(minFreq, oldMin, freqs, nullFreq)
    }

    /** The private constructor: empty fields, then the main dictionary when `useDefaultDict` is set. */
    constructor(ops: FloatOps, seg: FinalSeg, useDefaultDict: bool, mainDict: seq<seq<string>>)
      modifies seg
      ensures finalSeg == seg && Valid()
      ensures !useDefaultDict ==> State() == Dict(map[], None, DOUBLE_MAX, 0.0, Empty, old(seg.forceSplit))
      ensures useDefaultDict ==>
                LoadedFrom(ops, Dict(map[], None, DOUBLE_MAX, 0.0, Empty, old(seg.forceSplit)), DOUBLE_MAX, mainDict)
    {
      freqs := map[];
      nullFreq := None;
      minFreq := DOUBLE_MAX;
      total := 0.0;
      trie := Empty;
      finalSeg := seg;
      new;
      if useDefaultDict {
        var _ := LoadDict(ops, mainDict);
      }
    }

    /** `resetDict`: a new trie, no entries (the null one included), `total` 0 and `minFreq` back to its maximum. */
    method ResetDict()
      modifies this
      ensures Valid()
      ensures State() == Dict(map[], None, DOUBLE_MAX, 0.0, Empty, finalSeg.forceSplit)
    {
      trie := Empty;
      freqs := map[];
      nullFreq := None;
      total := 0.0;
      minFreq := DOUBLE_MAX;
    }

    /** `addWord(word)`: fills the trie with the key and returns it, or returns null for a blank word. */
    method AddWord(word: string) returns (key: Option<string>)
      modifies this`trie
      ensures (trie, key) == AddKey(old(trie), word)
    {
      if IsBlank(word) {
        key := None;
      } else {
        var k := Normalize(word);
        trie := trie.Insert(k);
        key := Some(k);
      }
    }

    /** `delWord(word)`: disables the key in the trie and returns it, or returns null for a blank word. */
    method DelWord(word: string) returns (key: Option<string>)
      modifies this`trie
      ensures (trie, key) == DelKey(old(trie), word)
    {
      if IsBlank(word) {
        key := None;
      } else {
        var k := Normalize(word);
        trie := trie.Disable(k);
        key := Some(k);
      }
    }

    /** `freqs.put(key, v)` with a possibly null key. */
    method Put(key: Option<string>, v: real)
      modifies this`freqs, this`nullFreq
      ensures State() == PutKey(old(State()), key, v)
    {
      match key
      case None => nullFreq := Some(v);
      case Some(k) => freqs := freqs[k := v];
    }

    /** The record handler of `loadDict`; `thrown` is the `NumberFormatException` of a non-numeric frequency. */
    method LoadRecord(ops: FloatOps, tokens: seq<string>) returns (thrown: bool)
      requires Valid()
      modifies this, finalSeg
      ensures Valid()
      ensures Reading(State(), thrown) == DictRecord(ops, old(State()), tokens)
    {
      thrown := false;
      if |tokens| >= 2 {
        var word := tokens[0];
        var parsed := ops.valueOf(tokens[1]);
        if parsed.None? {
          return true;
        }
        var freq := parsed.value;
        if freq != 0.0 {
          total := total + freq;
          var key := AddWord(word);
          Put(key, freq);
        } else {
          finalSeg.AddForceSplit(word);
        }
      }
    }

    /**
     * `loadDict`: every line through the handler, then all of `freqs`
     * normalised; a `NumberFormatException` escapes before the normalisation.
     */
    method LoadDict(ops: FloatOps, source: seq<seq<string>>) returns (thrown: bool)
      requires Valid()
      modifies this, finalSeg
      ensures Valid()
      ensures thrown == DictRecords(ops, old(State()), source).thrown
      ensures LoadedFrom(ops, old(State()), old(minFreq), source)
    {
      ghost var before := State();
      var i := 0;
      while i < |source|
        invariant i <= |source| && Valid()
        invariant Reading(State(), false) == DictRecords(ops, before, source[..i])
      {
        assert source[..i + 1][..i] == source[..i];
        thrown := LoadRecord(ops, source[i]);
        if thrown {
          RecordsThrowStops(ops, before, source, i + 1);
          return;
        }
        i := i + 1;
      }
      assert source[..|source|] == source;
      thrown := false;
      freqs, nullFreq := NormalizeFreqs(ops, freqs, nullFreq);
    }

    /** `normalizeFreqs(m)`: the entries of `m` normalised against `total`, `minFreq` lowered to the smallest. */
    method NormalizeFreqs(ops: FloatOps, m: map<string, real>, n: Option<real>)
      returns (nm: map<string, real>, nn: Option<real>)
      modifies this`minFreq
      ensures nm == NormMap(ops, m, total) && nn == NormNull(ops, n, total)
      ensures MinUpdated(minFreq, old(minFreq), nm, nn)
    {
      nm, nn, minFreq := NormalizeEntries(ops, m, n, total, minFreq);
    }

    /** The record handler of `loadUserDict`, with empty lines ignored (see `UserRecordAsWritten`). */
    method StageLine(ops: FloatOps, tokens: seq<string>, staged: map<string, real>, stagedNull: Option<real>,
                     changes: seq<Change>)
      returns (staged': map<string, real>, stagedNull': Option<real>, changes': seq<Change>, thrown: bool)
      requires Valid()
      modifies this, finalSeg
      ensures Valid()
      ensures Staging(State(), staged', stagedNull', changes', thrown)
              == UserRecord(ops, Staging(old(State()), staged, stagedNull, changes, false), tokens)
    {
      staged', stagedNull', changes', thrown := staged, stagedNull, changes, false;
      if |tokens| >= 1 && !IsEmptyLine(tokens) {
        var word := tokens[0];
        var freq := 3.0;
        if |tokens| >= 2 {
          var parsed := ops.valueOf(tokens[1]);
          if parsed.None? {
            thrown := true;
            return;
          }
          freq := parsed.value;
        }
        if freq != 0.0 {
          total := total + freq;
          var key := AddWord(word);
          match key {
            case None => stagedNull' := Some(freq);
            case Some(k) => staged' := staged[k := freq];
          }
          changes' := changes + [Change(key, freq)];
        } else {
          finalSeg.AddForceSplit(word);
        }
      }
    }

    /**
     * `loadUserDict`: the lines are staged, the staged entries normalised
     * against the `total` reached after the last line, then merged into
     * `freqs` (`putAll`), replacing existing values; the change list is
     * returned. A `NumberFormatException` escapes with `total`, the trie and
     * the forced-split set as the lines before it left them, and nothing
     * staged merged.
     */
    method LoadUserDict(ops: FloatOps, source: seq<seq<string>>) returns (changes: seq<Change>, thrown: bool)
      requires Valid()
      modifies this, finalSeg
      ensures Valid()
      ensures var s := UserRecords(ops, Staging(old(State()), map[], None, [], false), source);
              var nm := NormMap(ops, s.staged, s.d.total);
              var nn := NormNull(ops, s.stagedNull, s.d.total);
              && thrown == s.thrown
              && total == s.d.total && trie == s.d.trie && finalSeg.forceSplit == s.d.forceSplit
              && (thrown ==> freqs == old(freqs) && nullFreq == old(nullFreq) && minFreq == old(minFreq))
              && (!thrown ==>
                    && changes == s.changes
                    && freqs == old(freqs) + nm
                    && nullFreq == (if nn.Some? then nn else old(nullFreq))
                    && MinUpdated(minFreq, old(minFreq), nm, nn))
    {
      ghost var start := Staging(State(), map[], None, [], false);
      var staged: map<string, real> := map[];
      var stagedNull: Option<real> := None;
      changes, thrown := [], false;
      var i := 0;
      while i < |source|
        invariant i <= |source| && Valid()
        invariant Staging(State(), staged, stagedNull, changes, false) == UserRecords(ops, start, source[..i])
      {
        assert source[..i + 1][..i] == source[..i];
        staged, stagedNull, changes, thrown := StageLine(ops, source[i], staged, stagedNull, changes);
        if thrown {
          UserThrowStops(ops, start, source, i + 1);
          return;
        }
        i := i + 1;
      }
      assert source[..|source|] == source;
      var nm, nn := NormalizeFreqs(ops, staged, stagedNull);
      freqs := freqs + nm;
      if nn.Some? {
        nullFreq := nn;
      }
    }
  }
}
