/**
 * The `com.huaban` copy of `WordDictionary`. It differs from the
 * `org.manlier` copy in four ways: every stored word also registers its
 * trimmed prefixes (`PrefixIndex`); a user-dictionary entry is stored at
 * once, normalised against the current `total`, which the user dictionary
 * never changes; a frequency field is read only when a user line has
 * exactly two fields; and `resetDict` keeps `total` and `minFreq`. A blank
 * word with a non-zero frequency makes `addWord` return null, and the prefix
 * loop then dereferences it: the `NullPointerException` ends the load, with
 * the changes made until then kept. A frequency field that is not a number
 * ends it the same way, with a `NumberFormatException`, before that line
 * changes anything.
 */
module HuabanDictionary {
  import opened Wrappers
  import opened Text
  import opened Tries
  import opened Lexicon
  import opened FinalSegs
  import opened PrefixIndex

  /** State, change list, and whether an exception escaped, after reading some lines. */
  datatype Loading = Loading(d: Dict, changes: seq<Change>, thrown: bool)

  // main dictionary

  /** The handler `loadDict` runs on one line. */
  function MainRecord(ops: FloatOps, d: Dict, tokens: seq<string>): (r: Loading)
    ensures r.changes == []
    ensures r.d.minFreq == d.minFreq
    ensures d.Valid() ==> r.d.Valid()
  {
    if |tokens| < 2 then Loading(d, [], false)
    else
      match ops.valueOf(tokens[1])
      case None => Loading(d, [], true)
      case Some(freq) =>
        if freq == 0.0 then Loading(d.(forceSplit := d.forceSplit + {tokens[0]}), [], false)
        else StoreMain(d, tokens[0], freq)
  }

  /** A word with a non-zero frequency: counted, stored under its key, then its prefixes. */
  function StoreMain(d: Dict, word: string, freq: real): (r: Loading)
    ensures r.changes == []
    ensures r.d.minFreq == d.minFreq
    ensures d.Valid() ==> r.d.Valid()
  {
    var (t, key) := AddKey(d.trie, word);
    var d1 := PutKey(d.(total := d.total + freq, trie := t), key, freq);
    match key
    case None => Loading(d1, [], true)
    case Some(k) => Loading(RegisterPrefixes(d1, k, PrefixLimit(k)).0, [], false)
  }

  /** The handler over the first lines, stopping at an exception. */
  function MainRecords(ops: FloatOps, d: Dict, source: seq<seq<string>>): (r: Loading)
    ensures r.changes == []
    ensures r.d.minFreq == d.minFreq
    ensures d.Valid() ==> r.d.Valid()
  {
    if source == [] then Loading(d, [], false)
    else
      var r := MainRecords(ops, d, source[..|source| - 1]);
      if r.thrown then r else MainRecord(ops, r.d, source[|source| - 1])
  }

  /**
   * A line with a non-blank word and a non-zero frequency adds the
   * frequency to `total` and stores it under the key; afterwards every
   * trimmed proper prefix of the key is a key of `freqs` too, and every
   * other stored value and the null entry are as before.
   */
  lemma MainRecordStores(ops: FloatOps, d: Dict, tokens: seq<string>)
    requires |tokens| >= 2 && ops.valueOf(tokens[1]).Some? && ops.valueOf(tokens[1]).value != 0.0 && !IsBlank(tokens[0])
    ensures var r := MainRecord(ops, d, tokens);
            var key := Normalize(tokens[0]);
            && !r.thrown
            && r.d.total == d.total + ops.valueOf(tokens[1]).value
            && key in r.d.freqs && r.d.freqs[key] == ops.valueOf(tokens[1]).value
            && r.d.trie.IsMatch(key)
            && Covers(r.d.freqs, key, PrefixLimit(key))
            && (forall k :: k in d.freqs && k != key ==> k in r.d.freqs && r.d.freqs[k] == d.freqs[k])
            && r.d.nullFreq == d.nullFreq
  {
    var freq := ops.valueOf(tokens[1]).value;
    var key := Normalize(tokens[0]);
    var d0 := d.(total := d.total + freq);
    NormalizedIsKey(tokens[0]);
    assert MainRecord(ops, d, tokens) == StoreMain(d, tokens[0], freq);
    StoreMainKey(d, tokens[0], freq);
    StoredWithPrefixes(d0, key, freq);
  }

  /** A non-blank word is stored under its key, then the key's prefix loop runs. */
  lemma StoreMainKey(d: Dict, word: string, freq: real)
    requires !IsBlank(word)
    ensures var key := Normalize(word);
            var d0 := d.(total := d.total + freq);
            StoreMain(d, word, freq)
              == Loading(RegisterPrefixes(d0.(trie := d0.trie.Insert(key), freqs := d0.freqs[key := freq]), key, PrefixLimit(key)).0, [], false)
  {
    var key := Normalize(word);
    var d0 := d.(total := d.total + freq);
    assert AddKey(d.trie, word) == (d.trie.Insert(key), Some(key));
    assert PutKey(d.(total := d.total + freq, trie := d.trie.Insert(key)), Some(key), freq)
        == d0.(trie := d0.trie.Insert(key), freqs := d0.freqs[key := freq]);
  }

  /**
   * A key stored with value `v`, followed by its prefix loop: the key keeps
   * `v` and stays matchable, its trimmed proper prefixes are all keys, and
   * every other value, the null entry and `total` are as before.
   */
  lemma StoredWithPrefixes(d: Dict, key: string, v: real)
    requires IsKey(key)
    ensures var r := RegisterPrefixes(d.(trie := d.trie.Insert(key), freqs := d.freqs[key := v]), key, PrefixLimit(key)).0;
            && key in r.freqs && r.freqs[key] == v
            && r.trie.IsMatch(key)
            && Covers(r.freqs, key, PrefixLimit(key))
            && (forall k :: k in d.freqs && k != key ==> k in r.freqs && r.freqs[k] == d.freqs[k])
            && r.nullFreq == d.nullFreq && r.total == d.total
  {
    var d1 := d.(trie := d.trie.Insert(key), freqs := d.freqs[key := v]);
    PrefixesOfKey(d1, key, PrefixLimit(key));
    RegisteredStaysMatched(d1, key, PrefixLimit(key), key);
  }

  /** Registering prefixes only inserts into the trie: what matched before still matches. */
  lemma {:induction false} RegisteredStaysMatched(d: Dict, word: string, n: nat, w: string)
    requires n <= |word| && d.trie.IsMatch(w)
    ensures RegisterPrefixes(d, word, n).0.trie.IsMatch(w)
  {
    if n > 0 {
      RegisteredStaysMatched(d, word, n - 1, w);
    }
  }

  /**
   * A line with a blank word and a non-zero frequency stores the frequency
   * under the null key and then throws, the frequency already added to `total`.
   */
  lemma BlankWordThrows(ops: FloatOps, d: Dict, tokens: seq<string>)
    requires |tokens| >= 2 && ops.valueOf(tokens[1]).Some? && ops.valueOf(tokens[1]).value != 0.0 && IsBlank(tokens[0])
    ensures var r := MainRecord(ops, d, tokens);
            var freq := ops.valueOf(tokens[1]).value;
            r.thrown && r.d == d.(total := d.total + freq, nullFreq := Some(freq))
  {
  }

  /** Until an exception, `total` is the sum of the frequencies read. */
  lemma {:induction false} MainRecordsTotal(ops: FloatOps, d: Dict, source: seq<seq<string>>)
    requires !MainRecords(ops, d, source).thrown
    ensures MainRecords(ops, d, source).d.total == d.total + Weights(ops, source)
  {
    if source != [] {
      var init := source[..|source| - 1];
      MainRecordsTotal(ops, d, init);
      var r := MainRecords(ops, d, init);
      var tokens := source[|source| - 1];
      if |tokens| >= 2 && ops.valueOf(tokens[1]).Some? && ops.valueOf(tokens[1]).value != 0.0 && !IsBlank(tokens[0]) {
        MainRecordStores(ops, r.d, tokens);
      }
    }
  }

  /**
   * A single line whose frequency is not a number, anywhere in the file,
   * makes the load throw, with the state as the lines before it left it.
   */
  lemma MainMalformedAborts(ops: FloatOps, d: Dict, source: seq<seq<string>>, i: nat)
    requires i < |source| && Malformed(ops, source[i])
    ensures MainRecords(ops, d, source).thrown
    ensures MainRecords(ops, d, source).d == MainRecords(ops, d, source[..i]).d
  {
    assert source[..i + 1][..i] == source[..i];
    FirstThrowStops(ops, d, source, i + 1);
  }

  // user dictionary

  /** The frequency of a user line: the second field when there are exactly two, otherwise 3; `None` when it is not a number. */
  function UserFreq(ops: FloatOps, tokens: seq<string>): Option<real>
  {
    if |tokens| == 2 then ops.valueOf(tokens[1]) else Some(3.0)
  }

  /** The body of the `loadUserDict` handler for a line that passes its guard. */
  function UserLine(ops: FloatOps, s: Loading, tokens: seq<string>): (r: Loading)
    requires |tokens| >= 1
    ensures r.d.minFreq == s.d.minFreq && r.d.total == s.d.total
    ensures s.d.Valid() ==> r.d.Valid()
  {
    match UserFreq(ops, tokens)
    case None => Loading(s.d, s.changes, true)
    case Some(freq) =>
      if freq != 0.0 then
        var (t, key) := AddKey(s.d.trie, tokens[0]);
        var d1 := PutKey(s.d.(trie := t), key, Norm(ops, freq, s.d.total));
        var cs := s.changes + [Change(key, freq)];
        match key
        case None => Loading(d1, cs, true)
        case Some(k) =>
          var (d2, pcs) := RegisterPrefixes(d1, k, PrefixLimit(k));
          Loading(d2, cs + pcs, false)
      else
        Loading(s.d.(forceSplit := s.d.forceSplit + {tokens[0]}), s.changes, false)
  }

  /**
   * The handler as written. Its guard `tokens.length >= 1` rejects a line of
   * only spaces or tabs, which splits into no fields, but lets an empty line
   * through, because `"".split("[\t ]+")` is `[""]`.
   */
  function UserRecordAsWritten(ops: FloatOps, s: Loading, tokens: seq<string>): Loading
  {
    if |tokens| >= 1 then UserLine(ops, s, tokens) else s
  }

  /** A line of only spaces or tabs has no fields, and the guard as written skips it. */
  lemma WhitespaceLineSkipped(ops: FloatOps, s: Loading)
    ensures UserRecordAsWritten(ops, s, []) == s
  {
  }

  /**
   * An empty line is not ignored: its blank word gets the default
   * frequency 3, `addWord` returns null, and the prefix loop throws, so
   * the lines after it are never read.
   */
  lemma EmptyLineThrows(ops: FloatOps, d: Dict, changes: seq<Change>)
    ensures var r := UserRecordAsWritten(ops, Loading(d, changes, false), [""]);
            r.thrown && r.d.nullFreq == Some(Norm(ops, 3.0, d.total)) && r.changes == changes + [Change(None, 3.0)]
  {
    assert IsBlank("");
  }

  /** The handler with the guard its comment asks for: empty lines are ignored. */
  function UserRecord(ops: FloatOps, s: Loading, tokens: seq<string>): Loading
  {
    if |tokens| >= 1 && !IsEmptyLine(tokens) then UserLine(ops, s, tokens) else s
  }

  /** The corrected handler leaves an empty line without effect. */
  lemma EmptyLineIgnored(ops: FloatOps, s: Loading)
    ensures UserRecord(ops, s, [""]) == s
  {
  }

  /** The handler over the first lines, stopping at an exception. */
  function UserRecords(ops: FloatOps, s: Loading, source: seq<seq<string>>): (r: Loading)
    ensures r.d.minFreq == s.d.minFreq && r.d.total == s.d.total
    ensures s.d.Valid() ==> r.d.Valid()
  {
    if source == [] then s
    else
      var r := UserRecords(ops, s, source[..|source| - 1]);
      if r.thrown then r else UserRecord(ops, r, source[|source| - 1])
  }

  /**
   * A user line with a non-blank word and a non-zero frequency stores
   * `log(freq / total)` under the key, registers its prefixes, keeps every
   * other value and the null entry, and reports the entry itself followed
   * by zero-frequency prefix entries.
   */
  lemma UserLineStores(ops: FloatOps, s: Loading, tokens: seq<string>)
    requires |tokens| >= 1 && UserFreq(ops, tokens).Some? && UserFreq(ops, tokens).value != 0.0 && !IsBlank(tokens[0])
    ensures var r := UserLine(ops, s, tokens);
            var key := Normalize(tokens[0]);
            && !r.thrown
            && key in r.d.freqs && r.d.freqs[key] == Norm(ops, UserFreq(ops, tokens).value, s.d.total)
            && r.d.trie.IsMatch(key)
            && Covers(r.d.freqs, key, PrefixLimit(key))
            && (forall k :: k in s.d.freqs && k != key ==> k in r.d.freqs && r.d.freqs[k] == s.d.freqs[k])
            && r.d.nullFreq == s.d.nullFreq
            && |r.changes| > |s.changes|
            && r.changes[..|s.changes| + 1] == s.changes + [Change(Some(key), UserFreq(ops, tokens).value)]
            && (forall j :: |s.changes| < j < |r.changes| ==> r.changes[j].freq == 0.0)
  {
    var freq := UserFreq(ops, tokens).value;
    var key := Normalize(tokens[0]);
    var d1 := PutKey(s.d.(trie := s.d.trie.Insert(key)), Some(key), Norm(ops, freq, s.d.total));
    NormalizedIsKey(tokens[0]);
    PrefixesOfKey(d1, key, PrefixLimit(key));
    RegisteredStaysMatched(d1, key, PrefixLimit(key), key);
    PrefixesOnlyAdd(d1, key, PrefixLimit(key));
    var (d2, pcs) := RegisterPrefixes(d1, key, PrefixLimit(key));
    var cs := s.changes + [Change(Some(key), freq)];
    assert UserLine(ops, s, tokens) == Loading(d2, cs + pcs, false);
    assert (cs + pcs)[..|s.changes| + 1] == cs;
    forall j | |s.changes| < j < |cs + pcs|
      ensures (cs + pcs)[j].freq == 0.0
    {
      assert (cs + pcs)[j] == pcs[j - |cs|] && pcs[j - |cs|] in pcs;
    }
  }

  // the class

  class WordDictionary {
    var freqs: map<string, real>
    var nullFreq: Option<real>
    var minFreq: real
    var total: real
    var trie: Trie
    const finalSeg: FinalSeg

    /** The fields as a value, together with the forced-split set of the shared `FinalSeg`. */
    function State(): Dict
      reads this, finalSeg
    {
      Dict(freqs, nullFreq, minFreq, total, trie, finalSeg.forceSplit)
    }

    predicate Valid()
      reads this
    {
      trie.Valid()
    }

    /** The field initialisers; the constructor's call of `loadDict` is the separate `LoadDict`. */
    constructor(seg: FinalSeg)
      ensures finalSeg == seg && Valid()
      ensures State() == Dict(map[], None, DOUBLE_MAX, 0.0, Empty, seg.forceSplit)
    {
      freqs := map[];
      nullFreq := None;
      minFreq := DOUBLE_MAX;
      total := 0.0;
      trie := Empty;
      finalSeg := seg;
    }

    /** `resetDict`: a new trie and no entries (the null one included); `total` and `minFreq` are kept. */
    method ResetDict()
      modifies this
      ensures Valid()
      ensures State() == old(State()).(freqs := map[], nullFreq := None, trie := Empty)
    {
      trie := Empty;
      freqs := map[];
      nullFreq := None;
    }

    /** `addWord(word)`: fills the trie with the key and returns it, or returns null for a blank word. */
    method AddWord(word: string) returns (key: Option<string>)
      modifies this`trie
      ensures (trie, key) == AddKey(old(trie), word)
    {
      if IsBlank(word) {
        key := None;
      } else {
        var k := Normalize(word);
        trie := trie.Insert(k);
        key := Some(k);
      }
    }

    /** `delWord(word)`: disables the key in the trie and returns it, or returns null for a blank word. */
    method DelWord(word: string) returns (key: Option<string>)
      modifies this`trie
      ensures (trie, key) == DelKey(old(trie), word)
    {
      if IsBlank(word) {
        key := None;
      } else {
        var k := Normalize(word);
        trie := trie.Disable(k);
        key := Some(k);
      }
    }

    /** `freqs.put(key, v)` with a possibly null key. */
    method Put(key: Option<string>, v: real)
      modifies this`freqs, this`nullFreq
      ensures State() == PutKey(old(State()), key, v)
    {
      match key
      case None => nullFreq := Some(v);
      case Some(k) => freqs := freqs[k := v];
    }

    /** One iteration `i` of the prefix loop. */
    method AddPrefix(word: string, i: nat) returns (more: seq<Change>)
      requires i < |word|
      modifies this`trie, this`freqs, this`nullFreq
      ensures (State(), more) == PrefixStep(old(State()), word, i)
    {
      more := [];
      var split := Trim(word[..i + 1]);
      if split !in freqs {
        var key := AddWord(split);
        Put(key, 0.0);
        more := [Change(key, 0.0)];
      }
    }

    /** The prefix loop over `i < word.length() - 1`, returning the `(split, 0)` entries it adds. */
    method AddPrefixes(word: string) returns (changes: seq<Change>)
      modifies this`trie, this`freqs, this`nullFreq
      ensures (State(), changes) == RegisterPrefixes(old(State()), word, PrefixLimit(word))
    {
      ghost var before := State();
      changes := [];
      var i := 0;
      while i < |word| - 1
        invariant i <= PrefixLimit(word)
        invariant (State(), changes) == RegisterPrefixes(before, word, i)
      {
        ghost var d1, i0, c0 := State(), i, changes;
        var more := AddPrefix(word, i);
        changes := changes + more;
        i := i + 1;
        RegisterStep(before, word, i0, i, d1, c0, State(), more, changes);
      }
    }

    /**
     * The record handler of `loadDict`; `thrown` is the `NumberFormatException`
     * of a non-numeric frequency or the `NullPointerException` of a blank word.
     */
    method LoadRecord(ops: FloatOps, tokens: seq<string>) returns (thrown: bool)
      requires Valid()
      modifies this, finalSeg
      ensures Valid()
      ensures Loading(State(), [], thrown) == MainRecord(ops, old(State()), tokens)
    {
      thrown := false;
      if |tokens| >= 2 {
        var word := tokens[0];
        var parsed := ops.valueOf(tokens[1]);
        if parsed.None? {
          return true;
        }
        var freq := parsed.value;
        if freq != 0.0 {
          thrown := StoreWord(word, freq);
        } else {
          finalSeg.AddForceSplit(word);
        }
      }
    }

    /** The handler's branch for a non-zero frequency. */
    method StoreWord(word: string, freq: real) returns (thrown: bool)
      requires Valid()
      modifies this`total, this`trie, this`freqs, this`nullFreq
      ensures Valid()
      ensures Loading(State(), [], thrown) == StoreMain(old(State()), word, freq)
    {
      ghost var d0 := State();
      ghost var added := AddKey(d0.trie, word);
      total := total + freq;
      var key := AddWord(word);
      Put(key, freq);
      ghost var stored := PutKey(d0.(total := d0.total + freq, trie := added.0), key, freq);
      assert State() == stored;
      if key.None? {
        thrown := true;
        assert StoreMain(d0, word, freq) == Loading(stored, [], true);
      } else {
        thrown := false;
        var _ := AddPrefixes(key.value);
        assert StoreMain(d0, word, freq) == Loading(RegisterPrefixes(stored, key.value, PrefixLimit(key.value)).0, [], false);
      }
    }

    /**
     * `loadDict`: a new trie, every line through the handler, then all of
     * `freqs` normalised; an exception ends it before the normalisation.
     */
    method LoadDict(ops: FloatOps, source: seq<seq<string>>) returns (thrown: bool)
      modifies this, finalSeg
      ensures Valid()
      ensures var r := MainRecords(ops, old(State()).(trie := Empty), source);
              && thrown == r.thrown
              && (thrown ==> State() == r.d)
              && (!thrown ==>
                    && freqs == NormMap(ops, r.d.freqs, r.d.total)
                    && nullFreq == NormNull(ops, r.d.nullFreq, r.d.total)
                    && total == r.d.total && trie == r.d.trie && finalSeg.forceSplit == r.d.forceSplit
                    && MinUpdated(minFreq, old(minFreq), freqs, nullFreq))
    {
      trie := Empty;
      ghost var before := State();
      thrown := false;
      var i := 0;
      while i < |source|
        invariant i <= |source| && Valid()
        invariant Loading(State(), [], false) == MainRecords(ops, before, source[..i])
      {
        assert source[..i + 1][..i] == source[..i];
        thrown := LoadRecord(ops, source[i]);
        if thrown {
          FirstThrowStops(ops, before, source, i + 1);
          return;
        }
        i := i + 1;
      }
      assert source[..|source|] == source;
      NormalizeFreqs(ops);
    }

    /** `normalizeFreqs()`: all of `freqs` normalised against `total`, `minFreq` lowered to the smallest. */
    method NormalizeFreqs(ops: FloatOps)
      modifies this`freqs, this`nullFreq, this`minFreq
      ensures freqs == NormMap(ops, old(freqs), total) && nullFreq == NormNull(ops, old(nullFreq), total)
      ensures MinUpdated(minFreq, old(minFreq), freqs, nullFreq)
    {
      freqs, nullFreq, minFreq := NormalizeEntries(ops, freqs, nullFreq, total, minFreq);
    }

    /** The record handler of `loadUserDict`, with empty lines ignored (see `UserRecordAsWritten`). */
    method UserLineRecord(ops: FloatOps, tokens: seq<string>, changes: seq<Change>)
      returns (changes': seq<Change>, thrown: bool)
      requires Valid()
      modifies this, finalSeg
      ensures Valid()
      ensures Loading(State(), changes', thrown) == UserRecord(ops, Loading(old(State()), changes, false), tokens)
    {
      changes', thrown := changes, false;
      if |tokens| >= 1 && !IsEmptyLine(tokens) {
        var word := tokens[0];
        var freq := 3.0;
        if |tokens| == 2 {
          var parsed := ops.valueOf(tokens[1]);
          if parsed.None? {
            thrown := true;
            return;
          }
          freq := parsed.value;
        }
        if freq != 0.0 {
          var key := AddWord(word);
          Put(key, Norm(ops, freq, total));
          changes' := changes + [Change(key, freq)];
          match key {
            case None =>
              thrown := true;
            case Some(k) =>
              var more := AddPrefixes(k);
              changes' := changes' + more;
          }
        } else {
          finalSeg.AddForceSplit(word);
        }
      }
    }

    /** `loadUserDict`: every line through the handler, in order; the change list is returned. */
    method LoadUserDict(ops: FloatOps, source: seq<seq<string>>) returns (changes: seq<Change>, thrown: bool)
      requires Valid()
      modifies this, finalSeg
      ensures Valid()
      ensures Loading(State(), changes, thrown) == UserRecords(ops, Loading(old(State()), [], false), source)
    {
      ghost var start := Loading(State(), [], false);
      changes, thrown := [], false;
      var i := 0;
      while i < |source|
        invariant i <= |source| && Valid()
        invariant Loading(State(), changes, false) == UserRecords(ops, start, source[..i])
      {
        assert source[..i + 1][..i] == source[..i];
        changes, thrown := UserLineRecord(ops, source[i], changes);
        if thrown {
          UserThrowStops(ops, start, source, i + 1);
          return;
        }
        i := i + 1;
      }
      assert source[..|source|] == source;
    }
  }

  /** Once a line has thrown, the lines after it change nothing. */
  lemma {:induction false} FirstThrowStops(ops: FloatOps, d: Dict, source: seq<seq<string>>, n: nat)
    requires n <= |source| && MainRecords(ops, d, source[..n]).thrown
    ensures MainRecords(ops, d, source) == MainRecords(ops, d, source[..n])
    decreases |source| - n
  {
    if n < |source| {
      assert source[..n + 1][..n] == source[..n];
      FirstThrowStops(ops, d, source, n + 1);
    } else {
      assert source[..n] == source;
    }
  }

  /** Once a line has thrown, the lines after it are never read. */
  lemma {:induction false} UserThrowStops(ops: FloatOps, s: Loading, source: seq<seq<string>>, n: nat)
    requires n <= |source| && UserRecords(ops, s, source[..n]).thrown
    ensures UserRecords(ops, s, source) == UserRecords(ops, s, source[..n])
    decreases |source| - n
  {
    if n < |source| {
      assert source[..n + 1][..n] == source[..n];
      UserThrowStops(ops, s, source, n + 1);
    } else {
      assert source[..n] == source;
    }
  }

  /**
   * A user line of two fields whose frequency is not a number, anywhere in
   * the file, makes the load throw, with the state and the change list as
   * the lines before it left them.
   */
  lemma UserMalformedAborts(ops: FloatOps, s: Loading, source: seq<seq<string>>, i: nat)
    requires i < |source| && |source[i]| == 2 && ops.valueOf(source[i][1]).None?
    ensures UserRecords(ops, s, source).thrown
    ensures UserRecords(ops, s, source).d == UserRecords(ops, s, source[..i]).d
    ensures UserRecords(ops, s, source).changes == UserRecords(ops, s, source[..i]).changes
  {
    assert source[..i + 1][..i] == source[..i];
    UserThrowStops(ops, s, source, i + 1);
  }
}
