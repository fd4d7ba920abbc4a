/**
 * The prefix loop of the `com.huaban` copy: after a word is stored, every
 * trimmed proper prefix `word.substring(0, i + 1).trim()` that is not yet a
 * key of `freqs` is registered with `addWord` and stored with frequency 0,
 * so that the DAG builder finds a trie path through every prefix. The same
 * loop appears in `loadDict`, `loadUserDict` and the segmenter's `addWord`.
 */
module PrefixIndex {
  import opened Wrappers
  import opened Text
  import opened Tries
  import opened Lexicon

  /** The loop runs for `i < word.length() - 1`: every proper, non-empty prefix. */
  function PrefixLimit(word: string): (n: nat)
    ensures n <= |word|
    ensures word != [] ==> n == |word| - 1
  {
    if word == [] then 0 else |word| - 1
  }

  /** One iteration `i`: register the trimmed prefix of length `i + 1` unless `containsWord` already holds. */
  function PrefixStep(d: Dict, word: string, i: nat): (r: (Dict, seq<Change>))
    requires i < |word|
    ensures r.0.total == d.total && r.0.minFreq == d.minFreq && r.0.forceSplit == d.forceSplit
    ensures d.Valid() ==> r.0.Valid()
  {
    var split := Trim(word[..i + 1]);
    if ContainsWord(d, split) then (d, [])
    else
      var (t, key) := AddKey(d.trie, split);
      (PutKey(d.(trie := t), key, 0.0), [Change(key, 0.0)])
  }

  /**
   * The first `n` iterations: the dictionary afterwards and the `(prefix, 0)`
   * change entries they add, in loop order.
   */
  function RegisterPrefixes(d: Dict, word: string, n: nat): (r: (Dict, seq<Change>))
    requires n <= |word|
    ensures r.0.total == d.total && r.0.minFreq == d.minFreq && r.0.forceSplit == d.forceSplit
    ensures d.Valid() ==> r.0.Valid()
    decreases n
  {
    if n == 0 then (d, [])
    else
      var (d1, c1) := RegisterPrefixes(d, word, n - 1);
      var (d2, c2) := PrefixStep(d1, word, n - 1);
      (d2, c1 + c2)
  }

  /** Iteration `i` of the prefix loop extends what the first `i` iterations did. */
  lemma RegisterStep(d: Dict, word: string, i: nat, i2: nat, d1: Dict, c1: seq<Change>, d2: Dict, more: seq<Change>, changes: seq<Change>)
    requires i < |word| && i2 == i + 1
    requires (d1, c1) == RegisterPrefixes(d, word, i)
    requires (d2, more) == PrefixStep(d1, word, i)
    requires changes == c1 + more
    ensures (d2, changes) == RegisterPrefixes(d, word, i2)
  {
  }

  /**
   * From `d` to `d2`, reporting `cs`: keys are only added, each key that is
   * new or whose frequency changed has the frequency 0, the null entry (for a blank prefix) changes only to 0,
   * and only zero frequencies are reported.
   */
  predicate OnlyAdds(d: Dict, d2: Dict, cs: seq<Change>)
  {
    && (forall k :: k in d.freqs ==> k in d2.freqs)
    && (forall k :: k in d2.freqs && (k !in d.freqs || d2.freqs[k] != d.freqs[k]) ==> d2.freqs[k] == 0.0)
    && (d2.nullFreq != d.nullFreq ==> d2.nullFreq == Some(0.0))
    && (forall c :: c in cs ==> c.freq == 0.0)
  }

  /** Two such updates in a row are one. */
  lemma OnlyAddsChain(d: Dict, d1: Dict, c1: seq<Change>, d2: Dict, c2: seq<Change>)
    requires OnlyAdds(d, d1, c1) && OnlyAdds(d1, d2, c2)
    ensures OnlyAdds(d, d2, c1 + c2)
  {
  }

  /** Whatever the word, the loop's updates are of that kind. */
  lemma {:induction false} PrefixesOnlyAdd(d: Dict, word: string, n: nat)
    requires n <= |word|
    ensures OnlyAdds(d, RegisterPrefixes(d, word, n).0, RegisterPrefixes(d, word, n).1)
  {
    if n > 0 {
      PrefixesOnlyAdd(d, word, n - 1);
      var r1 := RegisterPrefixes(d, word, n - 1);
      var r2 := PrefixStep(r1.0, word, n - 1);
      PrefixStepOnlyAdds(r1.0, word, n - 1);
      OnlyAddsChain(d, r1.0, r1.1, r2.0, r2.1);
      assert RegisterPrefixes(d, word, n) == (r2.0, r1.1 + r2.1);
    }
  }

  /**
   * The first `n` iterations only write keys of at most `n` characters: a
   * longer key, the word itself among them, keeps its entry.
   */
  lemma {:induction false} LongerKeysKept(d: Dict, word: string, n: nat, k: string)
    requires n <= |word| && n < |k|
    ensures k in RegisterPrefixes(d, word, n).0.freqs <==> k in d.freqs
    ensures k in d.freqs ==> RegisterPrefixes(d, word, n).0.freqs[k] == d.freqs[k]
  {
    if n > 0 {
      LongerKeysKept(d, word, n - 1, k);
      var d1 := RegisterPrefixes(d, word, n - 1).0;
      var split := Trim(word[..n]);
      assert |Normalize(split)| <= |split| <= n;
      assert RegisterPrefixes(d, word, n).0 == PrefixStep(d1, word, n - 1).0;
    }
  }

  /** One iteration's update is of that kind. */
  lemma PrefixStepOnlyAdds(d: Dict, word: string, i: nat)
    requires i < |word|
    ensures OnlyAdds(d, PrefixStep(d, word, i).0, PrefixStep(d, word, i).1)
  {
  }

  /** A stored key: lower-case and not starting with a space, as `addWord` returns it. */
  predicate IsKey(word: string)
  {
    IsLower(word) && (word == [] || !IsJavaSpace(word[0]))
  }

  /** Whatever `addWord` returns for a non-blank word is a key. */
  lemma NormalizedIsKey(word: string)
    requires !IsBlank(word)
    ensures IsKey(Normalize(word))
  {
    TrimSpec(word);
    var t := Trim(word);
    assert Normalize(word)[0] == ToLowerChar(t[0]);
  }

  /** A trailing space does not change the trimmed prefix. */
  lemma TrimDropSpace(s: string, c: char)
    requires s != [] && !IsJavaSpace(s[0]) && IsJavaSpace(c)
    ensures Trim(s + [c]) == Trim(s)
  {
    var t := s + [c];
    assert t[..|t| - 1] == s;
    assert TrimEnd(t) == TrimEnd(s);
  }

  /** The trimmed prefix of length `n` of a key is a non-blank key itself. */
  lemma KeyPrefixIsKey(word: string, n: nat)
    requires IsKey(word) && 1 <= n <= |word|
    ensures Normalize(Trim(word[..n])) == Trim(word[..n])
    ensures Trim(word[..n]) != []
  {
    NormalizeTrimmedPrefix(word, n);
    TrimSpec(word[..n]);
    assert !IsJavaSpace(word[..n][0]);
  }

  /**
   * The trimmed prefix of length `n` of a key: the prefix itself when it
   * ends in a non-space, the trimmed prefix one shorter when it ends in a space.
   */
  lemma KeyPrefixEnd(word: string, n: nat)
    requires IsKey(word) && 1 <= n <= |word|
    ensures !IsJavaSpace(word[n - 1]) ==> Trim(word[..n]) == word[..n]
    ensures IsJavaSpace(word[n - 1]) ==> 2 <= n && Trim(word[..n]) == Trim(word[..n - 1])
  {
    if IsJavaSpace(word[n - 1]) {
      assert word[..n] == word[..n - 1] + [word[n - 1]];
      TrimDropSpace(word[..n - 1], word[n - 1]);
    } else {
      TrimOfTrimmed(word[..n]);
    }
  }

  /** Every trimmed prefix of length 1 to `n` is a key of `freqs`. */
  predicate Covers(freqs: map<string, real>, word: string, n: nat)
    requires n <= |word|
  {
    forall m :: 1 <= m <= n ==> Trim(word[..m]) in freqs
  }

  /**
   * One iteration on a key whose shorter prefixes are already covered: it
   * covers the next prefix, keeps every value and the null entry, and
   * reports the untrimmed prefix of length `n` or nothing.
   */
  lemma StepOfKey(d: Dict, word: string, n: nat)
    requires IsKey(word) && 1 <= n <= |word| && Covers(d.freqs, word, n - 1)
    ensures Covers(PrefixStep(d, word, n - 1).0.freqs, word, n)
    ensures forall k :: k in d.freqs ==> k in PrefixStep(d, word, n - 1).0.freqs && PrefixStep(d, word, n - 1).0.freqs[k] == d.freqs[k]
    ensures PrefixStep(d, word, n - 1).0.nullFreq == d.nullFreq
    ensures PrefixStep(d, word, n - 1).1 == [] ||
            (PrefixStep(d, word, n - 1).1 == [Change(Some(word[..n]), 0.0)] && word[..n] !in d.freqs)
  {
    var split := Trim(word[..n]);
    KeyPrefixIsKey(word, n);
    KeyPrefixEnd(word, n);
    var d2 := PrefixStep(d, word, n - 1).0;
    if split in d.freqs {
      assert d2 == d;
    } else {
      assert AddKey(d.trie, split).1 == Some(split);
      assert d2.freqs == d.freqs[split := 0.0];
    }
    forall m | 1 <= m <= n
      ensures Trim(word[..m]) in d2.freqs
    {
      if m < n {
        assert Trim(word[..m]) in d.freqs;
      }
    }
  }

  /**
   * For a stored key the loop does what it is for: afterwards every trimmed
   * proper prefix is a key of `freqs`, and neither an existing value nor the
   * null entry is touched.
   */
  lemma {:induction false} PrefixesOfKey(d: Dict, word: string, n: nat)
    requires IsKey(word) && n <= |word|
    ensures Covers(RegisterPrefixes(d, word, n).0.freqs, word, n)
    ensures forall k :: k in d.freqs ==> k in RegisterPrefixes(d, word, n).0.freqs && RegisterPrefixes(d, word, n).0.freqs[k] == d.freqs[k]
    ensures RegisterPrefixes(d, word, n).0.nullFreq == d.nullFreq
  {
    if n > 0 {
      PrefixesOfKey(d, word, n - 1);
      var r1 := RegisterPrefixes(d, word, n - 1);
      StepOfKey(r1.0, word, n);
      assert RegisterPrefixes(d, word, n).0 == PrefixStep(r1.0, word, n - 1).0;
    }
  }

  /** The length of the word a change reports; 0 for the null word. */
  function ReportedLength(c: Change): nat
  {
    if c.word.Some? then |c.word.value| else 0
  }

  /** Each change reports a strictly longer word than the one before it. */
  predicate Lengthening(cs: seq<Change>)
  {
    forall j, k :: 0 <= j < k < |cs| ==> ReportedLength(cs[j]) < ReportedLength(cs[k])
  }

  lemma LengtheningAppend(cs: seq<Change>, c: Change, n: nat)
    requires Lengthening(cs)
    requires forall x :: x in cs ==> ReportedLength(x) < n
    requires ReportedLength(c) == n
    ensures Lengthening(cs + [c])
  {
    var t := cs + [c];
    forall j, k | 0 <= j < k < |t|
      ensures ReportedLength(t[j]) < ReportedLength(t[k])
    {
      if k == |cs| {
        assert t[j] in cs;
      }
    }
  }

  /**
   * Each change of `cs` reports a non-empty prefix of `word` of length at
   * most `n` that was not a key of `freqs`.
   */
  predicate ReportsNewPrefixes(cs: seq<Change>, word: string, n: nat, freqs: map<string, real>)
    requires n <= |word|
  {
    forall c :: c in cs ==>
      c.word.Some? && 0 < |c.word.value| <= n && c.word.value == word[..|c.word.value|] && c.word.value !in freqs
  }

  /** Iteration `n - 1` adds at most the prefix of length `n`, which is longer than any reported before. */
  lemma ChangesStep(d: Dict, d1: Dict, word: string, n: nat, c1: seq<Change>, c2: seq<Change>)
    requires 1 <= n <= |word|
    requires forall k :: k in d.freqs ==> k in d1.freqs
    requires ReportsNewPrefixes(c1, word, n - 1, d.freqs) && Lengthening(c1)
    requires c2 == [] || (c2 == [Change(Some(word[..n]), 0.0)] && word[..n] !in d1.freqs)
    ensures ReportsNewPrefixes(c1 + c2, word, n, d.freqs) && Lengthening(c1 + c2)
  {
    if c2 != [] {
      assert forall x :: x in c1 ==> ReportedLength(x) < n;
      LengtheningAppend(c1, c2[0], n);
    }
  }

  /**
   * For a stored key, each reported change is a prefix of the key that was
   * missing before, and the changes come shortest first, each strictly
   * longer than the one before it.
   */
  lemma {:induction false} PrefixChangesOfKey(d: Dict, word: string, n: nat)
    requires IsKey(word) && n <= |word|
    ensures ReportsNewPrefixes(RegisterPrefixes(d, word, n).1, word, n, d.freqs)
    ensures Lengthening(RegisterPrefixes(d, word, n).1)
  {
    if n > 0 {
      PrefixChangesOfKey(d, word, n - 1);
      PrefixesOfKey(d, word, n - 1);
      var r1 := RegisterPrefixes(d, word, n - 1);
      StepOfKey(r1.0, word, n);
      var c2 := PrefixStep(r1.0, word, n - 1).1;
      ChangesStep(d, r1.0, word, n, r1.1, c2);
      assert RegisterPrefixes(d, word, n).1 == r1.1 + c2;
    }
  }
}
