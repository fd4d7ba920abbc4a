/**
 * String helpers used throughout the segmenter: concatenation of token
 * lists, Java's `String.trim()`, lower-casing, and the key normalisation
 * `word.trim().toLowerCase()` applied by `WordDictionary.addWord`/`delWord`.
 */
module Text {

  /** `String.join("", ws)`. */
  function Concat(ws: seq<string>): string
  {
    if ws == [] then [] else ws[0] + Concat(ws[1..])
  }

  lemma {:induction false} ConcatAppend(a: seq<string>, b: seq<string>)
    ensures Concat(a + b) == Concat(a) + Concat(b)
  {
    if a == [] {
      assert a + b == b;
    } else {
      assert (a + b)[1..] == a[1..] + b;
      ConcatAppend(a[1..], b);
    }
  }

  /** Java's `trim()` strips every character whose code is at most U+0020. */
  predicate IsJavaSpace(c: char)
  {
    c <= ' '
  }

  function TrimStart(s: string): (r: string)
    ensures |r| <= |s|
  {
    if s != [] && IsJavaSpace(s[0]) then TrimStart(s[1..]) else s
  }

  function TrimEnd(s: string): (r: string)
    ensures |r| <= |s|
  {
    if s != [] && IsJavaSpace(s[|s| - 1]) then TrimEnd(s[..|s| - 1]) else s
  }

  /** `String.trim()`: the slice left after dropping leading and trailing spaces. */
  function Trim(s: string): (r: string)
    ensures |r| <= |s|
  {
    TrimEnd(TrimStart(s))
  }

  /** `TrimStart` drops a run of leading spaces and stops at the first non-space. */
  lemma {:induction false} TrimStartDrops(s: string)
    ensures TrimStart(s) == s[|s| - |TrimStart(s)|..]
    ensures TrimStart(s) == [] || !IsJavaSpace(TrimStart(s)[0])
    ensures forall k :: 0 <= k < |s| - |TrimStart(s)| ==> IsJavaSpace(s[k])
    decreases |s|
  {
    if s != [] && IsJavaSpace(s[0]) {
      var t := s[1..];
      TrimStartDrops(t);
      assert TrimStart(s) == TrimStart(t);
      assert t[|t| - |TrimStart(t)|..] == s[|s| - |TrimStart(t)|..];
      forall k | 0 <= k < |s| - |TrimStart(s)| ensures IsJavaSpace(s[k]) {
        if k > 0 {
          assert s[k] == t[k - 1];
        }
      }
    } else {
      assert s[0..] == s;
    }
  }

  /** `TrimEnd` drops a run of trailing spaces and stops at the last non-space. */
  lemma TrimEndDrops(s: string)
    ensures TrimEnd(s) == s[..|TrimEnd(s)|]
    ensures TrimEnd(s) == [] || !IsJavaSpace(TrimEnd(s)[|TrimEnd(s)| - 1])
    ensures forall k :: |TrimEnd(s)| <= k < |s| ==> IsJavaSpace(s[k])
  {
    if s != [] && IsJavaSpace(s[|s| - 1]) {
      TrimEndDrops(s[..|s| - 1]);
    }
  }

  /**
   * What `trim()` promises: the result is empty exactly for an all-space
   * string, otherwise it starts and ends with a non-space, and it holds only
   * characters of the original.
   */
  lemma TrimSpec(s: string)
    ensures Trim(s) == [] <==> forall k :: 0 <= k < |s| ==> IsJavaSpace(s[k])
    ensures Trim(s) != [] ==> !IsJavaSpace(Trim(s)[0]) && !IsJavaSpace(Trim(s)[|Trim(s)| - 1])
    ensures forall c :: c in Trim(s) ==> c in s
  {
    var t := TrimStart(s);
    var r := TrimEnd(t);
    TrimStartDrops(s);
    TrimEndDrops(t);
    SliceMembers(s, |s| - |t|, |s|);
    SliceMembers(t, 0, |r|);
    if r != [] {
      assert r[0] == t[0];
      assert !IsJavaSpace(s[|s| - |t|]);
    }
  }

  lemma SliceMembers(s: string, a: nat, b: nat)
    requires a <= b <= |s|
    ensures forall c :: c in s[a..b] ==> c in s
  {
    forall c | c in s[a..b] ensures c in s {
      var k :| 0 <= k < b - a && s[a..b][k] == c;
      assert s[a + k] == c;
    }
  }

  lemma TrimOfTrimmed(s: string)
    requires s == [] || (!IsJavaSpace(s[0]) && !IsJavaSpace(s[|s| - 1]))
    ensures Trim(s) == s
  {
  }

  /** "".equals(word.trim()) */
  predicate IsBlank(s: string)
  {
    Trim(s) == []
  }

  /**
   * Lower-casing of one character. Only the ASCII letters are mapped;
   * Java's locale-dependent `toLowerCase` also maps other alphabets.
   */
  function ToLowerChar(c: char): (r: char)
    ensures 'A' <= c <= 'Z' ==> 'a' <= r <= 'z'
    ensures !('A' <= c <= 'Z') ==> r == c
  {
    if 'A' <= c <= 'Z' then (c as int - 'A' as int + 'a' as int) as char else c
  }

  function ToLower(s: string): (r: string)
    ensures |r| == |s|
    ensures forall k :: 0 <= k < |s| ==> r[k] == ToLowerChar(s[k])
  {
    if s == [] then [] else [ToLowerChar(s[0])] + ToLower(s[1..])
  }

  /** No character of `s` changes under lower-casing. */
  predicate IsLower(s: string)
  {
    forall c :: c in s ==> ToLowerChar(c) == c
  }

  lemma LowerIsLower(s: string)
    ensures IsLower(ToLower(s))
  {
    forall c | c in ToLower(s) ensures ToLowerChar(c) == c {
      var k :| 0 <= k < |s| && ToLower(s)[k] == c;
    }
  }

  /** The key `word.trim().toLowerCase()` under which `WordDictionary` stores a word. */
  function Normalize(word: string): (key: string)
    ensures IsLower(key)
    ensures key == [] <==> IsBlank(word)
  {
    LowerIsLower(Trim(word));
    ToLower(Trim(word))
  }

  /**
   * A trimmed slice of a normalised key is its own key: this is why the
   * prefixes registered for a dictionary word are stored under the very
   * string that was looked up.
   */
  lemma {:induction false} NormalizeTrimmedPrefix(key: string, n: nat)
    requires IsLower(key) && n <= |key|
    ensures Normalize(Trim(key[..n])) == Trim(key[..n])
  {
    var p := Trim(key[..n]);
    TrimSpec(key[..n]);
    SliceMembers(key, 0, n);
    TrimOfTrimmed(p);
    forall k | 0 <= k < |p| ensures ToLower(p)[k] == p[k] {
      assert p[k] in key[..n];
    }
    assert ToLower(p) == p;
  }

  /** The character class `[a-zA-Z0-9]`. */
  predicate IsAsciiAlnum(c: char)
  {
    ('a' <= c <= 'z') || ('A' <= c <= 'Z') || ('0' <= c <= '9')
  }
}
