/**
 * The contents of a `WordDictionary` as a value, with the lookups the
 * segmenter makes (`containsWord`, `getFreq`) and the key-normalising trie
 * updates (`addWord`, `delWord`) that both copies of the class share.
 */
module Lexicon {
  import opened Wrappers
  import opened Text
  import opened Tries

  /** `Double.MAX_VALUE`, the initial `minFreq`. */
  const DOUBLE_MAX: real := 1.7976931348623157e308

  /**
   * The `double` operations the dictionary code relies on, as given
   * functions: `log` is `Math.log`, `exp(x)` is `Math.pow(Math.E, x)`,
   * `div` is `double` division (also when the divisor is 0), `ceil` and
   * `floor` are `Math.ceil` and `Math.floor`, `valueOf` is `Double.valueOf`
   * on a frequency field, `None` when that throws `NumberFormatException`
   * (the field is not a number). Sums, products, `max` and `min` are exact.
   */
  datatype FloatOps = FloatOps(
    log: real -> real,
    exp: real -> real,
    div: (real, real) -> real,
    ceil: real -> real,
    floor: real -> real,
    valueOf: string -> Option<real>)

  /** `Math.log` never decreases on positive arguments: `java.lang.Math` requires its results to be semi-monotonic. */
  ghost predicate LogMonotone(ops: FloatOps)
  {
    forall a: real, b: real :: 0.0 < a <= b ==> ops.log(a) <= ops.log(b)
  }

  /** `Math.ceil` rounds up and `Math.floor` rounds down. */
  ghost predicate Rounds(ops: FloatOps)
  {
    && (forall x: real :: x <= ops.ceil(x))
    && (forall x: real :: ops.floor(x) <= x)
  }

  /** `Math.log(v / total)`: a frequency normalised against `total`. */
  function Norm(ops: FloatOps, v: real, total: real): real
  {
    ops.log(ops.div(v, total))
  }

  const LONG_MIN: int := -0x8000_0000_0000_0000
  const LONG_MAX: int := 0x7fff_ffff_ffff_ffff

  /** Truncation toward zero: `x.Floor` for non-negative `x`, the negated floor of `-x` otherwise. */
  function Truncate(x: real): (n: int)
    ensures 0.0 <= x ==> n as real <= x < n as real + 1.0
    ensures x < 0.0 ==> n as real - 1.0 < x <= n as real
  {
    if x >= 0.0 then x.Floor else -((-x).Floor)
  }

  /** The `(long)` cast of a `double`: truncation toward zero, saturated at the bounds of `long`. */
  function JavaLong(x: real): (n: int)
    ensures LONG_MIN <= n <= LONG_MAX
  {
    var t := Truncate(x);
    if t < LONG_MIN then LONG_MIN else if t > LONG_MAX then LONG_MAX else t
  }

  /** A larger `double` never casts to a smaller `long`. */
  lemma JavaLongMonotone(x: real, y: real)
    requires x <= y
    ensures JavaLong(x) <= JavaLong(y)
  {
    var a, b := Truncate(x), Truncate(y);
    if 0.0 <= x {
      assert a as real <= x && b as real <= y < b as real + 1.0;
    } else if 0.0 <= y {
      assert a as real - 1.0 < x <= a as real;
    } else {
      assert a as real - 1.0 < x <= a as real && b as real - 1.0 < y;
    }
  }

  /** `(long) (share * total)`: the frequency a share of `total` stands for. */
  function ActualFreq(share: real, total: real): int
  {
    JavaLong(share * total)
  }

  /** A larger share of a non-negative total never stands for a smaller frequency. */
  lemma ActualFreqMonotone(x: real, y: real, total: real)
    requires x <= y && 0.0 <= total
    ensures ActualFreq(x, total) <= ActualFreq(y, total)
  {
    assert x * total <= y * total;
    JavaLongMonotone(x * total, y * total);
  }

  /** A non-negative `double` below `2^63` casts to its whole part: never more than it, by less than 1. */
  lemma JavaLongWhole(x: real)
    requires 0.0 <= x < LONG_MAX as real
    ensures JavaLong(x) as real <= x < JavaLong(x) as real + 1.0
  {
  }

  /** One entry of a change notification: `Pair<String>(word, freq)`; `None` is a null word. */
  datatype Change = Change(word: Option<string>, freq: real)

  /**
   * The state the segmenter reads and the tuning API writes:
   * `freqs` (string keys) and `nullFreq` (the value a `HashMap` keeps under
   * the null key), `minFreq`, `total`, the trie `_dict`, and the forced-split
   * set of the HMM segmenter `FinalSeg`, which the same operations update.
   */
  datatype Dict = Dict(
    freqs: map<string, real>,
    nullFreq: Option<real>,
    minFreq: real,
    total: real,
    trie: Trie,
    forceSplit: set<string>)
  {
    predicate Valid()
    {
      trie.Valid()
    }
  }

  /** `containsWord`: exact membership in `freqs`, independent of the trie. */
  predicate ContainsWord(d: Dict, word: string)
  {
    word in d.freqs
  }

  /*
   * GetFreq, GetOrDefault, PutKey, NormMap and NormNull model single Java
   * library calls. Their ensures are their definitions, split into cases;
   * what they mean is proved by ManlierDictionary.MinIsFloor,
   * Route.RouteOptimal and the method NormalizeEntries below.
   */

  /** `getFreq`: the stored score of a known word, otherwise the floor `minFreq`. */
  function GetFreq(d: Dict, key: string): (r: real)
    ensures ContainsWord(d, key) ==> r == d.freqs[key]
    ensures !ContainsWord(d, key) ==> r == d.minFreq
  {
    if ContainsWord(d, key) then d.freqs[key] else d.minFreq
  }

  /** `map.getOrDefault(key, dflt)` on `freqs`. */
  function GetOrDefault(d: Dict, key: string, dflt: real): (r: real)
    ensures key in d.freqs ==> r == d.freqs[key]
    ensures key !in d.freqs ==> r == dflt
  {
    if key in d.freqs then d.freqs[key] else dflt
  }

  /** `freqs.put(key, v)`, where a null key (`None`) is the `HashMap`'s null entry. */
  function PutKey(d: Dict, key: Option<string>, v: real): (r: Dict)
    ensures key.Some? ==> r.freqs == d.freqs[key.value := v] && r.nullFreq == d.nullFreq
    ensures key.None? ==> r.freqs == d.freqs && r.nullFreq == Some(v)
    ensures r.minFreq == d.minFreq && r.total == d.total && r.trie == d.trie && r.forceSplit == d.forceSplit
  {
    match key
    case None => d.(nullFreq := Some(v))
    case Some(k) => d.(freqs := d.freqs[k := v])
  }

  /**
   * `WordDictionary.addWord(word)`: a null result for a blank word with the
   * trie untouched, otherwise the key `word.trim().toLowerCase()`, now
   * matchable in the trie.
   */
  function AddKey(t: Trie, word: string): (r: (Trie, Option<string>))
    ensures IsBlank(word) <==> r.1 == None
    ensures IsBlank(word) ==> r.0 == t
    ensures !IsBlank(word) ==> r.1 == Some(Normalize(word)) && r.0 == t.Insert(Normalize(word))
    ensures t.Valid() ==> r.0.Valid()
  {
    if IsBlank(word) then (t, None)
    else
      var key := Normalize(word);
      (t.Insert(key), Some(key))
  }

  /** `WordDictionary.delWord(word)`: as `AddKey`, but the key is disabled. */
  function DelKey(t: Trie, word: string): (r: (Trie, Option<string>))
    ensures IsBlank(word) <==> r.1 == None
    ensures IsBlank(word) ==> r.0 == t
    ensures !IsBlank(word) ==> r.1 == Some(Normalize(word)) && r.0 == t.Disable(Normalize(word))
    ensures t.Valid() ==> r.0.Valid()
  {
    if IsBlank(word) then (t, None)
    else
      var key := Normalize(word);
      (t.Disable(key), Some(key))
  }

  /** Every key of `freqs` can be matched in the trie. */
  predicate Indexed(d: Dict)
  {
    forall k :: k in d.freqs ==> d.trie.IsMatch(k)
  }

  /** The frequency a main-dictionary line contributes to `total` (none when it throws). */
  function Weight(ops: FloatOps, tokens: seq<string>): real
  {
    if |tokens| >= 2 && ops.valueOf(tokens[1]).Some? then ops.valueOf(tokens[1]).value else 0.0
  }

  /** A line with a frequency field `Double.valueOf` rejects. */
  predicate Malformed(ops: FloatOps, tokens: seq<string>)
  {
    |tokens| >= 2 && ops.valueOf(tokens[1]).None?
  }

  function Weights(ops: FloatOps, source: seq<seq<string>>): real
  {
    if source == [] then 0.0 else Weights(ops, source[..|source| - 1]) + Weight(ops, source[|source| - 1])
  }

  /** Every value of `m` turned into `Math.log(v / total)`. */
  function NormMap(ops: FloatOps, m: map<string, real>, total: real): (r: map<string, real>)
    ensures r.Keys == m.Keys
    ensures forall k :: k in m ==> r[k] == Norm(ops, m[k], total)
  {
    map k | k in m :: Norm(ops, m[k], total)
  }

  /** The same for the null entry. */
  function NormNull(ops: FloatOps, n: Option<real>, total: real): (r: Option<real>)
    ensures r.Some? <==> n.Some?
    ensures n.Some? ==> r.value == Norm(ops, n.value, total)
  {
    if n.Some? then Some(Norm(ops, n.value, total)) else None
  }

  /**
   * `minFreq` after a pass of `Math.min` over the values of `m` and `n`:
   * no larger than before, no larger than any of those values, and either
   * its old value or one of them.
   */
  predicate MinUpdated(newMin: real, oldMin: real, m: map<string, real>, n: Option<real>)
  {
    && newMin <= oldMin
    && (forall k :: k in m ==> newMin <= m[k])
    && (n.Some? ==> newMin <= n.value)
    && (newMin == oldMin || (exists k :: k in m && m[k] == newMin) || n == Some(newMin))
  }

  /** `"".split("[\t ]+")`: the fields of an empty line. */
  predicate IsEmptyLine(tokens: seq<string>)
  {
    tokens == [""]
  }

  /**
   * The loop of `normalizeFreqs`: each value `v` of `m` (and of the null
   * entry `n`) becomes `Math.log(v / total)`, and the running minimum
   * `minFreq` is lowered to the smallest of them. The entries are visited
   * in no particular order.
   */
  method NormalizeEntries(ops: FloatOps, m: map<string, real>, n: Option<real>, total: real, minFreq: real)
    returns (nm: map<string, real>, nn: Option<real>, newMin: real)
    ensures nm == NormMap(ops, m, total) && nn == NormNull(ops, n, total)
    ensures MinUpdated(newMin, minFreq, nm, nn)
  {
    nm, newMin := map[], minFreq;
    var todo := m.Keys;
    while todo != {}
      invariant todo <= m.Keys && nm.Keys == m.Keys - todo
      invariant forall k :: k in nm ==> nm[k] == Norm(ops, m[k], total)
      invariant MinUpdated(newMin, minFreq, nm, None)
      decreases todo
    {
      var k :| k in todo;
      var value := Norm(ops, m[k], total);
      nm := nm[k := value];
      if value <= newMin {
        newMin := value;
      }
      todo := todo - {k};
    }
    nn := None;
    if n.Some? {
      var value := Norm(ops, n.value, total);
      nn := Some(value);
      if value <= newMin {
        newMin := value;
      }
    }
  }
}
