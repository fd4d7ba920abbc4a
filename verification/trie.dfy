/**
 * The dictionary trie (`DictSegment` and its `Hit`), seen from outside.
 * Every key ever filled in leaves its chain of nodes behind; a key is
 * matchable while its terminal node is enabled. `disableSegment` only
 * clears that flag, so longer keys through the same nodes keep working.
 */
module Tries {

  /** A probe result: the span is a whole key, a proper prefix of a key, both or neither. */
  datatype Hit = Hit(isMatch: bool, isPrefix: bool)

  datatype Trie = Trie(keys: set<string>, active: set<string>)
  {
    /** Only a key whose nodes exist can be enabled. */
    predicate Valid()
    {
      active <= keys
    }

    /** The terminal node of `w` is enabled. */
    predicate IsMatch(w: string)
    {
      w in active
    }

    /** The node of `w` has children: `w` is a proper prefix of some key. */
    predicate IsPrefix(w: string)
    {
      exists u :: u in keys && |w| < |u| && u[..|w|] == w
    }

    /** `match(chars, begin, length)` on the span `w`. */
    function Match(w: string): (h: Hit)
      ensures h.isMatch <==> w in active
      ensures h.isPrefix <==> IsPrefix(w)
    {
      Hit(IsMatch(w), IsPrefix(w))
    }

    /** `fillSegment(key)`: create the nodes of `key` and enable its terminal node. */
    function Insert(key: string): (t: Trie)
      ensures Valid() ==> t.Valid()
      ensures t.IsMatch(key)
    {
      Trie(keys + {key}, active + {key})
    }

    /** Filling in a key changes no other key's flag and loses no prefix. */
    lemma InsertFrame(key: string)
      ensures forall w :: w != key ==> (Insert(key).IsMatch(w) <==> IsMatch(w))
      ensures forall w :: IsPrefix(w) ==> Insert(key).IsPrefix(w)
    {
      forall w | IsPrefix(w) ensures Insert(key).IsPrefix(w) {
        var u :| u in keys && |w| < |u| && u[..|w|] == w;
        assert u in Insert(key).keys;
      }
    }

    /** `disableSegment(key)`: clear the terminal node's flag; no node is removed. */
    function Disable(key: string): (t: Trie)
      ensures Valid() ==> t.Valid()
      ensures !t.IsMatch(key)
    {
      Trie(keys, active - {key})
    }

    /** Disabling a key changes no other key's flag and keeps every prefix. */
    lemma DisableFrame(key: string)
      ensures forall w :: w != key ==> (Disable(key).IsMatch(w) <==> IsMatch(w))
      ensures forall w :: Disable(key).IsPrefix(w) <==> IsPrefix(w)
    {
    }

    /**
     * A span that is neither a key nor a key prefix cannot be extended into
     * a key: the DAG builder may stop growing a span at the first such probe.
     */
    lemma DeadEnd(w: string, v: string)
      requires Valid()
      requires !IsMatch(w) && !IsPrefix(w)
      requires |w| <= |v| && v[..|w|] == w
      ensures !IsMatch(v)
    {
      if |w| == |v| {
        assert v == v[..|w|];
      }
    }
  }

  /** `new DictSegment((char) 0)`: the root alone. */
  const Empty: Trie := Trie({}, {})
}
