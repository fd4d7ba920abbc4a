/**
 * The one part of the HMM segmenter `FinalSeg` that the dictionary code
 * updates: its set of words that must always be split into characters.
 * The decoder itself is not part of this model (see `Sentence.Cutter`).
 */
module FinalSegs {

  class FinalSeg {
    var forceSplit: set<string>

    constructor()
      ensures forceSplit == {}
    {
      forceSplit := {};
    }

    /** `addForceSplit(word)`. */
    method AddForceSplit(word: string)
      modifies this
      ensures forceSplit == old(forceSplit) + {word}
    {
      forceSplit := forceSplit + {word};
    }

    /** `delForceSplit(word)`. */
    method DelForceSplit(word: string)
      modifies this
      ensures forceSplit == old(forceSplit) - {word}
    {
      forceSplit := forceSplit - {word};
    }
  }
}
