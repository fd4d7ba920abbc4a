# A verified model of the better-jieba segmentation core

better-jieba is a Java port of the jieba Chinese word segmenter. It ships two copies of the
segmenter, `org.manlier.analysis.jieba` and `com.huaban.analysis.jieba`. Each copy has a
`WordDictionary` and a `JiebaSegmenter`:

- The `WordDictionary` holds `freqs`, `total`, `minFreq` and the trie `_dict`. It loads the
  main and user dictionaries and normalises the scores to `log(freq / total)`.
- The `JiebaSegmenter` segments text and tunes the dictionary at run time. It suggests
  frequencies, adds and deletes words, and publishes every change list to its listeners.

This project models both copies in Dafny and proves what they compute.

**Segmentation.** These are shared by both copies. The org copy's code is modelled. The huaban copy does the same with `_process` and `processBuf` inlined into `process` and `sentenceProcess`, and it has no `WithNoHMM` variants.

- `Dag`: `createDAG` lists, for each offset, the ascending ends of the dictionary spans.
  An offset with no such span gets a single-character fallback.
- `Route`: `calc` picks, from right to left, the end of maximal score. Ties go to the first end.
  The lemmas prove the walk it yields is a best segmentation along the DAG.
- `Sentence`: `sentenceProcess` and `sentenceProcessWithNoHMM` group and emit the words along
  that walk. Their tokens always spell the sentence back.
- `Tokens`: `_process` turns words into `SegToken`s in SEARCH and INDEX mode.
- `Paragraph`: `process` splits a paragraph into runs of the run alphabet and single other
  characters.
- `ManlierSegmenter`: the source's loops, as methods, each proved equal to those specification
  functions.

**Dictionary and tuning.**

- `Lexicon`: the dictionary state as a value.
- `Text`: Java's `trim` and lower-casing.
- `Tries`: the trie, seen through its `match`, `fillSegment` and `disableSegment`.
- `FinalSegs`: the forced-split set of the HMM segmenter.
- `ManlierDictionary` and `HuabanDictionary`: the two `WordDictionary` classes.
- `PrefixIndex`: the huaban copy's registration of every proper prefix of a word with score 0.
- The tuning half of the two `JiebaSegmenter` classes, in `ManlierSegmenter` and `HuabanSegmenter`.
  Each operation on these classes is proved against a specification function: `Tuned`,
  `SuggestedShare`, `SplitShare`, `UserRecords` or `MainRecords`.

**How the source maps onto Dafny.**

- The classes whose fields change in place are Dafny classes with `modifies` frames.
- Segmentation is pure: its methods take the dictionary contents as a `Dict` value.
- Java's `double` arithmetic is `real`. `Math.log`, `Math.pow(Math.E, ·)`, division,
  `Math.ceil`, `Math.floor` and `Double.valueOf` are the function fields of a `FloatOps`
  parameter. `valueOf` answers `None` for a field that is not a number, where Java throws
  `NumberFormatException`.
- The `(long)` cast is written out in `Lexicon.JavaLong`. It truncates toward zero and
  saturates at the bounds of `long`.
- `CharacterUtil.regularize` and `ccFind` form the `CharUtil` parameter.
- The HMM cut `FinalSeg.cut` is the `Cutter` parameter. Its type requires only that the
  pieces spell the buffer they cut.
- A dictionary source is the sequence of its lines, each already split into fields as
  `line.split("[\t ]+")` splits it.

## Model

| member | source | states |
|---|---|---|
| Tries.Trie.Match | src/main/java/org/manlier/analysis/jieba/JiebaSegmenter.java:194-195 | a probe of a span reports a match exactly when the span is an enabled key, and a prefix exactly when some stored key properly extends it |
| Tries.Trie.Insert | src/main/java/org/manlier/analysis/jieba/WordDictionary.java:131 | `fillSegment` makes the key matchable and keeps the trie well formed |
| Tries.Trie.InsertFrame | src/main/java/org/manlier/analysis/jieba/WordDictionary.java:131 | filling in a key changes no other key's match status and loses no prefix |
| Tries.Trie.Disable | src/main/java/org/manlier/analysis/jieba/WordDictionary.java:140 | `disableSegment` makes the key unmatchable and keeps the trie well formed |
| Tries.Trie.DisableFrame | src/main/java/org/manlier/analysis/jieba/WordDictionary.java:140 | disabling a key changes no other key's match status and no prefix status, so longer keys through it still match |
| Tries.Trie.DeadEnd | src/main/java/org/manlier/analysis/jieba/JiebaSegmenter.java:214-218 | once a span is neither a match nor a prefix, no longer span from the same start matches, which is why `createDAG` may move to the next start |
| FinalSegs.FinalSeg.AddForceSplit | src/main/java/org/manlier/analysis/jieba/JiebaSegmenter.java:131 | the word joins the forced-split set and nothing else changes |
| FinalSegs.FinalSeg.DelForceSplit | src/main/java/org/manlier/analysis/jieba/JiebaSegmenter.java:159 | the word leaves the forced-split set and nothing else changes |
| Text.TrimSpec | src/main/java/org/manlier/analysis/jieba/WordDictionary.java:129-130 | `trim` is empty exactly for an all-whitespace word (characters up to U+0020), otherwise it starts and ends with a non-whitespace character, and it keeps only characters of the word |
| Text.TrimStartDrops | src/main/java/org/manlier/analysis/jieba/WordDictionary.java:130 | the leading part `trim` drops is whitespace and what is left is a suffix of the word |
| Text.TrimEndDrops | src/main/java/org/manlier/analysis/jieba/WordDictionary.java:130 | the trailing part `trim` drops is whitespace and what is left is a prefix of the word |
| Text.TrimOfTrimmed | src/main/java/org/manlier/analysis/jieba/WordDictionary.java:130 | a word with no whitespace at either end is its own trim |
| Text.ToLower | src/main/java/org/manlier/analysis/jieba/WordDictionary.java:130 | lower-casing maps each character on its own and keeps the length |
| Text.LowerIsLower | src/main/java/org/manlier/analysis/jieba/WordDictionary.java:130 | a lower-cased word has no upper-case letter left |
| Text.Normalize | src/main/java/org/manlier/analysis/jieba/WordDictionary.java:129-130 | the key of a word is lower-case, and empty exactly when the word is blank (the case `addWord` answers with null) |
| Text.NormalizeTrimmedPrefix | src/main/java/com/huaban/analysis/jieba/WordDictionary.java:110-112 | the trimmed prefix of a key is already normalised, so `addWord` hands it back unchanged |
| Lexicon.Truncate | src/main/java/org/manlier/analysis/jieba/JiebaSegmenter.java:70 | truncation toward zero: the result is within one of the value, on the side of zero, for either sign |
| Lexicon.JavaLong | src/main/java/org/manlier/analysis/jieba/JiebaSegmenter.java:70 | the `(long)` cast always lands within the range of `long` |
| Lexicon.JavaLongMonotone | src/main/java/org/manlier/analysis/jieba/JiebaSegmenter.java:70 | the `(long)` cast never reverses the order of two values |
| Lexicon.ActualFreqMonotone | src/main/java/org/manlier/analysis/jieba/JiebaSegmenter.java:70 | with a non-negative `total`, a larger share never yields a smaller actual frequency |
| Lexicon.JavaLongWhole | src/main/java/org/manlier/analysis/jieba/JiebaSegmenter.java:70 | for a non-negative value inside the range of `long` the cast is the whole part |
| Lexicon.GetFreq | src/main/java/org/manlier/analysis/jieba/WordDictionary.java:207-212 | a known word gets its stored score, any other word the floor `minFreq` |
| Lexicon.GetOrDefault | src/main/java/org/manlier/analysis/jieba/JiebaSegmenter.java:59 | `getOrDefault` gives the stored score of a present key and the default otherwise |
| Lexicon.PutKey | src/main/java/org/manlier/analysis/jieba/WordDictionary.java:112 | `put` sets the key's score (a null key sets the map's null entry) and changes nothing else |
| Lexicon.AddKey | src/main/java/org/manlier/analysis/jieba/WordDictionary.java:128-135 | a blank word returns null and leaves the trie alone; any other word returns its key and leaves that key matchable |
| Lexicon.DelKey | src/main/java/org/manlier/analysis/jieba/WordDictionary.java:137-144 | a blank word returns null and leaves the trie alone; any other word returns its key and leaves that key unmatchable |
| Lexicon.NormMap | src/main/java/org/manlier/analysis/jieba/WordDictionary.java:182-189 | normalising keeps the keys and turns each value v into `Math.log(v / total)` |
| Lexicon.NormNull | src/main/java/org/manlier/analysis/jieba/WordDictionary.java:182-189 | normalising treats the null entry like any other entry |
| Lexicon.NormalizeEntries | src/main/java/org/manlier/analysis/jieba/WordDictionary.java:182-189 | the normalised entries, and `minFreq` lowered to the least normalised value whenever one is below it |
| ManlierDictionary.DictRecord | src/main/java/org/manlier/analysis/jieba/WordDictionary.java:105-118 | one main-dictionary line keeps `minFreq` and the trie well formed; a frequency field `Double.valueOf` rejects throws |
| ManlierDictionary.RecordEffect | src/main/java/org/manlier/analysis/jieba/WordDictionary.java:105-118 | a short line does nothing; a non-numeric frequency throws and changes nothing; a zero frequency only forces the word to split; otherwise `total` grows by the frequency and the word's key is stored with it and matchable (a blank word fills the null entry) |
| ManlierDictionary.RecordsThrowStops | src/main/java/org/manlier/analysis/jieba/WordDictionary.java:105-125 | after a `NumberFormatException` no later line has any effect |
| ManlierDictionary.MalformedAborts | src/main/java/org/manlier/analysis/jieba/WordDictionary.java:105-125 | one line with a non-numeric frequency anywhere makes the whole main-dictionary load throw, since only `IOException` is caught |
| ManlierDictionary.DictRecords | src/main/java/org/manlier/analysis/jieba/WordDictionary.java:105-118 | loading the lines up to the first `NumberFormatException` keeps `minFreq` and the trie well formed |
| ManlierDictionary.RecordsTotal | src/main/java/org/manlier/analysis/jieba/WordDictionary.java:110 | when no line throws, `total` has grown by the sum of the non-zero frequencies of the well-formed lines |
| ManlierDictionary.RecordsIndexed | src/main/java/org/manlier/analysis/jieba/WordDictionary.java:111-112 | every key of `freqs` stays matchable in the trie while the main dictionary loads |
| ManlierDictionary.MinIsFloor | src/main/java/org/manlier/analysis/jieba/WordDictionary.java:187 | once `minFreq` has been lowered over the normalised scores, no word's `getFreq` is below it |
| ManlierDictionary.StageRecord | src/main/java/org/manlier/analysis/jieba/WordDictionary.java:155-168 | a user-dictionary line touches only `total`, the trie, the staged scores, the change list and the forced-split set, and `freqs` waits for the merge; a non-numeric frequency throws before any change |
| ManlierDictionary.WhitespaceLineSkipped | src/main/java/org/manlier/analysis/jieba/WordDictionary.java:153-154 | a line of only spaces or tabs splits into no fields, and the guard as written leaves the state unchanged |
| ManlierDictionary.EmptyLineCounted | src/main/java/org/manlier/analysis/jieba/WordDictionary.java:154 | an empty line passes the guard: `total` grows by the default 3, a null key is staged and the change `(null, 3)` is reported |
| ManlierDictionary.EmptyLineIgnored | src/main/java/org/manlier/analysis/jieba/WordDictionary.java:153-154 | with the guard its comment describes, an empty line has no effect |
| ManlierDictionary.UserRecords | src/main/java/org/manlier/analysis/jieba/WordDictionary.java:152-170 | reading a user dictionary, up to the first exception, keeps `freqs`, its null entry and `minFreq` until the merge, and the trie well formed (empty lines skipped, see Left out) |
| ManlierDictionary.UserRecordsEffect | src/main/java/org/manlier/analysis/jieba/WordDictionary.java:161-164 | when no line throws, `total` grows by the non-zero frequencies (3 when a line gives none) and one change per such line is reported, in line order (empty lines skipped, see Left out) |
| ManlierDictionary.StagedIndexed | src/main/java/org/manlier/analysis/jieba/WordDictionary.java:162-163 | every staged key is matchable in the trie |
| ManlierDictionary.UserThrowStops | src/main/java/org/manlier/analysis/jieba/WordDictionary.java:152-170 | after a `NumberFormatException` no later user line has any effect |
| ManlierDictionary.UserMalformedAborts | src/main/java/org/manlier/analysis/jieba/WordDictionary.java:157-162 | one user line with a non-numeric frequency anywhere makes the load throw, with `total`, the trie and the forced-split set as the lines before it left them |
| ManlierDictionary.WordDictionary.constructor | src/main/java/org/manlier/analysis/jieba/WordDictionary.java:39-44 | an empty dictionary (`minFreq` at `Double.MAX_VALUE`), then the main dictionary loaded when the default dictionary is in use, or left as the throwing line left it |
| ManlierDictionary.WordDictionary.ResetDict | src/main/java/org/manlier/analysis/jieba/WordDictionary.java:86-91 | `freqs`, the trie, `total` and `minFreq` are back to their initial values |
| ManlierDictionary.WordDictionary.AddWord | src/main/java/org/manlier/analysis/jieba/WordDictionary.java:128-135 | fills in the normalised key and returns it, or null for a blank word; only the trie changes |
| ManlierDictionary.WordDictionary.DelWord | src/main/java/org/manlier/analysis/jieba/WordDictionary.java:137-144 | disables the normalised key and returns it, or null for a blank word; only the trie changes |
| ManlierDictionary.WordDictionary.Put | src/main/java/org/manlier/analysis/jieba/WordDictionary.java:112 | `freqs.put` on the dictionary's own map, null key included |
| ManlierDictionary.WordDictionary.LoadRecord | src/main/java/org/manlier/analysis/jieba/WordDictionary.java:105-118 | the handler for one main-dictionary line updates the fields and the forced-split set as the line's record says, or reports the `NumberFormatException` |
| ManlierDictionary.WordDictionary.LoadDict | src/main/java/org/manlier/analysis/jieba/WordDictionary.java:100-125 | the lines up to the first `NumberFormatException`; without one, every score is then normalised against the final `total` and `minFreq` lowered to the least of them; with one, nothing is normalised |
| ManlierDictionary.WordDictionary.NormalizeFreqs | src/main/java/org/manlier/analysis/jieba/WordDictionary.java:182-189 | returns the normalised scores and lowers `minFreq` over them |
| ManlierDictionary.WordDictionary.StageLine | src/main/java/org/manlier/analysis/jieba/WordDictionary.java:152-170 | the handler for one user-dictionary line, including its `NumberFormatException`, with empty lines ignored |
| ManlierDictionary.WordDictionary.LoadUserDict | src/main/java/org/manlier/analysis/jieba/WordDictionary.java:146-176 | without an exception, the staged scores are normalised against the final `total` and merged over `freqs`, `minFreq` is lowered over them, and the change list is returned; with one, `total`, the trie and the forced-split set keep what the earlier lines did and `freqs` and `minFreq` are untouched |
| HuabanDictionary.MainRecord | src/main/java/com/huaban/analysis/jieba/WordDictionary.java:101-120 | one main-dictionary line reports no change, keeps `minFreq` and keeps the trie well formed; a non-numeric frequency throws |
| HuabanDictionary.StoreMain | src/main/java/com/huaban/analysis/jieba/WordDictionary.java:105-115 | storing a line's word reports no change, keeps `minFreq` and keeps the trie well formed |
| HuabanDictionary.MainRecords | src/main/java/com/huaban/analysis/jieba/WordDictionary.java:101-120 | loading the lines up to the first exception (a non-numeric frequency or a blank word) keeps `minFreq` and the trie well formed |
| HuabanDictionary.MainRecordStores | src/main/java/com/huaban/analysis/jieba/WordDictionary.java:105-115 | a non-blank word with a non-zero frequency is stored under its key with that frequency, is matchable, all its trimmed proper prefixes get entries, and every other entry keeps its value |
| HuabanDictionary.StoreMainKey | src/main/java/com/huaban/analysis/jieba/WordDictionary.java:106-115 | storing a word is: grow `total`, fill in and put the key, then register the key's prefixes |
| HuabanDictionary.StoredWithPrefixes | src/main/java/com/huaban/analysis/jieba/WordDictionary.java:107-115 | after the prefix loop the key still has its own score and is matchable, its prefixes are covered, and no other entry changed |
| HuabanDictionary.RegisteredStaysMatched | src/main/java/com/huaban/analysis/jieba/WordDictionary.java:109-115 | registering prefixes never makes a matchable key unmatchable |
| HuabanDictionary.BlankWordThrows | src/main/java/com/huaban/analysis/jieba/WordDictionary.java:107-110 | a blank word with a non-zero frequency gets `addWord`'s null, is put under the null key, and the prefix loop throws |
| HuabanDictionary.MainRecordsTotal | src/main/java/com/huaban/analysis/jieba/WordDictionary.java:106 | without an exception `total` grows by the sum of the non-zero frequencies |
| HuabanDictionary.FirstThrowStops | src/main/java/com/huaban/analysis/jieba/WordDictionary.java:101-120 | after an exception no later line has any effect |
| HuabanDictionary.MainMalformedAborts | src/main/java/com/huaban/analysis/jieba/WordDictionary.java:101-131 | one line with a non-numeric frequency anywhere makes the main-dictionary load throw, with the state the lines before it left |
| HuabanDictionary.UserLine | src/main/java/com/huaban/analysis/jieba/WordDictionary.java:166-187 | one user-dictionary line keeps `total`, `minFreq` and the trie well formed; a non-numeric frequency of a two-field line throws before any change |
| HuabanDictionary.WhitespaceLineSkipped | src/main/java/com/huaban/analysis/jieba/WordDictionary.java:164-165 | a line of only spaces or tabs splits into no fields, and the guard as written leaves the state unchanged |
| HuabanDictionary.EmptyLineThrows | src/main/java/com/huaban/analysis/jieba/WordDictionary.java:164-176 | an empty line passes the guard: the null key gets `log(3 / total)`, the change `(null, 3)` is reported and the prefix loop throws |
| HuabanDictionary.EmptyLineIgnored | src/main/java/com/huaban/analysis/jieba/WordDictionary.java:164-165 | with the guard its comment describes, an empty line has no effect |
| HuabanDictionary.UserRecords | src/main/java/com/huaban/analysis/jieba/WordDictionary.java:163-189 | reading a user dictionary keeps `total` and `minFreq` and the trie well formed |
| HuabanDictionary.UserLineStores | src/main/java/com/huaban/analysis/jieba/WordDictionary.java:171-184 | a non-blank word gets `log(freq / total)` under its key, is matchable, its prefixes are covered, other entries keep their values, and the changes are the word's own followed by zero-frequency prefix changes |
| HuabanDictionary.UserThrowStops | src/main/java/com/huaban/analysis/jieba/WordDictionary.java:163-189 | after an exception no later line has any effect |
| HuabanDictionary.UserMalformedAborts | src/main/java/com/huaban/analysis/jieba/WordDictionary.java:168-170 | one two-field user line with a non-numeric frequency anywhere makes the load throw, with the state and the change list the lines before it left |
| HuabanDictionary.WordDictionary.constructor | src/main/java/com/huaban/analysis/jieba/WordDictionary.java:31-34 | the fields at their initial values: no entries, `minFreq` at `Double.MAX_VALUE`, `total` 0 |
| HuabanDictionary.WordDictionary.ResetDict | src/main/java/com/huaban/analysis/jieba/WordDictionary.java:87-90 | clears `freqs` and the trie but keeps `total` and `minFreq` |
| HuabanDictionary.WordDictionary.AddWord | src/main/java/com/huaban/analysis/jieba/WordDictionary.java:141-148 | fills in the normalised key and returns it, or null for a blank word; only the trie changes |
| HuabanDictionary.WordDictionary.DelWord | src/main/java/com/huaban/analysis/jieba/WordDictionary.java:150-157 | disables the normalised key and returns it, or null for a blank word; only the trie changes |
| HuabanDictionary.WordDictionary.Put | src/main/java/com/huaban/analysis/jieba/WordDictionary.java:108 | `freqs.put` on the dictionary's own map, null key included |
| HuabanDictionary.WordDictionary.AddPrefix | src/main/java/com/huaban/analysis/jieba/WordDictionary.java:110-114 | one pass of the prefix loop: a missing trimmed prefix is filled in and stored with 0 |
| HuabanDictionary.WordDictionary.AddPrefixes | src/main/java/com/huaban/analysis/jieba/WordDictionary.java:109-115 | the prefix loop over all proper prefixes of the key |
| HuabanDictionary.WordDictionary.LoadRecord | src/main/java/com/huaban/analysis/jieba/WordDictionary.java:102-119 | the handler for one main-dictionary line, both exceptions included |
| HuabanDictionary.WordDictionary.StoreWord | src/main/java/com/huaban/analysis/jieba/WordDictionary.java:106-115 | the non-zero branch of the handler |
| HuabanDictionary.WordDictionary.LoadDict | src/main/java/com/huaban/analysis/jieba/WordDictionary.java:96-131 | a fresh trie, the lines up to the first exception, then (without one) every score normalised against the final `total` and `minFreq` lowered over them |
| HuabanDictionary.WordDictionary.NormalizeFreqs | src/main/java/com/huaban/analysis/jieba/WordDictionary.java:133-138 | every score normalised in place and `minFreq` lowered over them |
| HuabanDictionary.WordDictionary.UserLineRecord | src/main/java/com/huaban/analysis/jieba/WordDictionary.java:164-188 | the handler for one user-dictionary line, both exceptions included, empty lines ignored |
| HuabanDictionary.WordDictionary.LoadUserDict | src/main/java/com/huaban/analysis/jieba/WordDictionary.java:159-192 | the lines up to the first exception, with their change list (empty lines skipped, see Left out) |
| PrefixIndex.PrefixLimit | src/main/java/com/huaban/analysis/jieba/WordDictionary.java:109 | the loop visits `word.length() - 1` prefixes, none for an empty word |
| PrefixIndex.PrefixStep | src/main/java/com/huaban/analysis/jieba/JiebaSegmenter.java:104-109 | one pass of the prefix loop keeps `total`, `minFreq`, the forced-split set and the trie well formed |
| PrefixIndex.RegisterPrefixes | src/main/java/com/huaban/analysis/jieba/JiebaSegmenter.java:103-110 | the prefix loop keeps `total`, `minFreq`, the forced-split set and the trie well formed |
| PrefixIndex.PrefixStepOnlyAdds | src/main/java/com/huaban/analysis/jieba/JiebaSegmenter.java:104-109 | one pass only adds: no key is lost, a new or changed score is 0, and every reported change has frequency 0 |
| PrefixIndex.PrefixesOnlyAdd | src/main/java/com/huaban/analysis/jieba/JiebaSegmenter.java:103-110 | the whole loop only adds, in the same sense |
| PrefixIndex.LongerKeysKept | src/main/java/com/huaban/analysis/jieba/JiebaSegmenter.java:103-110 | the prefix loop writes only keys shorter than the word, so the word's own entry and every longer key keep their values |
| PrefixIndex.NormalizedIsKey | src/main/java/com/huaban/analysis/jieba/WordDictionary.java:143 | the key `addWord` returns for a non-blank word is non-empty, trimmed and lower-case |
| PrefixIndex.KeyPrefixIsKey | src/main/java/com/huaban/analysis/jieba/WordDictionary.java:110-112 | every trimmed prefix of a key is non-empty and is its own key |
| PrefixIndex.PrefixesOfKey | src/main/java/com/huaban/analysis/jieba/WordDictionary.java:109-115 | for a key, every trimmed proper prefix ends up in `freqs`, and every entry already there keeps its value |
| PrefixIndex.PrefixChangesOfKey | src/main/java/com/huaban/analysis/jieba/JiebaSegmenter.java:103-110 | for a key, each reported change is a prefix that was not yet a word, reported in order of increasing length |
| Dag.SpecWellFormed | src/main/java/org/manlier/analysis/jieba/JiebaSegmenter.java:185-229 | every offset gets a non-empty ascending list of ends within the sentence, and no other offset is present |
| Dag.SpecAdmission | src/main/java/org/manlier/analysis/jieba/JiebaSegmenter.java:185-229 | an end is listed exactly when its span is a trie key, or it is the offset itself and no span from there is a key |
| Dag.NoEndsAfterDeadEnd | src/main/java/org/manlier/analysis/jieba/JiebaSegmenter.java:214-218 | after a span that is neither a key nor a prefix, no longer span from the same start is a key |
| Dag.CreateDag | src/main/java/org/manlier/analysis/jieba/JiebaSegmenter.java:185-229 | the DAG built by the scan equals the DAG of all matched spans with single-character fallbacks; the huaban copy's `createDAG` (lines 162-197 of its `JiebaSegmenter.java`) is the same code |
| Dag.AddFallbacks | src/main/java/org/manlier/analysis/jieba/JiebaSegmenter.java:221-227 | the fallback loop gives each unmatched offset the list `[i]` and leaves the others alone |
| Route.BestChoice | src/main/java/org/manlier/analysis/jieba/JiebaSegmenter.java:243-252 | the kept candidate is one of the ends, no end scores more, and every earlier end scores strictly less (ties go to the first end) |
| Route.RouteFrom | src/main/java/org/manlier/analysis/jieba/JiebaSegmenter.java:238-256 | the table has entries exactly for the offsets from the start to the sentence length |
| Route.RouteChoice | src/main/java/org/manlier/analysis/jieba/JiebaSegmenter.java:241-253 | the entry at the end is `(0, 0.0)`, and each other entry picks a DAG end of maximal score, the first among equals |
| Route.RoutesAdvance | src/main/java/org/manlier/analysis/jieba/JiebaSegmenter.java:241-253 | every chosen end lies after its offset and inside the sentence, so following the table always moves forward |
| Route.RouteOptimal | src/main/java/org/manlier/analysis/jieba/JiebaSegmenter.java:238-256 | no segmentation of the rest of the sentence along the DAG has a larger total `getFreq` than the table's entry |
| Route.RouteWalkAttains | src/main/java/org/manlier/analysis/jieba/JiebaSegmenter.java:411-429 | the walk `sentenceProcess` follows is a segmentation along the DAG and attains the table's score, so it is a best one |
| Route.Calc | src/main/java/org/manlier/analysis/jieba/JiebaSegmenter.java:238-256 | the backward loop builds exactly the table of best choices; the huaban copy's `calc` (lines 200-218) is the same code |
| Route.Choose | src/main/java/org/manlier/analysis/jieba/JiebaSegmenter.java:243-252 | the inner loop keeps the best candidate over the DAG list |
| Sentence.WordsSpell | src/main/java/org/manlier/analysis/jieba/JiebaSegmenter.java:415-429 | the words along the route are non-empty and spell the sentence from the offset on |
| Sentence.ScanSpells | src/main/java/org/manlier/analysis/jieba/JiebaSegmenter.java:415-430 | the closed chunks followed by the pending buffer spell the words read so far |
| Sentence.ScanWords | src/main/java/org/manlier/analysis/jieba/JiebaSegmenter.java:426 | the words emitted as they are, are the unbuffered words, in order |
| Sentence.GroupFacts | src/main/java/org/manlier/analysis/jieba/JiebaSegmenter.java:415-433 | grouping spells the words, keeps the unbuffered words in order, and leaves only non-empty, non-adjacent runs |
| Sentence.ProcessBufSpells | src/main/java/org/manlier/analysis/jieba/JiebaSegmenter.java:437-447 | `processBuf` emits pieces that spell the buffer |
| Sentence.EmitSpells | src/main/java/org/manlier/analysis/jieba/JiebaSegmenter.java:437-447 | emitting the chunks spells their texts |
| Sentence.SegmentSpells | src/main/java/org/manlier/analysis/jieba/JiebaSegmenter.java:402-435 | the tokens of `sentenceProcess` (with or without the HMM) spell the sentence, keep the multi-character words in route order, and buffer maximal runs |
| Sentence.PlainSegment | src/main/java/org/manlier/analysis/jieba/JiebaSegmenter.java:455-488 | without the HMM a buffered run is emitted whole |
| Sentence.PlainSpells | src/main/java/org/manlier/analysis/jieba/JiebaSegmenter.java:455-488 | the tokens of `sentenceProcessWithNoHMM` spell the sentence |
| Sentence.PlainEmitsTexts | src/main/java/org/manlier/analysis/jieba/JiebaSegmenter.java:472-476 | without the HMM every chunk is emitted as its own text |
| Tokens.GramsListed | src/main/java/org/manlier/analysis/jieba/JiebaSegmenter.java:272-276 | every dictionary n-gram the loop visits is emitted at its offset |
| Tokens.GramsValid | src/main/java/org/manlier/analysis/jieba/JiebaSegmenter.java:272-276 | everything the loop emits is a dictionary word of length n at its offset inside the word |
| Tokens.IndexGramsListed | src/main/java/org/manlier/analysis/jieba/JiebaSegmenter.java:268-286 | every 2- or 3-character dictionary word inside a longer word is emitted at its span |
| Tokens.IndexGramsValid | src/main/java/org/manlier/analysis/jieba/JiebaSegmenter.java:268-286 | every extra INDEX token is such a gram |
| Tokens.AssembleSearch | src/main/java/org/manlier/analysis/jieba/JiebaSegmenter.java:262-265 | SEARCH tokens carry the words in order and sit end to end from the offset |
| Tokens.WordTokensSpan | src/main/java/org/manlier/analysis/jieba/JiebaSegmenter.java:268-287 | each token of one word carries the text found at its span |
| Tokens.AssembleSpans | src/main/java/org/manlier/analysis/jieba/JiebaSegmenter.java:258-292 | every token `_process` emits, in either mode, carries the text found at its span |
| Tokens.IndexAddsGrams | src/main/java/org/manlier/analysis/jieba/JiebaSegmenter.java:266-289 | INDEX mode adds only dictionary words of two or three characters to the SEARCH tokens |
| Tokens.SearchWithinIndex | src/main/java/org/manlier/analysis/jieba/JiebaSegmenter.java:266-289 | every SEARCH token is also an INDEX token |
| Paragraph.ViewAt | src/main/java/org/manlier/analysis/jieba/JiebaSegmenter.java:322-336 | a token shows a run character in its regularised form and any other character as it is |
| Paragraph.ProcessTiled | src/main/java/org/manlier/analysis/jieba/JiebaSegmenter.java:321-343 | the runs and the single characters lie end to end over the whole paragraph |
| Paragraph.ProcessSearch | src/main/java/org/manlier/analysis/jieba/JiebaSegmenter.java:313-346 | in SEARCH mode the tokens sit end to end from 0 and spell the paragraph (run characters regularised) |
| Paragraph.ProcessSpans | src/main/java/org/manlier/analysis/jieba/JiebaSegmenter.java:313-346 | in either mode every token carries the text found at its span |
| Paragraph.ProcessOther | src/main/java/org/manlier/analysis/jieba/JiebaSegmenter.java:336 | every character outside the run alphabet comes out as its own token at `[k, k + 1)` |
| ManlierSegmenter.ProcessBuf | src/main/java/org/manlier/analysis/jieba/JiebaSegmenter.java:437-447 | appends one character or a dictionary word whole, otherwise the HMM cut, and the appended pieces spell the buffer |
| ManlierSegmenter.WalkRoute | src/main/java/org/manlier/analysis/jieba/JiebaSegmenter.java:407-409 | the DAG and the table are built, and the table's walk gives the sentence's words |
| ManlierSegmenter.ReadWord | src/main/java/org/manlier/analysis/jieba/JiebaSegmenter.java:416-428 | one pass of the loop moves strictly forward and keeps the tokens equal to the emitted chunks read so far |
| ManlierSegmenter.SentenceProcess | src/main/java/org/manlier/analysis/jieba/JiebaSegmenter.java:402-435 | the result is the specified segmentation and spells the sentence; this method also stands for the huaban `sentenceProcess` (lines 301-348), which inlines `processBuf` |
| ManlierSegmenter.FindsSingle | src/main/java/org/manlier/analysis/jieba/JiebaSegmenter.java:468 | for a one-character word, `[a-zA-Z0-9]` is found exactly when the word is an ASCII letter or digit |
| ManlierSegmenter.ReadWordWithNoHMM | src/main/java/org/manlier/analysis/jieba/JiebaSegmenter.java:465-478 | one pass of the loop moves strictly forward and keeps the tokens equal to the chunk texts read so far |
| ManlierSegmenter.SentenceProcessWithNoHMM | src/main/java/org/manlier/analysis/jieba/JiebaSegmenter.java:455-488 | the result is the specified segmentation without the HMM and spells the sentence |
| ManlierSegmenter.AddGrams | src/main/java/org/manlier/analysis/jieba/JiebaSegmenter.java:270-276 | the loop appends exactly the dictionary n-grams of the word, left to right |
| ManlierSegmenter.AddWordTokens | src/main/java/org/manlier/analysis/jieba/JiebaSegmenter.java:268-287 | appends a word's INDEX tokens: its grams, then the word |
| ManlierSegmenter.AssembleTokens | src/main/java/org/manlier/analysis/jieba/JiebaSegmenter.java:258-292 | `_process` returns the specified tokens for either mode |
| ManlierSegmenter.AssembleSearchTokens | src/main/java/org/manlier/analysis/jieba/JiebaSegmenter.java:262-265 | the SEARCH loop returns the specified tokens |
| ManlierSegmenter.AssembleIndexTokens | src/main/java/org/manlier/analysis/jieba/JiebaSegmenter.java:267-288 | the INDEX loop returns the specified tokens |
| ManlierSegmenter.CloseRun | src/main/java/org/manlier/analysis/jieba/JiebaSegmenter.java:328-334 | a pending run is segmented and appended at its offset, and the run is emptied with the offset at the current character |
| ManlierSegmenter.CloseChar | src/main/java/org/manlier/analysis/jieba/JiebaSegmenter.java:327-337 | a character outside the run alphabet closes the run and adds its own token |
| ManlierSegmenter.ReadChar | src/main/java/org/manlier/analysis/jieba/JiebaSegmenter.java:321-337 | one pass of the character loop keeps the tokens equal to the pieces closed so far |
| ManlierSegmenter.Process | src/main/java/org/manlier/analysis/jieba/JiebaSegmenter.java:313-346 | the result is the specified token list of the paragraph, with the HMM or without it; this method also stands for the huaban `process` (lines 221-298), which inlines `_process` |
| ManlierSegmenter.CloseRunWithNoHMM | src/main/java/org/manlier/analysis/jieba/JiebaSegmenter.java:365-370 | as `CloseRun`, segmenting without the HMM |
| ManlierSegmenter.AddOther | src/main/java/org/manlier/analysis/jieba/JiebaSegmenter.java:371-374 | both branches append the character's own token at `[offset, offset + 1)` |
| ManlierSegmenter.CloseCharWithNoHMM | src/main/java/org/manlier/analysis/jieba/JiebaSegmenter.java:364-375 | as `CloseChar`, without the HMM |
| ManlierSegmenter.ReadCharWithNoHMM | src/main/java/org/manlier/analysis/jieba/JiebaSegmenter.java:360-375 | as `ReadChar`, without the HMM |
| ManlierSegmenter.ProcessWithNoHMM | src/main/java/org/manlier/analysis/jieba/JiebaSegmenter.java:355-383 | the result is the specified token list of the paragraph without the HMM |
| ManlierSegmenter.TunedEffect | src/main/java/org/manlier/analysis/jieba/JiebaSegmenter.java:118-140 | `total` moves by the frequency; a non-zero frequency stores the score and makes a new word matchable; a zero frequency leaves the word unknown, forced to split and unmatchable; no other entry changes |
| ManlierSegmenter.DeletedIsUnknown | src/main/java/org/manlier/analysis/jieba/JiebaSegmenter.java:168-170 | after `delWord` the word is not a word and `getFreq` gives it the floor |
| ManlierSegmenter.SuggestedNotBelow | src/main/java/org/manlier/analysis/jieba/JiebaSegmenter.java:55-77 | the frequency suggested to keep a segment whole is at least what its pieces jointly get and at least what it already has |
| ManlierSegmenter.SuggestedKeepsWhole | src/main/java/org/manlier/analysis/jieba/JiebaSegmenter.java:55-74 | after tuning, unless the frequency truncates to 0, the segment is a known word whose score is no lower than the log of its pieces' joint share or of its former share |
| ManlierSegmenter.SplitNotAbove | src/main/java/org/manlier/analysis/jieba/JiebaSegmenter.java:88-108 | the frequency suggested to split a word is at most the pieces' product and at most what the joined word already has |
| ManlierSegmenter.SplitTunedNotAbove | src/main/java/org/manlier/analysis/jieba/JiebaSegmenter.java:88-108 | after tuning, unless the frequency truncates to 0, the joined word's score is no higher than the log of its segments' joint share or of its former share |
| ManlierSegmenter.MultiplyScores | src/main/java/org/manlier/analysis/jieba/JiebaSegmenter.java:58-60 | the loop multiplies in each segment's share, left to right |
| ManlierSegmenter.JiebaSegmenter.constructor | src/main/java/org/manlier/analysis/jieba/JiebaSegmenter.java:25-27 | a segmenter over the dictionary that has published nothing |
| ManlierSegmenter.JiebaSegmenter.UpdateWord | src/main/java/org/manlier/analysis/jieba/JiebaSegmenter.java:118-140 | the dictionary is tuned as specified and the one-entry change list `(word, actualFreq)` is published |
| ManlierSegmenter.JiebaSegmenter.SuggestFreq | src/main/java/org/manlier/analysis/jieba/JiebaSegmenter.java:55-77 | returns the suggested frequency; with `tune` the dictionary is tuned with it and `log` of the share, and the one-change event for the segment is published; without it nothing changes and nothing is published |
| ManlierSegmenter.JiebaSegmenter.SuggestFreqJoined | src/main/java/org/manlier/analysis/jieba/JiebaSegmenter.java:88-108 | returns the frequency suggested for splitting; with `tune` the joined word is tuned and the one-change event for it is published; without it nothing changes |
| ManlierSegmenter.JiebaSegmenter.AddWord | src/main/java/org/manlier/analysis/jieba/JiebaSegmenter.java:148-150 | tunes the word with the frequency given and its score `log(freq / total)` |
| ManlierSegmenter.JiebaSegmenter.AddSuggestedWord | src/main/java/org/manlier/analysis/jieba/JiebaSegmenter.java:158-161 | the word stops being forced to split, then is tuned with its suggested frequency, and the one-change event for the word with that frequency is published |
| ManlierSegmenter.JiebaSegmenter.DelWord | src/main/java/org/manlier/analysis/jieba/JiebaSegmenter.java:168-170 | tuning with frequency 0: the word is no longer in `freqs`, and the event "word now has frequency 0" is published |
| ManlierSegmenter.JiebaSegmenter.LoadUserDict | src/main/java/org/manlier/analysis/jieba/JiebaSegmenter.java:172-177 | loads the user dictionary: `total`, the trie and the forced splits are the fold's; after an exception `freqs`, `nullFreq` and `minFreq` are untouched, otherwise the normalised staged entries are merged and the changes are returned, and published only when there are any |
| HuabanSegmenter.TunedEntries | src/main/java/com/huaban/analysis/jieba/JiebaSegmenter.java:90-122 | `total` moves by the frequency, `minFreq` stays, no other key is lost; a zero frequency deletes the word, forces it to split and disables its key; a non-zero one leaves the given score, and a new word's key matchable |
| HuabanSegmenter.TunedChanges | src/main/java/com/huaban/analysis/jieba/JiebaSegmenter.java:99-110 | the published list starts with `(word, actualFreq)` and every later change has frequency 0 |
| HuabanSegmenter.TunedKeyEntries | src/main/java/com/huaban/analysis/jieba/JiebaSegmenter.java:90-116 | for a key, its trimmed prefixes are all covered, other entries keep their values, and a non-zero frequency stores the score given |
| HuabanSegmenter.TunedKeyChanges | src/main/java/com/huaban/analysis/jieba/JiebaSegmenter.java:103-110 | for a key, each prefix change names a shorter prefix that was not yet a word, in order of increasing length |
| HuabanSegmenter.DeletedIsUnknown | src/main/java/com/huaban/analysis/jieba/JiebaSegmenter.java:150-152 | after `delWord` the word is not a word and `getFreq` gives it the floor |
| HuabanSegmenter.SuggestedNotBelow | src/main/java/com/huaban/analysis/jieba/JiebaSegmenter.java:44-57 | the frequency suggested to keep a segment whole is at least what its pieces (cut with the HMM) jointly get and at least what it already has |
| HuabanSegmenter.SuggestedKeepsWhole | src/main/java/com/huaban/analysis/jieba/JiebaSegmenter.java:44-57 | after tuning, unless the frequency truncates to 0, the segment is a known word scored `log(ceil(share))`, no lower than the log of its pieces' joint share or of its former share |
| HuabanSegmenter.SplitTunedNotAbove | src/main/java/com/huaban/analysis/jieba/JiebaSegmenter.java:68-81 | after tuning, unless the frequency truncates to 0, the joined word is scored `log(floor(share))`, which for a positive floor is no higher than the log of its segments' joint share or of its former share |
| HuabanSegmenter.JiebaSegmenter.constructor | src/main/java/com/huaban/analysis/jieba/JiebaSegmenter.java:23-25 | a segmenter over the dictionary that has published nothing |
| HuabanSegmenter.JiebaSegmenter.UpdateWord | src/main/java/com/huaban/analysis/jieba/JiebaSegmenter.java:90-122 | the dictionary is tuned as specified, prefixes included, and the word's change with the prefix changes is published |
| HuabanSegmenter.JiebaSegmenter.SuggestFreq | src/main/java/com/huaban/analysis/jieba/JiebaSegmenter.java:44-57 | returns the suggested frequency; with `tune` the segment is tuned with `log(ceil(share))` and that tuning's change list is published; without it nothing changes |
| HuabanSegmenter.JiebaSegmenter.SuggestFreqJoined | src/main/java/com/huaban/analysis/jieba/JiebaSegmenter.java:68-81 | returns the frequency suggested for splitting, as a `double`; with `tune` the joined word is tuned with `log(floor(share))` and that tuning's change list is published |
| HuabanSegmenter.JiebaSegmenter.AddWord | src/main/java/com/huaban/analysis/jieba/JiebaSegmenter.java:130-132 | tunes the word with the frequency given and its score `log(freq / total)`, and publishes the changes |
| HuabanSegmenter.JiebaSegmenter.AddSuggestedWord | src/main/java/com/huaban/analysis/jieba/JiebaSegmenter.java:140-143 | the word stops being forced to split, then is tuned with its suggested frequency, and that tuning's change list is published |
| HuabanSegmenter.JiebaSegmenter.DelWord | src/main/java/com/huaban/analysis/jieba/JiebaSegmenter.java:150-152 | tuning with frequency 0: the word leaves `freqs`, is forced to split and its key no longer matches; that tuning's change list is published |
| HuabanSegmenter.JiebaSegmenter.LoadUserDict | src/main/java/com/huaban/analysis/jieba/JiebaSegmenter.java:154-159 | loads the user dictionary and publishes its changes only when there are any and no exception was thrown |

## Left out

- Reading dictionary files (`DictSource`, `FileDictSource`, the main dictionary resource). Character sets and `IOException` are left out with them. A source is its sequence of already split lines.
- `loadConfig`, which reads the environment and system properties, and the `getInstance` singletons. The configuration flag is a constructor parameter in the org copy.
- `init` and the `isUseDefaultDict` and `getTrie` getters: they only forward or return a field.
- Logging, timing and console output.
- Concurrency: `synchronized` blocks, and the parallel stream in the org `normalizeFreqs`. That stream updates `minFreq` without synchronisation, so concurrent updates can be lost. The model updates it sequentially.
- RxJava publishing: `subscribe`, `registerListener` and `PublishProcessor` are modelled as the ghost sequence `published` of change lists sent. Listeners are not modelled.
- Floating point: `double` is modelled as `real`. Rounding, NaN and infinities are not modelled. `Math.log(0d)` and similar calls are whatever the `FloatOps` parameter says. The lemmas about tuned scores assume only what `java.lang.Math` promises: `log` is monotone on positive arguments (`LogMonotone`), `ceil` rounds up and `floor` rounds down (`Rounds`).
- Exceptions: `NumberFormatException` from `Double.valueOf` and the huaban `NullPointerException` are a `thrown` flag in the loading state and a `thrown` out-parameter of the loaders. When it is set, the Java method returns nothing. The changes made before the exception are kept, as in the source.
- ManlierDictionary.WordDictionary.constructor: when `loadDict` throws, the Java constructor fails and no dictionary exists. The model's object is left in the state the throwing line left (`LoadedFrom`).
- Text is a sequence of Unicode scalar values. Java `String` indices, `length()` and `charAt` count UTF-16 code units. For text outside the Basic Multilingual Plane, such as an emoji, the source sees two surrogate units and regularizes and emits each one separately. The model sees one character, so its offsets and token boundaries differ from the source's there.
- Offsets are unbounded naturals. Java's `int` overflow on paragraphs of more than 2^31 characters is not modelled.
- `toLowerCase(Locale.getDefault())` is modelled for ASCII letters only. Locale-dependent and non-ASCII case mappings are not modelled.
- `FinalSeg.cut` (the HMM) is not part of this model. It is the `Cutter` parameter, of which only "the pieces spell the input" is assumed.
- `CharacterUtil` is not part of this model. Its two functions are the `CharUtil` parameter.
- `DictSegment` and `Hit` are not part of this model. The trie is modelled by its observable behaviour: sets of keys and enabled keys.
- Null arguments to the public methods are left out. `addWord` answering null for a blank word, and the null key it then causes in `freqs`, are modelled.
- HuabanDictionary.WordDictionary.constructor: does not load the main dictionary as the source constructor does when the default dictionary is in use. Loading is `LoadDict`, a separate call. The huaban `_dict` is null until `loadDict` runs; the model starts from an empty trie.
- The huaban `process` and `sentenceProcess` have no separate Dafny methods. Their code is the org copy's HMM path with `_process` and `processBuf` inlined, so `ManlierSegmenter.Process` and `ManlierSegmenter.SentenceProcess` stand for them.
- Every operation on the dictionary and the segmenter requires `Valid()`: the trie's enabled keys are among its stored keys. The source keeps this invariant by construction.
- ManlierDictionary.UserRecords: skips an empty line (fields `[""]`), where the source counts it: `total` grows by 3, a null key is staged, and `(null, 3)` is reported. See Findings; the as-written handler is `UserRecordAsWritten`.
- ManlierDictionary.UserRecordsEffect: is about the corrected fold, so an empty line adds nothing to `total` and reports no change, where the source adds 3 and reports `(null, 3)`.
- ManlierDictionary.WordDictionary.StageLine: ignores an empty line, where the source stages it under the null key with frequency 3.
- ManlierDictionary.WordDictionary.LoadUserDict: runs the corrected handler, so an empty line is not counted in `total`, not merged under the null key and not in the change list, as it is in the source.
- ManlierSegmenter.JiebaSegmenter.LoadUserDict: publishes the corrected loader's change list, without the `(null, 3)` entry the source reports for an empty line.
- HuabanDictionary.UserRecords: skips an empty line, where the source puts the null key, reports `(null, 3)`, then throws a `NullPointerException` and reads no further line. See Findings; the as-written handler is `UserRecordAsWritten`.
- HuabanDictionary.WordDictionary.UserLineRecord: ignores an empty line, where the source throws on it.
- HuabanDictionary.WordDictionary.LoadUserDict: reads past an empty line, where the source aborts there with a `NullPointerException`.
- HuabanSegmenter.JiebaSegmenter.LoadUserDict: publishes the changes of the lines after an empty line, where the source throws at that line and publishes nothing.
- PrefixIndex.PrefixesOnlyAdd: states that a new or changed score is 0, not that no existing score changes. A raw trimmed prefix can differ from the key `addWord` stores, so `freqs.put(split, 0d)` can overwrite an existing key's score with 0. For words that are already keys, `PrefixIndex.PrefixesOfKey` proves that no existing entry changes.
- `ReadChar`, `CloseChar`, `CloseRun`, `ReadWord`, their no-HMM variants and `AddOther` are the bodies of the source's loops. They are written as separate methods so that each pass is proved on its own.

## Findings

| source | as written | input that shows it | evidently intended | confidence | as-written member | corrected member |
|---|---|---|---|---|---|---|
| src/main/java/org/manlier/analysis/jieba/WordDictionary.java:153-154 | the guard `tokens.length >= 1` under the comment "Ignore empty line" rejects a line of only spaces or tabs (no fields) but lets an empty line through, because `"".split("[\t ]+")` is `[""]` | an empty line in a user dictionary: `total` grows by 3, a null key is staged with 3, and the change `(null, 3)` is reported | an empty line is ignored | not executed | ManlierDictionary.EmptyLineCounted | ManlierDictionary.EmptyLineIgnored |
| src/main/java/com/huaban/analysis/jieba/WordDictionary.java:164-165 | the same guard rejects a line of only spaces or tabs but lets an empty line through; `addWord` returns null for it, and `word.length()` in the prefix loop then throws | an empty line in a user dictionary: the null key gets `log(3 / total)`, `(null, 3)` is reported, and loading aborts so the lines after it are never read | an empty line is ignored | not executed | HuabanDictionary.EmptyLineThrows | HuabanDictionary.EmptyLineIgnored |

The corrected handlers, `ManlierDictionary.UserRecord` and `HuabanDictionary.UserRecord`, skip a line whose fields are `[""]`. They are what `StageLine`, `UserLineRecord` and both `LoadUserDict` methods use. The handlers as written are `UserRecordAsWritten` in each module.
