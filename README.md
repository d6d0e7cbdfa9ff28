# madlib-elm text core in Dafny

This project models the two pieces of text processing behind the mad-lib game:

- The client-side simplifier of Stanford CoreNLP annotation responses (`src/corenlp.js`).
  - It drops the spurious one-token `=` sentence the service adds.
  - It classifies every token by the first letter of its part-of-speech tag.
  - Each noun, verb or adjective token becomes one element of its own.
  - All other text (the filler) is folded into a trailing "NA" element. Each append collapses the first run of whitespace.
  - A final pass trims the NA elements.
  - The same file has a formatter for the request timestamp (`date()`).
- The word-list packer (`wordpack.js`).
  - It reads a word list chunk by chunk and is meant to reassemble lines split across chunks. As written it does so only while every chunk holds a newline (see Findings).
  - It takes the word before the first space of each line and keeps the words longer than one character.
  - It bins the words by length in a dictionary and returns the bins as `{length, words}` records.

Files:

- `jstext.dfy` (module `JsText`): the JavaScript string built-ins the core relies on.
  - `slice` with negative offsets, `indexOf`, `lastIndexOf`.
  - `replace(/_/g, ' ')`, `split('\n')` and its inverse.
  - The first-match-only `replace(/\s{2,}/, ' ')`.
  - `trim` over the ECMAScript `\s` set, and decimal number-to-string.
- `optional.dfy` (module `Optional`): the `Option` type used for `null`.
- `corenlp.dfy` (module `CoreNlp`): the simplifier.
  - The accumulator array is the class `Corpus`, with methods that push onto it and update its last element in place, as the JavaScript does.
  - `SimplifyNlpData` is proved equal to the specification function `Simplify`; the output's properties are proved about `Simplify`.
- `wordpack.dfy` (module `WordPack`): the packer.
  - `WordBins` is the dictionary that `binWordsByLength` updates in place.
  - `Packer` holds the state kept between stream events, `chunkRemainder` and `wordBins`.
  - `PackWordsInFile` drives one `readable` event per chunk and then `end`.

What the code does and a plain reading of its purpose differ in two places. The first is the chunk split in the packer: the model keeps the split as written and uses the intended one, as recorded under Findings. The second is that the simplifier's output does not reconstruct the input text. A noun, verb or adjective token contributes only its `word`; its `before` and `after` text is dropped. So in "The cat sat" the space after "cat" is lost and no NA element stands between "cat" and "sat". Here the model follows the code (`CoreNlp.TheCatSat`).

## Model

| member | source | states |
|---|---|---|
| CoreNlp.ClassifyByPos | src/corenlp.js:119-129 | verb exactly when the tag starts with `V`, noun exactly for `N`, adjective exactly for `J`, NA exactly otherwise, including the empty tag |
| CoreNlp.IsGoodSentence | src/corenlp.js:133-136 | false exactly for a sentence whose only token has original text `=`; the fold skips such a sentence (`BadSentenceContributesNothing`) and keeps every other (`FoldSentencesIsFoldOfKept`) |
| CoreNlp.BadSentenceContributesNothing | src/corenlp.js:133-136 | a sentence whose single token has original text `=` changes nothing in the fold, wherever it stands among the sentences |
| CoreNlp.FoldSentencesIsFoldOfKept | src/corenlp.js:56-70 | the reduce over sentences equals the token fold over the tokens of the kept sentences, carried across sentence boundaries |
| CoreNlp.AppendText | src/corenlp.js:88-93 | empty text leaves the corpus unchanged; otherwise the text joins a trailing NA element, or a new empty one when the last is not NA; only that element changes and it gets the first-run collapse; its new length is at most the old length plus the text's |
| CoreNlp.GetOrCreateLastToken | src/corenlp.js:95-103 | pushes an empty NA element exactly when the corpus is empty or ends in a word-class element; returns the index of the last element, which is NA |
| CoreNlp.AppendToCorpus | src/corenlp.js:88-93 | the in-place update leaves the corpus equal to `AppendText` of the old corpus |
| CoreNlp.ConvertToken | src/corenlp.js:105-110 | the element's value is the token's `word`, and it is a word-class element exactly when the tag starts with `V`, `N` or `J`; `WordElementsInInputOrder` shows these are exactly the word-class elements of the output |
| CoreNlp.EmptyToken | src/corenlp.js:112-117 | an NA element with the empty value, which `GetOrCreateLastToken` pushes when the array is empty or ends in a word-class element, so `AppendText` gives the collapsed text alone |
| CoreNlp.FoldSpecialToken | src/corenlp.js:80-82 | the converted token is pushed at the end and nothing else changes |
| CoreNlp.FoldNormalToken | src/corenlp.js:84-86 | appends `before + word + after` to the corpus as `AppendText` states |
| CoreNlp.Corpus.constructor | src/corenlp.js:70 | the accumulator starts as the empty array |
| CoreNlp.AppendTextKeepsWordElements | src/corenlp.js:88-93 | appending filler text never alters a word-class element |
| CoreNlp.WordElementsInInputOrder | src/corenlp.js:58-66 | the word-class elements of the output are the converted word-class tokens, one each, in input order, never merged |
| CoreNlp.AppendTextKeepsNoAdjacentFillers | src/corenlp.js:95-103 | an append keeps the corpus free of two adjacent NA elements |
| CoreNlp.FoldKeepsNoAdjacentFillers | src/corenlp.js:56-70 | folding any token stream keeps the corpus free of two adjacent NA elements |
| CoreNlp.FillerCountAppendText | src/corenlp.js:95-103 | an append adds an NA element exactly when the text is non-empty and the corpus does not end in NA |
| CoreNlp.FillerElementsCountRuns | src/corenlp.js:56-70 | from the empty corpus, the output ends in NA exactly when the stream ends inside a filler run with text; the NA count equals the number of such runs, counted across sentence boundaries |
| CoreNlp.FoldSentence | src/corenlp.js:58-66 | the `forEach` over one kept sentence leaves the corpus equal to the specification fold `FoldTokens` of the old corpus over the sentence's tokens |
| CoreNlp.FoldOneToken | src/corenlp.js:59-65 | one callback converts the token and dispatches on its kind, leaving the corpus equal to `FoldToken` of the old corpus and that token |
| CoreNlp.TrimFillers | src/corenlp.js:71-77 | the final map keeps length, order and kinds; word-class elements are unchanged; NA values are trimmed; NA elements whose value trims to nothing stay |
| CoreNlp.TrimFillersKeepsViews | src/corenlp.js:71-77 | trimming changes neither the word-class elements nor the NA count |
| CoreNlp.TrimFillersInPlace | src/corenlp.js:71-77 | the in-place loop leaves the corpus equal to `TrimFillers` of the old corpus |
| CoreNlp.SimplifyNlpData | src/corenlp.js:55-78 | the fold with a fresh accumulator over sentences and tokens, then the final pass, returns `Simplify(data)` |
| CoreNlp.SimplifyProperties | src/corenlp.js:55-78 | for any response: no adjacent NA elements, word-class elements in input order, one NA element per filler run, length equal to word tokens plus filler runs, and every NA value already trimmed |
| CoreNlp.TheCatSat | src/corenlp.js:55-78 | "The cat sat" with its surrounding text gives `NA "The"`, `NOUN "cat"`, `VERB "sat"` |
| CoreNlp.CollapseOnlyFirstRun | src/corenlp.js:91 | appending `" b  c"` to `"a "` yields `"a b  c"`: only the first whitespace run of the joined value shrinks |
| CoreNlp.Date | src/corenlp.js:41-53 | the year, then `-MM-DDTHH:mm:ss` with the month counted from 1; `DateRoundTrip` reads every field back and `DateExample` shows the leading zeros |
| CoreNlp.Pad | src/corenlp.js:42-44 | the digits read back as the value, and a value below 100 takes exactly two digits, with a leading zero below 10 |
| CoreNlp.DateRoundTrip | src/corenlp.js:41-53 | for clock values in range, the timestamp is the year followed by fifteen fixed-width characters `-MM-DDTHH:mm:ss`, and reading it back gives the year, month index plus one, day, hours, minutes and seconds |
| CoreNlp.DateExample | src/corenlp.js:41-53 | 5 January 2017, 09:03:07, formats as `2017-01-05T09:03:07` |
| JsText.Slice | wordpack.js:36-39 | `slice(start, end)` within bounds is the subsequence, and `slice(0, -1)` drops the last character |
| JsText.IndexOf | wordpack.js:57 | -1 exactly when the character is absent, otherwise the position of its first occurrence |
| JsText.LastIndexOf | wordpack.js:36 | -1 exactly when the character is absent, otherwise the position of its last occurrence |
| JsText.ReplaceAll | wordpack.js:57 | same length, every `_` becomes a space and every other character stays |
| JsText.Lines | wordpack.js:41-42 | `split('\n')` gives at least one piece, no piece holds a newline, and joining the pieces with newlines gives the input back |
| JsText.LinesOfJoin | wordpack.js:41-42 | splitting a newline-join of newline-free lines gives those lines back |
| JsText.CollapseFirstSpaceRun | src/corenlp.js:91 | with no two adjacent whitespace characters the value is unchanged; otherwise it gets strictly shorter |
| JsText.CollapseReplacesLeftmostRun | src/corenlp.js:91 | the leftmost maximal run of two or more whitespace characters becomes one space and the rest of the text is kept as is |
| JsText.Trim | src/corenlp.js:73 | the result is the input minus its leading and trailing whitespace: it neither starts nor ends with whitespace, and it is empty exactly when the input is all whitespace |
| JsText.TrimIdempotent | src/corenlp.js:73 | trimming a trimmed value changes nothing |
| JsText.NatToString | src/corenlp.js:52 | decimal digits without a leading zero that read back as the number; one digit exactly below 10 |
| WordPack.ExtractWord | wordpack.js:56-58 | for a line with a space, the text before the first space; for a line without one, all but the last character (nothing for an empty line); every `_` becomes a space |
| WordPack.ExtractWordOfListLine | wordpack.js:56-58 | a list line in the documented form, a word followed by one space, gives back that word with `_` turned into spaces |
| WordPack.IsWordMoreThanOneLetter | wordpack.js:60-62 | true exactly for words of two or more characters; `PackedWordsAreLong` shows that only such words survive the filter |
| WordPack.PackedWordsAreLong | wordpack.js:43-44 | only words of two or more characters pass the filter |
| WordPack.PackedWordsAppend | wordpack.js:41-44 | the extracted and filtered words of two line lists joined are those of each list, in order |
| WordPack.BinWord | wordpack.js:64-74 | the word goes at the end of the bin keyed by its length, created empty when absent; every other bin is unchanged; the key set gains exactly that length |
| WordPack.BinWordsByLength | wordpack.js:64-74 | the dictionary is updated in place as `BinWord` states, and the same dictionary is returned |
| WordPack.WordBins.constructor | wordpack.js:27 | the dictionary starts empty |
| WordPack.BinAllIsFilterByLength | wordpack.js:41-45 | after binning a list of words, bin `k` exists exactly when it existed or some word has length `k`, and it holds the old bin followed by the words of length `k`, in the order read |
| WordPack.BinAllAppend | wordpack.js:41-45 | binning two lists one after the other equals binning their concatenation |
| WordPack.BinAllKeepsWellFormed | wordpack.js:41-45 | binning words of length two or more keeps every key at least 2, every bin non-empty, and every word in bin `k` of length `k` |
| WordPack.MinKey | wordpack.js:77 | the smallest key of a non-empty dictionary |
| WordPack.ConvertToElmFriendlyBins | wordpack.js:76-84 | one record per key, in ascending key order; each record holds its integer key and that key's bin unchanged; every key has a record |
| WordPack.EveryKeyHasARecord | wordpack.js:76-84 | each key's record is exactly `{length: key, words: bin}` |
| WordPack.ConvertKeepsEveryWord | wordpack.js:76-84 | the records hold every binned word exactly once: the words of the records after binning are the old ones plus the new words, as a multiset |
| WordPack.SplitChunkAsWritten | wordpack.js:36-39 | the split as the code writes it; `AsWrittenAgreesOnNewline` shows it is right on a chunk holding a newline, and `SplitLineAsWritten` shows the wrong words it gives on a chunk without one |
| WordPack.SplitChunk | wordpack.js:36-39 | the intended split: a chunk without a newline is only added to the remainder; `SplitChunkReassembles` and `StreamReassemblesLines` show the parsed lines and the remainder rebuild the text read so far |
| WordPack.AsWrittenAgreesOnNewline | wordpack.js:36-39 | for a chunk holding a newline, the handler as written holds back the text after the last newline and parses the remainder plus the text before it |
| WordPack.SplitChunkReassembles | wordpack.js:36-39 | with the intended split, the parsed lines and the new remainder make up the old remainder followed by the chunk, and the remainder holds no newline |
| WordPack.StreamReassemblesLines | wordpack.js:29-46 | whatever the chunk boundaries, the parsed lines are exactly the newline-terminated lines of the input, in order; the held remainder is the unterminated tail, never parsed |
| WordPack.AsWrittenAgreesWhenEveryChunkHasNewline | wordpack.js:29-46 | when every chunk holds a newline, the handler as written parses exactly the lines the intended one does |
| WordPack.SplitLineAsWritten | wordpack.js:36-39 | the line `abcd ` delivered as chunks `ab`, `cd`, ` \n` bins `ab` and `cd` as written, and `abcd` as intended |
| WordPack.Packer.constructor | wordpack.js:26-27 | the remainder starts empty and the dictionary starts empty |
| WordPack.Packer.Readable | wordpack.js:29-46 | a `null` read changes nothing; otherwise, with the intended split (`SplitChunk`), the remainder becomes the text after the chunk's last newline, or the old remainder followed by the chunk when the chunk holds no newline (the code as written keeps only the chunk, see Findings); the words of the completed lines are binned in order into the same dictionary, which stays well formed |
| WordPack.Packer.End | wordpack.js:50-52 | resolves to the records of the current bins; the held remainder is not binned |
| WordPack.PackWordsInFile | wordpack.js:23-54 | with the intended split, one `readable` event per chunk then `end` resolves to the records of the binned words of all completed lines; the code as written agrees only when every chunk holds a newline (`AsWrittenAgreesWhenEveryChunkHasNewline`) |
| WordPack.PackProperties | wordpack.js:23-54 | the resolved records have strictly ascending lengths, each at least 2; each record's words are the packed words of that length in reading order; together they hold every packed word exactly once |

## Left out

- `fetchNlpData` (src/corenlp.js:16-27) is a network POST with a promise result. It is I/O and is not modelled.
- `getSettings` (src/corenlp.js:31-38) is a constant object apart from `date()`. It is not modelled.
- CoreNlp.Date: the clock read `new Date()` (src/corenlp.js:45) is replaced by the six fields as parameters, and the year is a natural number. Nothing is said about years with a sign.
- `src/index.js` is not part of this model: it only wires the Elm ports to the promise callbacks.
- `webpack.config.js` is not part of this model: it is build configuration.
- The file stream, the `error` handler, the JSON write and the `done`/`setTimeout` polling loop (wordpack.js:3-21, 48, 86-89) are file I/O and event-loop timing. `PackWordsInFile` takes the chunks the stream delivers as a sequence.
- The object identity of the records is not modelled. The JavaScript simplifier mutates token records that the array holds, and `convertToElmFriendlyBins` shares the bin arrays with the dictionary. Here they are values in sequences and maps.
- WordPack.WordBins: the JavaScript dictionary keys are the decimal strings of the lengths, and `parseInt` turns them back into numbers. The model keys the map by the length itself, which is equivalent for these keys.
- WordPack.ConvertToElmFriendlyBins: the records come in ascending key order because `Object.keys` lists integer-like keys in ascending numeric order. This is a property of JavaScript objects that the model takes as given.
- Lengths count Dafny characters. JavaScript counts UTF-16 code units, which differ for characters outside the Basic Multilingual Plane.
- CoreNlp.ClassifyByPos: the code has no rule for apostrophe or contraction tokens. None is modelled.
- WordPack.Packer.Readable, WordPack.PackWordsInFile: these use the intended split (`WordPack.SplitChunk`), not the split as written (`WordPack.SplitChunkAsWritten`, see Findings). For a chunk without a newline the code holds back only that chunk and parses the old remainder plus all but its last character. The two agree on every stream whose chunks each hold a newline (`WordPack.AsWrittenAgreesWhenEveryChunkHasNewline`).

## Findings

| source | as written | input that shows it | evidently intended | confidence | as-written member | corrected member |
|---|---|---|---|---|---|---|
| wordpack.js:36-39 | A chunk without a newline gives `lastIndexOf` -1. So `chunk.slice(0, -1)` parses the held remainder plus all but the chunk's last character, and `chunk.slice(0)` holds back the whole chunk again. | the line `abcd ` delivered as the chunks `ab`, `cd`, ` \n` bins the fragments `ab` and `cd` | a chunk without a newline completes no line and is only added to the remainder, so `abcd` is binned | not executed | WordPack.SplitChunkAsWritten (shown by WordPack.SplitLineAsWritten) | WordPack.SplitChunk (proved by WordPack.StreamReassemblesLines, used by WordPack.Packer.Readable) |
