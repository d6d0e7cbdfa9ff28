/**
 * The in-memory part of the word-list packer. It reads a word list in chunks,
 * reassembles the lines that chunk boundaries split, takes the word at the start of
 * each line, keeps the words longer than one character, bins them by length, and
 * turns the bins into a list of `{length, words}` records.
 */
module WordPack {
  import opened JsText
  import opened Optional

  // ---------------------------------------------------------------------------
  // Lines and words

  /**
   * `line.slice(0, line.indexOf(' ')).replace(/_/g, ' ')`: the text before the first
   * space, with underscores turned into spaces. A line without a space makes
   * `indexOf` return -1, and `slice(0, -1)` drops the line's last character.
   */
  function ExtractWord(line: string): (w: string)
    ensures ' ' in line ==> |w| < |line| && line[|w|] == ' ' && ' ' !in line[..|w|]
    ensures ' ' !in line ==> |w| == (if |line| == 0 then 0 else |line| - 1)
    ensures forall i :: 0 <= i < |w| ==> w[i] == (if line[i] == '_' then ' ' else line[i])
  {
    ReplaceAll(Slice(line, 0, IndexOf(line, ' ')), '_', ' ')
  }

  /** A line in the expected form, a word followed by one space, gives back that word. */
  lemma ExtractWordOfListLine(word: string)
    requires ' ' !in word
    ensures ExtractWord(word + " ") == ReplaceAll(word, '_', ' ')
  {
    var line := word + " ";
    assert line[..|word|] == word;
    assert IndexOf(line, ' ') == |word|;
  }

  predicate IsWordMoreThanOneLetter(word: string) {
    |word| > 1
  }

  /** `lines.map(extractWord).filter(isWordMoreThanOneLetter)`. */
  function PackedWords(lines: seq<string>): seq<string> {
    if |lines| == 0 then []
    else
      var w := ExtractWord(lines[|lines| - 1]);
      PackedWords(lines[..|lines| - 1]) + (if IsWordMoreThanOneLetter(w) then [w] else [])
  }

  lemma {:induction false} PackedWordsAppend(a: seq<string>, b: seq<string>)
    ensures PackedWords(a + b) == PackedWords(a) + PackedWords(b)
    decreases |b|
  {
    if |b| == 0 {
      assert a + b == a;
    } else {
      assert (a + b)[..|a + b| - 1] == a + b[..|b| - 1];
      PackedWordsAppend(a, b[..|b| - 1]);
    }
  }

  /** Only words of two or more characters survive the filter. */
  lemma {:induction false} PackedWordsAreLong(lines: seq<string>)
    ensures forall i :: 0 <= i < |PackedWords(lines)| ==> |PackedWords(lines)[i]| >= 2
    decreases |lines|
  {
    if |lines| > 0 {
      PackedWordsAreLong(lines[..|lines| - 1]);
    }
  }

  // ---------------------------------------------------------------------------
  // Bins

  /** The dictionary from word length to the words of that length. */
  type Bins = map<nat, seq<string>>

  /**
   * What `binWordsByLength` does to the dictionary: the word goes at the end of the
   * bin for its length, which is created empty when absent; no other bin changes.
   */
  function BinWord(bins: Bins, word: string): (r: Bins)
    ensures r.Keys == bins.Keys + {|word|}
    ensures r[|word|] == (if |word| in bins then bins[|word|] else []) + [word]
    ensures forall k :: k in bins && k != |word| ==> r[k] == bins[k]
  {
    bins[|word| := (if |word| in bins then bins[|word|] else []) + [word]]
  }

  /** The `reduce(binWordsByLength, wordBins)` over a list of words. */
  function BinAll(bins: Bins, words: seq<string>): Bins {
    if |words| == 0 then bins
    else BinWord(BinAll(bins, words[..|words| - 1]), words[|words| - 1])
  }

  /** The words of length `k`, in the order given. */
  function WithLength(words: seq<string>, k: nat): seq<string> {
    if |words| == 0 then []
    else WithLength(words[..|words| - 1], k) + (if |words[|words| - 1]| == k then [words[|words| - 1]] else [])
  }

  /** After binning, bin `k` is the old bin `k` followed by the words of length `k`, in the order they were read. */
  lemma {:induction false} BinAllIsFilterByLength(bins: Bins, words: seq<string>, k: nat)
    ensures k in BinAll(bins, words) <==> k in bins || WithLength(words, k) != []
    ensures k in BinAll(bins, words) ==>
      BinAll(bins, words)[k] == (if k in bins then bins[k] else []) + WithLength(words, k)
    decreases |words|
  {
    if |words| > 0 {
      BinAllIsFilterByLength(bins, words[..|words| - 1], k);
    }
  }

  lemma {:induction false} BinAllAppend(bins: Bins, a: seq<string>, b: seq<string>)
    ensures BinAll(bins, a + b) == BinAll(BinAll(bins, a), b)
    decreases |b|
  {
    if |b| == 0 {
      assert a + b == a;
    } else {
      assert (a + b)[..|a + b| - 1] == a + b[..|b| - 1];
      BinAllAppend(bins, a, b[..|b| - 1]);
    }
  }

  /** Every bin is non-empty, its key is at least 2, and every word in it has the key's length. */
  predicate WellFormedBins(bins: Bins) {
    forall k :: k in bins ==> k >= 2 && |bins[k]| > 0 && forall i :: 0 <= i < |bins[k]| ==> |bins[k][i]| == k
  }

  lemma {:induction false} BinAllKeepsWellFormed(bins: Bins, words: seq<string>)
    requires WellFormedBins(bins)
    requires forall i :: 0 <= i < |words| ==> |words[i]| >= 2
    ensures WellFormedBins(BinAll(bins, words))
    decreases |words|
  {
    if |words| > 0 {
      BinAllKeepsWellFormed(bins, words[..|words| - 1]);
    }
  }

  /** The dictionary object that `reduce` updates in place. */
  class WordBins {
    var bins: Bins

    constructor ()
      ensures bins == map[]
    {
      bins := map[];
    }
  }

  /** `binWordsByLength(accum, word)`: updates the dictionary in place and returns that same dictionary. */
  method BinWordsByLength(accum: WordBins, word: string) returns (r: WordBins)
    modifies accum
    ensures r == accum
    ensures accum.bins == BinWord(old(accum.bins), word)
  {
    var length := |word|;
    if length !in accum.bins {
      accum.bins := accum.bins[length := []];
    }
    accum.bins := accum.bins[length := accum.bins[length] + [word]];
    r := accum;
  }

  // ---------------------------------------------------------------------------
  // Records for the UI

  /** `{length, words}`. */
  datatype ElmBin = ElmBin(length: nat, words: seq<string>)

  lemma {:induction false} SmallestOf(s: set<nat>) returns (m: nat)
    requires s != {}
    ensures m in s && forall j :: j in s ==> m <= j
    decreases s
  {
    var x :| x in s;
    if s == {x} {
      m := x;
    } else {
      var t := s - {x};
      assert t != {} by {
        var y :| y in s && y != x;
        assert y in t;
      }
      var n := SmallestOf(t);
      m := if x < n then x else n;
      forall j | j in s ensures m <= j {
        if j != x {
          assert j in t;
        }
      }
    }
  }

  lemma MinimumExists(s: set<nat>)
    requires s != {}
    ensures exists k :: k in s && forall j :: j in s ==> k <= j
  {
    var m := SmallestOf(s);
  }

  function MinKey(bins: Bins): (k: nat)
    requires |bins| > 0
    ensures k in bins && forall j :: j in bins ==> k <= j
  {
    assert bins.Keys != {} by {
      var x :| x in bins;
    }
    MinimumExists(bins.Keys);
    var k :| k in bins && forall j :: j in bins ==> k <= j;
    k
  }

  lemma RemoveKey(bins: Bins, k: nat)
    requires k in bins
    ensures (bins - {k}).Keys == bins.Keys - {k}
    ensures |bins - {k}| == |bins| - 1
  {
    assert (bins - {k}).Keys == bins.Keys - {k};
    assert |bins.Keys - {k}| == |bins.Keys| - 1;
  }

  /** The lengths the records are for. */
  function Lengths(records: seq<ElmBin>): set<nat> {
    if |records| == 0 then {} else {records[0].length} + Lengths(records[1..])
  }

  lemma {:induction false} LengthsAreRecordLengths(records: seq<ElmBin>)
    ensures forall k :: k in Lengths(records) <==> exists i :: 0 <= i < |records| && records[i].length == k
    decreases |records|
  {
    if |records| > 0 {
      LengthsAreRecordLengths(records[1..]);
      forall k | k in Lengths(records) ensures exists i :: 0 <= i < |records| && records[i].length == k {
        if k != records[0].length {
          assert k in Lengths(records[1..]);
          var i :| 0 <= i < |records[1..]| && records[1..][i].length == k;
          assert records[i + 1].length == k;
        }
      }
      forall k | exists i :: 0 <= i < |records| && records[i].length == k ensures k in Lengths(records) {
        var i :| 0 <= i < |records| && records[i].length == k;
        if i > 0 {
          assert records[1..][i - 1].length == k;
        }
      }
    }
  }

  /**
   * `Object.keys(binnedWords).map(...)`: one record per key, holding that key and its
   * bin unchanged. Object keys that are integers come out in ascending numeric order.
   */
  function ConvertToElmFriendlyBins(bins: Bins): (r: seq<ElmBin>)
    ensures |r| == |bins|
    ensures Lengths(r) == bins.Keys
    ensures forall i :: 0 <= i < |r| ==> r[i].length in bins && bins[r[i].length] == r[i].words
    ensures forall i, j :: 0 <= i < j < |r| ==> r[i].length < r[j].length
    decreases |bins|
  {
    if |bins| == 0 then
      assert bins.Keys == {} by {
        if x :| x in bins.Keys {
          assert false;
        }
      }
      []
    else
      var k := MinKey(bins);
      RemoveKey(bins, k);
      var tail := ConvertToElmFriendlyBins(bins - {k});
      PrependSmallest(bins, k, tail);
      [ElmBin(k, bins[k])] + tail
  }

  /** The record of the smallest key, followed by the records of the other keys, are the records of all keys. */
  lemma PrependSmallest(bins: Bins, k: nat, tail: seq<ElmBin>)
    requires k in bins && forall j :: j in bins ==> k <= j
    requires |tail| == |bins| - 1 && Lengths(tail) == bins.Keys - {k}
    requires forall i :: 0 <= i < |tail| ==> tail[i].length in bins && tail[i].length != k && bins[tail[i].length] == tail[i].words
    requires forall i, j :: 0 <= i < j < |tail| ==> tail[i].length < tail[j].length
    ensures var r := [ElmBin(k, bins[k])] + tail;
      && |r| == |bins|
      && Lengths(r) == bins.Keys
      && (forall i :: 0 <= i < |r| ==> r[i].length in bins && bins[r[i].length] == r[i].words)
      && (forall i, j :: 0 <= i < j < |r| ==> r[i].length < r[j].length)
  {
    var r := [ElmBin(k, bins[k])] + tail;
    assert r[1..] == tail;
    assert forall i :: 1 <= i < |r| ==> r[i] == tail[i - 1];
  }

  /** Every key of the dictionary has a record. */
  lemma EveryKeyHasARecord(bins: Bins, k: nat)
    requires k in bins
    ensures exists i :: 0 <= i < |ConvertToElmFriendlyBins(bins)| && ConvertToElmFriendlyBins(bins)[i] == ElmBin(k, bins[k])
  {
    var r := ConvertToElmFriendlyBins(bins);
    LengthsAreRecordLengths(r);
    var i :| 0 <= i < |r| && r[i].length == k;
  }

  /** All the words of a list of records, record after record. */
  function AllWords(records: seq<ElmBin>): seq<string> {
    if |records| == 0 then [] else records[0].words + AllWords(records[1..])
  }

  /** The records of a non-empty dictionary: the smallest key's, then those of the rest. */
  lemma ConvertUnfold(bins: Bins)
    requires |bins| > 0
    ensures var m := MinKey(bins);
      multiset(AllWords(ConvertToElmFriendlyBins(bins)))
      == multiset(bins[m]) + multiset(AllWords(ConvertToElmFriendlyBins(bins - {m})))
  {
    var r := ConvertToElmFriendlyBins(bins);
    assert r[1..] == ConvertToElmFriendlyBins(bins - {MinKey(bins)});
  }

  /** Taking one key out: the records hold that key's words plus the records of the rest. */
  lemma {:induction false} ConvertWithoutKey(bins: Bins, k: nat)
    requires k in bins
    ensures multiset(AllWords(ConvertToElmFriendlyBins(bins)))
      == multiset(bins[k]) + multiset(AllWords(ConvertToElmFriendlyBins(bins - {k})))
    decreases |bins|
  {
    var m := MinKey(bins);
    ConvertUnfold(bins);
    if m != k {
      var withoutM, withoutK := bins - {m}, bins - {k};
      RemoveKey(bins, m);
      RemoveKey(bins, k);
      RemoveInEitherOrder(bins, m, k);
      ConvertWithoutKey(withoutM, k);
      ConvertWithoutKey(withoutK, m);
      SwapCounts(RecordWords(bins), RecordWords(withoutM), RecordWords(withoutK),
        RecordWords(withoutM - {k}), multiset(bins[m]), multiset(bins[k]));
    }
  }

  /** The words of the records of a dictionary, as a multiset. */
  function RecordWords(bins: Bins): multiset<string> {
    multiset(AllWords(ConvertToElmFriendlyBins(bins)))
  }

  lemma SwapCounts(all: multiset<string>, withoutM: multiset<string>, withoutK: multiset<string>,
                   both: multiset<string>, atM: multiset<string>, atK: multiset<string>)
    requires all == atM + withoutM && withoutM == atK + both && withoutK == atM + both
    ensures all == atK + withoutK
  {
  }

  lemma RemoveInEitherOrder(bins: Bins, m: nat, k: nat)
    requires m in bins && k in bins && m != k
    ensures k in bins - {m} && (bins - {m})[k] == bins[k]
    ensures m in bins - {k} && (bins - {k})[m] == bins[m]
    ensures (bins - {m}) - {k} == (bins - {k}) - {m}
  {
  }

  /** Binning a word changes no bin but its own. */
  lemma BinWordElsewhere(bins: Bins, word: string)
    ensures BinWord(bins, word) - {|word|} == bins - {|word|}
    ensures |word| !in bins ==> bins - {|word|} == bins
  {
  }

  /** Binning one more word puts exactly that word into the records. */
  lemma ConvertBinWord(bins: Bins, word: string)
    ensures multiset(AllWords(ConvertToElmFriendlyBins(BinWord(bins, word))))
      == multiset(AllWords(ConvertToElmFriendlyBins(bins))) + multiset{word}
  {
    var k := |word|;
    var b := BinWord(bins, word);
    BinWordElsewhere(bins, word);
    ConvertWithoutKey(b, k);
    if k in bins {
      ConvertWithoutKey(bins, k);
      assert multiset(b[k]) == multiset(bins[k]) + multiset{word};
      AddCounts(RecordWords(b), RecordWords(bins), RecordWords(bins - {k}), multiset(bins[k]), multiset{word});
    } else {
      assert multiset(b[k]) == multiset{word};
      AddCounts(RecordWords(b), RecordWords(bins), RecordWords(bins), multiset{}, multiset{word});
    }
  }

  lemma AddCounts(grown: multiset<string>, all: multiset<string>, rest: multiset<string>,
                  atOld: multiset<string>, added: multiset<string>)
    requires grown == (atOld + added) + rest && all == atOld + rest
    ensures grown == all + added
  {
  }

  /** The records hold every binned word once: the total word count is preserved. */
  lemma {:induction false} ConvertKeepsEveryWord(bins: Bins, words: seq<string>)
    ensures multiset(AllWords(ConvertToElmFriendlyBins(BinAll(bins, words))))
      == multiset(AllWords(ConvertToElmFriendlyBins(bins))) + multiset(words)
    decreases |words|
  {
    if |words| > 0 {
      var prefix, last := words[..|words| - 1], words[|words| - 1];
      ConvertKeepsEveryWord(bins, prefix);
      ConvertBinWord(BinAll(bins, prefix), last);
      MultisetOfLast(words);
    }
  }

  lemma MultisetOfLast(words: seq<string>)
    requires |words| > 0
    ensures multiset(words) == multiset(words[..|words| - 1]) + multiset{words[|words| - 1]}
  {
    assert words == words[..|words| - 1] + [words[|words| - 1]];
  }

  // ---------------------------------------------------------------------------
  // Chunks

  /**
   * The `readable` handler's split of a chunk, as written: the text before the
   * chunk's last newline, after the held remainder, is split into lines, and the
   * text after it becomes the new remainder. For a chunk without a newline,
   * `lastIndexOf` gives -1, so `slice(0, -1)` parses the remainder and all but the
   * chunk's last character, and `slice(0)` holds back the whole chunk.
   */
  function SplitChunkAsWritten(remainder: string, chunk: string): (string, seq<string>) {
    var lastNewLine := LastIndexOf(chunk, '\n');
    var parseableLines := remainder + Slice(chunk, 0, lastNewLine);
    (Slice(chunk, lastNewLine + 1, |chunk|), Lines(parseableLines))
  }

  /**
   * The same split as intended: a chunk without a newline completes no line, so it
   * is only added to the remainder.
   */
  function SplitChunk(remainder: string, chunk: string): (string, seq<string>) {
    var lastNewLine := LastIndexOf(chunk, '\n');
    if lastNewLine < 0 then (remainder + chunk, [])
    else (chunk[lastNewLine + 1..], Lines(remainder + chunk[..lastNewLine]))
  }

  /** On a chunk that holds a newline, which is every chunk of a list of short lines, the two agree. */
  lemma AsWrittenAgreesOnNewline(remainder: string, chunk: string)
    requires '\n' in chunk
    ensures SplitChunkAsWritten(remainder, chunk) == SplitChunk(remainder, chunk)
  {
    var k := LastIndexOf(chunk, '\n');
    assert Slice(chunk, 0, k) == chunk[..k];
    assert Slice(chunk, k + 1, |chunk|) == chunk[k + 1..];
  }

  function Concat(chunks: seq<string>): string {
    if |chunks| == 0 then "" else Concat(chunks[..|chunks| - 1]) + chunks[|chunks| - 1]
  }

  /** The remainder and all the lines parsed after a sequence of chunks, starting from an empty remainder. */
  function Stream(chunks: seq<string>): (string, seq<string>) {
    if |chunks| == 0 then ("", [])
    else
      var (remainder, lines) := Stream(chunks[..|chunks| - 1]);
      var (rest, more) := SplitChunk(remainder, chunks[|chunks| - 1]);
      (rest, lines + more)
  }

  function StreamAsWritten(chunks: seq<string>): (string, seq<string>) {
    if |chunks| == 0 then ("", [])
    else
      var (remainder, lines) := StreamAsWritten(chunks[..|chunks| - 1]);
      var (rest, more) := SplitChunkAsWritten(remainder, chunks[|chunks| - 1]);
      (rest, lines + more)
  }

  /** No line contains a newline. */
  predicate SingleLines(lines: seq<string>) {
    forall i :: 0 <= i < |lines| ==> '\n' !in lines[i]
  }

  /**
   * One chunk: the lines it completes and the new remainder make up the old
   * remainder followed by the chunk; the new remainder holds no newline.
   */
  lemma SplitChunkReassembles(remainder: string, chunk: string)
    requires '\n' !in remainder
    ensures var (rest, more) := SplitChunk(remainder, chunk);
      && '\n' !in rest
      && SingleLines(more)
      && (more == [] ==> rest == remainder + chunk)
      && (more != [] ==> remainder + chunk == Join(more) + "\n" + rest)
  {
    var k := LastIndexOf(chunk, '\n');
    if k >= 0 {
      assert chunk == chunk[..k] + "\n" + chunk[k + 1..];
      assert remainder + chunk == (remainder + chunk[..k]) + "\n" + chunk[k + 1..];
    }
  }

  lemma SingleLinesAppend(a: seq<string>, b: seq<string>)
    requires SingleLines(a) && SingleLines(b)
    ensures SingleLines(a + b)
  {
    forall i | 0 <= i < |a + b| ensures '\n' !in (a + b)[i] {
      if i < |a| { assert (a + b)[i] == a[i]; } else { assert (a + b)[i] == b[i - |a|]; }
    }
  }

  /**
   * The lines parsed are exactly the newline-terminated lines of the input, in
   * order, whatever the chunk boundaries; the remainder is the unterminated tail,
   * which is never parsed. No line is parsed while the input holds no newline.
   */
  lemma {:induction false} StreamReassemblesLines(chunks: seq<string>)
    ensures var (remainder, lines) := Stream(chunks);
      && '\n' !in remainder
      && SingleLines(lines)
      && (lines == [] ==> remainder == Concat(chunks))
      && (lines != [] ==> Concat(chunks) == Join(lines) + "\n" + remainder)
    decreases |chunks|
  {
    if |chunks| > 0 {
      var prefix, chunk := chunks[..|chunks| - 1], chunks[|chunks| - 1];
      StreamReassemblesLines(prefix);
      var (remainder, lines) := Stream(prefix);
      var (rest, more) := SplitChunk(remainder, chunk);
      SplitChunkReassembles(remainder, chunk);
      SingleLinesAppend(lines, more);
      assert Concat(chunks) == Concat(prefix) + chunk;
      if lines != [] && more != [] {
        JoinAppend(lines, more);
        TextAfterLines(Concat(prefix), Join(lines), remainder, chunk);
        TextAfterLines(remainder + chunk, Join(more), rest, []);
        assert Join(more) + "\n" + rest + [] == Join(more) + "\n" + rest;
        TextAfterLines(Concat(prefix) + chunk, Join(lines), Join(more) + "\n" + rest, []);
        TextAfterLines(Join(lines) + "\n" + Join(more), Join(lines), Join(more), []);
      } else if lines != [] {
        assert lines + more == lines;
        TextAfterLines(Concat(prefix), Join(lines), remainder, chunk);
      } else {
        assert lines + more == more;
      }
    }
  }

  lemma TextAfterLines(text: string, joined: string, tail: string, more: string)
    requires text == joined + "\n" + tail
    ensures text + more == joined + "\n" + (tail + more)
  {
  }

  /** When every chunk holds a newline, the handler as written parses what the intended one does. */
  lemma {:induction false} AsWrittenAgreesWhenEveryChunkHasNewline(chunks: seq<string>)
    requires forall i :: 0 <= i < |chunks| ==> '\n' in chunks[i]
    ensures StreamAsWritten(chunks) == Stream(chunks)
    decreases |chunks|
  {
    if |chunks| > 0 {
      AsWrittenAgreesWhenEveryChunkHasNewline(chunks[..|chunks| - 1]);
      AsWrittenAgreesOnNewline(StreamAsWritten(chunks[..|chunks| - 1]).0, chunks[|chunks| - 1]);
    }
  }

  /**
   * The line "abcd " split over the chunks "ab", "cd" and " \n": as written the
   * handler bins the two fragments "ab" and "cd"; the intended handler bins "abcd".
   */
  lemma SplitLineAsWritten()
    ensures PackedWords(StreamAsWritten(["ab", "cd", " \n"]).1) == ["ab", "cd"]
    ensures PackedWords(Stream(["ab", "cd", " \n"]).1) == ["abcd"]
  {
    WrittenStream();
    WrittenWords();
    IntendedStream();
    IntendedWords();
  }

  lemma IntendedWords()
    ensures PackedWords(["abcd "]) == ["abcd"]
  {
    var none: seq<string> := [];
    assert ["abcd "][..0] == [] && none + ["abcd"] == ["abcd"];
    assert ExtractWord("abcd ") == "abcd" by {
      ExtractExamples();
    }
  }

  lemma WrittenStream()
    ensures StreamAsWritten(["ab", "cd", " \n"]) == ("", ["a", "abc", "cd "])
  {
    WrittenSplits();
    var c1, c2, c3 := ["ab"], ["ab", "cd"], ["ab", "cd", " \n"];
    assert c1[..0] == [] && c2[..1] == c1 && c3[..2] == c2;
    assert [] + ["a"] == ["a"] && ["a"] + ["abc"] == ["a", "abc"] && ["a", "abc"] + ["cd "] == ["a", "abc", "cd "];
    assert StreamAsWritten(c1) == ("ab", ["a"]);
    assert StreamAsWritten(c2) == ("cd", ["a", "abc"]);
  }

  lemma WrittenWords()
    ensures PackedWords(["a", "abc", "cd "]) == ["ab", "cd"]
  {
    var written := ["a", "abc", "cd "];
    WrittenWordsOfTwo();
    assert written[..2] == ["a", "abc"];
    assert ExtractWord("cd ") == "cd" by {
      ExtractExamples();
    }
    assert ["ab"] + ["cd"] == ["ab", "cd"];
  }

  lemma WrittenWordsOfTwo()
    ensures PackedWords(["a", "abc"]) == ["ab"]
  {
    var lines := ["a", "abc"];
    assert lines[..1] == ["a"] && lines[..1][..0] == [];
    var none: seq<string> := [];
    assert ExtractWord("a") == "" && ExtractWord("abc") == "ab" by {
      ExtractExamples();
    }
    assert PackedWords(["a"]) == none + none;
    assert none + ["ab"] == ["ab"];
  }

  lemma ExtractExamples()
    ensures ExtractWord("a") == "" && ExtractWord("abc") == "ab" && ExtractWord("cd ") == "cd"
    ensures ExtractWord("abcd ") == "abcd"
  {
    assert ' ' !in "a";
    ExtractWithoutSpace();
    ExtractListWord("cd");
    ExtractListWord("abcd");
  }

  lemma ExtractWithoutSpace()
    ensures ExtractWord("abc") == "ab"
  {
    assert ' ' !in "abc";
    var w := ExtractWord("abc");
    assert |w| == 2 && w[0] == 'a' && w[1] == 'b';
  }

  lemma ExtractListWord(word: string)
    requires ' ' !in word && '_' !in word
    ensures ExtractWord(word + " ") == word
  {
    ExtractWordOfListLine(word);
    UnderscoreFree(word);
  }

  lemma UnderscoreFree(s: string)
    requires '_' !in s
    ensures ReplaceAll(s, '_', ' ') == s
  {
    var r := ReplaceAll(s, '_', ' ');
    assert forall i :: 0 <= i < |s| ==> r[i] == s[i];
  }

  lemma IntendedStream()
    ensures Stream(["ab", "cd", " \n"]) == ("", ["abcd "])
  {
    IntendedSplits();
    var c1, c2, c3 := ["ab"], ["ab", "cd"], ["ab", "cd", " \n"];
    assert c1[..0] == [] && c2[..1] == c1 && c3[..2] == c2;
    var none: seq<string> := [];
    assert none + none == none && none + ["abcd "] == ["abcd "];
    assert Stream(c1) == ("ab", []);
    assert Stream(c2) == ("abcd", []);
  }

  lemma WrittenSplits()
    ensures SplitChunkAsWritten("", "ab") == ("ab", ["a"])
    ensures SplitChunkAsWritten("ab", "cd") == ("cd", ["abc"])
    ensures SplitChunkAsWritten("cd", " \n") == ("", ["cd "])
  {
    assert '\n' !in "ab" && '\n' !in "cd";
    assert LastIndexOf(" \n", '\n') == 1;
    assert Slice("ab", 0, -1) == "a" && Slice("ab", 0, 2) == "ab";
    assert Slice("cd", 0, -1) == "c" && Slice("cd", 0, 2) == "cd";
    assert Slice(" \n", 0, 1) == " " && Slice(" \n", 2, 2) == "";
    assert "" + "a" == "a" && "ab" + "c" == "abc" && "cd" + " " == "cd ";
    NoNewlineLine("a");
    NoNewlineLine("abc");
    NoNewlineLine("cd ");
  }

  lemma IntendedSplits()
    ensures SplitChunk("", "ab") == ("ab", [])
    ensures SplitChunk("ab", "cd") == ("abcd", [])
    ensures SplitChunk("abcd", " \n") == ("", ["abcd "])
  {
    assert '\n' !in "ab" && '\n' !in "cd";
    assert LastIndexOf(" \n", '\n') == 1;
    assert " \n"[..1] == " " && " \n"[2..] == "";
    assert "" + "ab" == "ab" && "ab" + "cd" == "abcd" && "abcd" + " " == "abcd ";
    NoNewlineLine("abcd ");
  }

  lemma NoNewlineLine(s: string)
    requires '\n' !in s
    ensures Lines(s) == [s]
  {
  }

  // ---------------------------------------------------------------------------
  // The packer's state across stream events

  /** The state that `packWordsInFile` keeps between `readable` events. */
  class Packer {
    var chunkRemainder: string
    var wordBins: WordBins

    ghost predicate Valid()
      reads this, wordBins
    {
      WellFormedBins(wordBins.bins)
    }

    constructor ()
      ensures Valid() && fresh(wordBins)
      ensures chunkRemainder == "" && wordBins.bins == map[]
    {
      chunkRemainder := "";
      wordBins := new WordBins();
    }

    /** The `readable` handler, with the intended split of a chunk; `None` is `read()` returning `null`. */
    method Readable(chunk: Option<string>)
      requires Valid()
      modifies this, wordBins
      ensures Valid() && wordBins == old(wordBins)
      ensures chunk.None? ==> chunkRemainder == old(chunkRemainder) && wordBins.bins == old(wordBins.bins)
      ensures chunk.Some? ==>
        var (rest, lines) := SplitChunk(old(chunkRemainder), chunk.value);
        chunkRemainder == rest && wordBins.bins == BinAll(old(wordBins.bins), PackedWords(lines))
    {
      if chunk.None? {
        return;
      }
      var (rest, lines) := SplitChunk(chunkRemainder, chunk.value);
      chunkRemainder := rest;
      var words := PackedWords(lines);
      ghost var start := wordBins.bins;
      var i := 0;
      while i < |words|
        invariant 0 <= i <= |words|
        invariant wordBins == old(wordBins) && chunkRemainder == rest
        invariant wordBins.bins == BinAll(start, words[..i])
      {
        assert words[..i + 1][..i] == words[..i];
        var _ := BinWordsByLength(wordBins, words[i]);
        i := i + 1;
      }
      assert words[..i] == words;
      PackedWordsAreLong(lines);
      BinAllKeepsWellFormed(start, words);
    }

    /** The `end` handler: the bins as records; whatever remainder is held is not binned. */
    method End() returns (r: seq<ElmBin>)
      ensures r == ConvertToElmFriendlyBins(wordBins.bins)
    {
      r := ConvertToElmFriendlyBins(wordBins.bins);
    }
  }

  /** The records a sequence of chunks resolves to. */
  function Pack(chunks: seq<string>): seq<ElmBin> {
    ConvertToElmFriendlyBins(BinAll(map[], PackedWords(Stream(chunks).1)))
  }

  /** `packWordsInFile` with the stream's chunks given in order: one `readable` event per chunk, then `end`. */
  method PackWordsInFile(chunks: seq<string>) returns (r: seq<ElmBin>)
    ensures r == Pack(chunks)
  {
    var packer := new Packer();
    var i := 0;
    while i < |chunks|
      invariant 0 <= i <= |chunks|
      invariant packer.Valid()
      invariant packer.chunkRemainder == Stream(chunks[..i]).0
      invariant packer.wordBins.bins == BinAll(map[], PackedWords(Stream(chunks[..i]).1))
      invariant fresh(packer.wordBins)
    {
      assert chunks[..i + 1][..i] == chunks[..i];
      var (_, before) := Stream(chunks[..i]);
      var (_, more) := SplitChunk(packer.chunkRemainder, chunks[i]);
      PackedWordsAppend(before, more);
      BinAllAppend(map[], PackedWords(before), PackedWords(more));
      packer.Readable(Some(chunks[i]));
      i := i + 1;
    }
    assert chunks[..i] == chunks;
    r := packer.End();
  }

  /**
   * What the packer resolves to: ascending lengths, one record per length, each
   * word in the record of its own length (never shorter than two), and every
   * packed word exactly once.
   */
  lemma PackProperties(chunks: seq<string>)
    ensures var r, words := Pack(chunks), PackedWords(Stream(chunks).1);
      && (forall i, j :: 0 <= i < j < |r| ==> r[i].length < r[j].length)
      && (forall i :: 0 <= i < |r| ==> r[i].length >= 2 && r[i].words == WithLength(words, r[i].length))
      && multiset(AllWords(r)) == multiset(words)
  {
    var words := PackedWords(Stream(chunks).1);
    var bins := BinAll(map[], words);
    var r := Pack(chunks);
    PackedWordsAreLong(Stream(chunks).1);
    BinAllKeepsWellFormed(map[], words);
    forall i | 0 <= i < |r| ensures r[i].length >= 2 && r[i].words == WithLength(words, r[i].length) {
      BinAllIsFilterByLength(map[], words, r[i].length);
    }
    ConvertKeepsEveryWord(map[], words);
    assert ConvertToElmFriendlyBins(map[]) == [];
  }
}
