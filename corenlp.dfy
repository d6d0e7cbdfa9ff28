/**
 * The client-side simplifier of CoreNLP annotation responses. Each sentence of a
 * response is a list of tagged tokens. The simplifier keeps nouns, verbs and adjectives
 * as elements of their own and folds all other text into "NA" filler elements between them.
 * The request timestamp formatter that the client sends with every request is also here.
 */
module CoreNlp {
  import opened JsText
  import opened Optional

  // ---------------------------------------------------------------------------
  // Data

  /** `typeNoun`, `typeVerb`, `typeAdjective` and `typeNotApplicable`. */
  datatype Kind = Noun | Verb | Adjective | NotApplicable

  /** One token of the service's response. */
  datatype RawToken = RawToken(word: string, originalText: string, pos: string, before: string, after: string)

  datatype Sentence = Sentence(tokens: seq<RawToken>)

  datatype Annotation = Annotation(sentences: seq<Sentence>)

  /** An element of the simplified output: `{kind, value}`. */
  datatype Token = Token(kind: Kind, value: string)

  // ---------------------------------------------------------------------------
  // Pure helpers

  /** The tag's first letter decides: `V` verb, `N` noun, `J` adjective, anything else (or no letter) NA. */
  function ClassifyByPos(pos: string): (k: Kind)
    ensures k == Verb <==> |pos| > 0 && pos[0] == 'V'
    ensures k == Noun <==> |pos| > 0 && pos[0] == 'N'
    ensures k == Adjective <==> |pos| > 0 && pos[0] == 'J'
    ensures k == NotApplicable <==> |pos| == 0 || pos[0] !in {'V', 'N', 'J'}
  {
    if |pos| > 0 && pos[0] == 'V' then Verb
    else if |pos| > 0 && pos[0] == 'N' then Noun
    else if |pos| > 0 && pos[0] == 'J' then Adjective
    else NotApplicable
  }

  /** False for the spurious sentence the service adds: a single token whose original text is `=`. */
  predicate IsGoodSentence(sentence: Sentence) {
    !(|sentence.tokens| == 1 && sentence.tokens[0].originalText == "=")
  }

  /** `{kind, value}`: the value is the token's word, and the element is word-class exactly for a `V`, `N` or `J` tag. */
  function ConvertToken(token: RawToken): (t: Token)
    ensures t.value == token.word
    ensures t.kind != NotApplicable <==> |token.pos| > 0 && token.pos[0] in {'V', 'N', 'J'}
  {
    Token(ClassifyByPos(token.pos), token.word)
  }

  function EmptyToken(): Token {
    Token(NotApplicable, "")
  }

  predicate IsWordClass(token: RawToken) {
    ClassifyByPos(token.pos) != NotApplicable
  }

  /** The text a filler token contributes: `before + word + after`. */
  function FillerText(token: RawToken): string {
    token.before + token.word + token.after
  }

  predicate LastIsFiller(corpus: seq<Token>) {
    |corpus| > 0 && corpus[|corpus| - 1].kind == NotApplicable
  }

  // ---------------------------------------------------------------------------
  // The fold, as functions of the accumulated corpus

  /**
   * What `appendToCorpus` does to the corpus. Empty text leaves it as it was.
   * Otherwise the text is joined to a trailing NA element, which is created empty
   * when the corpus does not end in one, and the first run of whitespace in the
   * joined value is collapsed. No earlier element changes.
   */
  function AppendText(corpus: seq<Token>, text: string): (r: seq<Token>)
    ensures |text| == 0 ==> r == corpus
    ensures |text| > 0 && LastIsFiller(corpus) ==>
      && |r| == |corpus| && r[..|corpus| - 1] == corpus[..|corpus| - 1]
      && r[|corpus| - 1] == Token(NotApplicable, CollapseFirstSpaceRun(corpus[|corpus| - 1].value + text))
    ensures |text| > 0 && !LastIsFiller(corpus) ==>
      r == corpus + [Token(NotApplicable, CollapseFirstSpaceRun(text))]
    ensures |text| > 0 ==>
      && LastIsFiller(r)
      && |r[|r| - 1].value| <= (if LastIsFiller(corpus) then |corpus[|corpus| - 1].value| else 0) + |text|
  {
    if |text| == 0 then corpus
    else
      var base := if LastIsFiller(corpus) then corpus else corpus + [EmptyToken()];
      var appendee := base[|base| - 1];
      assert appendee.value + text == if LastIsFiller(corpus) then corpus[|corpus| - 1].value + text else text;
      base[|base| - 1 := appendee.(value := CollapseFirstSpaceRun(appendee.value + text))]
  }

  /** One token of a kept sentence: `foldSpecialToken` for a word class, `foldNormalToken` otherwise. */
  function FoldToken(corpus: seq<Token>, token: RawToken): seq<Token> {
    var converted := ConvertToken(token);
    if converted.kind != NotApplicable then corpus + [converted]
    else AppendText(corpus, token.before + converted.value + token.after)
  }

  /** The inner `forEach` over a sentence's tokens. */
  function FoldTokens(corpus: seq<Token>, tokens: seq<RawToken>): seq<Token> {
    if |tokens| == 0 then corpus
    else FoldToken(FoldTokens(corpus, tokens[..|tokens| - 1]), tokens[|tokens| - 1])
  }

  /** The `reduce` over sentences, skipping the bad ones. */
  function FoldSentences(corpus: seq<Token>, sentences: seq<Sentence>): seq<Token> {
    if |sentences| == 0 then corpus
    else
      var before := FoldSentences(corpus, sentences[..|sentences| - 1]);
      var last := sentences[|sentences| - 1];
      if IsGoodSentence(last) then FoldTokens(before, last.tokens) else before
  }

  function TrimToken(token: Token): Token {
    if token.kind == NotApplicable then token.(value := Trim(token.value)) else token
  }

  /**
   * The final `map`: NA values are trimmed, word-class elements are left as they
   * are, and no element is added, dropped or moved (an NA element whose value
   * trims to nothing stays).
   */
  function TrimFillers(corpus: seq<Token>): (r: seq<Token>)
    ensures |r| == |corpus|
    ensures forall i :: 0 <= i < |r| ==> r[i].kind == corpus[i].kind
    ensures forall i :: 0 <= i < |r| && corpus[i].kind != NotApplicable ==> r[i] == corpus[i]
    ensures forall i :: 0 <= i < |r| && corpus[i].kind == NotApplicable ==> r[i].value == Trim(corpus[i].value)
  {
    if |corpus| == 0 then []
    else TrimFillers(corpus[..|corpus| - 1]) + [TrimToken(corpus[|corpus| - 1])]
  }

  /** `simplifyNlpData`. */
  function Simplify(data: Annotation): seq<Token> {
    TrimFillers(FoldSentences([], data.sentences))
  }

  // ---------------------------------------------------------------------------
  // The accumulator and the operations that change it in place

  /** The array that `reduce` threads through the fold. */
  class Corpus {
    var tokens: seq<Token>

    constructor ()
      ensures tokens == []
    {
      tokens := [];
    }
  }

  /** Returns the index of the trailing NA element, pushing an empty one first when there is none. */
  method GetOrCreateLastToken(corpus: Corpus) returns (i: nat)
    modifies corpus
    ensures LastIsFiller(old(corpus.tokens)) ==> corpus.tokens == old(corpus.tokens)
    ensures !LastIsFiller(old(corpus.tokens)) ==> corpus.tokens == old(corpus.tokens) + [EmptyToken()]
    ensures i == |corpus.tokens| - 1 && corpus.tokens[i].kind == NotApplicable
  {
    if !(|corpus.tokens| > 0) || corpus.tokens[|corpus.tokens| - 1].kind != NotApplicable {
      corpus.tokens := corpus.tokens + [EmptyToken()];
    }
    i := |corpus.tokens| - 1;
  }

  method AppendToCorpus(corpus: Corpus, text: string)
    modifies corpus
    ensures corpus.tokens == AppendText(old(corpus.tokens), text)
  {
    if |text| > 0 {
      var i := GetOrCreateLastToken(corpus);
      var appendee := corpus.tokens[i];
      corpus.tokens := corpus.tokens[i := appendee.(value := CollapseFirstSpaceRun(appendee.value + text))];
    }
  }

  method FoldSpecialToken(corpus: Corpus, converted: Token, original: RawToken)
    modifies corpus
    ensures corpus.tokens == old(corpus.tokens) + [converted]
  {
    corpus.tokens := corpus.tokens + [converted];
  }

  method FoldNormalToken(corpus: Corpus, converted: Token, original: RawToken)
    modifies corpus
    ensures corpus.tokens == AppendText(old(corpus.tokens), original.before + converted.value + original.after)
  {
    AppendToCorpus(corpus, original.before + converted.value + original.after);
  }

  /** The final `map`, which assigns the trimmed value into each NA element. */
  method TrimFillersInPlace(corpus: Corpus)
    modifies corpus
    ensures corpus.tokens == TrimFillers(old(corpus.tokens))
  {
    ghost var original := corpus.tokens;
    var i := 0;
    while i < |corpus.tokens|
      invariant |corpus.tokens| == |original|
      invariant 0 <= i <= |original|
      invariant forall k :: 0 <= k < i ==> corpus.tokens[k] == TrimToken(original[k])
      invariant forall k :: i <= k < |original| ==> corpus.tokens[k] == original[k]
    {
      var token := corpus.tokens[i];
      if token.kind == NotApplicable {
        corpus.tokens := corpus.tokens[i := token.(value := Trim(token.value))];
      }
      i := i + 1;
    }
    TrimFillersIsTrimToken(original, corpus.tokens);
  }

  /** Any sequence that trims each element of `corpus` in place is `TrimFillers(corpus)`. */
  lemma TrimFillersIsTrimToken(corpus: seq<Token>, r: seq<Token>)
    requires |r| == |corpus| && forall k :: 0 <= k < |r| ==> r[k] == TrimToken(corpus[k])
    ensures r == TrimFillers(corpus)
  {
    var t := TrimFillers(corpus);
    assert forall k :: 0 <= k < |r| ==> r[k] == t[k];
  }

  /** The inner `forEach` over one kept sentence: each token goes to `foldSpecialToken` or `foldNormalToken`. */
  method FoldSentence(corpus: Corpus, sentence: Sentence)
    modifies corpus
    ensures corpus.tokens == FoldTokens(old(corpus.tokens), sentence.tokens)
  {
    ghost var start := corpus.tokens;
    var j := 0;
    while j < |sentence.tokens|
      invariant 0 <= j <= |sentence.tokens|
      invariant corpus.tokens == FoldTokens(start, sentence.tokens[..j])
    {
      FoldTokensSnoc(start, sentence.tokens, j);
      FoldOneToken(corpus, sentence.tokens[j]);
      j := j + 1;
    }
    assert sentence.tokens[..j] == sentence.tokens;
  }

  /** The `forEach` callback for one token. */
  method FoldOneToken(corpus: Corpus, token: RawToken)
    modifies corpus
    ensures corpus.tokens == FoldToken(old(corpus.tokens), token)
  {
    var converted := ConvertToken(token);
    if converted.kind != NotApplicable {
      FoldSpecialToken(corpus, converted, token);
    } else {
      FoldNormalToken(corpus, converted, token);
    }
  }

  lemma FoldTokensSnoc(corpus: seq<Token>, tokens: seq<RawToken>, j: nat)
    requires j < |tokens|
    ensures FoldTokens(corpus, tokens[..j + 1]) == FoldToken(FoldTokens(corpus, tokens[..j]), tokens[j])
  {
    assert tokens[..j + 1][..j] == tokens[..j];
  }

  /** `simplifyNlpData`: a fresh accumulator, the fold over sentences and tokens, then the final pass. */
  method SimplifyNlpData(data: Annotation) returns (r: seq<Token>)
    ensures r == Simplify(data)
  {
    var corpus := new Corpus();
    var i := 0;
    while i < |data.sentences|
      invariant 0 <= i <= |data.sentences|
      invariant corpus.tokens == FoldSentences([], data.sentences[..i])
    {
      var sentence := data.sentences[i];
      assert data.sentences[..i + 1][..i] == data.sentences[..i];
      if IsGoodSentence(sentence) {
        FoldSentence(corpus, sentence);
      }
      i := i + 1;
    }
    assert data.sentences[..i] == data.sentences;
    TrimFillersInPlace(corpus);
    r := corpus.tokens;
  }

  // ---------------------------------------------------------------------------
  // Reference views of the token stream and of the output

  /** All tokens of the kept sentences, across sentence boundaries, in order. */
  function KeptTokens(sentences: seq<Sentence>): seq<RawToken> {
    if |sentences| == 0 then []
    else
      var last := sentences[|sentences| - 1];
      KeptTokens(sentences[..|sentences| - 1]) + (if IsGoodSentence(last) then last.tokens else [])
  }

  /** The word-class tokens of a stream, converted, in order. */
  function WordTokens(tokens: seq<RawToken>): seq<Token> {
    if |tokens| == 0 then []
    else
      var last := tokens[|tokens| - 1];
      WordTokens(tokens[..|tokens| - 1]) + (if IsWordClass(last) then [ConvertToken(last)] else [])
  }

  /** True when the stream ends inside a run of filler tokens (since the last word-class token) that holds some text. */
  predicate EndsInFillerRun(tokens: seq<RawToken>) {
    if |tokens| == 0 then false
    else
      var last := tokens[|tokens| - 1];
      if IsWordClass(last) then false
      else if |FillerText(last)| > 0 then true
      else EndsInFillerRun(tokens[..|tokens| - 1])
  }

  /**
   * The number of maximal runs of consecutive filler tokens that hold at least one
   * non-empty text: a filler token with text starts a run unless the stream before it
   * already ends inside one.
   */
  function FillerRuns(tokens: seq<RawToken>): nat {
    if |tokens| == 0 then 0
    else
      var prefix, last := tokens[..|tokens| - 1], tokens[|tokens| - 1];
      FillerRuns(prefix) + (if !IsWordClass(last) && |FillerText(last)| > 0 && !EndsInFillerRun(prefix) then 1 else 0)
  }

  /** The word-class elements of an output, in order. */
  function WordElements(corpus: seq<Token>): seq<Token> {
    if |corpus| == 0 then []
    else
      var last := corpus[|corpus| - 1];
      WordElements(corpus[..|corpus| - 1]) + (if last.kind != NotApplicable then [last] else [])
  }

  /** The number of NA elements of an output. */
  function FillerCount(corpus: seq<Token>): nat {
    if |corpus| == 0 then 0
    else FillerCount(corpus[..|corpus| - 1]) + (if corpus[|corpus| - 1].kind == NotApplicable then 1 else 0)
  }

  predicate NoAdjacentFillers(corpus: seq<Token>) {
    forall i :: 0 <= i && i + 1 < |corpus| ==> !(corpus[i].kind == NotApplicable && corpus[i + 1].kind == NotApplicable)
  }

  // ---------------------------------------------------------------------------
  // Properties of the fold

  lemma {:induction false} FoldTokensAppend(corpus: seq<Token>, a: seq<RawToken>, b: seq<RawToken>)
    ensures FoldTokens(corpus, a + b) == FoldTokens(FoldTokens(corpus, a), b)
    decreases |b|
  {
    if |b| == 0 {
      assert a + b == a;
    } else {
      assert (a + b)[..|a + b| - 1] == a + b[..|b| - 1];
      FoldTokensAppend(corpus, a, b[..|b| - 1]);
    }
  }

  lemma {:induction false} KeptTokensAppend(a: seq<Sentence>, b: seq<Sentence>)
    ensures KeptTokens(a + b) == KeptTokens(a) + KeptTokens(b)
    decreases |b|
  {
    if |b| == 0 {
      assert a + b == a;
    } else {
      assert (a + b)[..|a + b| - 1] == a + b[..|b| - 1];
      KeptTokensAppend(a, b[..|b| - 1]);
    }
  }

  /** The fold over sentences is the fold over the tokens of the kept sentences, joined across sentence boundaries. */
  lemma {:induction false} FoldSentencesIsFoldOfKept(corpus: seq<Token>, sentences: seq<Sentence>)
    ensures FoldSentences(corpus, sentences) == FoldTokens(corpus, KeptTokens(sentences))
    decreases |sentences|
  {
    if |sentences| > 0 {
      var prefix := sentences[..|sentences| - 1];
      var last := sentences[|sentences| - 1];
      FoldSentencesIsFoldOfKept(corpus, prefix);
      if IsGoodSentence(last) {
        FoldTokensAppend(corpus, KeptTokens(prefix), last.tokens);
      } else {
        assert KeptTokens(sentences) == KeptTokens(prefix) + [] == KeptTokens(prefix);
      }
    }
  }

  /** A bad sentence contributes nothing, wherever it stands among the others. */
  lemma BadSentenceContributesNothing(corpus: seq<Token>, before: seq<Sentence>, bad: Sentence, after: seq<Sentence>)
    requires !IsGoodSentence(bad)
    ensures FoldSentences(corpus, before + [bad] + after) == FoldSentences(corpus, before + after)
  {
    KeptTokensAppend(before + [bad], after);
    KeptTokensAppend(before, [bad]);
    KeptTokensAppend(before, after);
    assert [bad][..0] == [];
    assert KeptTokens([bad]) == KeptTokens([]) + [] == [];
    assert KeptTokens(before) + [] == KeptTokens(before);
    FoldSentencesIsFoldOfKept(corpus, before + [bad] + after);
    FoldSentencesIsFoldOfKept(corpus, before + after);
  }

  /** Appending filler text touches only NA elements, so the word-class elements stay as they were. */
  lemma AppendTextKeepsWordElements(corpus: seq<Token>, text: string)
    ensures WordElements(AppendText(corpus, text)) == WordElements(corpus)
  {
    var r := AppendText(corpus, text);
    if |text| > 0 {
      if LastIsFiller(corpus) {
        var n := |corpus|;
        assert corpus[..n - 1] == r[..n - 1];
        assert WordElements(r) == WordElements(r[..n - 1]) + [];
      } else {
        assert r[..|r| - 1] == corpus;
      }
    }
  }

  /**
   * Every word-class token appends exactly one element, its own word, and nothing
   * merges into it: the word-class elements of the output are the converted
   * word-class tokens of the input, in input order.
   */
  lemma {:induction false} WordElementsInInputOrder(corpus: seq<Token>, tokens: seq<RawToken>)
    ensures WordElements(FoldTokens(corpus, tokens)) == WordElements(corpus) + WordTokens(tokens)
    decreases |tokens|
  {
    if |tokens| > 0 {
      var prefix, last := tokens[..|tokens| - 1], tokens[|tokens| - 1];
      var before := FoldTokens(corpus, prefix);
      WordElementsInInputOrder(corpus, prefix);
      if IsWordClass(last) {
        assert FoldTokens(corpus, tokens) == before + [ConvertToken(last)];
        assert (before + [ConvertToken(last)])[..|before|] == before;
      } else {
        AppendTextKeepsWordElements(before, FillerText(last));
      }
    }
  }

  lemma AppendTextKeepsNoAdjacentFillers(corpus: seq<Token>, text: string)
    requires NoAdjacentFillers(corpus)
    ensures NoAdjacentFillers(AppendText(corpus, text))
  {
    var r := AppendText(corpus, text);
    if |text| > 0 && LastIsFiller(corpus) {
      forall i | 0 <= i < |r| ensures r[i].kind == corpus[i].kind {
        if i < |corpus| - 1 { assert r[i] == r[..|corpus| - 1][i]; }
      }
    }
  }

  /** No two adjacent NA elements: filler text always merges into the trailing NA element. */
  lemma {:induction false} FoldKeepsNoAdjacentFillers(corpus: seq<Token>, tokens: seq<RawToken>)
    requires NoAdjacentFillers(corpus)
    ensures NoAdjacentFillers(FoldTokens(corpus, tokens))
    decreases |tokens|
  {
    if |tokens| > 0 {
      var prefix, last := tokens[..|tokens| - 1], tokens[|tokens| - 1];
      FoldKeepsNoAdjacentFillers(corpus, prefix);
      if !IsWordClass(last) {
        AppendTextKeepsNoAdjacentFillers(FoldTokens(corpus, prefix), FillerText(last));
      }
    }
  }

  lemma FillerCountAppendText(corpus: seq<Token>, text: string)
    ensures FillerCount(AppendText(corpus, text)) == FillerCount(corpus) + (if |text| > 0 && !LastIsFiller(corpus) then 1 else 0)
  {
    var r := AppendText(corpus, text);
    if |text| > 0 {
      if LastIsFiller(corpus) {
        assert r[..|corpus| - 1] == corpus[..|corpus| - 1];
      } else {
        assert r[..|r| - 1] == corpus;
      }
    }
  }

  /**
   * Starting from the empty corpus, the output ends in an NA element exactly when
   * the stream ends inside a filler run with text, and it holds one NA element per
   * such run.
   */
  lemma {:induction false} FillerElementsCountRuns(tokens: seq<RawToken>)
    ensures LastIsFiller(FoldTokens([], tokens)) <==> EndsInFillerRun(tokens)
    ensures FillerCount(FoldTokens([], tokens)) == FillerRuns(tokens)
    decreases |tokens|
  {
    if |tokens| > 0 {
      var prefix, last := tokens[..|tokens| - 1], tokens[|tokens| - 1];
      var before := FoldTokens([], prefix);
      FillerElementsCountRuns(prefix);
      if IsWordClass(last) {
        assert FoldTokens([], tokens) == before + [ConvertToken(last)];
        assert (before + [ConvertToken(last)])[..|before|] == before;
      } else {
        FillerCountAppendText(before, FillerText(last));
      }
    }
  }

  lemma {:induction false} CountsAddUp(corpus: seq<Token>)
    ensures |corpus| == |WordElements(corpus)| + FillerCount(corpus)
    decreases |corpus|
  {
    if |corpus| > 0 {
      CountsAddUp(corpus[..|corpus| - 1]);
    }
  }

  lemma {:induction false} TrimFillersKeepsViews(corpus: seq<Token>)
    ensures WordElements(TrimFillers(corpus)) == WordElements(corpus)
    ensures FillerCount(TrimFillers(corpus)) == FillerCount(corpus)
    decreases |corpus|
  {
    if |corpus| > 0 {
      var prefix := corpus[..|corpus| - 1];
      var r := TrimFillers(corpus);
      TrimFillersKeepsViews(prefix);
      assert r[..|r| - 1] == TrimFillers(prefix);
    }
  }

  /**
   * What the simplifier promises about its output, for any response: no two adjacent
   * NA elements; the word-class elements are the word-class tokens of the kept
   * sentences in order; one NA element per filler run with text; hence a known
   * length; and every NA value trimmed.
   */
  lemma SimplifyProperties(data: Annotation)
    ensures var r, kept := Simplify(data), KeptTokens(data.sentences);
      && NoAdjacentFillers(r)
      && WordElements(r) == WordTokens(kept)
      && FillerCount(r) == FillerRuns(kept)
      && |r| == |WordTokens(kept)| + FillerRuns(kept)
      && forall i :: 0 <= i < |r| && r[i].kind == NotApplicable ==> Trim(r[i].value) == r[i].value
  {
    var kept := KeptTokens(data.sentences);
    var folded := FoldSentences([], data.sentences);
    var r := Simplify(data);
    FoldSentencesIsFoldOfKept([], data.sentences);
    FoldKeepsNoAdjacentFillers([], kept);
    WordElementsInInputOrder([], kept);
    assert WordElements([]) == [];
    FillerElementsCountRuns(kept);
    TrimFillersKeepsViews(folded);
    CountsAddUp(r);
    forall i | 0 <= i < |r| && r[i].kind == NotApplicable ensures Trim(r[i].value) == r[i].value {
      TrimIdempotent(folded[i].value);
    }
    assert NoAdjacentFillers(r) by {
      forall i | 0 <= i && i + 1 < |r| ensures r[i].kind == folded[i].kind {}
    }
  }

  // ---------------------------------------------------------------------------
  // Examples

  /**
   * "The cat sat" with each token's surrounding text as the service reports it:
   * the word-class tokens keep only their word, so the space after "cat" is
   * dropped and no filler element stands between "cat" and "sat".
   */
  lemma TheCatSat()
    ensures Simplify(Annotation([Sentence([
        RawToken("The", "The", "DT", "", " "),
        RawToken("cat", "cat", "NN", "", " "),
        RawToken("sat", "sat", "VBD", "", "")])]))
      == [Token(NotApplicable, "The"), Token(Noun, "cat"), Token(Verb, "sat")]
  {
    var the := RawToken("The", "The", "DT", "", " ");
    var cat := RawToken("cat", "cat", "NN", "", " ");
    var sat := RawToken("sat", "sat", "VBD", "", "");
    var s := Sentence([the, cat, sat]);
    assert [s][..0] == [];
    assert FoldSentences([], [s]) == FoldTokens([], [the, cat, sat]);
    TheCatSatFold(the, cat, sat);
    TheCatSatTrim();
  }

  lemma TheCatSatFold(the: RawToken, cat: RawToken, sat: RawToken)
    requires the == RawToken("The", "The", "DT", "", " ")
    requires cat == RawToken("cat", "cat", "NN", "", " ")
    requires sat == RawToken("sat", "sat", "VBD", "", "")
    ensures FoldTokens([], [the, cat, sat]) == [Token(NotApplicable, "The "), Token(Noun, "cat"), Token(Verb, "sat")]
  {
    var c1 := [Token(NotApplicable, "The ")];
    var c2 := c1 + [Token(Noun, "cat")];
    FoldStep([], [], the);
    assert [] + [the] == [the];
    FoldThe(the);
    FoldWord([the], c1, cat, Noun);
    assert [the] + [cat] == [the, cat];
    FoldWord([the, cat], c2, sat, Verb);
    assert [the, cat] + [sat] == [the, cat, sat];
    assert c2 + [Token(Verb, "sat")] == [Token(NotApplicable, "The "), Token(Noun, "cat"), Token(Verb, "sat")];
  }

  /** A word-class token appends its converted self. */
  lemma FoldWord(tokens: seq<RawToken>, before: seq<Token>, t: RawToken, k: Kind)
    requires FoldTokens([], tokens) == before
    requires k != NotApplicable && ClassifyByPos(t.pos) == k
    ensures FoldTokens([], tokens + [t]) == before + [Token(k, t.word)]
  {
    FoldStep([], tokens, t);
  }

  lemma FoldStep(corpus: seq<Token>, tokens: seq<RawToken>, t: RawToken)
    ensures FoldTokens(corpus, tokens + [t]) == FoldToken(FoldTokens(corpus, tokens), t)
  {
    assert (tokens + [t])[..|tokens|] == tokens;
  }

  lemma FoldThe(the: RawToken)
    requires the == RawToken("The", "The", "DT", "", " ")
    ensures FoldToken([], the) == [Token(NotApplicable, "The ")]
  {
    assert ClassifyByPos("DT") == NotApplicable;
    assert the.before + the.word + the.after == "The ";
    NoPairInThe();
    assert [] + [EmptyToken()] == [EmptyToken()];
    assert "" + "The " == "The ";
  }

  lemma NoPairInThe()
    ensures CollapseFirstSpaceRun("The ") == "The "
  {
    assert !IsSpace('T') && !IsSpace('h') && !IsSpace('e');
    assert forall k :: !SpacePairAt("The ", k);
  }

  lemma TheCatSatTrim()
    ensures TrimFillers([Token(NotApplicable, "The "), Token(Noun, "cat"), Token(Verb, "sat")])
      == [Token(NotApplicable, "The"), Token(Noun, "cat"), Token(Verb, "sat")]
  {
    var folded := [Token(NotApplicable, "The "), Token(Noun, "cat"), Token(Verb, "sat")];
    var r := [Token(NotApplicable, "The"), Token(Noun, "cat"), Token(Verb, "sat")];
    TrimThe();
    assert r[0] == TrimToken(folded[0]) && r[1] == TrimToken(folded[1]) && r[2] == TrimToken(folded[2]);
    TrimFillersIsTrimToken(folded, r);
  }

  lemma TrimThe()
    ensures Trim("The ") == "The"
  {
    assert !IsSpace('T') && !IsSpace('e') && IsSpace(' ');
    assert TextStart("The ", 0) == 0;
    assert TextEnd("The ", 0, 3) == 3;
    assert TextEnd("The ", 0, 4) == 3;
  }

  /** The collapse is applied once per append: only the first whitespace run of the joined value shrinks. */
  lemma CollapseOnlyFirstRun()
    ensures AppendText([Token(NotApplicable, "a ")], " b  c") == [Token(NotApplicable, "a b  c")]
  {
    var corpus := [Token(NotApplicable, "a ")];
    CollapseExample();
    var r := AppendText(corpus, " b  c");
    assert |r| == 1 && r[0] == Token(NotApplicable, "a b  c");
  }

  lemma CollapseExample()
    ensures CollapseFirstSpaceRun("a " + " b  c") == "a b  c"
  {
    assert "a " + " b  c" == "a" + "  " + "b  c";
    assert !IsSpace('a') && !IsSpace('b') && IsSpace(' ');
    CollapseReplacesLeftmostRun("a", "  ", "b  c");
  }

  // ---------------------------------------------------------------------------
  // The request timestamp

  /** The inner `f(n)`: a leading zero below 10, so that every value below 100 takes exactly two digits. */
  function Pad(n: nat): (r: string)
    ensures AllDigits(r) && DecimalValue(r) == n
    ensures n < 100 ==> r == [DigitChar(n / 10), DigitChar(n % 10)]
  {
    if n < 10 then
      var r := "0" + NatToString(n);
      assert r[..1] == "0";
      r
    else NatToString(n)
  }

  /**
   * `date()` over the clock fields it reads: `monthIndex` is `getMonth()` (from 0),
   * the others are the calendar year, day of month, hours, minutes and seconds.
   * The result is `Y-MM-DDTHH:mm:ss`.
   */
  function Date(year: nat, monthIndex: nat, day: nat, hours: nat, minutes: nat, seconds: nat): string {
    var m := monthIndex + 1;
    NatToString(year) + Fields(Pad(m), Pad(day), Pad(hours), Pad(minutes), Pad(seconds))
  }

  /** Everything after the year: `-MM-DDTHH:mm:ss`. */
  function Fields(month: string, day: string, hours: string, minutes: string, seconds: string): string {
    "-" + month + "-" + day + "T" + hours + ":" + minutes + ":" + seconds
  }

  lemma FieldsLayout(p1: string, p2: string, p3: string, p4: string, p5: string)
    requires |p1| == 2 && |p2| == 2 && |p3| == 2 && |p4| == 2 && |p5| == 2
    ensures var t := Fields(p1, p2, p3, p4, p5);
      && |t| == 15 && t[0] == '-' && t[3] == '-' && t[6] == 'T' && t[9] == ':' && t[12] == ':'
      && t[1] == p1[0] && t[2] == p1[1] && t[4] == p2[0] && t[5] == p2[1] && t[7] == p3[0] && t[8] == p3[1]
      && t[10] == p4[0] && t[11] == p4[1] && t[13] == p5[0] && t[14] == p5[1]
  {
  }

  datatype DateTime = DateTime(year: nat, month: nat, day: nat, hours: nat, minutes: nat, seconds: nat)

  function DigitValue(c: char): nat
    requires IsDigit(c)
  {
    (c as int) - ('0' as int)
  }

  /** Reads a two-digit field at `i`. */
  function Field(s: string, i: nat): Option<nat>
    requires i + 2 <= |s|
  {
    if IsDigit(s[i]) && IsDigit(s[i + 1]) then Some(DigitValue(s[i]) * 10 + DigitValue(s[i + 1])) else None
  }

  /** Reads back a `Y-MM-DDTHH:mm:ss` timestamp; the year takes whatever digits stand before the last fifteen characters. */
  function ParseTimestamp(s: string): Option<DateTime> {
    if |s| < 16 then None
    else
      var year, t := s[..|s| - 15], s[|s| - 15..];
      if !AllDigits(year) || t[0] != '-' || t[3] != '-' || t[6] != 'T' || t[9] != ':' || t[12] != ':' then None
      else
        match (Field(t, 1), Field(t, 4), Field(t, 7), Field(t, 10), Field(t, 13))
        case (Some(mo), Some(d), Some(h), Some(mi), Some(se)) => Some(DateTime(DecimalValue(year), mo, d, h, mi, se))
        case _ => None
  }

  /** For the values a clock gives, the timestamp has fixed-width fields that read back as the clock's values. */
  lemma DateRoundTrip(year: nat, monthIndex: nat, day: nat, hours: nat, minutes: nat, seconds: nat)
    requires monthIndex < 12 && 1 <= day <= 31 && hours < 24 && minutes < 60 && seconds < 60
    ensures |Date(year, monthIndex, day, hours, minutes, seconds)| == |NatToString(year)| + 15
    ensures ParseTimestamp(Date(year, monthIndex, day, hours, minutes, seconds))
      == Some(DateTime(year, monthIndex + 1, day, hours, minutes, seconds))
  {
    var p1, p2, p3, p4, p5 := Pad(monthIndex + 1), Pad(day), Pad(hours), Pad(minutes), Pad(seconds);
    var y := NatToString(year);
    var t := Fields(p1, p2, p3, p4, p5);
    FieldsLayout(p1, p2, p3, p4, p5);
    var s := y + t;
    assert s == Date(year, monthIndex, day, hours, minutes, seconds);
    FieldOfPad(t, 1, monthIndex + 1);
    FieldOfPad(t, 4, day);
    FieldOfPad(t, 7, hours);
    FieldOfPad(t, 10, minutes);
    FieldOfPad(t, 13, seconds);
    ParseJoined(y, t, DateTime(year, monthIndex + 1, day, hours, minutes, seconds));
  }

  lemma ParseJoined(y: string, t: string, d: DateTime)
    requires |y| >= 1 && AllDigits(y) && DecimalValue(y) == d.year && |t| == 15
    requires t[0] == '-' && t[3] == '-' && t[6] == 'T' && t[9] == ':' && t[12] == ':'
    requires Field(t, 1) == Some(d.month) && Field(t, 4) == Some(d.day) && Field(t, 7) == Some(d.hours)
    requires Field(t, 10) == Some(d.minutes) && Field(t, 13) == Some(d.seconds)
    ensures ParseTimestamp(y + t) == Some(d)
  {
    var s := y + t;
    assert s[..|s| - 15] == y && s[|s| - 15..] == t;
  }

  lemma FieldOfPad(s: string, i: nat, v: nat)
    requires v < 100 && i + 2 <= |s| && s[i] == Pad(v)[0] && s[i + 1] == Pad(v)[1]
    ensures Field(s, i) == Some(v)
  {
  }

  lemma DateExample()
    ensures Date(2017, 0, 5, 9, 3, 7) == "2017-01-05T09:03:07"
  {
    YearExample();
    PadExamples();
    JoinFields("2017", "01", "05", "09", "03", "07");
  }

  lemma YearExample()
    ensures NatToString(2017) == "2017"
  {
    assert NatToString(2) == "2";
    assert NatToString(20) == "20";
    assert NatToString(201) == "201";
  }

  lemma PadExamples()
    ensures Pad(1) == "01" && Pad(5) == "05" && Pad(9) == "09" && Pad(3) == "03" && Pad(7) == "07"
  {
  }

  lemma JoinFields(y: string, mo: string, d: string, h: string, mi: string, se: string)
    requires y == "2017" && mo == "01" && d == "05" && h == "09" && mi == "03" && se == "07"
    ensures y + "-" + mo + "-" + d + "T" + h + ":" + mi + ":" + se == "2017-01-05T09:03:07"
  {
  }
}
