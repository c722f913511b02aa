/** The `ngram` copy of the n-gram model (ngram.go): a tokenizer that
    keeps newlines as punctuation tokens and pads each sentence with
    `gram - 1` markers at both ends, the model class whose sampler counts a
    repeated successor twice, and the loader. */
module NGram {
  import opened Text
  import opened Scanner
  import opened Grams
  import opened Generation

  const SentStart := "<s>"
  const SentEnd := "</s>"

  /** The sixteen punctuation characters of the switch in ngram.go:38:
      those of rsg.go and the newline. */
  const PunctMarks := ".:!?',-\";()[]{}\n"

  /** IsPunct (ngram.go:36-42). */
  function IsPunct(s: string): bool
  {
    |s| == 1 && s[0] in PunctMarks
  }

  /** Exactly the fifteen one-character strings `. : ! ? ' , - " ; ( ) [ ] { }`
      and the newline are punctuation. */
  lemma PunctStrings(s: string)
    ensures IsPunct(s) <==> s in {".", ":", "!", "?", "'", ",", "-", "\"", ";", "(", ")", "[", "]", "{", "}", "\n"}
  {
    if IsPunct(s) {
      assert s == [s[0]];
    }
  }

  lemma PunctOfChar(c: char)
    ensures IsPunct([c]) == (c in PunctMarks)
  {
    assert [c][0] == c;
  }

  /** The token list of a sentence: `gram - 1` start markers, the tokens of
      the trimmed text, `gram - 1` end markers. */
  function Tokens(gram: int, sen: string): seq<string>
  {
    Repeat(SentStart, gram - 1) + Scan(PunctMarks, TrimSpace(sen), "") + Repeat(SentEnd, gram - 1)
  }

  /** Tokenize (ngram.go:44-73). */
  method Tokenize(gram: int, sen: string) returns (tokenList: seq<string>)
    ensures tokenList == Tokens(gram, sen)
  {
    var s := TrimSpace(sen);
    tokenList := AppendRepeated([], SentStart, gram - 1);
    ghost var pad := tokenList;
    var word := "";
    var i := 0;
    while i < |s|
      invariant 0 <= i <= |s|
      invariant tokenList + Scan(PunctMarks, s[i..], word) == pad + Scan(PunctMarks, s, "")
    {
      var w := s[i];
      ScanStep(PunctMarks, s, i, word);
      PunctOfChar(w);
      ghost var before, pending := tokenList, word;
      if w != ' ' && w != '\n' && !IsPunct([w]) {
        word := word + [w];
      } else {
        if word != "" {
          tokenList := tokenList + [word];
          word := "";
        }
        assert tokenList == before + Flush(pending);
        if IsPunct([w]) {
          tokenList := tokenList + [[w]];
        }
        assert tokenList == before + Flush(pending) + PunctToken(PunctMarks, w);
        EmitStep(before, Flush(pending), PunctToken(PunctMarks, w), Scan(PunctMarks, s[i + 1..], ""));
      }
      i := i + 1;
    }
    assert s[i..] == [];
    assert tokenList + Flush(word) == pad + Scan(PunctMarks, s, "");
    if word != "" {
      tokenList := tokenList + [word];
    }
    assert tokenList == pad + Scan(PunctMarks, s, "");
    assert pad == Repeat(SentStart, gram - 1);
    tokenList := AppendRepeated(tokenList, SentEnd, gram - 1);
  }

  /** A token list holds exactly `gram - 1` leading start markers and
      `gram - 1` closing end markers around the sentence's tokens; these are
      punctuation marks (a newline among them) or words, and together they
      spell the trimmed text without its spaces. */
  lemma TokensShape(gram: int, sen: string)
    ensures var t := Tokens(gram, sen);
            var p := if gram <= 1 then 0 else gram - 1;
            && |t| >= 2 * p
            && (forall i :: 0 <= i < p ==> t[i] == SentStart)
            && (forall i :: |t| - p <= i < |t| ==> t[i] == SentEnd)
            && (forall tok :: tok in t[p..|t| - p] ==> IsPunct(tok) || IsWord(PunctMarks, tok))
            && Concat(t[p..|t| - p]) == Compact(PunctMarks, TrimSpace(sen))
  {
    var t := Tokens(gram, sen);
    var p := if gram <= 1 then 0 else gram - 1;
    var mid := Scan(PunctMarks, TrimSpace(sen), "");
    ScanShape(PunctMarks, TrimSpace(sen), "");
    assert t[p..|t| - p] == mid;
    assert "" + Compact(PunctMarks, TrimSpace(sen)) == Compact(PunctMarks, TrimSpace(sen));
  }

  /** Inside a sentence a newline is not dropped but becomes a token, unlike
      in the rsg tokenizer: two words on two lines tokenize to the words
      around a `"\n"` token. */
  lemma NewlineToken(gram: int, a: string, b: string)
    requires IsWord(PunctMarks, a) && IsWord(PunctMarks, b)
    requires !IsSpace(a[0]) && !IsSpace(b[|b| - 1])
    ensures Tokens(gram, a + "\n" + b) == Repeat(SentStart, gram - 1) + [a, "\n", b] + Repeat(SentEnd, gram - 1)
  {
    var s := a + "\n" + b;
    assert s[0] == a[0] && s[|s| - 1] == b[|b| - 1];
    assert TrimLeft(s) == s;
    assert TrimRight(s) == s;
    NewlineScan(a, b);
  }

  lemma NewlineScan(a: string, b: string)
    requires IsWord(PunctMarks, a) && IsWord(PunctMarks, b)
    ensures Scan(PunctMarks, a + "\n" + b, "") == [a, "\n", b]
  {
    assert PunctMarks[15] == '\n';
    var tail := "\n" + b;
    assert a + "\n" + b == a + tail;
    ScanWordFirst(PunctMarks, a, tail);
    assert tail[0] == '\n' && tail[1..] == b;
    assert Scan(PunctMarks, tail, "") == ["\n"] + Scan(PunctMarks, b, "");
    ScanWordFirst(PunctMarks, b, "");
    assert b + "" == b;
  }

  /** A sentence of words separated by single spaces and closed by a
      punctuation mark other than the newline tokenizes to the start
      markers, the words, the mark and the end markers. */
  lemma TokensSentence(gram: int, words: seq<string>, p: char)
    requires |words| >= 1 && forall k :: 0 <= k < |words| ==> IsWord(PunctMarks, words[k])
    requires words[0] != [] && !IsSpace(words[0][0]) && p in PunctMarks && p != '\n'
    ensures Tokens(gram, Join(words, ' ') + [p]) == Repeat(SentStart, gram - 1) + words + [[p]] + Repeat(SentEnd, gram - 1)
  {
    assert forall k :: 0 <= k < 15 ==> !IsSpace(PunctMarks[k]);
    assert PunctMarks[15] == '\n';
    assert forall k :: 0 <= k < |PunctMarks| ==> PunctMarks[k] != ' ';
    TrimSentence(words, p);
    ScanSentence(PunctMarks, words, p);
  }

  /** White space around a sentence that neither starts nor ends with white
      space does not change its tokens. */
  lemma TokensBlanks(gram: int, a: string, s: string, b: string)
    requires forall k :: 0 <= k < |a| ==> IsSpace(a[k])
    requires forall k :: 0 <= k < |b| ==> IsSpace(b[k])
    requires s != [] && !IsSpace(s[0]) && !IsSpace(s[|s| - 1])
    ensures Tokens(gram, a + s + b) == Tokens(gram, s)
  {
    TrimBlanks(a, s, b);
    TrimPlain(s);
  }

  /** The words of the tokenizer tests are words of the scan. */
  lemma ExampleWords(words: seq<string>)
    requires words == ["This", "is", "an", "example"]
    ensures |words| >= 1 && forall k :: 0 <= k < |words| ==> IsWord(PunctMarks, words[k])
    ensures words[0] != [] && !IsSpace(words[0][0])
  {
    assert forall k :: 0 <= k < |PunctMarks| ==> !IsLetter(PunctMarks[k]);
    LettersWord(PunctMarks, words[0]);
    LettersWord(PunctMarks, words[1]);
    LettersWord(PunctMarks, words[2]);
    LettersWord(PunctMarks, words[3]);
  }

  /** The sentence of the tokenizer tests in ngram_test.go, with its two
      leading spaces and one trailing space, tokenizes with `gram = 1` to
      the bare tokens and with `gram = 2` to the tokens between one start
      and one end marker. */
  lemma TokenizeExamples()
    ensures Tokens(1, "  This is an example. ") == ["This", "is", "an", "example", "."]
    ensures Tokens(2, "  This is an example. ") == [SentStart, "This", "is", "an", "example", ".", SentEnd]
  {
    var words := ["This", "is", "an", "example"];
    SampleText(words);
    TokenizeSample(words);
    SampleLists(words);
  }

  lemma SampleText(words: seq<string>)
    requires words == ["This", "is", "an", "example"]
    ensures "  This is an example. " == "  " + Join(words, ' ') + ". "
  {
    SampleSentence(words);
  }

  lemma SampleLists(words: seq<string>)
    requires words == ["This", "is", "an", "example"]
    ensures words + ["."] == ["This", "is", "an", "example", "."]
    ensures [SentStart] + words + [".", SentEnd] == [SentStart, "This", "is", "an", "example", ".", SentEnd]
  {
  }

  lemma TokenizeSample(words: seq<string>)
    requires words == ["This", "is", "an", "example"]
    ensures Tokens(1, "  " + Join(words, ' ') + ". ") == words + ["."]
    ensures Tokens(2, "  " + Join(words, ' ') + ". ") == [SentStart] + words + [".", SentEnd]
  {
    SampleTokens(1, words);
    SampleTokens(2, words);
    assert Repeat(SentStart, 1) == [SentStart] && Repeat(SentEnd, 1) == [SentEnd];
    assert Repeat(SentStart, 0) == [] && Repeat(SentEnd, 0) == [];
  }

  lemma SampleTokens(gram: int, words: seq<string>)
    requires words == ["This", "is", "an", "example"]
    ensures Tokens(gram, "  " + Join(words, ' ') + ". ") == Repeat(SentStart, gram - 1) + words + ["."] + Repeat(SentEnd, gram - 1)
  {
    ExampleWords(words);
    assert PunctMarks[0] == '.';
    var s := Join(words, ' ') + ['.'];
    JoinHead(words);
    assert s[0] == words[0][0] && s[|s| - 1] == '.';
    assert "  " + Join(words, ' ') + ". " == "  " + s + " ";
    TokensBlanks(gram, "  ", s, " ");
    TokensSentence(gram, words, '.');
  }

  /** The tests in ngram_test.go call `t.Errorf` only when the token list
      EQUALS the list they spell out, and the lists they spell out are not
      what Tokenize returns: the `gram = 1` list carries markers, the
      `gram = 2` list two of each. So neither test reaches its `t.Errorf`. */
  lemma TokenizeTestsPass()
    ensures Tokens(1, "  This is an example. ") != [SentStart, "This", "is", "an", "example", ".", SentEnd]
    ensures Tokens(2, "  This is an example. ") != [SentStart, SentStart, "This", "is", "an", "example", ".", SentEnd, SentEnd]
  {
    TokenizeExamples();
  }

  /** contains (ngram.go:112-119): whether `e` occurs in `s`. */
  method Contains(s: seq<string>, e: string) returns (b: bool)
    ensures b <==> e in s
  {
    var i := 0;
    while i < |s|
      invariant 0 <= i <= |s|
      invariant e !in s[..i]
    {
      if s[i] == e {
        return true;
      }
      assert s[..i + 1] == s[..i] + [s[i]];
      i := i + 1;
    }
    assert s[..i] == s;
    return false;
  }

  /** The counting loop of GetRandomToken (ngram.go:129-144): `counter`
      grows by one per successor and by one more for each repeat of an
      already counted one, so it ends at twice the number of successors
      less the number of distinct ones; the count map and the distinct list
      (kept free of duplicates by `contains`) are as in rsg.go. */
  method Tally(tg: seq<seq<string>>, cg: seq<seq<string>>, gram: nat, context: seq<string>)
    returns (counter: nat, tokens: map<string, nat>, tList: seq<string>)
    requires Aligned(tg, cg, gram)
    ensures var succ := Successors(tg, cg, gram, context);
            counter == Counter(succ) && tokens == Counts(succ) && tList == Distinct(succ)
  {
    counter := 0;
    tokens := map[];
    tList := [];
    ghost var seen: seq<string> := [];
    var i := 0;
    while i < |tg|
      invariant 0 <= i <= |tg|
      invariant seen == SuccessorsUpTo(tg, cg, gram, context, i)
      invariant counter == Counter(seen) && tokens == Counts(seen) && tList == Distinct(seen)
    {
      if cg[i] == context {
        var w := tg[i][gram - 1];
        counter, tokens := Record(counter, tokens, w, seen, tList);
        var present := Contains(tList, w);
        if !present {
          tList := tList + [w];
        }
        DistinctSnoc(seen, w);
        seen := seen + [w];
      }
      SuccessorsUpToStep(tg, cg, gram, context, i);
      i := i + 1;
    }
  }

  /** The count update of GetRandomToken (ngram.go:131-138): one more
      occurrence of `w`, and a second increment of `counter` when `w` was
      already counted. */
  method Record(counter: nat, tokens: map<string, nat>, w: string, ghost seen: seq<string>, ghost tList: seq<string>)
    returns (counter': nat, tokens': map<string, nat>)
    requires counter == Counter(seen)
    requires tokens == Counts(seen) && tList == Distinct(seen)
    ensures counter' == Counter(seen + [w])
    ensures tokens' == Counts(seen + [w])
  {
    TallyStep(seen, w, tokens, tList);
    DistinctSnoc(seen, w);
    counter' := counter + 1;
    if w in tokens {
      counter' := counter' + 1;
      tokens' := tokens[w := tokens[w] + 1];
    } else {
      tokens' := tokens[w := 1];
    }
  }

  /** The `counter` of GetRandomToken (ngram.go:129-144): every occurrence
      of a successor is counted once, and once more unless it is the first
      occurrence of its token, so it is at least the number of successors. */
  function Counter(succ: seq<string>): (n: nat)
    ensures |succ| <= n <= 2 * |succ|
    ensures n == |succ| <==> |Distinct(succ)| == |succ|
  {
    2 * |succ| - |Distinct(succ)|
  }

  /** The weight of one occurrence, `1 / counter` with the doubled
      `counter`; 0 for an unseen context, where it is never used. */
  function Unit(succ: seq<string>): real
  {
    Ratio(1, Counter(succ))
  }

  /** The token GetRandomToken returns for successors `succ` and draw `r`. */
  function RandomToken(succ: seq<string>, r: real): string
  {
    Sample(succ, Unit(succ), r)
  }

  /** NGramModel (ngram.go:12-17): the n-gram size and the parallel lists of
      n-grams and their contexts. */
  class NGramModel {
    const gram: nat
    var totalGram: seq<seq<string>>
    var contextGram: seq<seq<string>>

    ghost predicate Valid()
      reads this
    {
      Aligned(totalGram, contextGram, gram)
    }

    constructor(gram: nat)
      requires gram >= 1
      ensures this.gram == gram && totalGram == [] && contextGram == [] && Valid()
    {
      this.gram := gram;
      totalGram := [];
      contextGram := [];
    }

    /** updateNGram (ngram.go:75-92): append the sentence's windows and their
        contexts, leaving the stored entries as they were. */
    method UpdateNGram(sen: string)
      requires Valid()
      modifies this
      ensures Valid()
      ensures totalGram == old(totalGram) + Windows(Tokens(gram, sen), gram)
      ensures contextGram == old(contextGram) + ContextsOf(Windows(Tokens(gram, sen), gram), gram)
    {
      var tokenList := Tokenize(gram, sen);
      var newTotal, newContext := Slices(tokenList, gram);
      AlignedAppend(totalGram, contextGram, newTotal, newContext, gram);
      totalGram := totalGram + newTotal;
      contextGram := contextGram + newContext;
    }

    /** GetProb (ngram.go:94-109): the relative frequency of `token` after
        `context`, 0 for an unseen context. */
    method GetProb(context: seq<string>, token: string) returns (p: real)
      requires Valid()
      ensures p == Prob(Successors(totalGram, contextGram, gram, context), token)
    {
      var total: nat := 0;
      var counter: nat := 0;
      var tg, cg := totalGram, contextGram;
      ghost var seen: seq<string> := [];
      var i := 0;
      while i < |tg|
        invariant 0 <= i <= |tg|
        invariant seen == SuccessorsUpTo(tg, cg, gram, context, i)
        invariant total == |seen| && counter == multiset(seen)[token]
      {
        if cg[i] == context {
          var w := tg[i][gram - 1];
          MultisetSnoc(seen, w, token);
          total := total + 1;
          if w == token {
            counter := counter + 1;
          }
          seen := seen + [w];
        }
        SuccessorsUpToStep(tg, cg, gram, context, i);
        i := i + 1;
      }
      assert seen == Successors(tg, cg, gram, context);
      if total == 0 {
        return 0.0;
      }
      return Ratio(counter, total);
    }

    /** GetRandomToken (ngram.go:123-157), with the random number `r` passed
        in: count the successors of `context` (a repeated one twice), sort
        the distinct ones and walk their cumulative weights until one
        reaches `r`. */
    method GetRandomToken(context: seq<string>, r: real) returns (token: string)
      requires Valid()
      ensures token == RandomToken(Successors(totalGram, contextGram, gram, context), r)
    {
      var tg, cg := totalGram, contextGram;
      ghost var succ := Successors(tg, cg, gram, context);
      var counter, tokens, tList := Tally(tg, cg, gram, context);
      tList := Sort(tList);
      assert tList == Candidates(succ);
      var prob := Ratio(1, counter);
      token := Walk(tList, tokens, prob, r, succ);
    }

    /** One round of the GetRandomText loop (ngram.go:168-182): a token drawn
        after the current window is appended to the text with a space, and
        the window moves on. */
    method Emit(cContext: seq<string>, r: real, result: string, ghost emitted: seq<string>)
      returns (cur: string, result': string, next: seq<string>)
      requires Valid() && result == Spaced(emitted)
      ensures cur == RandomToken(Successors(totalGram, contextGram, gram, cContext), r)
      ensures result' == Spaced(emitted + [cur])
      ensures next == Slide(gram, cContext, cur, SentStart, SentEnd)
    {
      cur := GetRandomToken(cContext, r);
      SpacedSnoc(emitted, cur);
      result' := result + cur;
      result' := result' + " ";
      next := NextWindow(gram, cContext, cur, SentStart, SentEnd);
    }

    /** GetRandomText (ngram.go:159-186), with the random numbers for the
        `length` draws passed in: the generated tokens joined by spaces. */
    method GetRandomText(length: int, draws: seq<real>) returns (text: string)
      requires Valid() && length >= 1 && |draws| == length
      ensures text == Join(Generate(totalGram, contextGram, gram, Unit, SentStart, SentEnd, Repeat(SentStart, gram - 1), draws), ' ')
    {
      var tg, cg := totalGram, contextGram;
      var result := "";
      var cContext := AppendRepeated([], SentStart, gram - 1);
      assert cContext == Repeat(SentStart, gram - 1);
      ghost var all := Generate(tg, cg, gram, Unit, SentStart, SentEnd, cContext, draws);
      ghost var emitted: seq<string> := [];
      var i := 0;
      assert emitted + Generate(tg, cg, gram, Unit, SentStart, SentEnd, cContext, draws[i..]) == all by {
        assert draws[i..] == draws;
      }
      while i < length
        invariant 0 <= i <= length
        invariant result == Spaced(emitted)
        invariant emitted + Generate(tg, cg, gram, Unit, SentStart, SentEnd, cContext, draws[i..]) == all
      {
        var cur, next;
        cur, result, next := Emit(cContext, draws[i], result, emitted);
        GenerateAdvance(tg, cg, gram, Unit, SentStart, SentEnd, cContext, draws, i, emitted, all, cur);
        cContext := next;
        emitted := emitted + [cur];
        i := i + 1;
      }
      assert draws[i..] == [];
      assert emitted == all;
      SpacedIsJoin(emitted);
      text := result[..|result| - 1];
    }
  }

  /** NewNGram (ngram.go:188-203), with the file's contents passed in: a model
      of size `gram` trained on the `.`-separated sentences in order. */
  method NewNGram(gram: nat, contents: string) returns (model: NGramModel)
    requires gram >= 1
    ensures fresh(model) && model.Valid() && model.gram == gram
    ensures model.totalGram == Corpus(gram, Tokens, Split(contents, '.'))
    ensures model.contextGram == ContextsOf(model.totalGram, gram)
  {
    model := new NGramModel(gram);
    var senList := Split(contents, '.');
    var k := 0;
    while k < |senList|
      invariant 0 <= k <= |senList|
      invariant fresh(model) && model.Valid() && model.gram == gram
      invariant model.totalGram == Corpus(gram, Tokens, senList[..k])
      invariant model.contextGram == ContextsOf(model.totalGram, gram)
      modifies model
    {
      ghost var before := model.totalGram;
      model.UpdateNGram(senList[k]);
      assert senList[..k + 1][..k] == senList[..k];
      WindowsAligned(Tokens(gram, senList[k]), gram);
      ContextsOfAppend(before, Windows(Tokens(gram, senList[k]), gram), gram);
      k := k + 1;
    }
    assert senList[..k] == senList;
  }

  /** Empty contents, which is also what a failed read leaves, are one empty
      sentence whose start and end markers give `gram - 1` n-grams, the
      `i`-th holding `gram - 1 - i` start markers and `i + 1` end markers:
      none with `gram = 1`, where there are no markers. */
  lemma EmptyContents(gram: nat)
    requires gram >= 1
    ensures |Corpus(gram, Tokens, Split("", '.'))| == gram - 1
    ensures forall i :: 0 <= i < gram - 1 ==>
              Corpus(gram, Tokens, Split("", '.'))[i] == Repeat(SentStart, gram - 1 - i) + Repeat(SentEnd, i + 1)
  {
    assert Split("", '.') == [""];
    var t := Tokens(gram, "");
    assert TrimSpace("") == "";
    assert t == Repeat(SentStart, gram - 1) + Repeat(SentEnd, gram - 1);
    WindowsAligned(t, gram);
    assert [""][..0] == [];
    assert Corpus(gram, Tokens, Split("", '.')) == Windows(t, gram);
    forall i | 0 <= i < gram - 1
      ensures Windows(t, gram)[i] == Repeat(SentStart, gram - 1 - i) + Repeat(SentEnd, i + 1)
    {
      MarkerWindow(t, gram, i);
    }
  }

  /** The `i`-th window of the marker-only token list. */
  lemma MarkerWindow(t: seq<string>, gram: nat, i: nat)
    requires gram >= 1 && i < gram - 1 && t == Repeat(SentStart, gram - 1) + Repeat(SentEnd, gram - 1)
    ensures t[i..i + gram] == Repeat(SentStart, gram - 1 - i) + Repeat(SentEnd, i + 1)
  {
    var w, r := t[i..i + gram], Repeat(SentStart, gram - 1 - i) + Repeat(SentEnd, i + 1);
    forall k | 0 <= k < gram
      ensures w[k] == r[k]
    {
      assert w[k] == t[i + k];
    }
  }

  /** On an unseen context the sampler returns `"<>"`; on a seen one it
      returns one of the successors or `"<>"`. */
  lemma RandomTokenRange(succ: seq<string>, r: real)
    ensures succ == [] ==> RandomToken(succ, r) == NoToken
    ensures RandomToken(succ, r) == NoToken || RandomToken(succ, r) in succ
  {
    var c, m := Candidates(succ), multiset(succ);
    CandidatesSpec(succ);
    PickIsInverseCdf(c, m, Unit(succ), r);
  }

  /** When no successor repeats, `counter` is the number of successors, as
      in rsg.go, and a draw `r <= 1` always yields one of them. */
  lemma RandomTokenNoRepeats(succ: seq<string>, r: real)
    requires succ != [] && |Distinct(succ)| == |succ| && r <= 1.0
    ensures RandomToken(succ, r) in succ
  {
    var c, m := Candidates(succ), multiset(succ);
    CandidatesSpec(succ);
    assert succ[0] in c;
    ScaleUnit(|succ|);
    PickFinds(c, m, Unit(succ), r);
  }

  /** The walk's weights add up to `|succ| / counter` only, which is below
      1 as soon as a successor repeats: a draw above that mass yields `"<>"`
      even on a seen context. */
  lemma RandomTokenMisses(succ: seq<string>, r: real)
    requires succ != [] && Ratio(|succ|, Counter(succ)) < r
    ensures RandomToken(succ, r) == NoToken
  {
    CandidatesMass(succ);
    WalkMisses(Candidates(succ), multiset(succ), |succ|, Counter(succ), r);
  }

  /** A context seen twice, both times followed by `"a"`: `counter` is 3,
      the walk's mass 2/3, and the draw 0.9 yields `"<>"`. */
  lemma RepeatExample(succ: seq<string>)
    requires succ == ["a", "a"]
    ensures RandomToken(succ, 0.9) == NoToken
  {
    assert succ == [] + ["a"] + ["a"];
    DistinctSnoc([], "a");
    DistinctSnoc(["a"], "a");
    assert |Distinct(succ)| == 1;
    RandomTokenMisses(succ, 0.9);
  }

  /** The sampler is inverse-CDF sampling over the sorted distinct
      successors: it returns the first candidate whose cumulative count
      reaches `r * counter`, and `"<>"` when none does. */
  lemma RandomTokenIsInverseCdf(succ: seq<string>, r: real)
    requires succ != []
    ensures var c := Candidates(succ);
            var k := FirstCount(c, multiset(succ), Counter(succ), r, 0);
            RandomToken(succ, r) == if k < |c| then c[k] else NoToken
  {
    var c, m := Candidates(succ), multiset(succ);
    PickIsInverseCdf(c, m, Unit(succ), r);
    FirstCountIsFirstReach(c, m, Counter(succ), r, 0);
  }

  /** The doubled counter depends on the successors only as a multiset. */
  lemma UnitByMultiset(succ: seq<string>, succ': seq<string>)
    requires multiset(succ) == multiset(succ')
    ensures |succ| == |succ'| && Unit(succ) == Unit(succ')
  {
    assert |succ| == |multiset(succ)| == |succ'|;
    assert forall x :: x in succ <==> x in multiset(succ);
    assert forall x :: x in succ' <==> x in multiset(succ');
    DistinctBySet(succ, succ');
    assert Counter(succ) == Counter(succ');
  }

  /** The order in which two batches of sentences are trained changes
      neither the estimated probabilities nor the sampled tokens. */
  lemma TrainingOrder(gram: nat, a: seq<string>, b: seq<string>, context: seq<string>, r: real, token: string)
    requires gram >= 1
    ensures Prob(Observed(gram, Tokens, a + b, context), token) == Prob(Observed(gram, Tokens, b + a, context), token)
    ensures RandomToken(Observed(gram, Tokens, a + b, context), r) == RandomToken(Observed(gram, Tokens, b + a, context), r)
  {
    var ab, ba := Observed(gram, Tokens, a + b, context), Observed(gram, Tokens, b + a, context);
    ObservedOrder(gram, Tokens, a, b, context);
    UnitByMultiset(ab, ba);
    SampleByMultiset(ab, ba, Unit(ab), r);
  }
}
