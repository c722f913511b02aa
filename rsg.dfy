/** The `rsg` copy of the n-gram model (rsg.go): a tokenizer that drops
    spaces and newlines and closes each sentence with one `<end>`, the
    model class with its trainer, estimator, sampler and generator, and the
    loader that trains on the sentences of a text. */
module Rsg {
  import opened Text
  import opened Scanner
  import opened Grams
  import opened Generation

  const Start := "<start>"
  const End := "<end>"

  /** The fifteen punctuation characters of the switch in rsg.go:37-41. */
  const PunctMarks := ".:!?',-\";()[]{}"

  /** IsPunct (rsg.go:36-43): the most common English punctuation marks, as
      one-character strings. */
  function IsPunct(s: string): bool
  {
    |s| == 1 && s[0] in PunctMarks
  }

  /** Exactly the fifteen one-character strings `. : ! ? ' , - " ; ( ) [ ] { }`
      are punctuation; neither newline nor space is, so the scan drops both. */
  lemma PunctStrings(s: string)
    ensures IsPunct(s) <==> s in {".", ":", "!", "?", "'", ",", "-", "\"", ";", "(", ")", "[", "]", "{", "}"}
    ensures !IsPunct("\n") && !IsPunct(" ")
  {
    if IsPunct(s) {
      assert s == [s[0]];
    }
  }

  lemma PunctOfChar(c: char)
    ensures IsPunct([c]) == (c in PunctMarks)
  {
    assert [c][0] == c;
  }

  /** The token list of a sentence: `gram - 1` start markers, the tokens of
      the trimmed text, one end marker. */
  function Tokens(gram: int, sen: string): seq<string>
  {
    Repeat(Start, gram - 1) + Scan(PunctMarks, TrimSpace(sen), "") + [End]
  }

  /** Tokenization (rsg.go:46-75). */
  method Tokenization(gram: int, sen: string) returns (tokenList: seq<string>)
    ensures tokenList == Tokens(gram, sen)
  {
    var s := TrimSpace(sen);
    tokenList := AppendRepeated([], Start, gram - 1);
    ghost var pad := tokenList;
    var word := "";
    var i := 0;
    while i < |s|
      invariant 0 <= i <= |s|
      invariant tokenList + Scan(PunctMarks, s[i..], word) == pad + Scan(PunctMarks, s, "")
    {
      var w := s[i];
      ScanStep(PunctMarks, s, i, word);
      PunctOfChar(w);
      ghost var before, pending := tokenList, word;
      if w != ' ' && w != '\n' && !IsPunct([w]) {
        word := word + [w];
      } else {
        if word != "" {
          tokenList := tokenList + [word];
          word := "";
        }
        assert tokenList == before + Flush(pending);
        if IsPunct([w]) {
          tokenList := tokenList + [[w]];
        }
        assert tokenList == before + Flush(pending) + PunctToken(PunctMarks, w);
        EmitStep(before, Flush(pending), PunctToken(PunctMarks, w), Scan(PunctMarks, s[i + 1..], ""));
      }
      i := i + 1;
    }
    assert s[i..] == [];
    assert tokenList + Flush(word) == pad + Scan(PunctMarks, s, "");
    if word != "" {
      tokenList := tokenList + [word];
    }
    assert tokenList == pad + Scan(PunctMarks, s, "");
    assert pad == Repeat(Start, gram - 1);
    tokenList := tokenList + [End];
  }

  /** A token list holds exactly `gram - 1` leading start markers and one
      closing end marker around the sentence's tokens; these are
      punctuation marks or words, and together they spell the trimmed text
      without its spaces and newlines. */
  lemma TokensShape(gram: int, sen: string)
    ensures var t := Tokens(gram, sen);
            var p := if gram <= 1 then 0 else gram - 1;
            && |t| >= p + 1
            && (forall i :: 0 <= i < p ==> t[i] == Start)
            && t[|t| - 1] == End
            && (forall tok :: tok in t[p..|t| - 1] ==> IsPunct(tok) || IsWord(PunctMarks, tok))
            && Concat(t[p..|t| - 1]) == Compact(PunctMarks, TrimSpace(sen))
  {
    var t := Tokens(gram, sen);
    var p := if gram <= 1 then 0 else gram - 1;
    var mid := Scan(PunctMarks, TrimSpace(sen), "");
    ScanShape(PunctMarks, TrimSpace(sen), "");
    assert t[p..|t| - 1] == mid;
    assert "" + Compact(PunctMarks, TrimSpace(sen)) == Compact(PunctMarks, TrimSpace(sen));
  }

  /** A sentence of words separated by single spaces and closed by a
      punctuation mark tokenizes to the start markers, the words, the mark
      and the end marker. */
  lemma TokensSentence(gram: int, words: seq<string>, p: char)
    requires |words| >= 1 && forall k :: 0 <= k < |words| ==> IsWord(PunctMarks, words[k])
    requires words[0] != [] && !IsSpace(words[0][0]) && p in PunctMarks
    ensures Tokens(gram, Join(words, ' ') + [p]) == Repeat(Start, gram - 1) + words + [[p], End]
  {
    assert forall k :: 0 <= k < |PunctMarks| ==> !IsSpace(PunctMarks[k]);
    TrimSentence(words, p);
    assert forall k :: 0 <= k < |PunctMarks| ==> PunctMarks[k] != ' ' && PunctMarks[k] != '\n';
    ScanSentence(PunctMarks, words, p);
    AppendAssoc(Repeat(Start, gram - 1), words + [[p]], [End]);
    assert words + [[p]] + [End] == words + [[p], End];
  }

  /** The tokenizer on the sample sentence "This is an example." with
      bigram padding: one start marker, the four words, the full stop and
      the end marker. */
  lemma TokensExample()
    ensures Tokens(2, "This is an example.") == [Start, "This", "is", "an", "example", ".", End]
  {
    var words := ["This", "is", "an", "example"];
    SampleSentence(words);
    assert "This is an example." == Join(words, ' ') + ".";
    assert forall k :: 0 <= k < |PunctMarks| ==> !IsLetter(PunctMarks[k]);
    LettersWord(PunctMarks, words[0]);
    LettersWord(PunctMarks, words[1]);
    LettersWord(PunctMarks, words[2]);
    LettersWord(PunctMarks, words[3]);
    assert PunctMarks[0] == '.';
    TokensSentence(2, words, '.');
    var t := Tokens(2, Join(words, ' ') + ".");
    assert t == Repeat(Start, 1) + words + [['.'], End];
    assert Repeat(Start, 1) == [Start];
    assert t == [Start] + words + [".", End];
    ExampleList(words);
  }

  lemma ExampleList(words: seq<string>)
    requires words == ["This", "is", "an", "example"]
    ensures [Start] + words + [".", End] == [Start, "This", "is", "an", "example", ".", End]
  {
  }

  /** A sentence of words without punctuation: the markers around the words. */
  lemma TokensWords(gram: int, words: seq<string>)
    requires |words| >= 1 && forall k :: 0 <= k < |words| ==> IsWord(PunctMarks, words[k])
    requires var s := Join(words, ' '); s != [] && !IsSpace(s[0]) && !IsSpace(s[|s| - 1])
    ensures Tokens(gram, Join(words, ' ')) == Repeat(Start, gram - 1) + words + [End]
  {
    assert forall k :: 0 <= k < |PunctMarks| ==> PunctMarks[k] != ' ';
    TrimPlain(Join(words, ' '));
    ScanWords(PunctMarks, words, []);
    assert Join(words, ' ') + [] == Join(words, ' ');
  }

  /** The two training sentences of the probability examples. */
  lemma ExampleSentence(gram: int, s: string, words: seq<string>)
    requires (s == "a b c d" && words == ["a", "b", "c", "d"]) || (s == "a b a b" && words == ["a", "b", "a", "b"])
    ensures Tokens(gram, s) == Repeat(Start, gram - 1) + words + [End]
  {
    ExampleJoin(s, words);
    ExampleLetters(words);
    TokensWords(gram, words);
  }

  lemma ExampleJoin(s: string, words: seq<string>)
    requires (s == "a b c d" && words == ["a", "b", "c", "d"]) || (s == "a b a b" && words == ["a", "b", "a", "b"])
    ensures Join(words, ' ') == s
  {
    assert words[1..][1..][1..] == [words[3]];
    assert Join(words[1..][1..], ' ') == [words[2][0], ' ', words[3][0]];
  }

  lemma ExampleLetters(words: seq<string>)
    requires |words| >= 1 && forall k :: 0 <= k < |words| ==> words[k] == "a" || words[k] == "b" || words[k] == "c" || words[k] == "d"
    ensures forall k :: 0 <= k < |words| ==> IsWord(PunctMarks, words[k])
  {
    assert forall k :: 0 <= k < |PunctMarks| ==> !IsLetter(PunctMarks[k]);
    forall k | 0 <= k < |words|
      ensures IsWord(PunctMarks, words[k])
    {
      LettersWord(PunctMarks, words[k]);
    }
  }

  /** With `gram = 1` the empty context is followed by every trained token:
      after "a b c d" and "a b a b", 3 of the 10 are "a" and 1 is "c". */
  lemma UnigramExample()
    ensures Prob(Observed(1, Tokens, ["a b c d", "a b a b"], []), "a") == Ratio(3, 10)
    ensures Prob(Observed(1, Tokens, ["a b c d", "a b a b"], []), "c") == Ratio(1, 10)
  {
    var t1, t2 := ["a", "b", "c", "d", End], ["a", "b", "a", "b", End];
    UnigramSeen(t1, t2);
    UnigramCount(t1, t2);
  }

  lemma UnigramSeen(t1: seq<string>, t2: seq<string>)
    requires t1 == ["a", "b", "c", "d", End] && t2 == ["a", "b", "a", "b", End]
    ensures Observed(1, Tokens, ["a b c d", "a b a b"], []) == t1 + t2
  {
    ExampleSentence(1, "a b c d", ["a", "b", "c", "d"]);
    ExampleSentence(1, "a b a b", ["a", "b", "a", "b"]);
    assert Repeat(Start, 0) == [];
    assert Tokens(1, "a b c d") == t1 && Tokens(1, "a b a b") == t2;
    ObservedPair(1, Tokens, "a b c d", "a b a b", []);
    FollowersAll(t1);
    FollowersAll(t2);
  }

  /** With `gram = 2`, "b" is followed by "c" in "a b c d" and by "a" and
      the end marker in "a b a b": "c" has probability 1/3 after ["b"]. */
  lemma BigramExample()
    ensures Prob(Observed(2, Tokens, ["a b c d", "a b a b"], ["b"]), "c") == Ratio(1, 3)
  {
    BigramSeen([Start, "a", "b", "c", "d", End], [Start, "a", "b", "a", "b", End]);
    BigramCount(Observed(2, Tokens, ["a b c d", "a b a b"], ["b"]));
  }

  lemma BigramCount(seen: seq<string>)
    requires seen == ["c", "a", End]
    ensures multiset(seen)["c"] == 1 && |seen| == 3
  {
    assert seen == ["c"] + ["a", End] && "c" !in ["a", End];
  }

  lemma BigramSeen(t1: seq<string>, t2: seq<string>)
    requires t1 == [Start, "a", "b", "c", "d", End] && t2 == [Start, "a", "b", "a", "b", End]
    ensures Observed(2, Tokens, ["a b c d", "a b a b"], ["b"]) == ["c", "a", End]
  {
    ExampleSentence(2, "a b c d", ["a", "b", "c", "d"]);
    ExampleSentence(2, "a b a b", ["a", "b", "a", "b"]);
    assert Repeat(Start, 1) == [Start];
    BigramLists(t1, t2);
    assert Tokens(2, "a b c d") == t1 && Tokens(2, "a b a b") == t2;
    ObservedPair(2, Tokens, "a b c d", "a b a b", ["b"]);
    BigramFollowers(t1, t2);
  }

  lemma BigramLists(t1: seq<string>, t2: seq<string>)
    requires t1 == [Start, "a", "b", "c", "d", End] && t2 == [Start, "a", "b", "a", "b", End]
    ensures t1 == [Start] + ["a", "b", "c", "d"] + [End] && t2 == [Start] + ["a", "b", "a", "b"] + [End]
  {
  }

  lemma UnigramCount(t1: seq<string>, t2: seq<string>)
    requires t1 == ["a", "b", "c", "d", End] && t2 == ["a", "b", "a", "b", End]
    ensures multiset(t1 + t2)["a"] == 3 && multiset(t1 + t2)["c"] == 1 && |t1 + t2| == 10
  {
    assert multiset(t1)["a"] == 1 && multiset(t1)["c"] == 1;
    assert multiset(t2)["a"] == 2 && multiset(t2)["c"] == 0;
  }

  /** Empty contents, which is also what a failed read leaves, are one empty
      sentence: the model then holds the single n-gram of the start markers
      and the end marker, not nothing. */
  lemma EmptyContents(gram: nat)
    requires gram >= 1
    ensures Corpus(gram, Tokens, Split("", '.')) == [Repeat(Start, gram - 1) + [End]]
  {
    assert Split("", '.') == [""];
    var t := Tokens(gram, "");
    assert TrimSpace("") == "";
    assert t == Repeat(Start, gram - 1) + [End];
    WindowsAligned(t, gram);
    assert t[0..gram] == t;
    assert [""][..0] == [];
  }

  lemma BigramFollowers(t1: seq<string>, t2: seq<string>)
    requires t1 == [Start, "a", "b", "c", "d", End] && t2 == [Start, "a", "b", "a", "b", End]
    ensures Followers(t1, 2, ["b"]) + Followers(t2, 2, ["b"]) == ["c", "a", End]
  {
    assert t1[0..1] != ["b"] && t2[0..1] != ["b"] by {
      assert t1[0..1][0] == Start && t2[0..1][0] == Start && |Start| != 1;
    }
    assert FollowersTo(t1, 2, ["b"], 1) == [] && FollowersTo(t2, 2, ["b"], 1) == [];
    assert FollowersTo(t1, 2, ["b"], 2) == [] && FollowersTo(t2, 2, ["b"], 2) == [];
    assert FollowersTo(t1, 2, ["b"], 3) == ["c"] && FollowersTo(t2, 2, ["b"], 3) == ["a"];
    assert FollowersTo(t1, 2, ["b"], 4) == ["c"] && FollowersTo(t2, 2, ["b"], 4) == ["a"];
  }

  /** NGramModel (rsg.go:12-16): the n-gram size and the parallel lists of
      n-grams and their contexts. */
  class NGramModel {
    const gram: nat
    var totalGram: seq<seq<string>>
    var contextGram: seq<seq<string>>

    ghost predicate Valid()
      reads this
    {
      Aligned(totalGram, contextGram, gram)
    }

    constructor(gram: nat)
      requires gram >= 1
      ensures this.gram == gram && totalGram == [] && contextGram == [] && Valid()
    {
      this.gram := gram;
      totalGram := [];
      contextGram := [];
    }

    /** updateNGram (rsg.go:79-95): append the sentence's windows and their
        contexts, leaving the stored entries as they were. */
    method UpdateNGram(sen: string)
      requires Valid()
      modifies this
      ensures Valid()
      ensures totalGram == old(totalGram) + Windows(Tokens(gram, sen), gram)
      ensures contextGram == old(contextGram) + ContextsOf(Windows(Tokens(gram, sen), gram), gram)
    {
      var tokenList := Tokenization(gram, sen);
      var newTotal, newContext := Slices(tokenList, gram);
      AlignedAppend(totalGram, contextGram, newTotal, newContext, gram);
      totalGram := totalGram + newTotal;
      contextGram := contextGram + newContext;
    }

    /** GetProb (rsg.go:98-116): the relative frequency of `token` after
        `context`, 0 for an unseen context. */
    method GetProb(context: seq<string>, token: string) returns (p: real)
      requires Valid()
      ensures p == Prob(Successors(totalGram, contextGram, gram, context), token)
    {
      var total: nat := 0;
      var counter: nat := 0;
      var tg, cg := totalGram, contextGram;
      ghost var seen: seq<string> := [];
      var i := 0;
      while i < |cg|
        invariant 0 <= i <= |cg|
        invariant seen == SuccessorsUpTo(tg, cg, gram, context, i)
        invariant total == |seen| && counter == multiset(seen)[token]
      {
        if cg[i] == context {
          var w := tg[i][gram - 1];
          MultisetSnoc(seen, w, token);
          total := total + 1;
          if w == token {
            counter := counter + 1;
          }
          seen := seen + [w];
        }
        SuccessorsUpToStep(tg, cg, gram, context, i);
        i := i + 1;
      }
      assert seen == Successors(tg, cg, gram, context);
      if total == 0 {
        return 0.0;
      }
      return Ratio(counter, total);
    }

    /** GetRandomToken (rsg.go:120-149), with the random number `r` passed in:
        count the successors of `context`, sort the distinct ones and walk
        their cumulative probabilities until one reaches `r`. */
    method GetRandomToken(context: seq<string>, r: real) returns (token: string)
      requires Valid()
      ensures token == RandomToken(Successors(totalGram, contextGram, gram, context), r)
    {
      var tg, cg := totalGram, contextGram;
      ghost var succ := Successors(tg, cg, gram, context);
      var counter, tokens, tList := Tally(tg, cg, gram, context);
      tList := Sort(tList);
      assert tList == Candidates(succ);
      var prob := Ratio(1, counter);
      token := Walk(tList, tokens, prob, r, succ);
    }

    /** One round of the GetRandomText loop (rsg.go:160-175): a token drawn
        after the current window is appended to the text with a space, and
        the window moves on. */
    method Emit(cContext: seq<string>, r: real, result: string, ghost emitted: seq<string>)
      returns (cur: string, result': string, next: seq<string>)
      requires Valid() && result == Spaced(emitted)
      ensures cur == RandomToken(Successors(totalGram, contextGram, gram, cContext), r)
      ensures result' == Spaced(emitted + [cur])
      ensures next == Slide(gram, cContext, cur, Start, End)
    {
      cur := GetRandomToken(cContext, r);
      SpacedSnoc(emitted, cur);
      result' := result + cur;
      result' := result' + " ";
      next := NextWindow(gram, cContext, cur, Start, End);
    }

    /** GetRandomText (rsg.go:152-179), with the random numbers for the
        `length` draws passed in: the generated tokens joined by spaces. */
    method GetRandomText(length: int, draws: seq<real>) returns (text: string)
      requires Valid() && length >= 1 && |draws| == length
      ensures text == Join(Generate(totalGram, contextGram, gram, Unit, Start, End, Repeat(Start, gram - 1), draws), ' ')
    {
      var tg, cg := totalGram, contextGram;
      var result := "";
      var cContext := AppendRepeated([], Start, gram - 1);
      assert cContext == Repeat(Start, gram - 1);
      ghost var all := Generate(tg, cg, gram, Unit, Start, End, cContext, draws);
      ghost var emitted: seq<string> := [];
      var i := 0;
      assert emitted + Generate(tg, cg, gram, Unit, Start, End, cContext, draws[i..]) == all by {
        assert draws[i..] == draws;
      }
      while i < length
        invariant 0 <= i <= length
        invariant result == Spaced(emitted)
        invariant emitted + Generate(tg, cg, gram, Unit, Start, End, cContext, draws[i..]) == all
      {
        var cur, next;
        cur, result, next := Emit(cContext, draws[i], result, emitted);
        GenerateAdvance(tg, cg, gram, Unit, Start, End, cContext, draws, i, emitted, all, cur);
        cContext := next;
        emitted := emitted + [cur];
        i := i + 1;
      }
      assert draws[i..] == [];
      assert emitted == all;
      SpacedIsJoin(emitted);
      text := result[..|result| - 1];
    }
  }

  /** The counting loop of GetRandomToken (rsg.go:126-136): the number of
      successors of `context`, the count of each, and the distinct ones in
      order of first occurrence. */
  method Tally(tg: seq<seq<string>>, cg: seq<seq<string>>, gram: nat, context: seq<string>)
    returns (counter: nat, tokens: map<string, nat>, tList: seq<string>)
    requires Aligned(tg, cg, gram)
    ensures var succ := Successors(tg, cg, gram, context);
            counter == |succ| && tokens == Counts(succ) && tList == Distinct(succ)
  {
    counter := 0;
    tokens := map[];
    tList := [];
    ghost var seen: seq<string> := [];
    var i := 0;
    while i < |tg|
      invariant 0 <= i <= |tg|
      invariant seen == SuccessorsUpTo(tg, cg, gram, context, i)
      invariant counter == |seen| && tokens == Counts(seen) && tList == Distinct(seen)
    {
      if cg[i] == context {
        var w := tg[i][gram - 1];
        counter := counter + 1;
        tokens, tList := Record(tokens, tList, w, seen);
        seen := seen + [w];
      }
      SuccessorsUpToStep(tg, cg, gram, context, i);
      i := i + 1;
    }
  }

  /** The count-map update of GetRandomToken (rsg.go:129-134): one more
      occurrence of `w`, which joins the candidate list on its first one. */
  method Record(tokens: map<string, nat>, tList: seq<string>, w: string, ghost seen: seq<string>)
    returns (tokens': map<string, nat>, tList': seq<string>)
    requires tokens == Counts(seen) && tList == Distinct(seen)
    ensures tokens' == Counts(seen + [w]) && tList' == Distinct(seen + [w])
  {
    TallyStep(seen, w, tokens, tList);
    if w in tokens {
      tokens' := tokens[w := tokens[w] + 1];
      tList' := tList;
    } else {
      tokens' := tokens[w := 1];
      tList' := tList + [w];
    }
  }

  /** The weight of one occurrence, `1 / counter`, with `counter` the number
      of successors; 0 for an unseen context, where it is never used. */
  function Unit(succ: seq<string>): real
  {
    Ratio(1, |succ|)
  }

  /** The token GetRandomToken returns for successors `succ` and draw `r`. */
  function RandomToken(succ: seq<string>, r: real): string
  {
    Sample(succ, Unit(succ), r)
  }

  /** NewNGram (rsg.go:182-198), with the file's contents passed in: a model
      of size `gram` trained on the `.`-separated sentences in order. */
  method NewNGram(gram: nat, contents: string) returns (model: NGramModel)
    requires gram >= 1
    ensures fresh(model) && model.Valid() && model.gram == gram
    ensures model.totalGram == Corpus(gram, Tokens, Split(contents, '.'))
    ensures model.contextGram == ContextsOf(model.totalGram, gram)
  {
    model := new NGramModel(gram);
    var senList := Split(contents, '.');
    var k := 0;
    while k < |senList|
      invariant 0 <= k <= |senList|
      invariant fresh(model) && model.Valid() && model.gram == gram
      invariant model.totalGram == Corpus(gram, Tokens, senList[..k])
      invariant model.contextGram == ContextsOf(model.totalGram, gram)
      modifies model
    {
      ghost var before := model.totalGram;
      model.UpdateNGram(senList[k]);
      assert senList[..k + 1][..k] == senList[..k];
      WindowsAligned(Tokens(gram, senList[k]), gram);
      ContextsOfAppend(before, Windows(Tokens(gram, senList[k]), gram), gram);
      k := k + 1;
    }
    assert senList[..k] == senList;
  }

  /** The sampler on a seen context, with a draw `r <= 1`, returns one of
      the context's successors; on an unseen context it returns `"<>"`. */
  lemma RandomTokenSpec(succ: seq<string>, r: real)
    requires r <= 1.0
    ensures succ == [] ==> RandomToken(succ, r) == NoToken
    ensures succ != [] ==> RandomToken(succ, r) in succ
  {
    var c, m := Candidates(succ), multiset(succ);
    CandidatesSpec(succ);
    if succ == [] {
      assert c == [];
    } else {
      assert succ[0] in c;
      ScaleUnit(|succ|);
      PickFinds(c, m, Unit(succ), r);
    }
  }

  /** The sampler is inverse-CDF sampling over the sorted distinct
      successors: it returns the first candidate whose cumulative count
      reaches `r * counter`, and `"<>"` when none does. */
  lemma RandomTokenIsInverseCdf(succ: seq<string>, r: real)
    requires succ != []
    ensures var c := Candidates(succ);
            var k := FirstCount(c, multiset(succ), |succ|, r, 0);
            RandomToken(succ, r) == if k < |c| then c[k] else NoToken
  {
    var c, m := Candidates(succ), multiset(succ);
    PickIsInverseCdf(c, m, Unit(succ), r);
    FirstCountIsFirstReach(c, m, |succ|, r, 0);
  }

  /** The order in which two batches of sentences are trained changes
      neither the estimated probabilities nor the sampled tokens. */
  lemma TrainingOrder(gram: nat, a: seq<string>, b: seq<string>, context: seq<string>, r: real, token: string)
    requires gram >= 1
    ensures Prob(Observed(gram, Tokens, a + b, context), token) == Prob(Observed(gram, Tokens, b + a, context), token)
    ensures RandomToken(Observed(gram, Tokens, a + b, context), r) == RandomToken(Observed(gram, Tokens, b + a, context), r)
  {
    var ab, ba := Observed(gram, Tokens, a + b, context), Observed(gram, Tokens, b + a, context);
    ObservedOrder(gram, Tokens, a, b, context);
    assert |ab| == |multiset(ab)| == |ba|;
    SampleByMultiset(ab, ba, Unit(ab), r);
  }
}
