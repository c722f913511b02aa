/** The sampling walk and the text generator shared by both copies
    (rsg.go:138-179 and ngram.go:146-186). The copies differ only in their
    sentence markers and in the weight one occurrence of a successor gets,
    so both are parameters here. */
module Generation {
  import opened Text
  import opened Grams

  /** The token drawn for draw `r` from successors `succ` when every
      occurrence weighs `unit`: the sorted distinct successors are walked
      until their cumulative weight reaches `r`, `"<>"` if it never does. */
  function Sample(succ: seq<string>, unit: real, r: real): string
  {
    Pick(Candidates(succ), multiset(succ), unit, r)
  }

  /** The sampler depends on the successors only as a multiset. */
  lemma SampleByMultiset(succ: seq<string>, succ': seq<string>, unit: real, r: real)
    requires multiset(succ) == multiset(succ')
    ensures Sample(succ, unit, r) == Sample(succ', unit, r)
  {
    assert forall x :: x in succ <==> x in multiset(succ);
    assert forall x :: x in succ' <==> x in multiset(succ');
    CandidatesBySet(succ, succ');
  }

  /** The tokens generated from `window` with one draw each: every token is
      sampled after the current window, with weight `unit(succ)` per
      occurrence, and the window then slides. */
  function Generate(grams: seq<seq<string>>, contexts: seq<seq<string>>, gram: nat,
                    unit: seq<string> -> real, start: string, end: string,
                    window: seq<string>, draws: seq<real>): (out: seq<string>)
    requires Aligned(grams, contexts, gram)
    ensures |out| == |draws|
    decreases |draws|
  {
    if draws == [] then []
    else
      var succ := Successors(grams, contexts, gram, window);
      var cur := Sample(succ, unit(succ), draws[0]);
      [cur] + Generate(grams, contexts, gram, unit, start, end, Slide(gram, window, cur, start, end), draws[1..])
  }

  lemma GenerateStep(grams: seq<seq<string>>, contexts: seq<seq<string>>, gram: nat,
                     unit: seq<string> -> real, start: string, end: string,
                     window: seq<string>, draws: seq<real>, i: nat)
    requires Aligned(grams, contexts, gram) && i < |draws|
    ensures var succ := Successors(grams, contexts, gram, window);
            var cur := Sample(succ, unit(succ), draws[i]);
            Generate(grams, contexts, gram, unit, start, end, window, draws[i..])
            == [cur] + Generate(grams, contexts, gram, unit, start, end, Slide(gram, window, cur, start, end), draws[i + 1..])
  {
    assert draws[i..][0] == draws[i] && draws[i..][1..] == draws[i + 1..];
  }

  /** The window update of GetRandomText (rsg.go:164-175, ngram.go:171-182):
      all start markers again after an end marker, otherwise the window
      slides by one token unless it is empty (unigrams). */
  method NextWindow(gram: nat, cContext: seq<string>, cur: string, start: string, end: string) returns (next: seq<string>)
    ensures next == Slide(gram, cContext, cur, start, end)
  {
    next := cContext;
    if cur == end {
      next := AppendRepeated([], start, gram - 1);
      assert next == Repeat(start, gram - 1);
    } else {
      if gram != 1 {
        next := next + [cur];
        next := next[1..];
      }
    }
  }

  /** One round of the generator loop: emitting the sampled token and
      sliding the window leaves the rest of the output to generate. */
  lemma GenerateAdvance(grams: seq<seq<string>>, contexts: seq<seq<string>>, gram: nat,
                        unit: seq<string> -> real, start: string, end: string,
                        window: seq<string>, draws: seq<real>, i: nat,
                        emitted: seq<string>, all: seq<string>, cur: string)
    requires Aligned(grams, contexts, gram) && i < |draws|
    requires emitted + Generate(grams, contexts, gram, unit, start, end, window, draws[i..]) == all
    requires var succ := Successors(grams, contexts, gram, window);
             cur == Sample(succ, unit(succ), draws[i])
    ensures (emitted + [cur]) + Generate(grams, contexts, gram, unit, start, end, Slide(gram, window, cur, start, end), draws[i + 1..]) == all
  {
    var next := Slide(gram, window, cur, start, end);
    GenerateStep(grams, contexts, gram, unit, start, end, window, draws, i);
    AppendAssoc(emitted, [cur], Generate(grams, contexts, gram, unit, start, end, next, draws[i + 1..]));
  }

  /** The k-th generated token is sampled after the window reached by the
      tokens before it. */
  lemma {:induction false} GenerateFollowsWindow(grams: seq<seq<string>>, contexts: seq<seq<string>>, gram: nat,
                                                 unit: seq<string> -> real, start: string, end: string,
                                                 window: seq<string>, draws: seq<real>, k: nat)
    requires Aligned(grams, contexts, gram) && k < |draws|
    ensures var out := Generate(grams, contexts, gram, unit, start, end, window, draws);
            var succ := Successors(grams, contexts, gram, WindowAfter(gram, window, out[..k], start, end));
            out[k] == Sample(succ, unit(succ), draws[k])
    decreases k
  {
    var out := Generate(grams, contexts, gram, unit, start, end, window, draws);
    GenerateStep(grams, contexts, gram, unit, start, end, window, draws, 0);
    assert draws[0..] == draws;
    var succ := Successors(grams, contexts, gram, window);
    var cur := Sample(succ, unit(succ), draws[0]);
    var next := Slide(gram, window, cur, start, end);
    var rest := Generate(grams, contexts, gram, unit, start, end, next, draws[1..]);
    if k == 0 {
      assert out[..k] == [];
    } else {
      GenerateFollowsWindow(grams, contexts, gram, unit, start, end, next, draws[1..], k - 1);
      WindowAfterCons(gram, window, cur, rest, k, start, end);
      assert out[k] == rest[k - 1] && draws[1..][k - 1] == draws[k];
    }
  }

  /** Generating from the all-start window samples every token after a
      window of `gram - 1` tokens: the last `gram - 1` tokens of the current
      sentence (those after the latest end marker), padded in front with
      start markers. */
  lemma GeneratedTokenContext(grams: seq<seq<string>>, contexts: seq<seq<string>>, gram: nat,
                              unit: seq<string> -> real, start: string, end: string,
                              draws: seq<real>, k: nat)
    requires Aligned(grams, contexts, gram) && k < |draws|
    ensures var out := Generate(grams, contexts, gram, unit, start, end, Repeat(start, gram - 1), draws);
            var padded := Repeat(start, gram - 1) + SinceLast(out[..k], end);
            var succ := Successors(grams, contexts, gram, padded[|padded| - (gram - 1)..]);
            && |padded| >= gram - 1
            && out[k] == Sample(succ, unit(succ), draws[k])
  {
    var out := Generate(grams, contexts, gram, unit, start, end, Repeat(start, gram - 1), draws);
    GenerateFollowsWindow(grams, contexts, gram, unit, start, end, Repeat(start, gram - 1), draws, k);
    WindowIsSentenceTail(gram, out[..k], start, end);
  }
}
