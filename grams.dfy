/** The n-gram store shared by both copies of the model: the aligned lists of
    n-grams and contexts, the successors of a context, the empirical
    conditional probability, the inverse-CDF walk over sorted candidates and
    the generator's sliding context window. */
module Grams {
  import opened Text

  /** The token a sampler returns when its walk selects nothing. */
  const NoToken := "<>"

  /** The model's invariant: one context per n-gram, every n-gram holds `gram`
      tokens, and each context is its n-gram without the last token. */
  predicate Aligned(grams: seq<seq<string>>, contexts: seq<seq<string>>, gram: nat)
  {
    && gram >= 1
    && |grams| == |contexts|
    && forall i :: 0 <= i < |grams| ==> |grams[i]| == gram && contexts[i] == grams[i][..gram - 1]
  }

  /** The windows `tokens[i..i + gram]`, one per start `i` at which a whole
      window fits. */
  function Windows(tokens: seq<string>, gram: nat): seq<seq<string>>
  {
    WindowsTo(tokens, gram, if |tokens| < gram then 0 else |tokens| - gram + 1)
  }

  /** The first `n` windows. */
  function WindowsTo(tokens: seq<string>, gram: nat, n: nat): seq<seq<string>>
    requires n == 0 || n + gram <= |tokens| + 1
  {
    seq(n, i requires 0 <= i < n => tokens[i..i + gram])
  }

  /** The first `gram - 1` tokens of each n-gram. */
  function ContextsOf(grams: seq<seq<string>>, gram: nat): seq<seq<string>>
    requires gram >= 1
    requires forall i :: 0 <= i < |grams| ==> |grams[i]| >= gram - 1
  {
    seq(|grams|, i requires 0 <= i < |grams| => grams[i][..gram - 1])
  }

  /** The windows of a token list and their contexts are aligned, and there
      are `max(0, |tokens| - gram + 1)` of them. */
  lemma WindowsAligned(tokens: seq<string>, gram: nat)
    requires gram >= 1
    ensures |Windows(tokens, gram)| == if |tokens| >= gram then |tokens| - gram + 1 else 0
    ensures forall i :: 0 <= i < |Windows(tokens, gram)| ==> Windows(tokens, gram)[i] == tokens[i..i + gram]
    ensures Aligned(Windows(tokens, gram), ContextsOf(Windows(tokens, gram), gram), gram)
  {
  }

  lemma WindowsToSnoc(tokens: seq<string>, gram: nat, n: nat)
    requires gram >= 1 && n + gram <= |tokens|
    ensures WindowsTo(tokens, gram, n + 1) == WindowsTo(tokens, gram, n) + [tokens[n..n + gram]]
    ensures ContextsOf(WindowsTo(tokens, gram, n + 1), gram)
            == ContextsOf(WindowsTo(tokens, gram, n), gram) + [tokens[n..n + gram - 1]]
  {
    var w, w' := WindowsTo(tokens, gram, n), WindowsTo(tokens, gram, n + 1);
    assert w' == w + [tokens[n..n + gram]];
    ContextsOfAppend(w, [tokens[n..n + gram]], gram);
    var c := ContextsOf([tokens[n..n + gram]], gram);
    assert |c| == 1 && c[0] == tokens[n..n + gram][..gram - 1];
    assert tokens[n..n + gram][..gram - 1] == tokens[n..n + gram - 1];
    assert c == [tokens[n..n + gram - 1]];
  }

  /** The slicing loop of updateNGram (rsg.go:88-91, ngram.go:84-87): the
      windows of `gram` tokens in order, each with its context, aligned. */
  method Slices(tokenList: seq<string>, gram: nat) returns (newTotal: seq<seq<string>>, newContext: seq<seq<string>>)
    requires gram >= 1
    ensures newTotal == Windows(tokenList, gram) && newContext == ContextsOf(newTotal, gram)
    ensures Aligned(newTotal, newContext, gram)
  {
    newTotal := [];
    newContext := [];
    var i := 0;
    while i < |tokenList| - gram + 1
      invariant 0 <= i && (i <= |tokenList| - gram + 1 || i == 0)
      invariant newTotal == WindowsTo(tokenList, gram, i)
      invariant newContext == ContextsOf(newTotal, gram)
    {
      WindowsToSnoc(tokenList, gram, i);
      newTotal := newTotal + [tokenList[i..i + gram]];
      newContext := newContext + [tokenList[i..i + gram - 1]];
      i := i + 1;
    }
    assert newTotal == Windows(tokenList, gram);
    WindowsAligned(tokenList, gram);
  }

  lemma AlignedAppend(g1: seq<seq<string>>, c1: seq<seq<string>>, g2: seq<seq<string>>, c2: seq<seq<string>>, gram: nat)
    requires Aligned(g1, c1, gram) && Aligned(g2, c2, gram)
    ensures Aligned(g1 + g2, c1 + c2, gram)
  {
    assert forall i :: 0 <= i < |g2| ==> (g1 + g2)[|g1| + i] == g2[i] && (c1 + c2)[|c1| + i] == c2[i];
  }

  /** The last token of every stored n-gram whose context equals `context`,
      in store order: the tokens observed after `context`. */
  function Successors(grams: seq<seq<string>>, contexts: seq<seq<string>>, gram: nat, context: seq<string>): seq<string>
    requires Aligned(grams, contexts, gram)
  {
    SuccessorsUpTo(grams, contexts, gram, context, |grams|)
  }

  /** The successors among the first `n` stored entries. */
  function SuccessorsUpTo(grams: seq<seq<string>>, contexts: seq<seq<string>>, gram: nat, context: seq<string>, n: nat): seq<string>
    requires Aligned(grams, contexts, gram) && n <= |grams|
  {
    if n == 0 then []
    else
      SuccessorsUpTo(grams, contexts, gram, context, n - 1)
      + (if contexts[n - 1] == context then [grams[n - 1][gram - 1]] else [])
  }

  /** One more entry adds its last token when its context matches. */
  lemma SuccessorsUpToStep(grams: seq<seq<string>>, contexts: seq<seq<string>>, gram: nat, context: seq<string>, n: nat)
    requires Aligned(grams, contexts, gram) && n < |grams|
    ensures SuccessorsUpTo(grams, contexts, gram, context, n + 1)
            == if contexts[n] == context then SuccessorsUpTo(grams, contexts, gram, context, n) + [grams[n][gram - 1]]
               else SuccessorsUpTo(grams, contexts, gram, context, n)
  {
    assert SuccessorsUpTo(grams, contexts, gram, context, n) + [] == SuccessorsUpTo(grams, contexts, gram, context, n);
  }

  /** Appending entries does not change the successors among the first ones. */
  lemma {:induction false} SuccessorsUpToFrame(g1: seq<seq<string>>, c1: seq<seq<string>>,
                                               g2: seq<seq<string>>, c2: seq<seq<string>>,
                                               gram: nat, context: seq<string>, n: nat)
    requires Aligned(g1, c1, gram) && Aligned(g1 + g2, c1 + c2, gram) && n <= |g1|
    ensures SuccessorsUpTo(g1 + g2, c1 + c2, gram, context, n) == SuccessorsUpTo(g1, c1, gram, context, n)
  {
    if n > 0 {
      SuccessorsUpToFrame(g1, c1, g2, c2, gram, context, n - 1);
      assert (g1 + g2)[n - 1] == g1[n - 1] && (c1 + c2)[n - 1] == c1[n - 1];
    }
  }

  lemma {:induction false} SuccessorsUpToAppend(g1: seq<seq<string>>, c1: seq<seq<string>>,
                                                g2: seq<seq<string>>, c2: seq<seq<string>>,
                                                gram: nat, context: seq<string>, k: nat)
    requires Aligned(g1, c1, gram) && Aligned(g2, c2, gram) && Aligned(g1 + g2, c1 + c2, gram) && k <= |g2|
    ensures SuccessorsUpTo(g1 + g2, c1 + c2, gram, context, |g1| + k)
            == Successors(g1, c1, gram, context) + SuccessorsUpTo(g2, c2, gram, context, k)
  {
    if k == 0 {
      SuccessorsUpToFrame(g1, c1, g2, c2, gram, context, |g1|);
    } else {
      SuccessorsUpToAppend(g1, c1, g2, c2, gram, context, k - 1);
      assert (g1 + g2)[|g1| + k - 1] == g2[k - 1] && (c1 + c2)[|g1| + k - 1] == c2[k - 1];
      AppendAssoc(Successors(g1, c1, gram, context), SuccessorsUpTo(g2, c2, gram, context, k - 1),
                  if c2[k - 1] == context then [g2[k - 1][gram - 1]] else []);
    }
  }

  /** The successors of a store made of two batches are those of the first
      batch followed by those of the second. */
  lemma SuccessorsAppend(g1: seq<seq<string>>, c1: seq<seq<string>>,
                         g2: seq<seq<string>>, c2: seq<seq<string>>,
                         gram: nat, context: seq<string>)
    requires Aligned(g1, c1, gram) && Aligned(g2, c2, gram)
    ensures Aligned(g1 + g2, c1 + c2, gram)
    ensures Successors(g1 + g2, c1 + c2, gram, context)
            == Successors(g1, c1, gram, context) + Successors(g2, c2, gram, context)
  {
    AlignedAppend(g1, c1, g2, c2, gram);
    SuccessorsUpToAppend(g1, c1, g2, c2, gram, context, |g2|);
  }

  /** A context has no successors among the first `n` entries exactly when
      none of their contexts equals it. */
  lemma {:induction false} SuccessorsUpToEmpty(grams: seq<seq<string>>, contexts: seq<seq<string>>, gram: nat, context: seq<string>, n: nat)
    requires Aligned(grams, contexts, gram) && n <= |grams|
    ensures SuccessorsUpTo(grams, contexts, gram, context, n) == [] <==> context !in contexts[..n]
  {
    if n > 0 {
      SuccessorsUpToEmpty(grams, contexts, gram, context, n - 1);
      SuccessorsUpToStep(grams, contexts, gram, context, n - 1);
      assert contexts[..n] == contexts[..n - 1] + [contexts[n - 1]];
    }
  }

  /** A context has no successors exactly when no stored context equals it. */
  lemma SuccessorsEmpty(grams: seq<seq<string>>, contexts: seq<seq<string>>, gram: nat, context: seq<string>)
    requires Aligned(grams, contexts, gram)
    ensures Successors(grams, contexts, gram, context) == [] <==> context !in contexts
  {
    SuccessorsUpToEmpty(grams, contexts, gram, context, |grams|);
    assert contexts[..|grams|] == contexts;
  }

  lemma ContextsOfAppend(g1: seq<seq<string>>, g2: seq<seq<string>>, gram: nat)
    requires gram >= 1
    requires forall i :: 0 <= i < |g1| ==> |g1[i]| >= gram - 1
    requires forall i :: 0 <= i < |g2| ==> |g2[i]| >= gram - 1
    ensures forall i :: 0 <= i < |g1 + g2| ==> |(g1 + g2)[i]| >= gram - 1
    ensures ContextsOf(g1 + g2, gram) == ContextsOf(g1, gram) + ContextsOf(g2, gram)
  {
    assert forall i :: 0 <= i < |g2| ==> (g1 + g2)[|g1| + i] == g2[i];
  }

  /** Every n-gram of the right length, with its contexts derived from it,
      satisfies the model's invariant. */
  lemma ContextsAligned(grams: seq<seq<string>>, gram: nat)
    requires gram >= 1 && forall i :: 0 <= i < |grams| ==> |grams[i]| == gram
    ensures Aligned(grams, ContextsOf(grams, gram), gram)
  {
  }

  lemma MultisetSnoc(s: seq<string>, w: string, x: string)
    ensures multiset(s + [w])[x] == multiset(s)[x] + if w == x then 1 else 0
  {
    assert multiset(s + [w]) == multiset(s) + multiset{w};
  }

  /** The tally of a sampler's counting loop: each successor seen so far,
      mapped to its number of occurrences. */
  function Counts(succ: seq<string>): map<string, nat>
  {
    if succ == [] then map[]
    else
      var c, w := Counts(succ[..|succ| - 1]), succ[|succ| - 1];
      c[w := if w in c then c[w] + 1 else 1]
  }

  /** The tally holds exactly the successors, each with its multiplicity. */
  lemma {:induction false} CountsSpec(succ: seq<string>, x: string)
    ensures x in Counts(succ) <==> x in succ
    ensures x in Counts(succ) ==> Counts(succ)[x] == multiset(succ)[x]
  {
    if succ != [] {
      var n := |succ| - 1;
      CountsSpec(succ[..n], x);
      assert succ == succ[..n] + [succ[n]];
      assert multiset(succ) == multiset(succ[..n]) + multiset{succ[n]};
      assert x in succ <==> x in succ[..n] || x == succ[n];
    }
  }

  lemma CountsSnoc(succ: seq<string>, w: string)
    ensures Counts(succ + [w])
            == Counts(succ)[w := if w in Counts(succ) then Counts(succ)[w] + 1 else 1]
  {
    assert (succ + [w])[..|succ|] == succ;
  }

  /** One round of a sampler's counting loop on a matching entry with last
      token `w`: the count grows by one, `w`'s count by one, and `w` joins
      the distinct list when it is new. */
  lemma TallyStep(s: seq<string>, w: string, tokens: map<string, nat>, tList: seq<string>)
    requires tokens == Counts(s) && tList == Distinct(s)
    ensures w in tokens <==> w in tList
    ensures (if w in tokens then tokens[w := tokens[w] + 1] else tokens[w := 1]) == Counts(s + [w])
    ensures (if w in tokens then tList else tList + [w]) == Distinct(s + [w])
  {
    CountsSnoc(s, w);
    CountsSpec(s, w);
    DistinctSnoc(s, w);
  }

  /** The relative frequency of `token` among the successors `succ`, and 0
      when `succ` is empty (an unseen context). */
  function Prob(succ: seq<string>, token: string): real
  {
    Ratio(multiset(succ)[token], |succ|)
  }

  /** The quotient `a / b` of two counts, and 0 when `b` is 0. */
  function Ratio(a: nat, b: nat): real
  {
    if b == 0 then 0.0 else a as real / b as real
  }

  /** The weight of `count` occurrences of probability `p` each. */
  function Weight(count: nat, p: real): real
  {
    count as real * p
  }

  /** A probability lies in [0, 1]; it is 0 exactly when `token` was never
      observed after the context, and 1 exactly when it is the only
      successor. */
  lemma ProbRange(succ: seq<string>, token: string)
    ensures 0.0 <= Prob(succ, token) <= 1.0
    ensures Prob(succ, token) == 0.0 <==> token !in succ
    ensures Prob(succ, token) == 1.0 <==> succ != [] && forall x :: x in succ ==> x == token
  {
    ProbBounds(succ, token);
    var c, n := multiset(succ)[token], |succ|;
    assert token in succ <==> c > 0;
    if n == 0 {
      assert Prob(succ, token) == 0.0;
    } else {
      RatioUnit(c, n);
    }
  }

  /** `a` occurrences of weight `1/n` weigh `a/n` in all. */
  lemma MassIsRatio(a: nat, n: nat)
    requires n > 0
    ensures Ratio(1, n) > 0.0 && a as real * Ratio(1, n) == Ratio(a, n)
  {
    var q := Ratio(1, n);
    assert q * n as real == 1.0;
    assert a as real * q * n as real == a as real;
  }

  /** A walk with weight `1/n` over candidates whose counts total `a` misses
      every draw above `a/n`. */
  lemma WalkMisses(cands: seq<string>, m: multiset<string>, a: nat, n: nat, r: real)
    requires n > 0 && SumCounts(cands, m) == a && Ratio(a, n) < r
    ensures Pick(cands, m, Ratio(1, n), r) == NoToken
  {
    ScaleIsProduct(a, Ratio(1, n));
    MassIsRatio(a, n);
    PickMisses(cands, m, Ratio(1, n), r);
  }

  /** A count out of a positive total is a fraction in [0, 1], 0 for a zero
      count and 1 for the whole total. */
  lemma RatioUnit(a: nat, b: nat)
    requires 0 < b && a <= b
    ensures 0.0 <= Ratio(a, b) <= 1.0
    ensures Ratio(a, b) == 0.0 <==> a == 0
    ensures Ratio(a, b) == 1.0 <==> a == b
  {
    var q := a as real / b as real;
    assert q * b as real == a as real;
  }

  lemma ProbBounds(succ: seq<string>, token: string)
    ensures multiset(succ)[token] <= |succ|
    ensures multiset(succ)[token] == |succ| <==> forall x :: x in succ ==> x == token
  {
    if succ != [] {
      var n := |succ| - 1;
      assert succ == succ[..n] + [succ[n]];
      assert multiset(succ) == multiset(succ[..n]) + multiset{succ[n]};
      var rest, y := succ[..n], succ[n];
      assert multiset(succ)[token] == multiset(rest)[token] + (if y == token then 1 else 0);
      ProbBounds(rest, token);
      if multiset(succ)[token] == |succ| {
        assert y == token && multiset(rest)[token] == |rest|;
        assert forall x :: x in succ ==> x in rest || x == y;
      }
      if forall x :: x in succ ==> x == token {
        assert y in succ;
        assert forall x :: x in rest ==> x in succ;
      }
    }
  }

  /** The total count in `m` of the candidates `cands`. */
  function SumCounts(cands: seq<string>, m: multiset<string>): nat
  {
    if cands == [] then 0 else SumCounts(cands[..|cands| - 1], m) + m[cands[|cands| - 1]]
  }

  lemma {:induction false} SumCountsFrame(cands: seq<string>, m: multiset<string>, m': multiset<string>)
    requires forall x :: x in cands ==> m[x] == m'[x]
    ensures SumCounts(cands, m) == SumCounts(cands, m')
  {
    if cands != [] {
      SumCountsFrame(cands[..|cands| - 1], m, m');
    }
  }

  /** Counting every element of a multiset once, through a duplicate-free
      list of its elements, counts the whole multiset. */
  lemma {:induction false} SumCountsAll(cands: seq<string>, m: multiset<string>)
    requires forall x :: x in cands <==> x in m
    requires forall x :: multiset(cands)[x] <= 1
    ensures SumCounts(cands, m) == |m|
  {
    if cands == [] {
      assert m == multiset{};
    } else {
      var n := |cands| - 1;
      var y := cands[n];
      var rest := cands[..n];
      assert cands == rest + [y];
      assert multiset(cands) == multiset(rest) + multiset{y};
      assert multiset(cands)[y] == multiset(rest)[y] + 1;
      assert multiset(rest)[y] == 0;
      assert y !in rest;
      forall x
        ensures multiset(rest)[x] <= 1
      {
        assert multiset(cands)[x] == multiset(rest)[x] + multiset{y}[x];
      }
      var m' := m[y := 0];
      assert forall x :: x in rest <==> x in m';
      assert |m| == |m'| + m[y];
      SumCountsFrame(rest, m, m');
      SumCountsAll(rest, m');
    }
  }

  lemma {:induction false} SumCountsPrefix(cands: seq<string>, m: multiset<string>, k: nat)
    requires k <= |cands|
    ensures SumCounts(cands[..k], m) <= SumCounts(cands, m)
    decreases |cands|
  {
    if k < |cands| {
      var n := |cands| - 1;
      assert cands[..n][..k] == cands[..k];
      SumCountsPrefix(cands[..n], m, k);
    } else {
      assert cands[..k] == cands;
    }
  }

  /** The total of the probabilities of the candidates `cands` after a
      context whose successors are `succ`. */
  function SumProbs(cands: seq<string>, succ: seq<string>): real
  {
    if cands == [] then 0.0 else SumProbs(cands[..|cands| - 1], succ) + Prob(succ, cands[|cands| - 1])
  }

  lemma {:induction false} SumProbsIsCounts(cands: seq<string>, succ: seq<string>)
    requires succ != []
    ensures SumProbs(cands, succ) == SumCounts(cands, multiset(succ)) as real / |succ| as real
  {
    if cands != [] {
      var n := |cands| - 1;
      SumProbsIsCounts(cands[..n], succ);
      DivAdd(SumCounts(cands[..n], multiset(succ)) as real, multiset(succ)[cands[n]] as real, |succ| as real);
    }
  }

  lemma DivAdd(a: real, b: real, n: real)
    requires n > 0.0
    ensures a / n + b / n == (a + b) / n
  {
  }

  lemma DivSelf(a: real, n: real)
    requires n > 0.0 && a == n
    ensures a / n == 1.0
  {
  }

  /** For a context seen at least once, the probabilities of its distinct
      successors add up to one. */
  lemma ProbNormalized(succ: seq<string>)
    requires succ != []
    ensures SumProbs(Distinct(succ), succ) == 1.0
  {
    var d := Distinct(succ);
    SumProbsIsCounts(d, succ);
    assert forall x :: x in d <==> x in multiset(succ);
    SumCountsAll(d, multiset(succ));
    assert SumCounts(d, multiset(succ)) == |succ|;
    DivSelf(SumCounts(d, multiset(succ)) as real, |succ| as real);
  }

  lemma MultisetTwice(s: seq<string>, i: nat, j: nat)
    requires i < j < |s| && s[i] == s[j]
    ensures multiset(s)[s[i]] >= 2
  {
    assert s == s[..j] + [s[j]] + s[j + 1..];
    assert s[i] in s[..j];
  }

  /** The candidates a sampler walks: the distinct successors in ascending
      order, whose counts add up to the number of successors. */
  function Candidates(succ: seq<string>): seq<string>
  {
    Sort(Distinct(succ))
  }

  /** The counts of the candidates add up to the number of successors. */
  lemma CandidatesMass(succ: seq<string>)
    ensures SumCounts(Candidates(succ), multiset(succ)) == |succ|
  {
    CandidatesSpec(succ);
  }

  /** The candidates are the successors, each once, in strictly ascending
      order, and their counts add up to the number of successors. */
  lemma CandidatesSpec(succ: seq<string>)
    ensures var c := Candidates(succ);
            && (forall x :: x in c <==> x in succ)
            && (forall i, j :: 0 <= i < j < |c| ==> Less(c[i], c[j]))
            && |c| == |Distinct(succ)|
            && SumCounts(c, multiset(succ)) == |succ|
  {
    var c := Candidates(succ);
    assert forall x :: x in c <==> x in multiset(c);
    assert forall x :: x in Distinct(succ) <==> x in multiset(Distinct(succ));
    assert |c| == |multiset(c)| == |multiset(Distinct(succ))| == |Distinct(succ)|;
    forall i, j | 0 <= i < j < |c|
      ensures Less(c[i], c[j])
    {
      if c[i] == c[j] {
        MultisetTwice(c, i, j);
        assert false;
      }
    }
    SumCountsAll(c, multiset(succ));
  }

  /** Each candidate's tally is its number of occurrences among the
      successors. */
  lemma CandidateCount(succ: seq<string>, j: nat)
    requires j < |Candidates(succ)|
    ensures Candidates(succ)[j] in succ
    ensures Candidates(succ)[j] in Counts(succ)
    ensures Counts(succ)[Candidates(succ)[j]] == multiset(succ)[Candidates(succ)[j]]
  {
    CandidatesSpec(succ);
    assert Candidates(succ)[j] in Candidates(succ);
    CountsSpec(succ, Candidates(succ)[j]);
  }

  /** Candidates depend only on the set of successors. */
  lemma CandidatesBySet(succ: seq<string>, succ': seq<string>)
    requires forall x :: x in succ <==> x in succ'
    ensures Candidates(succ) == Candidates(succ')
  {
    SortDistinctBySet(succ, succ');
  }

  /** `n` copies of `p` added up: the mass `float64(count) * prob` of a
      candidate seen `n` times (see `ScaleIsProduct`), written as a sum so
      that the walk's proofs stay linear. */
  function Scale(n: nat, p: real): real
  {
    if n == 0 then 0.0 else Scale(n - 1, p) + p
  }

  lemma {:induction false} ScaleIsProduct(n: nat, p: real)
    ensures Scale(n, p) == n as real * p
  {
    if n > 0 {
      ScaleIsProduct(n - 1, p);
      var k := (n - 1) as real;
      assert k * p + p == (k + 1.0) * p;
    }
  }

  lemma {:induction false} ScaleAdd(a: nat, b: nat, p: real)
    ensures Scale(a + b, p) == Scale(a, p) + Scale(b, p)
  {
    if b > 0 {
      ScaleAdd(a, b - 1, p);
    }
  }

  lemma {:induction false} ScaleMono(a: nat, b: nat, p: real)
    requires a <= b && p >= 0.0
    ensures Scale(a, p) <= Scale(b, p)
  {
    if a < b {
      ScaleMono(a, b - 1, p);
    }
  }

  /** The inverse-CDF walk from candidate `i` with accumulated probability
      `acc`: add each candidate's count times `prob` and return the first
      candidate at which the sum reaches `r`, or `NoToken` when none does. */
  function PickFrom(cands: seq<string>, m: multiset<string>, prob: real, r: real, i: nat, acc: real): string
    requires i <= |cands|
    decreases |cands| - i
  {
    if i == |cands| then NoToken
    else
      var acc' := acc + Scale(m[cands[i]], prob);
      if acc' >= r then cands[i] else PickFrom(cands, m, prob, r, i + 1, acc')
  }

  function Pick(cands: seq<string>, m: multiset<string>, prob: real, r: real): string
  {
    PickFrom(cands, m, prob, r, 0, 0.0)
  }

  /** The cumulative probability of `cands[..k + 1]` reaches `r`. */
  predicate Reaches(cands: seq<string>, m: multiset<string>, prob: real, r: real, k: nat)
    requires k < |cands|
  {
    Scale(SumCounts(cands[..k + 1], m), prob) >= r
  }

  /** One step of the walk adds the next candidate's mass to the cumulative sum. */
  lemma AccStep(cands: seq<string>, m: multiset<string>, prob: real, i: nat, acc: real)
    requires i < |cands| && acc == Scale(SumCounts(cands[..i], m), prob)
    ensures acc + Scale(m[cands[i]], prob) == Scale(SumCounts(cands[..i + 1], m), prob)
  {
    assert cands[..i + 1][..i] == cands[..i];
    assert SumCounts(cands[..i + 1], m) == SumCounts(cands[..i], m) + m[cands[i]];
    ScaleAdd(SumCounts(cands[..i], m), m[cands[i]], prob);
  }

  /** The first index from `i` on whose cumulative probability reaches `r`,
      or `|cands|` when there is none. */
  function FirstReach(cands: seq<string>, m: multiset<string>, prob: real, r: real, i: nat): (k: nat)
    requires i <= |cands|
    ensures i <= k <= |cands|
    ensures k < |cands| ==> Reaches(cands, m, prob, r, k)
    ensures forall j :: i <= j < k ==> !Reaches(cands, m, prob, r, j)
    decreases |cands| - i
  {
    if i == |cands| || Reaches(cands, m, prob, r, i) then i else FirstReach(cands, m, prob, r, i + 1)
  }

  lemma {:induction false} PickFromFirstReach(cands: seq<string>, m: multiset<string>, prob: real, r: real, i: nat, acc: real)
    requires i <= |cands| && acc == Scale(SumCounts(cands[..i], m), prob)
    ensures var k := FirstReach(cands, m, prob, r, i);
            PickFrom(cands, m, prob, r, i, acc) == if k < |cands| then cands[k] else NoToken
    decreases |cands| - i
  {
    if i < |cands| {
      var acc' := acc + Scale(m[cands[i]], prob);
      AccStep(cands, m, prob, i, acc);
      assert (acc' >= r) == Reaches(cands, m, prob, r, i);
      PickFromFirstReach(cands, m, prob, r, i + 1, acc');
    }
  }

  /** One round of the sampler's loop, with `count` the count of the current
      candidate: the walk stops at it or goes on with the larger sum. */
  lemma WalkStep(cands: seq<string>, m: multiset<string>, prob: real, r: real, i: nat, acc: real, count: nat, acc': real)
    requires i < |cands| && count == m[cands[i]] && acc' == acc + Weight(count, prob)
    ensures acc' >= r ==> PickFrom(cands, m, prob, r, i, acc) == cands[i]
    ensures acc' < r ==> PickFrom(cands, m, prob, r, i, acc) == PickFrom(cands, m, prob, r, i + 1, acc')
  {
    ScaleIsProduct(count, prob);
  }

  /** The sampler's walk over the sorted candidates (rsg.go:141-148,
      ngram.go:149-156): add up each candidate's count times `prob` and
      return the first candidate at which the sum reaches `r`. */
  method Walk(tList: seq<string>, tokens: map<string, nat>, prob: real, r: real, ghost succ: seq<string>)
    returns (token: string)
    requires tList == Candidates(succ) && tokens == Counts(succ)
    ensures token == Pick(tList, multiset(succ), prob, r)
  {
    var sumProb := 0.0;
    var j := 0;
    ghost var m := multiset(succ);
    while j < |tList|
      invariant 0 <= j <= |tList|
      invariant PickFrom(tList, m, prob, r, j, sumProb) == Pick(tList, m, prob, r)
    {
      var word := tList[j];
      CandidateCount(succ, j);
      ghost var before := sumProb;
      sumProb := sumProb + Weight(tokens[word], prob);
      WalkStep(tList, m, prob, r, j, before, tokens[word], sumProb);
      if sumProb >= r {
        return word;
      }
      j := j + 1;
    }
    return NoToken;
  }

  /** The walk is inverse-CDF sampling: it returns the first candidate whose
      cumulative probability reaches `r`, and `NoToken` when none does. */
  lemma PickIsInverseCdf(cands: seq<string>, m: multiset<string>, prob: real, r: real)
    ensures var k := FirstReach(cands, m, prob, r, 0);
            Pick(cands, m, prob, r) == if k < |cands| then cands[k] else NoToken
  {
    assert cands[..0] == [];
    PickFromFirstReach(cands, m, prob, r, 0, 0.0);
  }

  /** When the candidates' whole mass reaches `r`, the walk picks one of them. */
  lemma PickFinds(cands: seq<string>, m: multiset<string>, prob: real, r: real)
    requires cands != [] && Scale(SumCounts(cands, m), prob) >= r
    ensures Pick(cands, m, prob, r) in cands
  {
    PickIsInverseCdf(cands, m, prob, r);
    var n := |cands| - 1;
    assert cands[..n + 1] == cands;
    assert Reaches(cands, m, prob, r, n);
  }

  /** When the candidates' whole mass stays below `r`, the walk picks nothing. */
  lemma PickMisses(cands: seq<string>, m: multiset<string>, prob: real, r: real)
    requires prob >= 0.0 && Scale(SumCounts(cands, m), prob) < r
    ensures Pick(cands, m, prob, r) == NoToken
  {
    forall k | 0 <= k < |cands|
      ensures !Reaches(cands, m, prob, r, k)
    {
      SumCountsPrefix(cands, m, k + 1);
      ScaleMono(SumCounts(cands[..k + 1], m), SumCounts(cands, m), prob);
    }
    PickIsInverseCdf(cands, m, prob, r);
  }

  /** `n` occurrences of weight `1 / n` add up to 1. */
  lemma ScaleUnit(n: nat)
    requires n > 0
    ensures Scale(n, Ratio(1, n)) == 1.0
  {
    ScaleIsProduct(n, Ratio(1, n));
  }

  /** With weight `1 / n`, a prefix of the candidates reaches `r` exactly
      when its total count reaches `r * n`. */
  lemma ReachesByCount(cands: seq<string>, m: multiset<string>, n: nat, r: real, k: nat)
    requires n > 0 && k < |cands|
    ensures Reaches(cands, m, Ratio(1, n), r, k) <==> SumCounts(cands[..k + 1], m) as real >= r * n as real
  {
    var c := SumCounts(cands[..k + 1], m) as real;
    var nr := n as real;
    ScaleIsProduct(SumCounts(cands[..k + 1], m), Ratio(1, n));
    assert c * (1.0 / nr) == c / nr;
    if c / nr >= r {
      assert c == (c / nr) * nr;
      assert (c / nr) * nr >= r * nr;
    }
    if c >= r * nr {
      assert r * nr / nr == r;
      assert c / nr >= r * nr / nr;
    }
  }

  /** Candidate `k` closes the walk for draw `r` when the counts up to and
      including it reach `r` times the number of successors `n`. */
  predicate CountReaches(cands: seq<string>, m: multiset<string>, n: nat, r: real, k: nat)
    requires k < |cands|
  {
    SumCounts(cands[..k + 1], m) as real >= r * n as real
  }

  /** The first candidate from `i` on whose cumulative count reaches `r * n`,
      or `|cands|` when none does: the inverse of the empirical distribution. */
  function FirstCount(cands: seq<string>, m: multiset<string>, n: nat, r: real, i: nat): (k: nat)
    requires i <= |cands|
    ensures i <= k <= |cands|
    ensures k < |cands| ==> CountReaches(cands, m, n, r, k)
    ensures forall j :: i <= j < k ==> !CountReaches(cands, m, n, r, j)
    decreases |cands| - i
  {
    if i == |cands| || CountReaches(cands, m, n, r, i) then i else FirstCount(cands, m, n, r, i + 1)
  }

  /** With weight `1/n` per occurrence, the walk's first reaching candidate is
      the first one whose integer count reaches `r * n`. */
  lemma {:induction false} FirstCountIsFirstReach(cands: seq<string>, m: multiset<string>, n: nat, r: real, i: nat)
    requires n > 0 && i <= |cands|
    ensures FirstCount(cands, m, n, r, i) == FirstReach(cands, m, Ratio(1, n), r, i)
    decreases |cands| - i
  {
    if i < |cands| {
      ReachesByCount(cands, m, n, r, i);
      if !CountReaches(cands, m, n, r, i) {
        FirstCountIsFirstReach(cands, m, n, r, i + 1);
      }
    }
  }

  /** The generator's window after emitting `cur`: back to `gram - 1` start
      markers after an end marker; otherwise, when `gram != 1`, `cur` appended
      and the oldest token dropped; with `gram == 1` the window stays empty. */
  function Slide(gram: nat, window: seq<string>, cur: string, start: string, end: string): seq<string>
  {
    if cur == end then Repeat(start, gram - 1)
    else if gram != 1 then (window + [cur])[1..]
    else window
  }

  /** The window after emitting `toks`, starting from `window`. */
  function WindowAfter(gram: nat, window: seq<string>, toks: seq<string>, start: string, end: string): seq<string>
    decreases |toks|
  {
    if toks == [] then window
    else WindowAfter(gram, Slide(gram, window, toks[0], start, end), toks[1..], start, end)
  }

  lemma {:induction false} WindowAfterSnoc(gram: nat, window: seq<string>, toks: seq<string>, t: string, start: string, end: string)
    ensures WindowAfter(gram, window, toks + [t], start, end)
            == Slide(gram, WindowAfter(gram, window, toks, start, end), t, start, end)
    decreases |toks|
  {
    if toks != [] {
      assert (toks + [t])[1..] == toks[1..] + [t];
      WindowAfterSnoc(gram, Slide(gram, window, toks[0], start, end), toks[1..], t, start, end);
    }
  }

  lemma WindowAfterCons(gram: nat, window: seq<string>, cur: string, rest: seq<string>, k: nat, start: string, end: string)
    requires 0 < k <= |rest| + 1
    ensures WindowAfter(gram, window, ([cur] + rest)[..k], start, end)
            == WindowAfter(gram, Slide(gram, window, cur, start, end), rest[..k - 1], start, end)
  {
    var toks := ([cur] + rest)[..k];
    assert toks[0] == cur && toks[1..] == rest[..k - 1];
  }

  /** The tokens after the last `end` in `toks`: the current sentence. */
  function SinceLast(toks: seq<string>, end: string): seq<string>
  {
    if toks == [] then []
    else if toks[|toks| - 1] == end then []
    else SinceLast(toks[..|toks| - 1], end) + [toks[|toks| - 1]]
  }

  /** The generator's window always holds `gram - 1` tokens: the last
      `gram - 1` tokens of the current sentence, padded in front with start
      markers. */
  lemma {:induction false} WindowIsSentenceTail(gram: nat, toks: seq<string>, start: string, end: string)
    requires gram >= 1
    ensures |WindowAfter(gram, Repeat(start, gram - 1), toks, start, end)| == gram - 1
    ensures var padded := Repeat(start, gram - 1) + SinceLast(toks, end);
            WindowAfter(gram, Repeat(start, gram - 1), toks, start, end) == padded[|padded| - (gram - 1)..]
    decreases |toks|
  {
    if toks != [] {
      var n := |toks| - 1;
      TailStep(gram, toks[..n], toks[n], start, end);
      assert toks[..n] + [toks[n]] == toks;
    }
  }

  /** The inductive step of WindowIsSentenceTail. */
  lemma TailStep(gram: nat, toks: seq<string>, t: string, start: string, end: string)
    requires gram >= 1
    ensures var padded := Repeat(start, gram - 1) + SinceLast(toks + [t], end);
            WindowAfter(gram, Repeat(start, gram - 1), toks + [t], start, end) == padded[|padded| - (gram - 1)..]
    decreases |toks| + 1, 0
  {
    WindowIsSentenceTail(gram, toks, start, end);
    WindowAfterSnoc(gram, Repeat(start, gram - 1), toks, t, start, end);
    SlideTail(gram, toks, t, start, end);
  }

  /** One token moves the sentence-tail window the way Slide moves it. */
  lemma SlideTail(gram: nat, toks: seq<string>, t: string, start: string, end: string)
    requires gram >= 1
    ensures var p := Repeat(start, gram - 1) + SinceLast(toks, end);
            var q := Repeat(start, gram - 1) + SinceLast(toks + [t], end);
            Slide(gram, p[|p| - (gram - 1)..], t, start, end) == q[|q| - (gram - 1)..]
  {
    var pad := Repeat(start, gram - 1);
    var p := pad + SinceLast(toks, end);
    var q := pad + SinceLast(toks + [t], end);
    var w := p[|p| - (gram - 1)..];
    assert (toks + [t])[..|toks|] == toks;
    if t == end {
      assert q == pad + [] == pad;
    } else if gram != 1 {
      assert q == p + [t];
      assert (w + [t])[1..] == q[|q| - (gram - 1)..];
    }
  }

  /** The n-grams stored by training on `sentences` in order, each
      sentence turned into tokens by `tokenize`. */
  function Corpus(gram: nat, tokenize: (int, string) -> seq<string>, sentences: seq<string>): (g: seq<seq<string>>)
    requires gram >= 1
    ensures forall i :: 0 <= i < |g| ==> |g[i]| == gram
  {
    if sentences == [] then []
    else
      var n := |sentences| - 1;
      WindowsAligned(tokenize(gram, sentences[n]), gram);
      Corpus(gram, tokenize, sentences[..n]) + Windows(tokenize(gram, sentences[n]), gram)
  }

  /** Training on `a` then `b` stores `a`'s n-grams followed by `b`'s. */
  lemma {:induction false} CorpusAppend(gram: nat, tokenize: (int, string) -> seq<string>, a: seq<string>, b: seq<string>)
    requires gram >= 1
    ensures Corpus(gram, tokenize, a + b) == Corpus(gram, tokenize, a) + Corpus(gram, tokenize, b)
    decreases |b|
  {
    if b != [] {
      var n := |b| - 1;
      assert (a + b)[..|a + b| - 1] == a + b[..n];
      CorpusAppend(gram, tokenize, a, b[..n]);
    } else {
      assert a + b == a;
    }
  }

  /** The successors of `context` in a store trained on `sentences`. */
  function Observed(gram: nat, tokenize: (int, string) -> seq<string>, sentences: seq<string>, context: seq<string>): seq<string>
    requires gram >= 1
  {
    var g := Corpus(gram, tokenize, sentences);
    ContextsAligned(g, gram);
    Successors(g, ContextsOf(g, gram), gram, context)
  }

  /** The tokens of `t` that follow an occurrence of `context` within the
      first `n` windows of `gram` tokens. */
  function FollowersTo(t: seq<string>, gram: nat, context: seq<string>, n: nat): seq<string>
    requires gram >= 1 && (n == 0 || n + gram <= |t| + 1)
  {
    if n == 0 then []
    else
      FollowersTo(t, gram, context, n - 1)
      + (if t[n - 1..n + gram - 2] == context then [t[n + gram - 2]] else [])
  }

  /** The tokens of `t` that follow an occurrence of `context` in it, the
      successors read off the token list itself. */
  function Followers(t: seq<string>, gram: nat, context: seq<string>): seq<string>
    requires gram >= 1
  {
    FollowersTo(t, gram, context, if |t| < gram then 0 else |t| - gram + 1)
  }

  lemma {:induction false} SuccessorsOfWindowsTo(t: seq<string>, gram: nat, context: seq<string>, n: nat)
    requires gram >= 1 && (n == 0 || n + gram <= |t| + 1)
    ensures Aligned(WindowsTo(t, gram, n), ContextsOf(WindowsTo(t, gram, n), gram), gram)
    ensures Successors(WindowsTo(t, gram, n), ContextsOf(WindowsTo(t, gram, n), gram), gram, context)
            == FollowersTo(t, gram, context, n)
  {
    if n == 0 {
      assert WindowsTo(t, gram, n) == [];
    } else {
      SuccessorsOfWindowsTo(t, gram, context, n - 1);
      SuccessorsOfWindowStep(t, gram, context, n);
    }
  }

  /** One more entry adds its last token when its context matches. */
  lemma SuccessorsSnoc(g: seq<seq<string>>, c: seq<seq<string>>, win: seq<string>, cc: seq<string>, gram: nat, context: seq<string>)
    requires Aligned(g, c, gram) && Aligned(g + [win], c + [cc], gram) && |win| == gram
    ensures Successors(g + [win], c + [cc], gram, context)
            == Successors(g, c, gram, context) + (if cc == context then [win[gram - 1]] else [])
  {
    SuccessorsUpToFrame(g, c, [win], [cc], gram, context, |g|);
    SuccessorsUpToStep(g + [win], c + [cc], gram, context, |g|);
    assert (g + [win])[|g|] == win && (c + [cc])[|c|] == cc;
  }

  /** One more window adds its last token when its context matches. */
  lemma SuccessorsOfWindowStep(t: seq<string>, gram: nat, context: seq<string>, n: nat)
    requires gram >= 1 && n >= 1 && n + gram <= |t| + 1
    ensures Aligned(WindowsTo(t, gram, n - 1), ContextsOf(WindowsTo(t, gram, n - 1), gram), gram)
    ensures Aligned(WindowsTo(t, gram, n), ContextsOf(WindowsTo(t, gram, n), gram), gram)
    ensures Successors(WindowsTo(t, gram, n), ContextsOf(WindowsTo(t, gram, n), gram), gram, context)
            == Successors(WindowsTo(t, gram, n - 1), ContextsOf(WindowsTo(t, gram, n - 1), gram), gram, context)
               + (if t[n - 1..n + gram - 2] == context then [t[n + gram - 2]] else [])
  {
    var w0, w := WindowsTo(t, gram, n - 1), WindowsTo(t, gram, n);
    var win, cc := t[n - 1..n - 1 + gram], t[n - 1..n + gram - 2];
    ContextsAligned(w0, gram);
    ContextsAligned(w, gram);
    WindowsToSnoc(t, gram, n - 1);
    SuccessorsSnoc(w0, ContextsOf(w0, gram), win, cc, gram, context);
    assert win[gram - 1] == t[n + gram - 2];
  }

  /** The successors of `context` stored from one token list are the
      tokens that follow its occurrences in the list. */
  lemma SuccessorsOfWindows(t: seq<string>, gram: nat, context: seq<string>)
    requires gram >= 1
    ensures Aligned(Windows(t, gram), ContextsOf(Windows(t, gram), gram), gram)
    ensures Successors(Windows(t, gram), ContextsOf(Windows(t, gram), gram), gram, context) == Followers(t, gram, context)
  {
    SuccessorsOfWindowsTo(t, gram, context, if |t| < gram then 0 else |t| - gram + 1);
  }

  /** With `gram = 1` every token follows the empty context. */
  lemma {:induction false} FollowersUnigram(t: seq<string>, n: nat)
    requires n <= |t|
    ensures FollowersTo(t, 1, [], n) == t[..n]
  {
    if n > 0 {
      FollowersUnigram(t, n - 1);
      assert t[..n] == t[..n - 1] + [t[n - 1]];
    }
  }

  /** Training one sentence stores, after `context`, the tokens that follow
      it in the sentence's token list. */
  lemma ObservedOne(gram: nat, tokenize: (int, string) -> seq<string>, s: string, context: seq<string>)
    requires gram >= 1
    ensures Observed(gram, tokenize, [s], context) == Followers(tokenize(gram, s), gram, context)
  {
    assert [s][..0] == [] && [s][0] == s;
    WindowsAligned(tokenize(gram, s), gram);
    assert Corpus(gram, tokenize, [s]) == [] + Windows(tokenize(gram, s), gram);
    assert [] + Windows(tokenize(gram, s), gram) == Windows(tokenize(gram, s), gram);
    SuccessorsOfWindows(tokenize(gram, s), gram, context);
  }

  /** Training two sentences stores, after `context`, the tokens that
      follow it in the first sentence and then those in the second. */
  lemma ObservedPair(gram: nat, tokenize: (int, string) -> seq<string>, s1: string, s2: string, context: seq<string>)
    requires gram >= 1
    ensures Observed(gram, tokenize, [s1, s2], context)
            == Followers(tokenize(gram, s1), gram, context) + Followers(tokenize(gram, s2), gram, context)
  {
    ObservedConcat(gram, tokenize, [s1], [s2], context);
    assert [s1] + [s2] == [s1, s2];
    ObservedOne(gram, tokenize, s1, context);
    ObservedOne(gram, tokenize, s2, context);
  }

  /** With `gram = 1` the empty context is followed by every token. */
  lemma FollowersAll(t: seq<string>)
    ensures Followers(t, 1, []) == t
  {
    FollowersUnigram(t, |t|);
    assert t[..|t|] == t;
  }

  /** As a multiset, the successors seen do not depend on the order in
      which two batches of sentences are trained. */
  lemma ObservedOrder(gram: nat, tokenize: (int, string) -> seq<string>, a: seq<string>, b: seq<string>, context: seq<string>)
    requires gram >= 1
    ensures multiset(Observed(gram, tokenize, a + b, context)) == multiset(Observed(gram, tokenize, b + a, context))
  {
    ObservedConcat(gram, tokenize, a, b, context);
    ObservedConcat(gram, tokenize, b, a, context);
  }

  /** The successors seen after training on `a` then `b` are those seen in
      `a` followed by those seen in `b`. */
  lemma ObservedConcat(gram: nat, tokenize: (int, string) -> seq<string>, a: seq<string>, b: seq<string>, context: seq<string>)
    requires gram >= 1
    ensures Observed(gram, tokenize, a + b, context) == Observed(gram, tokenize, a, context) + Observed(gram, tokenize, b, context)
  {
    var ga, gb := Corpus(gram, tokenize, a), Corpus(gram, tokenize, b);
    CorpusAppend(gram, tokenize, a, b);
    ContextsOfAppend(ga, gb, gram);
    ContextsAligned(ga, gram);
    ContextsAligned(gb, gram);
    SuccessorsAppend(ga, ContextsOf(ga, gram), gb, ContextsOf(gb, gram), gram, context);
  }
}
