# N-gram text model

A Dafny model of the n-gram text model of the Little_AI repository. The model
exists in two near-duplicate Go copies, `rsg.go` and `ngram.go`; each has these parts:

- **Tokenizer.** A character scanner that pads every sentence with sentence
  markers.
- **Trainer** (`updateNGram`). Slices the token list into `gram`-token
  windows (the n-grams) and their `gram - 1`-token contexts. It appends both
  to the model's two parallel lists.
- **Estimator** (`GetProb`). Gives the relative frequency of a token after a
  context.
- **Sampler** (`GetRandomToken`). Inverse-CDF sampling over the sorted
  distinct successors of a context.
- **Generator** (`GetRandomText`). Chains samples through a sliding
  context window.
- **Loader** (`NewNGram`). Splits a text on `.` and trains on each piece in
  order.

Modules:

- `Text` (text.dfy): the Go library functions the copies call.
  - `strings.TrimSpace` over the Unicode white-space set.
  - `strings.Split` and `strings.Join` on one character.
  - `sort.Strings`, as a byte-order insertion sort proved sorted and a permutation.
  - First-occurrence de-duplication, and the marker padding loops.
- `Scanner` (scanner.dfy): the scan loop shared by both tokenizers. The set
  of punctuation marks is a parameter.
- `Grams` (grams.dfy): the shared parts.
  - The alignment invariant of the two lists, the windows of a token list,
    and the successors of a context.
  - Counts, relative frequencies, and the sampler's walk with its
    inverse-CDF characterisation.
  - The generator's window, and the n-grams stored by training on a list of
    sentences.
- `Generation` (generate.dfy): the sampler and the generator. The weight of
  one occurrence and the two markers are parameters, because that is all
  the copies differ in there.
- `Rsg` (rsg.dfy) and `NGram` (ngram.dfy): one module per copy.
  - Its punctuation set, its tokenizer, and the class `NGramModel`, whose
    methods update `totalGram` and `contextGram` in place.
  - The training-loop method `NewNGram`, and the lemmas about that copy.

Where the Go code takes a random number, the model takes it as a parameter:
`r` for `GetRandomToken`, and one draw per token (`draws`) for
`GetRandomText`. `NewNGram` takes the file's contents instead of a path.
Probabilities are exact `real`s and counts are `nat`s.

The two copies really differ, and the model keeps them apart:

- **Newlines.** `rsg.go` drops newlines like spaces. `ngram.go` emits each
  newline as a `"\n"` token (`NGram.NewlineToken`).
- **End markers.** `rsg.go` closes a sentence with one `<end>`. `ngram.go`
  pads both ends with `gram - 1` markers, so with `gram = 1` there are no
  markers at all.
- **The counter in `GetRandomToken`.** `ngram.go` increments it twice for
  every repeated successor (ngram.go:129-133), so it ends at twice the
  number of successors less the number of distinct ones (`NGram.Counter`).
  - The walk's weights then add up to less than 1.
  - So a large draw yields `"<>"` even on a seen context
    (`NGram.RandomTokenMisses`, `NGram.RepeatExample`).
  - In `rsg.go` a draw `r <= 1` on a seen context always yields a successor
    (`Rsg.RandomTokenSpec`).

### Behaviour worth knowing

- **Failed read.** A file that cannot be read gives empty contents
  (rsg.go:185-189). These split to one empty sentence, which is still
  trained (rsg.go:191-195), so the model is not empty.
  - In `rsg.go` the model then holds the single n-gram of the start markers
    and `<end>` (`Rsg.EmptyContents`).
  - In `ngram.go` it holds `gram - 1` n-grams made only of markers
    (`NGram.EmptyContents`).
- **Sampling weights.** `ngram.go` weights each occurrence by
  `1 / counter`, where `counter` counts a repeated successor twice
  (ngram.go:131-133, 147). So the weights do not add up to 1.
- **Separators.** Words are split only at `' '` and `'\n'` (rsg.go:56,
  ngram.go:53). Tabs and other white space inside a sentence stay inside
  words. Only the two ends of a sentence are trimmed with the full
  white-space set.
- **Output length.** `result[:len(result)-1]` panics when `length <= 0`,
  because the result is then empty (rsg.go:178, ngram.go:185). So
  `GetRandomText` requires `length >= 1`.
- **The tokenizer tests.** `ngram_test.go` calls `t.Errorf` only when the
  token list EQUALS its expected list. The lists it spells out are not what
  `Tokenize` returns, so neither test reaches its `t.Errorf`
  (`NGram.TokenizeTestsPass`).

## Model

| member | source | states |
|---|---|---|
| Rsg.PunctStrings | rsg.go:36-43 | a string is punctuation exactly when it is one of the fifteen one-character strings `. : ! ? ' , - " ; ( ) [ ] { }`; neither `"\n"` nor `" "` is, so the scan drops both |
| Rsg.Tokenization | rsg.go:46-75 | the scan loop builds exactly the token list `Tokens(gram, sen)`: `gram - 1` start markers, the scanned tokens of the trimmed sentence, one `<end>` |
| Rsg.TokensShape | rsg.go:50-72 | a token list has exactly `gram - 1` leading `<start>` markers and ends in one `<end>`; between them every token is a punctuation mark or a non-empty word free of spaces, newlines and punctuation, and these tokens concatenate to the trimmed text with spaces and newlines removed |
| Rsg.TokensSentence | rsg.go:46-75 | words joined by single spaces and closed by a punctuation mark tokenize to the start markers, the words, the mark and `<end>` |
| Rsg.TokensWords | rsg.go:46-75 | words joined by single spaces tokenize to the start markers, the words and `<end>` |
| Rsg.TokensExample | rsg.go:46-75 | `Tokens(2, "This is an example.")` is `<start> This is an example . <end>` |
| Rsg.NGramModel.constructor | rsg.go:183 | a fresh model has the given size, no entries, and satisfies the alignment invariant |
| Rsg.NGramModel.UpdateNGram | rsg.go:79-95 | training on a sentence keeps the alignment invariant, appends the windows of its token list to `totalGram` and their contexts to `contextGram`, and leaves every earlier entry as it was |
| Rsg.NGramModel.GetProb | rsg.go:98-116 | the result is the relative frequency of the token among the successors of the context in the stored lists, 0 for an unseen context |
| Rsg.NGramModel.GetRandomToken | rsg.go:120-149 | the result is the inverse-CDF sample, for draw `r`, from the successors of the context with weight `1 / counter` per occurrence |
| Rsg.Tally | rsg.go:126-136 | the counting loop ends with `counter` equal to the number of successors, the map giving each successor's count, and the list holding the distinct successors in order of first occurrence |
| Rsg.Record | rsg.go:129-134 | one more occurrence of a successor increments its count, or enters it with count 1 and appends it to the list on its first occurrence |
| Rsg.NGramModel.Emit | rsg.go:160-175 | one round of the generator emits the sampled token after the current window, appends it and a space to the text, and moves the window as `Slide` does |
| Rsg.NGramModel.GetRandomText | rsg.go:152-179 | for `length >= 1` draws, the text is the generated tokens joined by single spaces: each token sampled after the current window, starting from all start markers |
| Rsg.NewNGram | rsg.go:182-198 | the model trained on the contents holds, in order, the n-grams of the `.`-separated sentences, with their contexts, and satisfies the alignment invariant |
| Rsg.EmptyContents | rsg.go:185-195 | empty contents (also what a failed read leaves) train one empty sentence, leaving the single n-gram `<start>`…`<start> <end>` |
| Rsg.UnigramExample | rsg.go:98-116 | with `gram = 1`, after "a b c d" and "a b a b", the probability of "a" is 3/10 and that of "c" is 1/10 |
| Rsg.BigramExample | rsg.go:98-116 | with `gram = 2`, after "a b c d" and "a b a b", the probability of "c" after ["b"] is 1/3 |
| Rsg.RandomTokenSpec | rsg.go:120-149 | for an unseen context the sampler returns `"<>"`; for a seen context and a draw `r <= 1` it returns one of the successors |
| Rsg.RandomTokenIsInverseCdf | rsg.go:138-148 | the sampler returns the first sorted distinct successor whose cumulative count reaches `r * counter`, and `"<>"` when none does |
| Rsg.TrainingOrder | rsg.go:191-195 | training two batches of sentences in either order gives the same probabilities and the same sampled tokens |
| NGram.PunctStrings | ngram.go:36-42 | a string is punctuation exactly when it is one of the fifteen marks of `rsg.go` or `"\n"` |
| NGram.Tokenize | ngram.go:44-73 | the scan loop builds exactly `Tokens(gram, sen)`: `gram - 1` `<s>` markers, the scanned tokens of the trimmed sentence, `gram - 1` `</s>` markers |
| NGram.TokensShape | ngram.go:48-71 | a token list has exactly `gram - 1` leading `<s>` and `gram - 1` trailing `</s>` markers (none for `gram = 1`); between them every token is a punctuation mark (newline included) or a non-empty word, and these tokens concatenate to the trimmed text with spaces removed |
| NGram.NewlineToken | ngram.go:52-62 | two words on two lines tokenize to the first word, a `"\n"` token and the second word |
| NGram.TokensSentence | ngram.go:44-73 | words joined by single spaces and closed by a punctuation mark tokenize to the start markers, the words, the mark and the end markers |
| NGram.TokensBlanks | ngram.go:45 | any white space before and after a sentence that neither starts nor ends with white space leaves its tokens unchanged |
| NGram.TokenizeExamples | ngram.go:44-73 | `Tokens(1, "  This is an example. ")` is `This is an example .` and `Tokens(2, "  This is an example. ")` is `<s> This is an example . </s>` |
| NGram.TokenizeTestsPass | ngram_test.go:9-28 | neither tokenization equals the list its test spells out, so neither test, which calls `t.Errorf` only on equality, reaches it |
| NGram.Contains | ngram.go:112-119 | the search returns true exactly when the string occurs in the list |
| NGram.Tally | ngram.go:129-144 | the counting loop ends with `counter` equal to `Counter` of the successors, the map giving each successor's count, and the list holding each distinct successor once, in order of first occurrence |
| NGram.Record | ngram.go:131-138 | one more occurrence of a successor increments its count (or enters it with count 1) and increments `counter` once more when the successor was already counted |
| NGram.Counter | ngram.go:129-144 | the doubled counter lies between the number of successors and twice that number, and equals the number of successors exactly when no successor repeats |
| NGram.NGramModel.constructor | ngram.go:189 | a fresh model has the given size, no entries, and satisfies the alignment invariant |
| NGram.NGramModel.UpdateNGram | ngram.go:75-92 | training on a sentence keeps the alignment invariant, appends the windows of its token list and their contexts, and leaves every earlier entry as it was |
| NGram.NGramModel.GetProb | ngram.go:94-109 | the result is the relative frequency of the token among the successors of the context, 0 for an unseen context |
| NGram.NGramModel.GetRandomToken | ngram.go:123-157 | the result is the inverse-CDF sample, for draw `r`, from the successors of the context with weight `1 / counter` per occurrence, `counter` doubled for repeats |
| NGram.NGramModel.Emit | ngram.go:168-182 | one round of the generator emits the sampled token, appends it and a space to the text, and moves the window as `Slide` does |
| NGram.NGramModel.GetRandomText | ngram.go:159-186 | for `length >= 1` draws, the text is the generated tokens joined by single spaces, starting from all `<s>` markers |
| NGram.NewNGram | ngram.go:188-203 | the model trained on the contents holds, in order, the n-grams of the `.`-separated sentences, with their contexts, and satisfies the alignment invariant |
| NGram.EmptyContents | ngram.go:191-200 | empty contents (also what a failed read leaves) train one empty sentence, leaving `gram - 1` n-grams, the `i`-th made of `gram - 1 - i` `<s>` markers and `i + 1` `</s>` markers |
| NGram.RandomTokenRange | ngram.go:146-156 | the sampler returns `"<>"` for an unseen context, and otherwise one of the successors or `"<>"` |
| NGram.RandomTokenNoRepeats | ngram.go:129-156 | when no successor repeats, `counter` is the number of successors and a draw `r <= 1` always yields one of them |
| NGram.RandomTokenMisses | ngram.go:146-156 | the walk's weights add up to `|succ| / counter` only, so a draw above that yields `"<>"` even though the context was seen |
| NGram.RepeatExample | ngram.go:129-156 | a context followed twice by "a" has `counter` 3, and the draw 0.9 yields `"<>"` |
| NGram.RandomTokenIsInverseCdf | ngram.go:146-156 | the sampler returns the first sorted distinct successor whose cumulative count reaches `r * counter`, and `"<>"` when none does |
| NGram.UnitByMultiset | ngram.go:129-147 | the doubled counter, hence the weight `1 / counter`, depends on the successors only as a multiset |
| NGram.TrainingOrder | ngram.go:197-200 | training two batches of sentences in either order gives the same probabilities and the same sampled tokens |
| Text.TrimSpaceSpec | rsg.go:47 | the trimmed text is a slice of the input with only white space before and after it, and it neither begins nor ends with white space |
| Text.TrimBlanks | ngram.go:45 | any white space before and after a text that neither begins nor ends with white space is trimmed away, leaving exactly that text |
| Text.JoinSplit | rsg.go:191 | joining the pieces of a split with the separator gives the text back |
| Text.SplitJoin | rsg.go:191 | splitting a join of separator-free pieces gives the pieces back |
| Text.Sort | rsg.go:138 | the sorted list is a permutation of the input in ascending byte order |
| Text.SortedUnique | ngram.go:146 | two sorted lists with the same elements are equal, so sorting is determined by the multiset |
| Text.Distinct | rsg.go:129-134 | the de-duplicated list holds the same strings as the input, each once |
| Text.SortDistinctBySet | ngram.go:140-146 | the sorted distinct list depends only on which strings occur |
| Text.AppendRepeated | rsg.go:50-52 | the padding loop appends exactly `n` copies of the marker (none for `n <= 0`) |
| Text.SpacedIsJoin | rsg.go:160-178 | the text built by appending each token and a space, less its last character, is the tokens joined by spaces |
| Scanner.ScanShape | rsg.go:55-71 | every scanned token is a non-empty word or a single punctuation mark, and the tokens concatenate to the text without its separators |
| Scanner.ScanWords | rsg.go:55-71 | words joined by single spaces scan back to those words |
| Grams.WindowsAligned | rsg.go:88-91 | a token list of length `L` gives `max(0, L - gram + 1)` windows, the `i`-th being `tokens[i..i+gram]`, and these windows with their contexts are aligned |
| Grams.Slices | rsg.go:88-91 | the slicing loop produces exactly the windows of the token list, in order, with their contexts, aligned |
| Grams.AlignedAppend | rsg.go:93-94 | appending aligned windows and contexts to aligned lists keeps them aligned |
| Grams.SuccessorsAppend | rsg.go:102-109 | the successors in two concatenated stores are those of the first followed by those of the second |
| Grams.SuccessorsEmpty | rsg.go:102-112 | a context has no successors exactly when it is not among the stored contexts |
| Grams.SuccessorsOfWindows | rsg.go:88-109 | the successors of a context among one sentence's windows are the tokens that follow an occurrence of the context in the sentence |
| Grams.CountsSpec | rsg.go:129-134 | the count map has an entry exactly for each successor, holding its number of occurrences |
| Grams.ProbRange | rsg.go:110-114 | a probability lies in [0, 1]; it is 0 exactly when the token is not a successor, and 1 exactly when it is the only successor |
| Grams.ProbNormalized | rsg.go:98-116 | over the distinct successors of a seen context, the probabilities add up to 1 |
| Grams.CandidatesSpec | rsg.go:126-138 | the sorted candidate list holds each successor once, in strictly ascending order, and their counts add up to the number of successors |
| Grams.Walk | rsg.go:141-148 | the walk returns the candidate `Pick` chooses: the first whose cumulative weight reaches `r`, or `"<>"` |
| Grams.PickIsInverseCdf | rsg.go:141-148 | the walk returns the first candidate whose cumulative weight reaches `r`, and `"<>"` when none does |
| Grams.PickFinds | rsg.go:141-148 | when the total weight reaches `r`, the walk returns a candidate |
| Grams.PickMisses | rsg.go:141-148 | when the total weight stays below `r`, the walk returns `"<>"` |
| Grams.WalkMisses | ngram.go:146-156 | with weight `1 / n` per occurrence, a draw above `a / n` (`a` the total count) yields `"<>"` |
| Grams.FirstCountIsFirstReach | rsg.go:139-148 | the first candidate whose cumulative count reaches `r * counter` is the first whose cumulative weight `count / counter` reaches `r` |
| Grams.WindowIsSentenceTail | rsg.go:155-176 | the generator's window always holds `gram - 1` tokens: the last `gram - 1` of the current sentence, padded in front with start markers |
| Grams.SlideTail | rsg.go:164-175 | one emitted token moves that sentence-tail window the way the generator's update does |
| Grams.CorpusAppend | rsg.go:193-195 | training on two lists of sentences in turn stores the first list's n-grams followed by the second's |
| Grams.ObservedConcat | rsg.go:193-195 | the successors of a context after training on two lists of sentences are those of the first list followed by those of the second |
| Grams.ObservedOrder | rsg.go:193-195 | the successors of a context are the same multiset whichever list is trained first |
| Generation.Generate | rsg.go:160-176 | the generator emits exactly one token per draw |
| Generation.SampleByMultiset | rsg.go:126-148 | the sampled token depends on the successors only as a multiset |
| Generation.NextWindow | rsg.go:164-175 | the window update gives all start markers after the end marker, slides by one token when `gram != 1`, and otherwise keeps the window |
| Generation.GenerateFollowsWindow | rsg.go:160-176 | the `k`-th generated token is sampled after the window reached by the tokens before it |
| Generation.GeneratedTokenContext | rsg.go:155-176 | every generated token is sampled after the last `gram - 1` tokens of its sentence, padded with start markers |

## Left out

- File reading and the diagnostic `fmt.Printf` in `NewNGram` (rsg.go:185-188, ngram.go:191-194) are I/O. `NewNGram` takes the file's contents; a failed read is the empty contents.
- `rand.Float64()` is the global random source: it becomes the parameter `r`, or one draw per token in `GetRandomText`. Only draws in `[0, 1)` occur in Go; the lemmas that need it require `r <= 1`.
- `float64` arithmetic is replaced by exact `real`s. Rounding in the cumulative sum is not modelled, so "a seen context never yields `"<>"`" in `rsg.go` holds for exact arithmetic only.
- `reflect.DeepEqual` tells a nil slice from an empty one. Contexts are compared as plain sequences, so a nil context with `gram = 1` matches the stored empty contexts here but not in Go.
- Go slice aliasing is not modelled: the stored windows share the token list's backing array, and nothing writes to them later, so the model stores them as values.
- Strings are sequences of characters: UTF-8 decoding of runes is not modelled.
- The `MarkovModel` interfaces (rsg.go:20-32, ngram.go:21-33) are not modelled: their signatures do not match the methods, and nothing implements them.
- The wrong-case import `"Math/rand"` (ngram.go:6) is a build matter, not behaviour.
- `Rsg.Unit` and `NGram.Unit` give weight 0 where Go computes `1 / 0 = +Inf` for an unseen context. The weight is never used there, because the candidate list is empty.
- `sort.Strings` is modelled by an insertion sort in byte order. Only its result is modelled: a sorted permutation, which is unique.
- The model requires `gram >= 1`. With `gram = 0`, `updateNGram` slices `tokenList[i:i-1]` and panics.
- `Rsg.Tally`, `Rsg.Record`, `NGram.Tally`, `NGram.Record`, `Grams.Slices`, `Grams.Walk`, `Generation.NextWindow`, `Text.AppendRepeated` and the two `Emit` methods are separate methods here. In the source they are loops and statements inside the enclosing function.
- The generator and the sampler's walk are written once and shared by both copies, with the markers and the weight per occurrence as parameters.
