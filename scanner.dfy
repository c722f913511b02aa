/** The character scan shared by both tokenizers (rsg.go:55-71 and
    ngram.go:52-68): a word grows until a space, a newline or a punctuation
    mark ends it, and a punctuation mark becomes a token of its own. The
    punctuation marks are a parameter, `marks`, since the two copies
    recognise different sets. */
module Scanner {
  import opened Text

  /** The characters tested before punctuation in the scan loop. */
  predicate IsSeparator(c: char)
  {
    c == ' ' || c == '\n'
  }

  /** A character that extends the current word. */
  predicate InWord(marks: string, c: char)
  {
    !IsSeparator(c) && c !in marks
  }

  /** The pending word as a token, if there is one. */
  function Flush(word: string): seq<string>
  {
    if word != "" then [word] else []
  }

  /** A punctuation character as a token; any other character gives none. */
  function PunctToken(marks: string, c: char): seq<string>
  {
    if c in marks then [[c]] else []
  }

  /** The tokens the scan loop emits for `s` when it starts with the partial
      word `word`: a word is emitted when a separator or punctuation mark
      ends it, a punctuation mark is emitted on its own, and a last word is
      emitted at the end of the text. */
  function Scan(marks: string, s: string, word: string): seq<string>
  {
    if s == [] then Flush(word)
    else if InWord(marks, s[0]) then Scan(marks, s[1..], word + [s[0]])
    else Flush(word) + PunctToken(marks, s[0]) + Scan(marks, s[1..], "")
  }

  lemma ScanStep(marks: string, s: string, i: nat, word: string)
    requires i < |s|
    ensures Scan(marks, s[i..], word)
            == if InWord(marks, s[i]) then Scan(marks, s[i + 1..], word + [s[i]])
               else Flush(word) + PunctToken(marks, s[i]) + Scan(marks, s[i + 1..], "")
  {
    assert s[i..][0] == s[i] && s[i..][1..] == s[i + 1..];
  }

  lemma EmitStep(before: seq<string>, a: seq<string>, b: seq<string>, rest: seq<string>)
    ensures before + a + b + rest == before + (a + b + rest)
  {
  }

  /** The text without the characters the scan drops: separators that are
      not punctuation marks. */
  function Compact(marks: string, s: string): string
  {
    if s == [] then []
    else (if IsSeparator(s[0]) && s[0] !in marks then [] else [s[0]]) + Compact(marks, s[1..])
  }

  /** A non-empty run of word characters. */
  predicate IsWord(marks: string, w: string)
  {
    w != [] && forall i :: 0 <= i < |w| ==> InWord(marks, w[i])
  }

  /** A token of the scan: one punctuation mark, or a word. */
  predicate WordOrPunct(marks: string, t: string)
  {
    (|t| == 1 && t[0] in marks) || IsWord(marks, t)
  }

  /** Every token the scan emits is a punctuation mark or a word, and the
      tokens together spell the text without the dropped separators. */
  lemma {:induction false} ScanShape(marks: string, s: string, word: string)
    requires forall i :: 0 <= i < |word| ==> InWord(marks, word[i])
    ensures forall t :: t in Scan(marks, s, word) ==> WordOrPunct(marks, t)
    ensures Concat(Scan(marks, s, word)) == word + Compact(marks, s)
  {
    if s == [] {
      assert word + [] == word;
    } else if InWord(marks, s[0]) {
      var w' := word + [s[0]];
      assert forall i :: 0 <= i < |w'| ==> InWord(marks, w'[i]);
      ScanShape(marks, s[1..], w');
      assert Compact(marks, s) == [s[0]] + Compact(marks, s[1..]);
      AppendAssoc(word, [s[0]], Compact(marks, s[1..]));
    } else {
      ScanShape(marks, s[1..], "");
      ScanBreak(marks, s, word);
    }
  }

  /** The step of ScanShape at a character that ends the current word. */
  lemma ScanBreak(marks: string, s: string, word: string)
    requires s != [] && !InWord(marks, s[0])
    requires forall i :: 0 <= i < |word| ==> InWord(marks, word[i])
    requires forall t :: t in Scan(marks, s[1..], "") ==> WordOrPunct(marks, t)
    requires Concat(Scan(marks, s[1..], "")) == Compact(marks, s[1..])
    ensures forall t :: t in Scan(marks, s, word) ==> WordOrPunct(marks, t)
    ensures Concat(Scan(marks, s, word)) == word + Compact(marks, s)
  {
    var ws, ps, rest := Flush(word), PunctToken(marks, s[0]), Scan(marks, s[1..], "");
    assert Scan(marks, s, word) == ws + ps + rest;
    ConcatAppend(ws + ps, rest);
    ConcatAppend(ws, ps);
    assert Concat(ws) == word;
    if s[0] in marks {
      assert Concat(ps) == [s[0]] && Compact(marks, s) == [s[0]] + Compact(marks, s[1..]);
    } else {
      assert Concat(ps) == [] && Compact(marks, s) == Compact(marks, s[1..]);
    }
    AppendAssoc(word, Concat(ps), Compact(marks, s[1..]));
  }

  lemma {:induction false} ScanWord(marks: string, w: string, rest: string, word: string)
    requires forall i :: 0 <= i < |w| ==> InWord(marks, w[i])
    ensures Scan(marks, w + rest, word) == Scan(marks, rest, word + w)
  {
    if w == [] {
      assert w + rest == rest && word + w == word;
    } else {
      assert (w + rest)[0] == w[0] && (w + rest)[1..] == w[1..] + rest;
      ScanWord(marks, w[1..], rest, word + [w[0]]);
      assert word + [w[0]] + w[1..] == word + w;
    }
  }

  lemma ScanWordFirst(marks: string, w: string, tail: string)
    requires IsWord(marks, w) && (tail == [] || !InWord(marks, tail[0]))
    ensures Scan(marks, w + tail, "") == [w] + Scan(marks, tail, "")
  {
    ScanWord(marks, w, tail, "");
    assert "" + w == w;
    if tail != [] {
      assert tail == [tail[0]] + tail[1..];
    }
  }

  /** Words separated by single spaces scan to those words. */
  lemma {:induction false} ScanWords(marks: string, words: seq<string>, tail: string)
    requires ' ' !in marks
    requires |words| >= 1 && forall k :: 0 <= k < |words| ==> IsWord(marks, words[k])
    requires tail == [] || !InWord(marks, tail[0])
    ensures Scan(marks, Join(words, ' ') + tail, "") == words + Scan(marks, tail, "")
  {
    if |words| == 1 {
      ScanWordFirst(marks, words[0], tail);
    } else {
      var w, j := words[0], Join(words[1..], ' ');
      var rest := j + tail;
      var sp := [' '] + rest;
      assert Join(words, ' ') == w + [' '] + j;
      assert Join(words, ' ') + tail == w + sp;
      ScanWordFirst(marks, w, sp);
      assert sp[0] == ' ' && sp[1..] == rest;
      assert Scan(marks, sp, "") == Scan(marks, rest, "");
      ScanWords(marks, words[1..], tail);
      assert words == [w] + words[1..];
      AppendAssoc([w], words[1..], Scan(marks, tail, ""));
    }
  }

  /** A punctuation mark alone scans to itself. */
  lemma ScanPunct(marks: string, p: char)
    requires p in marks
    ensures !InWord(marks, p) && Scan(marks, [p], "") == [[p]]
  {
    assert [p][0] == p && [p][1..] == [];
  }

  /** A sentence of words closed by one punctuation mark scans to the words
      and the mark. */
  lemma ScanSentence(marks: string, words: seq<string>, p: char)
    requires ' ' !in marks
    requires |words| >= 1 && forall k :: 0 <= k < |words| ==> IsWord(marks, words[k])
    requires p in marks
    ensures Scan(marks, Join(words, ' ') + [p], "") == words + [[p]]
  {
    ScanPunct(marks, p);
    ScanWords(marks, words, [p]);
  }

  predicate IsLetter(c: char)
  {
    'a' <= c <= 'z' || 'A' <= c <= 'Z'
  }

  /** A run of letters is a word when no letter is a punctuation mark. */
  lemma LettersWord(marks: string, w: string)
    requires forall k :: 0 <= k < |marks| ==> !IsLetter(marks[k])
    requires w != [] && forall i :: 0 <= i < |w| ==> IsLetter(w[i])
    ensures IsWord(marks, w)
  {
    forall i | 0 <= i < |w|
      ensures InWord(marks, w[i])
    {
      assert IsLetter(w[i]);
    }
  }

  lemma JoinHead(words: seq<string>)
    requires |words| >= 1 && words[0] != []
    ensures Join(words, ' ') != [] && Join(words, ' ')[0] == words[0][0]
  {
  }

  /** The sample sentence of the tokenizer examples, as words joined by spaces. */
  lemma SampleSentence(words: seq<string>)
    requires words == ["This", "is", "an", "example"]
    ensures Join(words, ' ') == "This is an example"
  {
    assert words[1..][1..][1..] == ["example"];
    assert Join(words[1..][1..], ' ') == "an example";
  }

  /** A sentence of words closed by a punctuation mark that is not white
      space is its own trimmed form. */
  lemma TrimSentence(words: seq<string>, p: char)
    requires |words| >= 1 && words[0] != [] && !IsSpace(words[0][0]) && !IsSpace(p)
    ensures TrimSpace(Join(words, ' ') + [p]) == Join(words, ' ') + [p]
  {
    var s := Join(words, ' ') + [p];
    JoinHead(words);
    assert TrimLeft(s) == s;
    assert TrimRight(s) == s;
  }
}
