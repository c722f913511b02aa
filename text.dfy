/** Go string helpers the n-gram model relies on, with Go strings modelled as
    `seq<char>`: white-space trimming, splitting on a separator, joining,
    string ordering and sorting, de-duplication and padding. */
module Text {

  /** Go's `unicode.IsSpace`: the characters `strings.TrimSpace` removes. */
  predicate IsSpace(c: char)
  {
    || c == '\t' || c == '\n' || c == '\U{000B}' || c == '\U{000C}' || c == '\r' || c == ' '
    || c == '\U{0085}' || c == '\U{00A0}' || c == '\U{1680}'
    || ('\U{2000}' <= c <= '\U{200A}')
    || c == '\U{2028}' || c == '\U{2029}' || c == '\U{202F}' || c == '\U{205F}' || c == '\U{3000}'
  }

  /** `s` without its leading white space. */
  function TrimLeft(s: string): string
  {
    if s != [] && IsSpace(s[0]) then TrimLeft(s[1..]) else s
  }

  /** `s` without its trailing white space. */
  function TrimRight(s: string): string
  {
    if s != [] && IsSpace(s[|s| - 1]) then TrimRight(s[..|s| - 1]) else s
  }

  /** Go's `strings.TrimSpace`: `s` without white space at either end. */
  function TrimSpace(s: string): string
  {
    TrimRight(TrimLeft(s))
  }

  lemma {:induction false} TrimLeftSpec(s: string)
    ensures var r := TrimLeft(s);
            && |r| <= |s| && r == s[|s| - |r|..]
            && (forall i :: 0 <= i < |s| - |r| ==> IsSpace(s[i]))
            && (r == [] || !IsSpace(r[0]))
  {
    if s != [] && IsSpace(s[0]) {
      var t := s[1..];
      TrimLeftSpec(t);
      var r := TrimLeft(t);
      assert TrimLeft(s) == r;
      assert s[|s| - |r|..] == t[|t| - |r|..];
      forall i | 0 <= i < |s| - |r|
        ensures IsSpace(s[i])
      {
        if i > 0 {
          assert s[i] == t[i - 1];
        }
      }
    }
  }

  lemma {:induction false} TrimRightSpec(s: string)
    ensures var r := TrimRight(s);
            && |r| <= |s| && r == s[..|r|]
            && (forall i :: |r| <= i < |s| ==> IsSpace(s[i]))
            && (r == [] || !IsSpace(r[|r| - 1]))
  {
    if s != [] && IsSpace(s[|s| - 1]) {
      var t := s[..|s| - 1];
      TrimRightSpec(t);
      var r := TrimRight(t);
      assert TrimRight(s) == r;
      assert s[..|r|] == t[..|r|];
      forall i | |r| <= i < |s|
        ensures IsSpace(s[i])
      {
        if i < |s| - 1 {
          assert s[i] == t[i];
        }
      }
    }
  }

  /** `TrimSpace` keeps an infix of `s`: everything cut off before and after
      it is white space, and it neither starts nor ends with white space. */
  lemma TrimSpaceSpec(s: string)
    ensures exists i, j :: 0 <= i <= j <= |s| && TrimSpace(s) == s[i..j]
                           && (forall k :: 0 <= k < i ==> IsSpace(s[k]))
                           && (forall k :: j <= k < |s| ==> IsSpace(s[k]))
    ensures var r := TrimSpace(s);
            r == [] || (!IsSpace(r[0]) && !IsSpace(r[|r| - 1]))
  {
    var l := TrimLeft(s);
    TrimLeftSpec(s);
    TrimRightSpec(l);
    var r := TrimRight(l);
    var i := |s| - |l|;
    assert r == s[i..i + |r|];
    assert forall k :: i + |r| <= k < |s| ==> s[k] == l[k - i];
  }

  /** A text that neither starts nor ends with white space is trimmed to itself. */
  lemma TrimPlain(s: string)
    requires s != [] && !IsSpace(s[0]) && !IsSpace(s[|s| - 1])
    ensures TrimSpace(s) == s
  {
  }

  /** Leading white space in front of a text that starts otherwise is trimmed away. */
  lemma {:induction false} TrimLeftBlanks(a: string, t: string)
    requires forall k :: 0 <= k < |a| ==> IsSpace(a[k])
    requires t != [] && !IsSpace(t[0])
    ensures TrimLeft(a + t) == t
    decreases |a|
  {
    if a == [] {
      assert a + t == t;
    } else {
      assert (a + t)[0] == a[0] && (a + t)[1..] == a[1..] + t;
      TrimLeftBlanks(a[1..], t);
    }
  }

  /** Trailing white space after a text that ends otherwise is trimmed away. */
  lemma {:induction false} TrimRightBlanks(t: string, b: string)
    requires forall k :: 0 <= k < |b| ==> IsSpace(b[k])
    requires t != [] && !IsSpace(t[|t| - 1])
    ensures TrimRight(t + b) == t
    decreases |b|
  {
    if b == [] {
      assert t + b == t;
    } else {
      var n := |b| - 1;
      assert (t + b)[|t + b| - 1] == b[n] && (t + b)[..|t + b| - 1] == t + b[..n];
      TrimRightBlanks(t, b[..n]);
    }
  }

  /** Any white space around a text that neither starts nor ends with white
      space is trimmed away. */
  lemma TrimBlanks(a: string, s: string, b: string)
    requires forall k :: 0 <= k < |a| ==> IsSpace(a[k])
    requires forall k :: 0 <= k < |b| ==> IsSpace(b[k])
    requires s != [] && !IsSpace(s[0]) && !IsSpace(s[|s| - 1])
    ensures TrimSpace(a + s + b) == s
  {
    assert a + s + b == a + (s + b) && (s + b)[0] == s[0];
    TrimLeftBlanks(a, s + b);
    TrimRightBlanks(s, b);
  }

  /** The pieces of `s` between occurrences of `sep`, the first piece having
      begun as `piece`. */
  function SplitFrom(s: string, sep: char, piece: string): (r: seq<string>)
    requires sep !in piece
    ensures |r| == multiset(s)[sep] + 1
    ensures forall p :: p in r ==> sep !in p
  {
    assert s != [] ==> s == [s[0]] + s[1..];
    if s == [] then [piece]
    else if s[0] == sep then [piece] + SplitFrom(s[1..], sep, [])
    else SplitFrom(s[1..], sep, piece + [s[0]])
  }

  /** Go's `strings.Split(s, string(sep))`: always at least one piece, the
      empty text giving the single empty piece. */
  function Split(s: string, sep: char): seq<string>
  {
    SplitFrom(s, sep, [])
  }

  /** Go's `strings.Join(pieces, string(sep))` for a non-empty list. */
  function Join(pieces: seq<string>, sep: char): string
    requires |pieces| >= 1
  {
    if |pieces| == 1 then pieces[0] else pieces[0] + [sep] + Join(pieces[1..], sep)
  }

  lemma {:induction false} JoinSplitFrom(s: string, sep: char, piece: string)
    requires sep !in piece
    ensures Join(SplitFrom(s, sep, piece), sep) == piece + s
  {
    if s == [] {
    } else if s[0] == sep {
      JoinSplitFrom(s[1..], sep, []);
      assert piece + s == piece + [sep] + s[1..];
    } else {
      JoinSplitFrom(s[1..], sep, piece + [s[0]]);
      assert piece + s == (piece + [s[0]]) + s[1..];
    }
  }

  /** Splitting loses nothing: joining the pieces back gives the text. */
  lemma JoinSplit(s: string, sep: char)
    ensures Join(Split(s, sep), sep) == s
  {
    JoinSplitFrom(s, sep, []);
  }

  lemma {:induction false} SplitFromAppend(x: string, y: string, sep: char, piece: string)
    requires sep !in x && sep !in piece
    ensures SplitFrom(x + y, sep, piece) == SplitFrom(y, sep, piece + x)
  {
    if x == [] {
      assert x + y == y && piece + x == piece;
    } else {
      assert (x + y)[0] == x[0] && (x + y)[1..] == x[1..] + y;
      SplitFromAppend(x[1..], y, sep, piece + [x[0]]);
      assert piece + [x[0]] + x[1..] == piece + x;
    }
  }

  /** Joining pieces free of the separator and splitting again gives the
      pieces back. */
  lemma {:induction false} SplitJoin(pieces: seq<string>, sep: char)
    requires |pieces| >= 1
    requires forall p :: p in pieces ==> sep !in p
    ensures Split(Join(pieces, sep), sep) == pieces
  {
    if |pieces| == 1 {
      SplitFromAppend(pieces[0], [], sep, []);
      assert pieces[0] + [] == pieces[0] && [] + pieces[0] == pieces[0];
      assert Join(pieces, sep) == pieces[0];
      assert SplitFrom([], sep, pieces[0]) == [pieces[0]];
      assert pieces == [pieces[0]];
    } else {
      var rest := Join(pieces[1..], sep);
      SplitFromAppend(pieces[0], [sep] + rest, sep, []);
      assert pieces[0] + [sep] + rest == pieces[0] + ([sep] + rest);
      assert [] + pieces[0] == pieces[0];
      assert ([sep] + rest)[0] == sep && ([sep] + rest)[1..] == rest;
      assert SplitFrom([sep] + rest, sep, pieces[0]) == [pieces[0]] + SplitFrom(rest, sep, []);
      SplitJoin(pieces[1..], sep);
      assert pieces == [pieces[0]] + pieces[1..];
    }
  }

  lemma {:induction false} JoinSnoc(pieces: seq<string>, p: string, sep: char)
    requires |pieces| >= 1
    ensures Join(pieces + [p], sep) == Join(pieces, sep) + [sep] + p
  {
    if |pieces| > 1 {
      assert (pieces + [p])[1..] == pieces[1..] + [p];
      JoinSnoc(pieces[1..], p, sep);
    }
  }

  /** Every token followed by one space: the text a generator loop builds
      with `result += tok; result += " "`. */
  function Spaced(toks: seq<string>): string
  {
    if toks == [] then [] else Spaced(toks[..|toks| - 1]) + toks[|toks| - 1] + " "
  }

  lemma SpacedSnoc(toks: seq<string>, t: string)
    ensures Spaced(toks + [t]) == Spaced(toks) + t + " "
  {
    assert (toks + [t])[..|toks|] == toks;
  }

  /** Dropping the last character of `Spaced` gives the space-joined tokens. */
  lemma {:induction false} SpacedIsJoin(toks: seq<string>)
    requires |toks| >= 1
    ensures Spaced(toks) == Join(toks, ' ') + " "
    ensures Spaced(toks)[..|Spaced(toks)| - 1] == Join(toks, ' ')
  {
    var n := |toks|;
    if n > 1 {
      SpacedIsJoin(toks[..n - 1]);
      JoinSnoc(toks[..n - 1], toks[n - 1], ' ');
      assert toks[..n - 1] + [toks[n - 1]] == toks;
    }
  }

  /** Go's `<` on strings: lexicographic, comparing characters by code point
      (the same order as comparing their UTF-8 encodings byte by byte). */
  predicate Less(a: string, b: string)
  {
    if a == [] then b != []
    else b != [] && (a[0] < b[0] || (a[0] == b[0] && Less(a[1..], b[1..])))
  }

  predicate LessEq(a: string, b: string)
  {
    a == b || Less(a, b)
  }

  lemma {:induction false} LessIrreflexive(a: string)
    ensures !Less(a, a)
  {
    if a != [] {
      LessIrreflexive(a[1..]);
    }
  }

  lemma {:induction false} LessTrichotomy(a: string, b: string)
    ensures a == b || Less(a, b) || Less(b, a)
  {
    if a != [] && b != [] && a[0] == b[0] {
      LessTrichotomy(a[1..], b[1..]);
      assert a[1..] == b[1..] ==> a == b by {
        assert a == [a[0]] + a[1..] && b == [b[0]] + b[1..];
      }
    }
  }

  lemma {:induction false} LessAsymmetric(a: string, b: string)
    requires Less(a, b)
    ensures !Less(b, a)
  {
    if a != [] && b != [] && a[0] == b[0] {
      LessAsymmetric(a[1..], b[1..]);
    }
  }

  lemma {:induction false} LessTransitive(a: string, b: string, c: string)
    requires Less(a, b) && Less(b, c)
    ensures Less(a, c)
  {
    if a != [] && a[0] == b[0] && b[0] == c[0] {
      LessTransitive(a[1..], b[1..], c[1..]);
    }
  }

  lemma LessEqTransitive(a: string, b: string, c: string)
    requires LessEq(a, b) && LessEq(b, c)
    ensures LessEq(a, c)
  {
    if a != b && b != c {
      LessTransitive(a, b, c);
    }
  }

  predicate Sorted(s: seq<string>)
  {
    forall i, j :: 0 <= i < j < |s| ==> LessEq(s[i], s[j])
  }

  /** `x` placed before the first element of `s` it does not exceed. */
  function Insert(x: string, s: seq<string>): (r: seq<string>)
    ensures multiset(r) == multiset(s) + multiset{x}
  {
    if s == [] then [x]
    else if LessEq(x, s[0]) then [x] + s
    else
      assert s == [s[0]] + s[1..];
      [s[0]] + Insert(x, s[1..])
  }

  lemma {:induction false} InsertSorted(x: string, s: seq<string>)
    requires Sorted(s)
    ensures Sorted(Insert(x, s))
  {
    if s == [] {
    } else if LessEq(x, s[0]) {
      var r := [x] + s;
      forall i, j | 0 <= i < j < |r|
        ensures LessEq(r[i], r[j])
      {
        if i == 0 {
          LessEqTransitive(x, s[0], s[j - 1]);
        }
      }
    } else {
      InsertSorted(x, s[1..]);
      var tail := Insert(x, s[1..]);
      LessTrichotomy(x, s[0]);
      forall j | 0 <= j < |tail|
        ensures LessEq(s[0], tail[j])
      {
        assert tail[j] in multiset(tail);
        if tail[j] != x {
          assert tail[j] in s[1..];
        }
      }
    }
  }

  /** Go's `sort.Strings`, as an insertion sort: an ascending permutation. */
  function Sort(s: seq<string>): (r: seq<string>)
    ensures multiset(r) == multiset(s)
    ensures Sorted(r)
  {
    if s == [] then []
    else
      assert s == [s[0]] + s[1..];
      InsertSorted(s[0], Sort(s[1..]));
      Insert(s[0], Sort(s[1..]))
  }

  lemma SortedHeadLeast(a: seq<string>, x: string)
    requires Sorted(a) && x in a
    ensures LessEq(a[0], x)
  {
    var i :| 0 <= i < |a| && a[i] == x;
    assert i == 0 || LessEq(a[0], a[i]);
  }

  lemma SortedSameHead(a: seq<string>, b: seq<string>)
    requires Sorted(a) && Sorted(b) && multiset(a) == multiset(b) && a != []
    ensures b != [] && a[0] == b[0]
  {
    assert a[0] in multiset(b);
    assert b[0] in multiset(a);
    SortedHeadLeast(b, a[0]);
    SortedHeadLeast(a, b[0]);
    if a[0] != b[0] {
      LessAsymmetric(a[0], b[0]);
    }
  }

  lemma SortedTail(a: seq<string>)
    requires Sorted(a) && a != []
    ensures Sorted(a[1..])
  {
    forall i, j | 0 <= i < j < |a| - 1
      ensures LessEq(a[1..][i], a[1..][j])
    {
      assert a[1..][i] == a[i + 1] && a[1..][j] == a[j + 1];
    }
  }

  /** An ascending order of a multiset is unique. */
  lemma {:induction false} SortedUnique(a: seq<string>, b: seq<string>)
    requires Sorted(a) && Sorted(b) && multiset(a) == multiset(b)
    ensures a == b
  {
    if a == [] {
      assert |b| == |multiset(b)| == 0;
    } else {
      SortedSameHead(a, b);
      assert a == [a[0]] + a[1..] && b == [b[0]] + b[1..];
      assert multiset(a) == multiset{a[0]} + multiset(a[1..]);
      assert multiset(b) == multiset{b[0]} + multiset(b[1..]);
      assert multiset(a[1..]) == multiset(a) - multiset{a[0]};
      assert multiset(b[1..]) == multiset(b) - multiset{b[0]};
      SortedTail(a);
      SortedTail(b);
      SortedUnique(a[1..], b[1..]);
    }
  }

  /** The distinct elements of `s` in the order of their first occurrence. */
  function Distinct(s: seq<string>): (r: seq<string>)
    ensures forall x :: x in r <==> x in s
    ensures forall x :: multiset(r)[x] <= 1
    ensures |r| <= |s|
  {
    if s == [] then []
    else
      var d := Distinct(s[..|s| - 1]);
      assert s == s[..|s| - 1] + [s[|s| - 1]];
      if s[|s| - 1] in d then d else d + [s[|s| - 1]]
  }

  lemma DistinctSnoc(s: seq<string>, x: string)
    ensures Distinct(s + [x]) == if x in s then Distinct(s) else Distinct(s) + [x]
  {
    assert (s + [x])[..|s|] == s;
  }

  /** Sequences with the same elements have the same distinct elements, as
      a multiset and hence in number. */
  lemma DistinctBySet(s: seq<string>, t: seq<string>)
    requires forall x :: x in s <==> x in t
    ensures multiset(Distinct(s)) == multiset(Distinct(t))
    ensures |Distinct(s)| == |Distinct(t)|
  {
    var ds, dt := Distinct(s), Distinct(t);
    forall x
      ensures multiset(ds)[x] == multiset(dt)[x]
    {
      assert x in ds <==> x in multiset(ds);
      assert x in dt <==> x in multiset(dt);
    }
    assert multiset(ds) == multiset(dt);
    assert |ds| == |multiset(ds)| && |dt| == |multiset(dt)|;
  }

  /** Sorting the distinct elements of a list gives a result that depends on
      the set of its elements alone, not on their order or multiplicity. */
  lemma SortDistinctBySet(s: seq<string>, t: seq<string>)
    requires forall x :: x in s <==> x in t
    ensures Sort(Distinct(s)) == Sort(Distinct(t))
  {
    DistinctBySet(s, t);
    SortedUnique(Sort(Distinct(s)), Sort(Distinct(t)));
  }

  /** `n` copies of `x`, none when `n <= 0`. */
  function Repeat(x: string, n: int): (r: seq<string>)
    ensures |r| == if n <= 0 then 0 else n
    ensures forall i :: 0 <= i < |r| ==> r[i] == x
  {
    if n <= 0 then [] else Repeat(x, n - 1) + [x]
  }

  /** The padding loops of the tokenizer and the generator: append `x` once
      per round of a counter that runs `n` rounds (none when `n <= 0`). */
  method AppendRepeated(s: seq<string>, x: string, n: int) returns (r: seq<string>)
    ensures r == s + Repeat(x, n)
  {
    r := s;
    var k := 0;
    while k < n
      invariant 0 <= k && (k <= n || k == 0)
      invariant r == s + Repeat(x, k)
    {
      r := r + [x];
      k := k + 1;
    }
  }

  lemma AppendAssoc<T>(a: seq<T>, b: seq<T>, c: seq<T>)
    ensures (a + b) + c == a + (b + c)
  {
  }

  /** The concatenation of a list of strings. */
  function Concat(ss: seq<string>): string
  {
    if ss == [] then [] else ss[0] + Concat(ss[1..])
  }

  lemma {:induction false} ConcatAppend(a: seq<string>, b: seq<string>)
    ensures Concat(a + b) == Concat(a) + Concat(b)
  {
    if a == [] {
      assert a + b == b;
    } else {
      assert (a + b)[0] == a[0] && (a + b)[1..] == a[1..] + b;
      ConcatAppend(a[1..], b);
    }
  }
}
