/** `extractKeywords`: the words of a text that are long enough and not
    filler, longest first, used to build the keyword sub-searches of
    evidence mode. */
module Keywords {
  import opened Js

  /** The fixed list of filler words that are never keywords. */
  const FillerWords: seq<string> := [
    "the", "a", "an", "that", "this", "these", "those", "is", "are", "was", "were",
    "be", "been", "being", "have", "has", "had", "do", "does", "did", "should",
    "would", "could", "will", "shall", "may", "might", "must", "can", "resolved",
    "debate", "argument", "therefore", "thus", "hence", "because", "since"
  ]

  /** `replace(/[^\w\s]/g, '')`: every character that is neither a word
      character nor white space is removed, all others are kept in order. */
  function StripPunctuation(s: string): (r: string)
    ensures forall i | 0 <= i < |r| :: IsWordChar(r[i]) || IsSpace(r[i])
    ensures (forall i | 0 <= i < |s| :: IsWordChar(s[i]) || IsSpace(s[i])) ==> r == s
  {
    if s == [] then []
    else
      assert s == [s[0]] + s[1..];
      (if IsWordChar(s[0]) || IsSpace(s[0]) then [s[0]] else []) + StripPunctuation(s[1..])
  }

  /** The filter works character by character: filtering a concatenation
      filters each part in place, so the kept characters keep their order. */
  lemma {:induction false} StripPunctuationAppend(a: string, b: string)
    ensures StripPunctuation(a + b) == StripPunctuation(a) + StripPunctuation(b)
  {
    if a == [] {
      assert a + b == b;
    } else {
      var ab := a + b;
      var head := if IsWordChar(a[0]) || IsSpace(a[0]) then [a[0]] else [];
      assert ab[0] == a[0] && ab[1..] == a[1..] + b;
      var ra, rb := StripPunctuation(a[1..]), StripPunctuation(b);
      StripPunctuationAppend(a[1..], b);
      calc {
        StripPunctuation(ab);
        head + StripPunctuation(a[1..] + b);
        head + (ra + rb);
        { assert head + (ra + rb) == (head + ra) + rb; }
        (head + ra) + rb;
        StripPunctuation(a) + rb;
      }
    }
  }

  /** The filter keeps every word and white-space character as often as it
      occurs, and nothing else. */
  lemma {:induction false} StripPunctuationCounts(s: string)
    ensures forall c :: multiset(StripPunctuation(s))[c] == if IsWordChar(c) || IsSpace(c) then multiset(s)[c] else 0
  {
    if s != [] {
      StripPunctuationCounts(s[1..]);
      assert s == [s[0]] + s[1..];
    }
  }

  /** One character is kept exactly when it is a word or white-space
      character. */
  lemma StripPunctuationOne(c: char)
    ensures StripPunctuation([c]) == if IsWordChar(c) || IsSpace(c) then [c] else []
  {
    assert [c][1..] == [];
  }

  /** `text.toLowerCase().replace(/[^\w\s]/g, '')`. */
  function Normalize(text: string): (r: string)
    ensures forall i | 0 <= i < |r| :: (IsWordChar(r[i]) || IsSpace(r[i])) && !IsUpper(r[i])
  {
    var lower := LowerCase(text);
    var r := StripPunctuation(lower);
    StripPunctuationCounts(lower);
    assert forall i | 0 <= i < |r| :: r[i] in multiset(lower) by {
      forall i | 0 <= i < |r| ensures r[i] in multiset(lower) {
        assert r[i] in multiset(r);
      }
    }
    r
  }

  /** `s.split(/\s+/)`, having already read `token` of the current piece:
      every maximal run of white space separates two pieces, so leading or
      trailing white space yields an empty first or last piece. */
  function SplitFrom(s: string, token: string): (r: seq<string>)
    ensures |r| >= 1
    decreases |s|
  {
    if s == [] then [token]
    else if IsSpace(s[0]) then [token] + SplitFrom(TrimStart(s[1..]), [])
    else SplitFrom(s[1..], token + [s[0]])
  }

  /** `s.split(/\s+/)`. */
  function Split(s: string): seq<string> {
    SplitFrom(s, [])
  }

  predicate SpaceFree(w: string) {
    forall i | 0 <= i < |w| :: !IsSpace(w[i])
  }

  /** The pieces of a split hold no white space, and each of their
      characters comes from the text (or from the piece read so far). */
  lemma {:induction false} SplitFromPieces(s: string, token: string)
    requires SpaceFree(token)
    ensures forall k | 0 <= k < |SplitFrom(s, token)| :: SpaceFree(SplitFrom(s, token)[k])
    ensures forall k, i | 0 <= k < |SplitFrom(s, token)| && 0 <= i < |SplitFrom(s, token)[k]| ::
      SplitFrom(s, token)[k][i] in token || SplitFrom(s, token)[k][i] in s
    decreases |s|
  {
    if s == [] {
    } else if IsSpace(s[0]) {
      var rest := TrimStart(s[1..]);
      SplitFromPieces(rest, []);
      forall c | c in rest ensures c in s {
        assert rest == s[1..][|s[1..]| - |rest|..];
      }
    } else {
      SplitFromPieces(s[1..], token + [s[0]]);
    }
  }

  /** The words of `text` after normalisation: `words` in the source. */
  function Tokens(text: string): seq<string> {
    Split(Normalize(text))
  }

  /** Every token consists of lower-case word characters only. */
  lemma TokensAreLowerWords(text: string)
    ensures forall k, i | 0 <= k < |Tokens(text)| && 0 <= i < |Tokens(text)[k]| ::
      IsWordChar(Tokens(text)[k][i]) && !IsUpper(Tokens(text)[k][i])
  {
    var n := Normalize(text);
    SplitFromPieces(n, []);
    forall k, i | 0 <= k < |Tokens(text)| && 0 <= i < |Tokens(text)[k]|
      ensures IsWordChar(Tokens(text)[k][i]) && !IsUpper(Tokens(text)[k][i])
    {
      var c := Tokens(text)[k][i];
      assert c in n;
      var j :| 0 <= j < |n| && n[j] == c;
    }
  }

  /** `words.join(" ")`, the inverse the split is checked against. */
  function JoinWithSpaces(ws: seq<string>): string
    requires |ws| >= 1
  {
    if |ws| == 1 then ws[0] else ws[0] + " " + JoinWithSpaces(ws[1..])
  }

  lemma {:induction false} SplitFromReadsWord(w: string, s: string, token: string)
    requires SpaceFree(w)
    ensures SplitFrom(w + s, token) == SplitFrom(s, token + w)
    decreases |w|
  {
    if w != [] {
      assert (w + s)[1..] == w[1..] + s;
      SplitFromReadsWord(w[1..], s, token + [w[0]]);
      assert token + [w[0]] + w[1..] == token + w;
    } else {
      assert w + s == s;
      assert token + w == token;
    }
  }

  /** Splitting undoes joining non-empty words with single spaces. */
  lemma {:induction false} SplitJoin(ws: seq<string>)
    requires |ws| >= 1
    requires forall k | 0 <= k < |ws| :: ws[k] != [] && SpaceFree(ws[k])
    ensures Split(JoinWithSpaces(ws)) == ws
  {
    if |ws| == 1 {
      SplitFromReadsWord(ws[0], [], []);
      assert ws[0] + [] == ws[0];
    } else {
      var rest := JoinWithSpaces(ws[1..]);
      SplitJoin(ws[1..]);
      assert JoinWithSpaces(ws) == ws[0] + (" " + rest);
      SplitFromReadsWord(ws[0], " " + rest, []);
      assert [] + ws[0] == ws[0];
      JoinStartsWithWord(ws[1..]);
      assert (" " + rest)[1..] == rest;
      assert TrimStart(rest) == rest;
    }
  }

  /** A space-free word splits into itself. */
  lemma SplitWord(w: string)
    requires SpaceFree(w)
    ensures Split(w) == [w]
  {
    SplitFromReadsWord(w, [], []);
    assert w + [] == w && [] + w == w;
  }

  /** Skipping a run of white space stops at the first other character. */
  lemma {:induction false} TrimStartRun(sp: string, s: string)
    requires AllSpace(sp) && (s == [] || !IsSpace(s[0]))
    ensures TrimStart(sp + s) == s
  {
    if sp == [] {
      assert sp + s == s;
    } else {
      assert (sp + s)[0] == sp[0];
      assert (sp + s)[1..] == sp[1..] + s;
      TrimStartRun(sp[1..], s);
    }
  }

  /** A non-empty run of white space ends the piece read so far, and the
      next piece starts after the whole run. */
  lemma SplitFromAtRun(sp: string, s: string, token: string)
    requires sp != [] && AllSpace(sp) && (s == [] || !IsSpace(s[0]))
    ensures SplitFrom(sp + s, token) == [token] + Split(s)
  {
    var rest := sp + s;
    assert rest[0] == sp[0] && rest[1..] == sp[1..] + s;
    TrimStartRun(sp[1..], s);
  }

  /** A word followed by a non-empty run of white space ends the first
      piece, and splitting goes on after the whole run. With an empty `w`
      this is the empty first piece that leading white space yields. */
  lemma SplitAtRun(w: string, sp: string, s: string)
    requires SpaceFree(w) && sp != [] && AllSpace(sp) && (s == [] || !IsSpace(s[0]))
    ensures Split(w + sp + s) == [w] + Split(s)
  {
    assert w + sp + s == w + (sp + s);
    SplitFromReadsWord(w, sp + s, []);
    assert [] + w == w;
    SplitFromAtRun(sp, s, w);
  }

  lemma {:induction false} JoinStartsWithWord(ws: seq<string>)
    requires |ws| >= 1 && ws[0] != [] && SpaceFree(ws[0])
    ensures JoinWithSpaces(ws) != [] && JoinWithSpaces(ws)[0] == ws[0][0]
  {
  }

  /** The test a word must pass to be a keyword. */
  predicate IsCandidate(w: string) {
    w !in FillerWords && |w| > 3
  }

  /** `words.filter(word => !fillerWords.includes(word) && word.length > 3)`. */
  function Candidates(words: seq<string>): (r: seq<string>)
    ensures forall k | 0 <= k < |r| :: IsCandidate(r[k])
    ensures forall w :: multiset(r)[w] == if IsCandidate(w) then multiset(words)[w] else 0
  {
    if words == [] then []
    else
      assert words == [words[0]] + words[1..];
      (if IsCandidate(words[0]) then [words[0]] else []) + Candidates(words[1..])
  }

  /** The filter works word by word: filtering a concatenation filters each
      part in place, so the kept words keep their order. */
  lemma {:induction false} CandidatesAppend(a: seq<string>, b: seq<string>)
    ensures Candidates(a + b) == Candidates(a) + Candidates(b)
  {
    if a == [] {
      assert a + b == b;
    } else {
      var ab := a + b;
      var head := if IsCandidate(a[0]) then [a[0]] else [];
      assert ab[0] == a[0] && ab[1..] == a[1..] + b;
      var ra, rb := Candidates(a[1..]), Candidates(b);
      CandidatesAppend(a[1..], b);
      calc {
        Candidates(ab);
        head + Candidates(a[1..] + b);
        head + (ra + rb);
        { assert head + (ra + rb) == (head + ra) + rb; }
        (head + ra) + rb;
        Candidates(a) + rb;
      }
    }
  }

  /** A single word is kept exactly when it is a candidate. */
  lemma CandidatesOne(w: string)
    ensures Candidates([w]) == if IsCandidate(w) then [w] else []
  {
    assert [w][1..] == [];
  }

  predicate NonIncreasingLength(ws: seq<string>) {
    forall i, j | 0 <= i < j < |ws| :: |ws[i]| >= |ws[j]|
  }

  /** Places `w` in front of the first word no longer than itself. */
  function InsertByLength(w: string, ws: seq<string>): (r: seq<string>)
    ensures multiset(r) == multiset(ws) + multiset{w}
    ensures forall x | x in r :: x == w || x in ws
  {
    if ws == [] || |w| >= |ws[0]| then [w] + ws
    else
      assert ws == [ws[0]] + ws[1..];
      [ws[0]] + InsertByLength(w, ws[1..])
  }

  /** Inserting into a list sorted longest first keeps it sorted. */
  lemma {:induction false} InsertKeepsOrder(w: string, ws: seq<string>)
    requires NonIncreasingLength(ws)
    ensures NonIncreasingLength(InsertByLength(w, ws))
  {
    var r := InsertByLength(w, ws);
    if ws == [] || |w| >= |ws[0]| {
      forall i, j | 0 <= i < j < |r| ensures |r[i]| >= |r[j]| {
        if i == 0 {
          assert r[j] == ws[j - 1];
          assert |ws[0]| >= |ws[j - 1]|;
        } else {
          assert r[i] == ws[i - 1] && r[j] == ws[j - 1];
        }
      }
    } else {
      var rest := InsertByLength(w, ws[1..]);
      assert NonIncreasingLength(ws[1..]) by {
        forall i, j | 0 <= i < j < |ws[1..]| ensures |ws[1..][i]| >= |ws[1..][j]| {
          assert ws[1..][i] == ws[i + 1] && ws[1..][j] == ws[j + 1];
        }
      }
      InsertKeepsOrder(w, ws[1..]);
      assert r == [ws[0]] + rest;
      forall i, j | 0 <= i < j < |r| ensures |r[i]| >= |r[j]| {
        assert r[j] == rest[j - 1];
        if i == 0 {
          assert rest[j - 1] in rest;
          if rest[j - 1] != w {
            var k :| 0 <= k < |ws[1..]| && ws[1..][k] == rest[j - 1];
            assert ws[1..][k] == ws[k + 1];
          }
        } else {
          assert r[i] == rest[i - 1];
        }
      }
    }
  }

  /** `sort((a, b) => b.length - a.length)` as a stable insertion sort: the
      longest words first. */
  function SortByLength(ws: seq<string>): (r: seq<string>)
    ensures multiset(r) == multiset(ws)
    ensures NonIncreasingLength(r)
  {
    if ws == [] then []
    else
      assert ws == [ws[0]] + ws[1..];
      InsertKeepsOrder(ws[0], SortByLength(ws[1..]));
      InsertByLength(ws[0], SortByLength(ws[1..]))
  }

  /** The words of length `n`, in their order. */
  function OfLength(ws: seq<string>, n: nat): seq<string> {
    if ws == [] then []
    else (if |ws[0]| == n then [ws[0]] else []) + OfLength(ws[1..], n)
  }

  lemma {:induction false} InsertGoesBeforeEqualLength(w: string, ws: seq<string>, n: nat)
    ensures OfLength(InsertByLength(w, ws), n) == (if |w| == n then [w] else []) + OfLength(ws, n)
  {
    if ws == [] || |w| >= |ws[0]| {
      assert ([w] + ws)[1..] == ws;
    } else {
      InsertGoesBeforeEqualLength(w, ws[1..], n);
      assert ([ws[0]] + InsertByLength(w, ws[1..]))[1..] == InsertByLength(w, ws[1..]);
    }
  }

  /** The sort is stable: words of the same length keep their relative
      order. */
  lemma {:induction false} SortIsStable(ws: seq<string>, n: nat)
    ensures OfLength(SortByLength(ws), n) == OfLength(ws, n)
  {
    if ws != [] {
      SortIsStable(ws[1..], n);
      InsertGoesBeforeEqualLength(ws[0], SortByLength(ws[1..]), n);
    }
  }

  predicate IsPrefix(a: seq<string>, b: seq<string>) {
    |a| <= |b| && a == b[..|a|]
  }

  lemma {:induction false} OfLengthOfPrefix(ws: seq<string>, k: nat, n: nat)
    requires k <= |ws|
    ensures IsPrefix(OfLength(ws[..k], n), OfLength(ws, n))
  {
    if k > 0 {
      assert ws[..k][0] == ws[0];
      assert ws[..k][1..] == ws[1..][..k - 1];
      OfLengthOfPrefix(ws[1..], k - 1, n);
    }
  }

  /** `extractKeywords(text, maxKeywords)`: the first `maxKeywords` of the
      candidate words, longest first. */
  function ExtractKeywords(text: string, maxKeywords: int): (r: seq<string>)
    ensures text == [] ==> r == []
    ensures 0 <= maxKeywords ==> |r| <= maxKeywords
    ensures forall k | 0 <= k < |r| :: |r[k]| > 3 && r[k] !in FillerWords
    ensures NonIncreasingLength(r)
  {
    if text == [] then []
    else
      var sorted := SortByLength(Candidates(Tokens(text)));
      SortKeepsCandidates(Candidates(Tokens(text)));
      SortedPrefix(sorted, maxKeywords);
      SliceTo(sorted, maxKeywords)
  }

  /** A slice of sorted candidates is made of sorted candidates. */
  lemma SortedPrefix(sorted: seq<string>, end: int)
    requires NonIncreasingLength(sorted)
    requires forall k | 0 <= k < |sorted| :: IsCandidate(sorted[k])
    ensures var r := SliceTo(sorted, end);
      NonIncreasingLength(r) && forall k | 0 <= k < |r| :: IsCandidate(r[k])
  {
    var r := SliceTo(sorted, end);
    assert forall k | 0 <= k < |r| :: r[k] == sorted[k];
  }

  lemma SortKeepsCandidates(ws: seq<string>)
    requires forall k | 0 <= k < |ws| :: IsCandidate(ws[k])
    ensures forall k | 0 <= k < |SortByLength(ws)| :: IsCandidate(SortByLength(ws)[k])
  {
    var sorted := SortByLength(ws);
    forall k | 0 <= k < |sorted| ensures IsCandidate(sorted[k]) {
      assert sorted[k] in multiset(sorted);
      assert sorted[k] in multiset(ws);
    }
  }

  /** Every keyword is one of the text's words: taken together, the
      keywords are a sub-multiset of the normalised tokens. */
  lemma KeywordsComeFromTokens(text: string, maxKeywords: int)
    ensures multiset(ExtractKeywords(text, maxKeywords)) <= multiset(Tokens(text))
  {
    if text != [] {
      var candidates := Candidates(Tokens(text));
      var sorted := SortByLength(candidates);
      var r := ExtractKeywords(text, maxKeywords);
      PrefixSubMultiset(r, sorted);
      CandidatesSubMultiset(Tokens(text));
    }
  }

  lemma PrefixSubMultiset(a: seq<string>, b: seq<string>)
    requires IsPrefix(a, b)
    ensures multiset(a) <= multiset(b)
  {
    assert b == a + b[|a|..];
  }

  lemma CandidatesSubMultiset(words: seq<string>)
    ensures multiset(Candidates(words)) <= multiset(words)
  {
    var m := multiset(Candidates(words));
    forall w ensures m[w] <= multiset(words)[w] {
    }
  }

  /** As many keywords as `maxKeywords` allows: all candidates when there
      are fewer. */
  lemma KeywordsCount(text: string, maxKeywords: int)
    requires 0 <= maxKeywords
    ensures var n := |Candidates(Tokens(text))|;
      |ExtractKeywords(text, maxKeywords)| == if maxKeywords < n then maxKeywords else n
  {
    if text == [] {
      assert LowerCase(text) == [];
      assert Normalize(text) == [];
      var empty: string := [];
      assert Tokens(text) == [empty];
      assert !IsCandidate(empty);
      assert [empty][1..] == [];
    }
  }

  /** The keywords are the longest candidates: no candidate left out is
      longer than a keyword. */
  lemma KeywordsAreLongest(text: string, maxKeywords: int)
    ensures var r := ExtractKeywords(text, maxKeywords);
      forall w | w in multiset(Candidates(Tokens(text))) - multiset(r) :: forall k | 0 <= k < |r| :: |w| <= |r[k]|
  {
    if text != [] {
      var sorted := SortByLength(Candidates(Tokens(text)));
      var r := ExtractKeywords(text, maxKeywords);
      assert r == sorted[..|r|];
      SortedPrefixIsLongest(sorted, |r|);
    }
  }

  lemma SortedPrefixIsLongest(sorted: seq<string>, n: nat)
    requires n <= |sorted| && NonIncreasingLength(sorted)
    ensures forall w | w in multiset(sorted) - multiset(sorted[..n]) :: forall k | 0 <= k < n :: |w| <= |sorted[k]|
  {
    var rest := sorted[n..];
    assert sorted == sorted[..n] + rest;
    assert multiset(sorted) - multiset(sorted[..n]) == multiset(rest);
    forall w | w in multiset(rest) ensures forall k | 0 <= k < n :: |w| <= |sorted[k]| {
      var j :| 0 <= j < |rest| && rest[j] == w;
      assert w == sorted[n + j];
    }
  }

  /** Keywords of equal length appear in the order of the text: those of
      length `n` are the first few candidates of length `n`. */
  lemma KeywordsKeepTextOrder(text: string, maxKeywords: int, n: nat)
    ensures IsPrefix(OfLength(ExtractKeywords(text, maxKeywords), n), OfLength(Candidates(Tokens(text)), n))
  {
    if text != [] {
      var candidates := Candidates(Tokens(text));
      var sorted := SortByLength(candidates);
      var r := ExtractKeywords(text, maxKeywords);
      assert r == sorted[..|r|];
      OfLengthOfPrefix(sorted, |r|, n);
      SortIsStable(candidates, n);
    }
  }

  /** Keywords are made of lower-case ASCII letters, digits and underscores. */
  lemma KeywordsAreLowerWords(text: string, maxKeywords: int)
    ensures var r := ExtractKeywords(text, maxKeywords);
      forall k, i | 0 <= k < |r| && 0 <= i < |r[k]| :: IsWordChar(r[k][i]) && !IsUpper(r[k][i])
  {
    var r := ExtractKeywords(text, maxKeywords);
    KeywordsComeFromTokens(text, maxKeywords);
    TokensAreLowerWords(text);
    forall k | 0 <= k < |r| ensures r[k] in Tokens(text) {
      assert r[k] in multiset(r);
    }
  }
}
