/** Answer matching (lib/game-logic.ts): Hebrew-aware normalisation, the
    Levenshtein edit distance and the typo-tolerant `checkAnswer`. */
module AnswerMatching {
  import opened Text

  /** HEBREW PUNCTUATION GERSHAYIM and GERESH. */
  const Gershayim: char := '\U{05F4}'
  const Geresh: char := '\U{05F3}'

  /** The two `replace` calls: ״ and `"` become `"`, ׳ and `'` become `'`. */
  function QuoteChar(c: char): char {
    if c == Gershayim then '"' else if c == Geresh then '\'' else c
  }

  function ReplaceQuotes(s: string): (r: string)
    ensures |r| == |s|
    ensures forall i :: 0 <= i < |s| ==> r[i] == QuoteChar(s[i])
  {
    seq(|s|, i requires 0 <= i < |s| => QuoteChar(s[i]))
  }

  /** No two adjacent white-space characters. */
  predicate NoDoubleSpace(s: string) {
    forall i :: 0 <= i < |s| - 1 ==> !(IsSpace(s[i]) && IsSpace(s[i + 1]))
  }

  /** The only white-space character present is the plain space. */
  predicate PlainSpaces(s: string) {
    forall i :: 0 <= i < |s| && IsSpace(s[i]) ==> s[i] == ' '
  }

  /** Neither ״ nor ׳ occurs. */
  predicate QuoteFree(s: string) {
    forall i :: 0 <= i < |s| ==> s[i] != Gershayim && s[i] != Geresh
  }

  /** `replace(/\s+/g, ' ')`: every maximal run of white space becomes one
      space character. */
  function CollapseSpaces(s: string): string
    decreases |s|
  {
    if |s| == 0 then []
    else if IsSpace(s[0]) then [' '] + CollapseSpaces(TrimStart(s[1..]))
    else [s[0]] + CollapseSpaces(s[1..])
  }

  /** The collapse keeps the kind of the first character and never
      lengthens the string. */
  lemma {:induction false} CollapseHead(s: string)
    ensures |CollapseSpaces(s)| <= |s|
    ensures |s| > 0 ==> |CollapseSpaces(s)| > 0 && (IsSpace(CollapseSpaces(s)[0]) <==> IsSpace(s[0]))
    decreases |s|
  {
    if |s| > 0 {
      if IsSpace(s[0]) {
        CollapseHead(TrimStart(s[1..]));
      } else {
        CollapseHead(s[1..]);
      }
    }
  }

  /** The only white space left by the collapse is single space characters. */
  lemma {:induction false} CollapseShape(s: string)
    ensures PlainSpaces(CollapseSpaces(s))
    ensures NoDoubleSpace(CollapseSpaces(s))
    decreases |s|
  {
    if |s| == 0 {
    } else if IsSpace(s[0]) {
      var rest := TrimStart(s[1..]);
      TrimStartShape(s[1..]);
      CollapseShape(rest);
      CollapseHead(rest);
    } else {
      CollapseShape(s[1..]);
      CollapseHead(s[1..]);
    }
  }

  /** The collapse introduces no quote sign. */
  lemma {:induction false} CollapseQuoteFree(s: string)
    requires QuoteFree(s)
    ensures QuoteFree(CollapseSpaces(s))
    decreases |s|
  {
    if |s| > 0 {
      if IsSpace(s[0]) {
        var rest := TrimStart(s[1..]);
        TrimStartShape(s[1..]);
        CollapseQuoteFree(rest);
      } else {
        CollapseQuoteFree(s[1..]);
      }
    }
  }

  /** `normalizeHebrew`: canonical quotes, collapsed white space, trimmed,
      lower case. */
  function NormalizeHebrew(text: string): string {
    ToLower(Trim(CollapseSpaces(ReplaceQuotes(text))))
  }

  /** A normalised string has no white space at either end, no run of two
      white-space characters, no ״ or ׳, no upper-case ASCII letter, and is
      never longer than the input. */
  lemma NormalizeHebrewShape(text: string)
    ensures NoSpaceAtEnds(NormalizeHebrew(text))
    ensures PlainSpaces(NormalizeHebrew(text))
    ensures NoDoubleSpace(NormalizeHebrew(text))
    ensures QuoteFree(NormalizeHebrew(text))
    ensures forall i :: 0 <= i < |NormalizeHebrew(text)| ==> !IsUpperAscii(NormalizeHebrew(text)[i])
    ensures |NormalizeHebrew(text)| <= |text|
  {
    var c := CollapseSpaces(ReplaceQuotes(text));
    CollapseHead(ReplaceQuotes(text));
    CollapseShape(ReplaceQuotes(text));
    CollapseQuoteFree(ReplaceQuotes(text));
    TrimKeepsShape(c);
    LowerKeepsShape(Trim(c));
  }

  lemma TrimKeepsShape(c: string)
    ensures NoSpaceAtEnds(Trim(c))
    ensures NoDoubleSpace(c) ==> NoDoubleSpace(Trim(c))
    ensures PlainSpaces(c) ==> PlainSpaces(Trim(c))
    ensures QuoteFree(c) ==> QuoteFree(Trim(c))
    ensures |Trim(c)| <= |c|
  {
    TrimShape(c);
    var t, k := Trim(c), |c| - |TrimStart(c)|;
    assert forall i :: 0 <= i < |t| ==> t[i] == c[k + i];
  }

  lemma LowerKeepsShape(t: string)
    ensures NoSpaceAtEnds(t) ==> NoSpaceAtEnds(ToLower(t))
    ensures NoDoubleSpace(t) ==> NoDoubleSpace(ToLower(t))
    ensures PlainSpaces(t) ==> PlainSpaces(ToLower(t))
    ensures QuoteFree(t) ==> QuoteFree(ToLower(t))
    ensures forall i :: 0 <= i < |t| ==> !IsUpperAscii(ToLower(t)[i])
  {
  }

  /** A string already in normal form is left unchanged. */
  lemma NormalFormFixed(s: string)
    requires NoSpaceAtEnds(s) && NoDoubleSpace(s) && PlainSpaces(s) && QuoteFree(s)
    requires forall i :: 0 <= i < |s| ==> !IsUpperAscii(s[i])
    ensures NormalizeHebrew(s) == s
  {
    assert ReplaceQuotes(s) == s;
    CollapseFixed(s);
    TrimShape(s);
    assert TrimStart(s) == s;
    assert TrimEnd(s) == s;
    assert ToLower(s) == s;
  }

  lemma {:induction false} CollapseFixed(s: string)
    requires NoDoubleSpace(s) && PlainSpaces(s)
    ensures CollapseSpaces(s) == s
    decreases |s|
  {
    if |s| > 0 {
      CollapseFixed(s[1..]);
      if IsSpace(s[0]) {
        assert TrimStart(s[1..]) == s[1..];
      }
    }
  }

  /** Normalising twice is the same as normalising once. */
  lemma NormalizeIdempotent(text: string)
    ensures NormalizeHebrew(NormalizeHebrew(text)) == NormalizeHebrew(text)
  {
    NormalizeHebrewShape(text);
    NormalFormFixed(NormalizeHebrew(text));
  }

  lemma NormalizeEmpty()
    ensures NormalizeHebrew("") == ""
  {
  }

  function Min3(x: nat, y: nat, z: nat): nat {
    if x <= y && x <= z then x else if y <= z then y else z
  }

  /** The edit distance, as the recurrence of the `dp` table: `Distance(a, b)`
      is `dp[|a|][|b|]`. */
  function Distance(a: string, b: string): nat
    decreases |a| + |b|
  {
    if |a| == 0 then |b|
    else if |b| == 0 then |a|
    else if a[|a| - 1] == b[|b| - 1] then Distance(a[..|a| - 1], b[..|b| - 1])
    else 1 + Min3(Distance(a[..|a| - 1], b[..|b| - 1]),
                  Distance(a[..|a| - 1], b),
                  Distance(a, b[..|b| - 1]))
  }

  /** One cell of the table, in terms of its three neighbours. */
  lemma DistanceCell(s1: string, s2: string, i: nat, j: nat)
    requires 1 <= i <= |s1| && 1 <= j <= |s2|
    ensures Distance(s1[..i], s2[..j]) ==
      if s1[i - 1] == s2[j - 1] then Distance(s1[..i - 1], s2[..j - 1])
      else 1 + Min3(Distance(s1[..i - 1], s2[..j - 1]), Distance(s1[..i - 1], s2[..j]), Distance(s1[..i], s2[..j - 1]))
  {
    var a, b := s1[..i], s2[..j];
    assert a[..|a| - 1] == s1[..i - 1] && b[..|b| - 1] == s2[..j - 1];
  }

  /** `levenshteinDistance`: fills the `(m+1) x (n+1)` table row by row. */
  method LevenshteinDistance(str1: string, str2: string) returns (d: nat)
    ensures d == Distance(str1, str2)
  {
    var m, n := |str1|, |str2|;
    var dp := new nat[m + 1, n + 1];
    for i := 0 to m + 1
      invariant forall r :: 0 <= r < i ==> dp[r, 0] == r
    {
      dp[i, 0] := i;
    }
    for j := 0 to n + 1
      invariant forall r :: 0 <= r <= m ==> dp[r, 0] == r
      invariant forall c :: 0 <= c < j ==> dp[0, c] == c
    {
      dp[0, j] := j;
    }
    assert forall c :: 0 <= c <= n ==> dp[0, c] == Distance(str1[..0], str2[..c]);
    for i := 1 to m + 1
      invariant forall c :: 0 <= c <= n ==> dp[i - 1, c] == Distance(str1[..i - 1], str2[..c])
      invariant forall r :: i <= r <= m ==> dp[r, 0] == r
    {
      FillRow(dp, str1, str2, i);
    }
    assert str1[..m] == str1 && str2[..n] == str2;
    d := dp[m, n];
  }

  /** One pass of the outer loop: row `i` from row `i - 1`, left to right. */
  method FillRow(dp: array2<nat>, str1: string, str2: string, i: nat)
    requires dp.Length0 == |str1| + 1 && dp.Length1 == |str2| + 1 && 1 <= i <= |str1|
    requires forall c :: 0 <= c <= |str2| ==> dp[i - 1, c] == Distance(str1[..i - 1], str2[..c])
    requires dp[i, 0] == i
    modifies dp
    ensures forall c :: 0 <= c <= |str2| ==> dp[i, c] == Distance(str1[..i], str2[..c])
    ensures forall r :: 0 <= r < dp.Length0 && r != i ==> dp[r, 0] == old(dp[r, 0])
  {
    assert dp[i, 0] == Distance(str1[..i], str2[..0]);
    for j := 1 to |str2| + 1
      invariant forall c :: 0 <= c <= |str2| ==> dp[i - 1, c] == Distance(str1[..i - 1], str2[..c])
      invariant forall c :: 0 <= c < j ==> dp[i, c] == Distance(str1[..i], str2[..c])
      invariant forall r :: 0 <= r < dp.Length0 && r != i ==> dp[r, 0] == old(dp[r, 0])
    {
      DistanceCell(str1, str2, i, j);
      var cell;
      if str1[i - 1] == str2[j - 1] {
        cell := dp[i - 1, j - 1];
      } else {
        cell := Min3(dp[i - 1, j - 1] + 1, dp[i - 1, j] + 1, dp[i, j - 1] + 1);
      }
      assert cell == Distance(str1[..i], str2[..j]);
      dp[i, j] := cell;
    }
  }

  /** The distance does not depend on the order of its arguments. */
  lemma {:induction false} DistanceSymmetric(a: string, b: string)
    ensures Distance(a, b) == Distance(b, a)
    decreases |a| + |b|
  {
    if |a| > 0 && |b| > 0 {
      var a', b' := a[..|a| - 1], b[..|b| - 1];
      DistanceSymmetric(a', b');
      DistanceSymmetric(a', b);
      DistanceSymmetric(a, b');
    }
  }

  /** The distance is zero exactly between equal strings. */
  lemma {:induction false} DistanceZeroIffEqual(a: string, b: string)
    ensures Distance(a, b) == 0 <==> a == b
    decreases |a| + |b|
  {
    if |a| > 0 && |b| > 0 {
      var a', b' := a[..|a| - 1], b[..|b| - 1];
      DistanceZeroIffEqual(a', b');
      assert a == a' + [a[|a| - 1]] && b == b' + [b[|b| - 1]];
    }
  }

  /** The length difference bounds the distance from below, the longer
      length bounds it from above; in particular the distance from the empty
      string is the other string's length. */
  lemma {:induction false} DistanceBounds(a: string, b: string)
    ensures |a| - |b| <= Distance(a, b) && |b| - |a| <= Distance(a, b)
    ensures Distance(a, b) <= if |a| < |b| then |b| else |a|
    decreases |a| + |b|
  {
    if |a| > 0 && |b| > 0 {
      var a', b' := a[..|a| - 1], b[..|b| - 1];
      DistanceBounds(a', b');
      DistanceBounds(a', b);
      DistanceBounds(a, b');
    }
  }

  /** Inserting one character anywhere costs at most one edit. */
  lemma {:induction false} InsertionWithinOne(s: string, i: nat, c: char)
    requires i <= |s|
    ensures Distance(s, s[..i] + [c] + s[i..]) <= 1
    decreases |s|
  {
    var t := s[..i] + [c] + s[i..];
    if |s| == 0 {
      assert t == [c];
    } else if i < |s| {
      var s' := s[..|s| - 1];
      InsertionWithinOne(s', i, c);
      assert t[..|t| - 1] == s'[..i] + [c] + s'[i..];
    } else {
      assert t == s + [c] && t[..|t| - 1] == s;
      DistanceZeroIffEqual(s, s);
      if s[|s| - 1] == c {
        var s' := s[..|s| - 1];
        InsertionWithinOne(s', |s'|, c);
        assert s == s'[..|s'|] + [c] + s'[|s'|..];
      }
    }
  }

  /** Deleting one character costs at most one edit. */
  lemma DeletionWithinOne(s: string, i: nat)
    requires i < |s|
    ensures Distance(s, s[..i] + s[i + 1..]) <= 1
  {
    var t := s[..i] + s[i + 1..];
    assert t[..i] == s[..i] && t[i..] == s[i + 1..];
    assert s == s[..i] + [s[i]] + s[i + 1..];
    InsertionWithinOne(t, i, s[i]);
    DistanceSymmetric(s, t);
  }

  /** Replacing one character costs at most one edit. */
  lemma {:induction false} SubstitutionWithinOne(s: string, i: nat, c: char)
    requires i < |s|
    ensures Distance(s, s[i := c]) <= 1
    decreases |s|
  {
    var t := s[i := c];
    var s', t' := s[..|s| - 1], t[..|t| - 1];
    if i < |s| - 1 {
      assert t' == s'[i := c];
      SubstitutionWithinOne(s', i, c);
    } else {
      assert t' == s';
      DistanceZeroIffEqual(s', s');
    }
  }

  /** A guess is accepted against one candidate on an exact match or a
      distance of at most one. */
  predicate Matches(guess: string, candidate: string) {
    guess == candidate || Distance(guess, candidate) <= 1
  }

  /** The synonym loop of `checkAnswer`. */
  function AnySynonymMatches(normalized: string, synonyms: seq<string>): (r: bool)
    ensures r <==> exists i :: 0 <= i < |synonyms| && Matches(normalized, NormalizeHebrew(synonyms[i]))
  {
    if |synonyms| == 0 then false
    else if Matches(normalized, NormalizeHebrew(synonyms[0])) then true
    else
      var rest := AnySynonymMatches(normalized, synonyms[1..]);
      assert forall i :: 1 <= i < |synonyms| ==> synonyms[i] == synonyms[1..][i - 1];
      rest
  }

  /** The candidate list is the target followed by the synonyms. */
  lemma CandidatesSplit(normalized: string, correctWord: string, synonyms: seq<string>)
    ensures (exists i :: 0 <= i < |[correctWord] + synonyms|
               && Matches(normalized, NormalizeHebrew(([correctWord] + synonyms)[i])))
        <==> (Matches(normalized, NormalizeHebrew(correctWord))
              || exists i :: 0 <= i < |synonyms| && Matches(normalized, NormalizeHebrew(synonyms[i])))
  {
    var cands := [correctWord] + synonyms;
    assert cands[0] == correctWord;
    assert forall i :: 0 <= i < |synonyms| ==> cands[i + 1] == synonyms[i];
    if exists i :: 0 <= i < |cands| && Matches(normalized, NormalizeHebrew(cands[i])) {
      var i :| 0 <= i < |cands| && Matches(normalized, NormalizeHebrew(cands[i]));
      if i > 0 {
        assert synonyms[i - 1] == cands[i];
      }
    }
  }

  /** `checkAnswer`: the target first, then each synonym, all normalised;
      accepted exactly when some candidate matches. */
  function CheckAnswer(userAnswer: string, correctWord: string, synonyms: seq<string>): (ok: bool)
    ensures ok <==> exists i :: 0 <= i < |[correctWord] + synonyms|
                       && Matches(NormalizeHebrew(userAnswer), NormalizeHebrew(([correctWord] + synonyms)[i]))
  {
    var normalized := NormalizeHebrew(userAnswer);
    var correctNormalized := NormalizeHebrew(correctWord);
    CandidatesSplit(normalized, correctWord, synonyms);
    if normalized == correctNormalized then true
    else if Distance(normalized, correctNormalized) <= 1 then true
    else AnySynonymMatches(normalized, synonyms)
  }
}

module AnswerMatchingProperties {
  import opened Text
  import opened AnswerMatching

  /** An empty guess is not rejected as such: it is accepted exactly when the
      normalised target has at most one character. */
  lemma EmptyGuess(correctWord: string)
    ensures CheckAnswer("", correctWord, []) <==> |NormalizeHebrew(correctWord)| <= 1
  {
    NormalizeEmpty();
    DistanceBounds("", NormalizeHebrew(correctWord));
    assert [correctWord] + [] == [correctWord];
  }

  /** A guess equal to the target after normalisation is accepted. */
  lemma AcceptsExact(userAnswer: string, correctWord: string, synonyms: seq<string>)
    requires NormalizeHebrew(userAnswer) == NormalizeHebrew(correctWord)
    ensures CheckAnswer(userAnswer, correctWord, synonyms)
  {
    assert ([correctWord] + synonyms)[0] == correctWord;
  }

  /** A guess equal to any synonym after normalisation is accepted. */
  lemma AcceptsSynonym(userAnswer: string, correctWord: string, synonyms: seq<string>, k: nat)
    requires k < |synonyms| && NormalizeHebrew(userAnswer) == NormalizeHebrew(synonyms[k])
    ensures CheckAnswer(userAnswer, correctWord, synonyms)
  {
    assert ([correctWord] + synonyms)[k + 1] == synonyms[k];
  }

  /** Typo tolerance: one inserted, deleted or replaced character relative to
      the normalised target is accepted. */
  lemma AcceptsOneTypo(userAnswer: string, correctWord: string, synonyms: seq<string>, i: nat, c: char)
    requires var t := NormalizeHebrew(correctWord);
      || (i <= |t| && NormalizeHebrew(userAnswer) == t[..i] + [c] + t[i..])
      || (i < |t| && NormalizeHebrew(userAnswer) == t[..i] + t[i + 1..])
      || (i < |t| && NormalizeHebrew(userAnswer) == t[i := c])
    ensures CheckAnswer(userAnswer, correctWord, synonyms)
  {
    var t, g := NormalizeHebrew(correctWord), NormalizeHebrew(userAnswer);
    if i <= |t| && g == t[..i] + [c] + t[i..] {
      InsertionWithinOne(t, i, c);
    } else if i < |t| && g == t[..i] + t[i + 1..] {
      DeletionWithinOne(t, i);
    } else {
      SubstitutionWithinOne(t, i, c);
    }
    DistanceSymmetric(t, g);
    assert ([correctWord] + synonyms)[0] == correctWord;
  }

  /** A guess whose normalised length differs by two or more from every
      normalised candidate is rejected. */
  lemma RejectsFarLengths(userAnswer: string, correctWord: string, synonyms: seq<string>)
    requires forall i :: 0 <= i < |[correctWord] + synonyms| ==>
      var d := |NormalizeHebrew(userAnswer)| - |NormalizeHebrew(([correctWord] + synonyms)[i])|;
      d >= 2 || d <= -2
    ensures !CheckAnswer(userAnswer, correctWord, synonyms)
  {
    var g := NormalizeHebrew(userAnswer);
    forall i | 0 <= i < |[correctWord] + synonyms|
      ensures !Matches(g, NormalizeHebrew(([correctWord] + synonyms)[i]))
    {
      DistanceBounds(g, NormalizeHebrew(([correctWord] + synonyms)[i]));
    }
  }

  /** A Hebrew letter (alef to tav) or a lower-case ASCII letter. */
  predicate LetterChar(c: char) {
    ('\U{05D0}' <= c <= '\U{05EA}') || IsLowerAscii(c)
  }

  /** Position `i` holds a letter, or a plain space between two characters
      the next of which is a letter. */
  predicate SpacedAt(s: string, i: int)
    requires 0 <= i < |s|
  {
    LetterChar(s[i]) || (s[i] == ' ' && 0 < i < |s| - 1 && LetterChar(s[i + 1]))
  }

  /** Letters, with single plain spaces between them. */
  predicate SpacedLetters(s: string) {
    forall i :: 0 <= i < |s| ==> SpacedAt(s, i)
  }

  /** Such a string is already in normal form. */
  lemma SpacedLettersFixed(s: string)
    requires SpacedLetters(s)
    ensures NormalizeHebrew(s) == s
  {
    assert NoDoubleSpace(s) by {
      forall i | 0 <= i < |s| - 1
        ensures !(IsSpace(s[i]) && IsSpace(s[i + 1]))
      {
        assert SpacedAt(s, i) && SpacedAt(s, i + 1);
      }
    }
    assert PlainSpaces(s) && QuoteFree(s) && forall i :: 0 <= i < |s| ==> !IsUpperAscii(s[i]) by {
      forall i | 0 <= i < |s|
        ensures (IsSpace(s[i]) ==> s[i] == ' ') && s[i] != Gershayim && s[i] != Geresh && !IsUpperAscii(s[i])
      {
        assert SpacedAt(s, i);
      }
    }
    if |s| > 0 {
      assert SpacedAt(s, 0) && SpacedAt(s, |s| - 1);
    }
    NormalFormFixed(s);
  }

  /** A trailing extra letter is one typo: "שלגg" is accepted for "שלג". */
  lemma TrailingLetterAccepted()
    ensures CheckAnswer("שלגg", "שלג", [])
  {
    var g, t := "שלגg", "שלג";
    assert SpacedLetters(g) && SpacedLetters(t);
    SpacedLettersFixed(g);
    SpacedLettersFixed(t);
    assert g == t[..3] + ['g'] + t[3..];
    AcceptsOneTypo(g, t, [], 3, 'g');
  }

  /** A different phrase is rejected: "משהו אחר" is not accepted for "שלג". */
  lemma OtherPhraseRejected()
    ensures !CheckAnswer("משהו אחר", "שלג", [])
  {
    var g, t := "משהו אחר", "שלג";
    assert SpacedLetters(g) && SpacedLetters(t);
    SpacedLettersFixed(g);
    SpacedLettersFixed(t);
    assert [t] + [] == [t];
    RejectsFarLengths(g, t, []);
  }
}
