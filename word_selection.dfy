/** Word selection (lib/game-logic.ts): flattening the catalog into tagged
    words, and drawing a game's words tier by tier without repeating a word
    string. `Math.random` is an input: the shuffled order of each tier is
    passed in (a permutation of the tier), and so is the backfill's choice
    of index. */
module WordSelection {
  import opened Catalog
  import opened GameRules

  /** The key `usedWords` tracks: the word string. */
  function Key(w: Word): string { w.entry.word }

  function Keys(ws: seq<Word>): set<string> {
    set w | w in ws :: Key(w)
  }

  lemma KeysAppend(ws: seq<Word>, w: Word)
    ensures Keys(ws + [w]) == Keys(ws) + {Key(w)}
  {
  }

  /** No two words share a word string. */
  predicate Distinct(ws: seq<Word>) {
    forall i, j :: 0 <= i < j < |ws| ==> Key(ws[i]) != Key(ws[j])
  }

  /** Every word is drawn from the given tier. */
  predicate AllOfTier(ws: seq<Word>, t: Tier) {
    forall i :: 0 <= i < |ws| ==> ws[i].difficulty == t
  }

  /** `{ ...w, difficulty: t }` for every entry of a tier list. */
  function Tagged(entries: seq<WordEntry>, t: Tier): (r: seq<Word>)
    ensures |r| == |entries| && AllOfTier(r, t)
    ensures forall i :: 0 <= i < |r| ==> r[i].entry == entries[i]
  {
    seq(|entries|, i requires 0 <= i < |entries| => Word(entries[i], t))
  }

  /** The catalog in the order `getAllWords` builds it: easy, medium, hard. */
  function AllWords(words: Tiers): seq<Word> {
    Tagged(words.easy, Easy) + Tagged(words.medium, Medium) + Tagged(words.hard, Hard)
  }

  /** `allWords.filter(w => w.difficulty === t)`. */
  function FilterTier(ws: seq<Word>, t: Tier): seq<Word> {
    if |ws| == 0 then []
    else (if ws[0].difficulty == t then [ws[0]] else []) + FilterTier(ws[1..], t)
  }

  lemma {:induction false} FilterTierAppend(a: seq<Word>, b: seq<Word>, t: Tier)
    ensures FilterTier(a + b, t) == FilterTier(a, t) + FilterTier(b, t)
    decreases |a|
  {
    if |a| > 0 {
      assert (a + b)[0] == a[0] && (a + b)[1..] == a[1..] + b;
      FilterTierAppend(a[1..], b, t);
      var x := if a[0].difficulty == t then [a[0]] else [];
      assert x + (FilterTier(a[1..], t) + FilterTier(b, t)) == (x + FilterTier(a[1..], t)) + FilterTier(b, t);
    } else {
      assert a + b == b;
    }
  }

  lemma {:induction false} FilterTierUniform(ws: seq<Word>, t: Tier, u: Tier)
    requires AllOfTier(ws, u)
    ensures FilterTier(ws, t) == if t == u then ws else []
    decreases |ws|
  {
    if |ws| > 0 {
      FilterTierUniform(ws[1..], t, u);
    }
  }

  /** Splitting the flattened catalog by difficulty gives back each tier list,
      in order. */
  lemma FilterAllWords(words: Tiers, t: Tier)
    ensures FilterTier(AllWords(words), t) == Tagged(words.Get(t), t)
  {
    var e, m, h := Tagged(words.easy, Easy), Tagged(words.medium, Medium), Tagged(words.hard, Hard);
    FilterTierAppend(e + m, h, t);
    FilterTierAppend(e, m, t);
    FilterTierUniform(e, t, Easy);
    FilterTierUniform(m, t, Medium);
    FilterTierUniform(h, t, Hard);
  }

  /** `getAllWords`: push every entry of each tier, tagged, in tier order. */
  method GetAllWords(words: Tiers) returns (allWords: seq<Word>)
    ensures allWords == AllWords(words)
    ensures |allWords| == words.Count()
  {
    allWords := [];
    for i := 0 to |words.easy|
      invariant allWords == Tagged(words.easy[..i], Easy)
    {
      allWords := allWords + [Word(words.easy[i], Easy)];
    }
    assert words.easy[..|words.easy|] == words.easy;
    ghost var base := allWords;
    for i := 0 to |words.medium|
      invariant allWords == base + Tagged(words.medium[..i], Medium)
    {
      allWords := allWords + [Word(words.medium[i], Medium)];
    }
    assert words.medium[..|words.medium|] == words.medium;
    base := allWords;
    for i := 0 to |words.hard|
      invariant allWords == base + Tagged(words.hard[..i], Hard)
    {
      allWords := allWords + [Word(words.hard[i], Hard)];
    }
    assert words.hard[..|words.hard|] == words.hard;
  }

  /** A list without repeated word strings has as many word strings as
      entries. */
  lemma {:induction false} DistinctKeysCount(ws: seq<Word>)
    requires Distinct(ws)
    ensures |Keys(ws)| == |ws|
    decreases |ws|
  {
    if |ws| > 0 {
      var init := ws[..|ws| - 1];
      DistinctKeysCount(init);
      assert ws == init + [ws[|ws| - 1]];
      KeysAppend(init, ws[|ws| - 1]);
      assert Key(ws[|ws| - 1]) !in Keys(init);
    }
  }

  function Min(a: int, b: int): int { if a <= b then a else b }

  /** Appending a word whose string is new keeps the list free of repeats. */
  lemma DistinctAppend(ws: seq<Word>, w: Word)
    requires Distinct(ws) && Key(w) !in Keys(ws)
    ensures Distinct(ws + [w])
  {
    forall i | 0 <= i < |ws|
      ensures Key(ws[i]) != Key(w)
    {
      assert ws[i] in ws;
    }
  }

  /** `selectFromPool`: walk the shuffled pool, taking each word whose string
      is not used yet, until `count` words are taken. */
  method SelectFromPool(shuffled: seq<Word>, count: int, used: set<string>)
    returns (selected: seq<Word>, usedAfter: set<string>)
    ensures usedAfter == used + Keys(selected)
    ensures Distinct(selected) && Keys(selected) !! used
    ensures forall w :: w in selected ==> w in shuffled
    ensures |selected| == Min(if count < 0 then 0 else count, |Keys(shuffled) - used|)
  {
    selected, usedAfter := [], used;
    var k := 0;
    while k < |shuffled|
      invariant 0 <= k <= |shuffled|
      invariant usedAfter == used + Keys(selected)
      invariant Keys(selected) !! used
      invariant Distinct(selected)
      invariant forall w :: w in selected ==> w in shuffled[..k]
      invariant |selected| <= count || |selected| == 0
      invariant Keys(shuffled[..k]) <= usedAfter
    {
      if |selected| >= count {
        break;
      }
      var word := shuffled[k];
      assert shuffled[..k + 1] == shuffled[..k] + [word];
      KeysAppend(shuffled[..k], word);
      if Key(word) !in usedAfter {
        KeysAppend(selected, word);
        DistinctAppend(selected, word);
        selected := selected + [word];
        usedAfter := usedAfter + {Key(word)};
      }
      k := k + 1;
    }
    PoolCount(shuffled, k, count, used, selected);
  }

  /** The count `selectFromPool` reaches: all it was asked for, or every
      unused word string of the pool. */
  lemma PoolCount(shuffled: seq<Word>, k: nat, count: int, used: set<string>, selected: seq<Word>)
    requires k <= |shuffled|
    requires Distinct(selected) && Keys(selected) !! used
    requires forall w :: w in selected ==> w in shuffled[..k]
    requires |selected| <= count || |selected| == 0
    requires Keys(shuffled[..k]) <= used + Keys(selected)
    requires k < |shuffled| ==> |selected| >= count
    ensures forall w :: w in selected ==> w in shuffled
    ensures |selected| == Min(if count < 0 then 0 else count, |Keys(shuffled) - used|)
  {
    DistinctKeysCount(selected);
    assert Keys(selected) <= Keys(shuffled) - used by {
      forall x | x in Keys(selected) ensures x in Keys(shuffled) {
        var w :| w in selected && Key(w) == x;
        assert w in shuffled[..k];
      }
    }
    var avail := Keys(shuffled) - used;
    assert avail == Keys(selected) + (avail - Keys(selected));
    assert |avail| == |Keys(selected)| + |avail - Keys(selected)|;
    if k == |shuffled| {
      assert shuffled[..k] == shuffled;
      if |selected| < count {
        assert avail - Keys(selected) == {};
      }
    }
  }

  /** `Math.ceil(n / 3)`. */
  function CeilThird(n: nat): (c: nat)
    ensures 3 * c >= n && 3 * c < n + 3
  {
    (n + 2) / 3
  }

  /** The per-tier quotas of `selectWordsForGame(totalWords)`: easy and medium
      get `min(10, ceil(n/3))` each, hard gets the rest (which is negative
      for a single word). */
  function Quotas(totalWords: nat): (q: (int, int, int))
    ensures q.0 == q.1 == Min(10, CeilThird(totalWords))
    ensures q.0 + q.1 + q.2 == totalWords
  {
    var easyCount := Min(10, CeilThird(totalWords));
    var mediumCount := Min(10, CeilThird(totalWords));
    (easyCount, mediumCount, totalWords - easyCount - mediumCount)
  }

  /** A full game of thirty words asks ten of each tier; below two words the
      hard quota is negative, above thirty the hard tier takes the excess. */
  lemma QuotaFacts(n: nat)
    ensures n == 30 ==> Quotas(n) == (10, 10, 10)
    ensures n >= 28 ==> Quotas(n).0 == 10 && Quotas(n).2 == n - 20
    ensures n == 1 ==> Quotas(n) == (1, 1, -1)
    ensures n >= 2 ==> Quotas(n).2 >= 0
  {
  }

  /** A tier of the catalog as tagged words (`allWords.filter(...)`). */
  function Pool(words: Tiers, t: Tier): seq<Word> {
    Tagged(words.Get(t), t)
  }

  /** `allWords.filter(w => !usedWords.has(w.word))`. */
  function Remaining(ws: seq<Word>, used: set<string>): (r: seq<Word>)
    ensures forall w :: w in r <==> w in ws && Key(w) !in used
  {
    if |ws| == 0 then []
    else (if Key(ws[0]) in used then [] else [ws[0]]) + Remaining(ws[1..], used)
  }

  lemma DistinctConcat(a: seq<Word>, b: seq<Word>)
    requires Distinct(a) && Distinct(b) && Keys(a) !! Keys(b)
    ensures Distinct(a + b) && Keys(a + b) == Keys(a) + Keys(b)
  {
    forall i, j | 0 <= i < j < |a + b|
      ensures Key((a + b)[i]) != Key((a + b)[j])
    {
      if j < |a| {
        assert (a + b)[i] == a[i] && (a + b)[j] == a[j];
      } else if i >= |a| {
        assert (a + b)[i] == b[i - |a|] && (a + b)[j] == b[j - |a|];
      } else {
        assert (a + b)[i] == a[i] && a[i] in a && Key(a[i]) in Keys(a);
        assert (a + b)[j] == b[j - |a|] && b[j - |a|] in b && Key(b[j - |a|]) in Keys(b);
      }
    }
  }

  /** The words of a shuffled tier are the tier's words. */
  lemma ShuffledPool(shuffled: seq<Word>, words: Tiers, t: Tier)
    requires multiset(shuffled) == multiset(Pool(words, t))
    ensures Keys(shuffled) == Keys(Pool(words, t))
    ensures forall w :: w in shuffled ==> w in Pool(words, t) && w in AllWords(words) && w.difficulty == t
  {
    forall w | w in shuffled
      ensures w in Pool(words, t) && w in AllWords(words) && w.difficulty == t
    {
      assert w in multiset(Pool(words, t));
      var e, m, h := Tagged(words.easy, Easy), Tagged(words.medium, Medium), Tagged(words.hard, Hard);
      assert AllWords(words) == e + m + h;
    }
    forall w | w in Pool(words, t) ensures w in shuffled {
      assert w in multiset(shuffled);
    }
  }

  /** Every word of the list lies in the given tier of the catalog. */
  predicate FromTier(ws: seq<Word>, words: Tiers, t: Tier) {
    && AllOfTier(ws, t)
    && (forall w :: w in ws ==> w in Pool(words, t))
    && (forall w :: w in ws ==> w in AllWords(words))
  }

  /** What `selectFromPool` promises, restated for a shuffled tier. */
  lemma TierDraw(shuffled: seq<Word>, words: Tiers, t: Tier, sel: seq<Word>)
    requires multiset(shuffled) == multiset(Pool(words, t))
    requires forall w :: w in sel ==> w in shuffled
    ensures FromTier(sel, words, t)
    ensures Keys(shuffled) == Keys(Pool(words, t))
  {
    ShuffledPool(shuffled, words, t);
    forall i | 0 <= i < |sel| ensures sel[i].difficulty == t {
      assert sel[i] in shuffled;
    }
  }

  /** One tier's turn of the first loop: draw its quota from its shuffled
      pool, skipping the word strings already used. */
  method DrawTier(words: Tiers, t: Tier, shuffled: seq<Word>, quota: int, used: set<string>)
    returns (sel: seq<Word>, usedAfter: set<string>)
    requires multiset(shuffled) == multiset(Pool(words, t))
    ensures FromTier(sel, words, t)
    ensures Distinct(sel) && Keys(sel) !! used && usedAfter == used + Keys(sel)
    ensures |sel| == Min(if quota < 0 then 0 else quota, |Keys(Pool(words, t)) - used|)
  {
    sel, usedAfter := SelectFromPool(shuffled, quota, used);
    TierDraw(shuffled, words, t, sel);
  }

  /** The used set after the easy and medium draws, in terms of their keys. */
  lemma UsedAfterTwo(pe: set<string>, ph: set<string>, ke: set<string>, km: set<string>,
                     used0: set<string>, used1: set<string>, used2: set<string>)
    requires used0 == {} && used1 == used0 + ke && used2 == used1 + km
    ensures pe - used0 == pe && used1 == ke
    ensures ph - used2 == ph - ke - km
  {
  }

  /** The first half of `selectWordsForGame`: fill each tier's quota from its
      shuffled pool, easy first, never reusing a word string. */
  method SelectTierWords(words: Tiers, totalWords: nat,
                         shuffledEasy: seq<Word>, shuffledMedium: seq<Word>, shuffledHard: seq<Word>)
    returns (easySel: seq<Word>, mediumSel: seq<Word>, hardSel: seq<Word>)
    requires multiset(shuffledEasy) == multiset(Pool(words, Easy))
    requires multiset(shuffledMedium) == multiset(Pool(words, Medium))
    requires multiset(shuffledHard) == multiset(Pool(words, Hard))
    ensures Distinct(easySel + mediumSel + hardSel)
    ensures FromTier(easySel, words, Easy) && FromTier(mediumSel, words, Medium) && FromTier(hardSel, words, Hard)
    ensures |easySel| == Min(Quotas(totalWords).0, |Keys(Pool(words, Easy))|)
    ensures |mediumSel| == Min(Quotas(totalWords).1, |Keys(Pool(words, Medium)) - Keys(easySel)|)
    ensures |hardSel| == Min(if Quotas(totalWords).2 < 0 then 0 else Quotas(totalWords).2,
                             |Keys(Pool(words, Hard)) - Keys(easySel) - Keys(mediumSel)|)
  {
    var q := Quotas(totalWords);
    var used0: set<string> := {};
    var used1, used2, used3;
    easySel, used1 := DrawTier(words, Easy, shuffledEasy, q.0, used0);
    mediumSel, used2 := DrawTier(words, Medium, shuffledMedium, q.1, used1);
    hardSel, used3 := DrawTier(words, Hard, shuffledHard, q.2, used2);
    UsedAfterTwo(Keys(Pool(words, Easy)), Keys(Pool(words, Hard)), Keys(easySel), Keys(mediumSel), used0, used1, used2);
    DistinctConcat(easySel, mediumSel);
    DistinctConcat(easySel + mediumSel, hardSel);
  }

  /** `selectWordsForGame`: the tier draws concatenated easy, medium, hard,
      then, while the game is short, a backfill from any word whose string is
      unused, and a cut to `totalWords`. The backfill's random index is
      `pick(k) % |remaining|` for the k-th draw. */
  method SelectWordsForGame(words: Tiers, totalWords: nat,
                            shuffledEasy: seq<Word>, shuffledMedium: seq<Word>, shuffledHard: seq<Word>,
                            pick: nat -> nat)
    returns (r: seq<Word>, ghost easySel: seq<Word>, ghost mediumSel: seq<Word>,
             ghost hardSel: seq<Word>, ghost backfill: seq<Word>)
    requires multiset(shuffledEasy) == multiset(Pool(words, Easy))
    requires multiset(shuffledMedium) == multiset(Pool(words, Medium))
    requires multiset(shuffledHard) == multiset(Pool(words, Hard))
    ensures Distinct(r)
    ensures forall w :: w in r ==> w in AllWords(words)
    ensures |r| == Min(totalWords, |Keys(AllWords(words))|)
    ensures |r| <= |easySel + mediumSel + hardSel + backfill|
    ensures r == (easySel + mediumSel + hardSel + backfill)[..|r|]
    ensures FromTier(easySel, words, Easy) && FromTier(mediumSel, words, Medium) && FromTier(hardSel, words, Hard)
    ensures |easySel| == Min(Quotas(totalWords).0, |Keys(Pool(words, Easy))|)
    ensures |mediumSel| == Min(Quotas(totalWords).1, |Keys(Pool(words, Medium)) - Keys(easySel)|)
    ensures |hardSel| == Min(if Quotas(totalWords).2 < 0 then 0 else Quotas(totalWords).2,
                             |Keys(Pool(words, Hard)) - Keys(easySel) - Keys(mediumSel)|)
  {
    var allWords := GetAllWords(words);
    var easySelection, mediumSelection, hardSelection :=
      SelectTierWords(words, totalWords, shuffledEasy, shuffledMedium, shuffledHard);
    easySel, mediumSel, hardSel := easySelection, mediumSelection, hardSelection;
    var selectedWords := easySelection + mediumSelection + hardSelection;
    TierWordsInCatalog(easySelection, mediumSelection, hardSelection, words);
    var filled;
    filled, backfill := Backfill(allWords, selectedWords, totalWords, pick);
    r := filled[..Min(totalWords, |filled|)];
    DistinctPrefix(filled, |r|);
  }

  /** The backfill loop of `selectWordsForGame`: while the game is short,
      append a random word (the k-th draw takes index `pick(k) % |remaining|`)
      among those whose string is not used yet. */
  method Backfill(allWords: seq<Word>, selected: seq<Word>, totalWords: nat, pick: nat -> nat)
    returns (filled: seq<Word>, ghost added: seq<Word>)
    requires Distinct(selected)
    requires forall w :: w in selected ==> w in allWords
    ensures filled == selected + added
    ensures Distinct(filled)
    ensures forall w :: w in filled ==> w in allWords
    ensures Min(totalWords, |filled|) == Min(totalWords, |Keys(allWords)|)
  {
    filled, added := selected, [];
    var usedWords := Keys(filled);
    var k := 0;
    while |filled| < totalWords
      invariant usedWords == Keys(filled)
      invariant Distinct(filled)
      invariant forall w :: w in filled ==> w in allWords
      invariant filled == selected + added
      decreases totalWords - |filled|
    {
      var remainingWords := Remaining(allWords, usedWords);
      if |remainingWords| == 0 {
        break;
      }
      var randomWord := remainingWords[pick(k) % |remainingWords|];
      KeysAppend(filled, randomWord);
      DistinctAppend(filled, randomWord);
      assert (selected + added) + [randomWord] == selected + (added + [randomWord]);
      filled := filled + [randomWord];
      added := added + [randomWord];
      usedWords := usedWords + {Key(randomWord)};
      k := k + 1;
    }
    GameLength(allWords, filled, totalWords);
  }

  /** A prefix of a list without repeats has none, and holds only its words. */
  lemma DistinctPrefix(ws: seq<Word>, n: nat)
    requires n <= |ws| && Distinct(ws)
    ensures Distinct(ws[..n])
    ensures forall w :: w in ws[..n] ==> w in ws
  {
  }

  lemma TierWordsInCatalog(e: seq<Word>, m: seq<Word>, h: seq<Word>, words: Tiers)
    requires FromTier(e, words, Easy) && FromTier(m, words, Medium) && FromTier(h, words, Hard)
    ensures forall w :: w in e + m + h ==> w in AllWords(words)
  {
  }

  /** The backfill stops with as many words as asked for, or with every word
      string of the catalog used. */
  lemma GameLength(allWords: seq<Word>, selected: seq<Word>, totalWords: nat)
    requires Distinct(selected)
    requires forall w :: w in selected ==> w in allWords
    requires |selected| < totalWords ==> |Remaining(allWords, Keys(selected))| == 0
    ensures Min(totalWords, |selected|) == Min(totalWords, |Keys(allWords)|)
  {
    assert Keys(selected) <= Keys(allWords);
    DistinctKeysCount(selected);
    assert Keys(allWords) == Keys(selected) + (Keys(allWords) - Keys(selected));
    if |selected| < totalWords {
      forall x | x in Keys(allWords) ensures x in Keys(selected) {
        var w :| w in allWords && Key(w) == x;
      }
    }
  }

  lemma KeysSubset(ws: seq<Word>, pool: seq<Word>)
    requires forall w :: w in ws ==> w in pool
    ensures Keys(ws) <= Keys(pool)
  {
  }

  /** With tiers of at least ten word strings that share none, the tier
      draws of a thirty-word game take ten words each. */
  lemma FullQuotas(words: Tiers, e: seq<Word>, m: seq<Word>, h: seq<Word>)
    requires FromTier(e, words, Easy) && FromTier(m, words, Medium)
    requires |e| == Min(10, |Keys(Pool(words, Easy))|)
    requires |m| == Min(10, |Keys(Pool(words, Medium)) - Keys(e)|)
    requires |h| == Min(10, |Keys(Pool(words, Hard)) - Keys(e) - Keys(m)|)
    requires |Keys(Pool(words, Easy))| >= 10 && |Keys(Pool(words, Medium))| >= 10 && |Keys(Pool(words, Hard))| >= 10
    requires Keys(Pool(words, Easy)) !! Keys(Pool(words, Medium))
    requires Keys(Pool(words, Easy)) !! Keys(Pool(words, Hard))
    requires Keys(Pool(words, Medium)) !! Keys(Pool(words, Hard))
    ensures |e| == 10 && |m| == 10 && |h| == 10
  {
    KeysSubset(e, Pool(words, Easy));
    KeysSubset(m, Pool(words, Medium));
    DisjointRemoval(Keys(Pool(words, Easy)), Keys(Pool(words, Medium)), Keys(Pool(words, Hard)), Keys(e), Keys(m));
  }

  lemma DisjointRemoval(ke: set<string>, km: set<string>, kh: set<string>, se: set<string>, sm: set<string>)
    requires se <= ke && sm <= km && ke !! km && ke !! kh && km !! kh
    ensures km - se == km && kh - se - sm == kh
  {
  }

  /** When each tier draw fills its quota of ten, the word at each of the
      thirty positions is of the tier whose description that position shows
      (`getDescriptionDifficulty`), and the backfill contributes nothing. */
  lemma FullGameFollowsTiers(e: seq<Word>, m: seq<Word>, h: seq<Word>, b: seq<Word>, r: seq<Word>)
    requires AllOfTier(e, Easy) && AllOfTier(m, Medium) && AllOfTier(h, Hard)
    requires |e| == 10 && |m| == 10 && |h| == 10
    requires |r| == 30 && r == (e + m + h + b)[..30]
    ensures r == e + m + h
    ensures forall i :: 0 <= i < 30 ==> r[i].difficulty == GetDescriptionDifficulty(i)
  {
    assert (e + m + h + b)[..30] == e + m + h;
    forall i | 0 <= i < 30 ensures r[i].difficulty == GetDescriptionDifficulty(i) {
      if i < 10 {
        assert r[i] == e[i];
      } else if i < 20 {
        assert r[i] == m[i - 10];
      } else {
        assert r[i] == h[i - 20];
      }
    }
  }
}
