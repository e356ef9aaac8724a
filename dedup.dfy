/** The duplicate-removal pass of remove-duplicates.js: walk a tier list,
    record the positions whose word string was already seen, then splice those
    positions out from the highest to the lowest. The same pass, started with
    the word strings of earlier tiers already seen, is the script's
    cross-tier step. */
module Dedup {
  import opened Catalog

  /** Position `i` repeats a word string: one seen before the list, or one of
      an earlier entry. */
  predicate IsRepeat(ws: seq<WordEntry>, seen: set<string>, i: nat)
    requires i < |ws|
  {
    ws[i].word in seen + WordStrings(ws[..i])
  }

  /** All the positions the marking walk records. */
  function RepeatSet(ws: seq<WordEntry>, seen: set<string>): set<nat> {
    set i: nat | i < |ws| && IsRepeat(ws, seen, i)
  }

  /** The specification of the pass: keep the first entry of every word
      string not seen before, in list order. */
  function KeepFirst(ws: seq<WordEntry>, seen: set<string>): seq<WordEntry> {
    if |ws| == 0 then []
    else if ws[0].word in seen then KeepFirst(ws[1..], seen)
    else [ws[0]] + KeepFirst(ws[1..], seen + {ws[0].word})
  }

  /** The entries of `ws` whose position (counted from `off`) is not in `drop`,
      in their original order. */
  function Without(ws: seq<WordEntry>, drop: set<nat>, off: nat): seq<WordEntry> {
    if |ws| == 0 then []
    else (if off in drop then [] else [ws[0]]) + Without(ws[1..], drop, off + 1)
  }

  /** The positions a list of indices names. */
  function Positions(s: seq<nat>): set<nat> {
    set k | k in s
  }

  lemma PositionsStep(s: seq<nat>, i: nat)
    requires 0 < i <= |s|
    ensures Positions(s[i - 1..]) == Positions(s[i..]) + {s[i - 1]}
  {
    assert s[i - 1..] == [s[i - 1]] + s[i..];
  }

  predicate Increasing(s: seq<nat>) {
    forall a, b :: 0 <= a < b < |s| ==> s[a] < s[b]
  }

  lemma WordStringsSnoc(ws: seq<WordEntry>, i: nat)
    requires i < |ws|
    ensures WordStrings(ws[..i + 1]) == WordStrings(ws[..i]) + {ws[i].word}
  {
    var a, b := ws[..i + 1], ws[..i];
    forall s | s in WordStrings(a) ensures s in WordStrings(b) + {ws[i].word} {
      var j :| 0 <= j < |a| && a[j].word == s;
      if j < i {
        assert b[j] == a[j];
      }
    }
    forall s | s in WordStrings(b) ensures s in WordStrings(a) {
      var j :| 0 <= j < |b| && b[j].word == s;
      assert a[j] == b[j];
    }
    assert a[i] == ws[i];
  }

  /** The marking walk (`forEach` over the list): a position is recorded
      exactly when its word string is already in `seen`, and every other word
      string is added to `seen`. */
  method MarkRepeats(words: seq<WordEntry>, seen0: set<string>)
    returns (toRemove: seq<nat>, seen: set<string>)
    ensures seen == seen0 + WordStrings(words)
    ensures Increasing(toRemove)
    ensures forall k :: 0 <= k < |toRemove| ==> toRemove[k] < |words|
    ensures Positions(toRemove) == RepeatSet(words, seen0)
  {
    toRemove, seen := [], seen0;
    for index := 0 to |words|
      invariant seen == seen0 + WordStrings(words[..index])
      invariant Increasing(toRemove)
      invariant forall k :: 0 <= k < |toRemove| ==> toRemove[k] < index
      invariant forall j: nat :: j in toRemove <==> j < index && IsRepeat(words, seen0, j)
    {
      WordStringsSnoc(words, index);
      if words[index].word in seen {
        toRemove := toRemove + [index];
      } else {
        seen := seen + {words[index].word};
      }
    }
    assert words[..|words|] == words;
  }

  /** The positions of a strictly increasing list below `bound` leave room for
      the positions after them. */
  lemma {:induction false} IncreasingRoom(s: seq<nat>, j: nat, bound: nat)
    requires Increasing(s) && j < |s|
    requires forall k :: 0 <= k < |s| ==> s[k] < bound
    ensures s[j] + (|s| - j) <= bound
    decreases |s| - j
  {
    if j + 1 < |s| {
      IncreasingRoom(s, j + 1, bound);
    }
  }

  lemma {:induction false} WithoutNone(ws: seq<WordEntry>, off: nat)
    ensures Without(ws, {}, off) == ws
    decreases |ws|
  {
    if |ws| > 0 {
      WithoutNone(ws[1..], off + 1);
    }
  }

  /** Positions outside `drop` before the first dropped one are kept as they are. */
  lemma {:induction false} WithoutPrefix(ws: seq<WordEntry>, drop: set<nat>, off: nat, m: nat)
    requires m <= |ws|
    requires forall p :: off <= p < off + m ==> p !in drop
    ensures Without(ws, drop, off) == ws[..m] + Without(ws[m..], drop, off + m)
    decreases m
  {
    if m > 0 {
      WithoutPrefix(ws[1..], drop, off + 1, m - 1);
      assert ws[1..][m - 1..] == ws[m..];
      assert ws[..m] == [ws[0]] + ws[1..][..m - 1];
    }
  }

  /** Only the dropped positions within the list's range matter. */
  lemma {:induction false} WithoutInRange(ws: seq<WordEntry>, drop: set<nat>, other: set<nat>, off: nat)
    requires forall p :: off <= p < off + |ws| ==> (p in drop <==> p in other)
    ensures Without(ws, drop, off) == Without(ws, other, off)
    decreases |ws|
  {
    if |ws| > 0 {
      WithoutInRange(ws[1..], drop, other, off + 1);
    }
  }

  /** Splicing out position `k` of the survivors, when every position already
      dropped lies above `k`, drops `k` too. */
  lemma SpliceStep(ws: seq<WordEntry>, drop: set<nat>, k: nat)
    requires k < |ws| && k !in drop
    requires forall p :: p in drop ==> k < p
    ensures k < |Without(ws, drop, 0)|
    ensures Without(ws, drop + {k}, 0)
         == Without(ws, drop, 0)[..k] + Without(ws, drop, 0)[k + 1..]
  {
    var w := Without(ws[k + 1..], drop, k + 1);
    WithoutPrefix(ws, drop, 0, k + 1);
    var kept := Without(ws, drop, 0);
    assert kept == ws[..k + 1] + w;
    WithoutPrefix(ws, drop + {k}, 0, k);
    assert ws[k..][1..] == ws[k + 1..];
    assert Without(ws[k..], drop + {k}, k) == Without(ws[k + 1..], drop + {k}, k + 1);
    WithoutInRange(ws[k + 1..], drop + {k}, drop, k + 1);
    assert Without(ws, drop + {k}, 0) == ws[..k] + w;
    assert kept[..k] == ws[..k] && kept[k + 1..] == w;
  }

  /** The splice loop: remove the recorded positions from the highest to the
      lowest, so that no removal shifts a position still to be removed. */
  method SpliceOut(words: seq<WordEntry>, toRemove: seq<nat>) returns (kept: seq<WordEntry>)
    requires Increasing(toRemove)
    requires forall k :: 0 <= k < |toRemove| ==> toRemove[k] < |words|
    ensures kept == Without(words, Positions(toRemove), 0)
    ensures |kept| == |words| - |toRemove|
  {
    kept := words;
    var i := |toRemove|;
    WithoutNone(words, 0);
    assert Positions(toRemove[i..]) == {};
    while i > 0
      invariant 0 <= i <= |toRemove|
      invariant kept == Without(words, Positions(toRemove[i..]), 0)
      invariant |kept| == |words| - (|toRemove| - i)
    {
      var k := toRemove[i - 1];
      IncreasingRoom(toRemove, i - 1, |words|);
      forall p | p in Positions(toRemove[i..]) ensures k < p {
        var b :| 0 <= b < |toRemove[i..]| && toRemove[i..][b] == p;
        assert toRemove[i + b] == p;
      }
      SpliceStep(words, Positions(toRemove[i..]), k);
      PositionsStep(toRemove, i);
      kept := kept[..k] + kept[k + 1..];
      i := i - 1;
    }
  }

  /** Dropping the marked positions is keeping the first entry of every word
      string not seen before. */
  lemma {:induction false} WithoutRepeats(ws: seq<WordEntry>, seen: set<string>, o: nat)
    requires o <= |ws|
    ensures Without(ws[o..], RepeatSet(ws, seen), o) == KeepFirst(ws[o..], seen + WordStrings(ws[..o]))
    decreases |ws| - o
  {
    if o < |ws| {
      WithoutRepeats(ws, seen, o + 1);
      WordStringsSnoc(ws, o);
      var t := seen + WordStrings(ws[..o]);
      var r := RepeatSet(ws, seen);
      assert ws[o..][0] == ws[o] && ws[o..][1..] == ws[o + 1..];
      assert Without(ws[o..], r, o) == (if o in r then [] else [ws[o]]) + Without(ws[o + 1..], r, o + 1);
      assert seen + WordStrings(ws[..o + 1]) == t + {ws[o].word};
      assert o in r <==> ws[o].word in t;
      if ws[o].word in t {
        assert t + {ws[o].word} == t;
      }
    }
  }

  /** `removeDuplicates`, generalised to start from the word strings already
      seen: the entries it keeps, how many it removed, and the `seen` set it
      ends with (which the script's cross-tier step reuses). */
  method RemoveRepeats(words: seq<WordEntry>, seen0: set<string>)
    returns (kept: seq<WordEntry>, removed: nat, seen: set<string>)
    ensures kept == KeepFirst(words, seen0)
    ensures removed == |words| - |kept|
    ensures seen == seen0 + WordStrings(words)
  {
    var toRemove;
    toRemove, seen := MarkRepeats(words, seen0);
    kept := SpliceOut(words, toRemove);
    removed := |toRemove|;
    KeepFirstIsWithout(words, seen0);
  }

  /** The first-occurrence filter is the list without its marked positions. */
  lemma KeepFirstIsWithout(ws: seq<WordEntry>, seen: set<string>)
    ensures KeepFirst(ws, seen) == Without(ws, RepeatSet(ws, seen), 0)
  {
    WithoutRepeats(ws, seen, 0);
    assert ws[0..] == ws;
    assert WordStrings(ws[..0]) == {};
    assert seen + WordStrings(ws[..0]) == seen;
  }

  /** `removeDuplicates(words)`: the within-tier pass, starting from nothing seen. */
  method RemoveDuplicates(words: seq<WordEntry>) returns (kept: seq<WordEntry>, removed: nat)
    ensures kept == KeepFirst(words, {})
    ensures removed == |words| - |kept|
  {
    var seen;
    kept, removed, seen := RemoveRepeats(words, {});
  }

  /** The survivors repeat no word string and contain none seen before. */
  lemma {:induction false} KeepFirstDistinct(ws: seq<WordEntry>, seen: set<string>)
    ensures DistinctWords(KeepFirst(ws, seen))
    ensures WordStrings(KeepFirst(ws, seen)) == WordStrings(ws) - seen
    decreases |ws|
  {
    if |ws| > 0 {
      var w := ws[0].word;
      var tail := ws[1..];
      WordStringsCons(ws);
      ConsSeen(w, WordStrings(tail), seen);
      if w in seen {
        KeepFirstDistinct(tail, seen);
      } else {
        KeepFirstDistinct(tail, seen + {w});
        var rest := KeepFirst(tail, seen + {w});
        assert KeepFirst(ws, seen) == [ws[0]] + rest;
        DistinctCons(ws[0], rest);
      }
    }
  }

  /** Set algebra for one step of the pass: a string already seen adds
      nothing; a new one is kept and then counts as seen. */
  lemma ConsSeen(w: string, t: set<string>, seen: set<string>)
    ensures w in seen ==> ({w} + t) - seen == t - seen
    ensures w !in seen ==> {w} + (t - (seen + {w})) == ({w} + t) - seen
  {
  }

  /** An entry in front of a list without repeats that does not contain its
      word string gives a list without repeats, with one more word string. */
  lemma DistinctCons(x: WordEntry, rest: seq<WordEntry>)
    requires DistinctWords(rest) && x.word !in WordStrings(rest)
    ensures DistinctWords([x] + rest)
    ensures WordStrings([x] + rest) == {x.word} + WordStrings(rest)
  {
    var l := [x] + rest;
    forall i, j | 0 <= i < j < |l| ensures l[i].word != l[j].word {
      assert l[j] == rest[j - 1];
      if i > 0 {
        assert l[i] == rest[i - 1];
      }
    }
    WordStringsCons(l);
    assert l[1..] == rest;
  }

  lemma WordStringsCons(ws: seq<WordEntry>)
    requires |ws| > 0
    ensures WordStrings(ws) == {ws[0].word} + WordStrings(ws[1..])
  {
    forall s | s in WordStrings(ws) ensures s in {ws[0].word} + WordStrings(ws[1..]) {
      var j :| 0 <= j < |ws| && ws[j].word == s;
      if j > 0 {
        assert ws[1..][j - 1] == ws[j];
      }
    }
  }

  /** A list that already repeats nothing, and meets nothing seen, is left as
      it is; in particular the pass is idempotent. */
  lemma {:induction false} KeepFirstOfDistinct(ws: seq<WordEntry>, seen: set<string>)
    requires DistinctWords(ws) && WordStrings(ws) !! seen
    ensures KeepFirst(ws, seen) == ws
    decreases |ws|
  {
    if |ws| > 0 {
      var w := ws[0].word;
      var tail := ws[1..];
      assert w in WordStrings(ws);
      assert w !in seen;
      forall i, j | 0 <= i < j < |tail| ensures tail[i].word != tail[j].word {
        assert tail[i] == ws[i + 1] && tail[j] == ws[j + 1];
      }
      forall s | s in WordStrings(tail) ensures s !in seen + {w} {
        var j :| 0 <= j < |tail| && tail[j].word == s;
        assert tail[j] == ws[j + 1];
        assert s in WordStrings(ws);
      }
      KeepFirstOfDistinct(tail, seen + {w});
      assert KeepFirst(ws, seen) == [ws[0]] + tail;
    }
  }

  lemma RemoveDuplicatesIdempotent(ws: seq<WordEntry>)
    ensures KeepFirst(KeepFirst(ws, {}), {}) == KeepFirst(ws, {})
  {
    KeepFirstDistinct(ws, {});
    KeepFirstOfDistinct(KeepFirst(ws, {}), {});
  }

  /** Every entry whose word string is new at its position survives: the
      first occurrence of each word string is the one kept. */
  lemma FirstOccurrenceKept(ws: seq<WordEntry>, seen: set<string>, i: nat)
    requires i < |ws| && !IsRepeat(ws, seen, i)
    ensures ws[i] in KeepFirst(ws, seen)
  {
    KeepFirstIsWithout(ws, seen);
    WithoutKeeps(ws, RepeatSet(ws, seen), 0, i);
  }

  lemma {:induction false} WithoutKeeps(ws: seq<WordEntry>, drop: set<nat>, off: nat, i: nat)
    requires i < |ws| && off + i !in drop
    ensures ws[i] in Without(ws, drop, off)
    decreases i
  {
    if i > 0 {
      WithoutKeeps(ws[1..], drop, off + 1, i - 1);
    }
  }

  /** Only repeats are removed: every removed entry's word string survives in
      an earlier entry or was seen before. */
  lemma RepeatsOnlyRemoved(ws: seq<WordEntry>, seen: set<string>)
    ensures WordStrings(KeepFirst(ws, seen)) + seen == WordStrings(ws) + seen
  {
    KeepFirstDistinct(ws, seen);
  }
}
