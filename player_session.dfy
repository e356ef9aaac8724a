/** The browser-side identity helpers of lib/supabase.ts: the room code a host
    creates and the player id kept in local storage. `Math.random` is an
    input: each draw is a real number in [0, 1), and the random part of a
    new player id is a string given by the caller. */
module PlayerSession {
  import opened Text

  /** The room-code alphabet: upper-case letters and digits without the
      look-alikes I, O, 0 and 1. */
  const CodeAlphabet: string := "ABCDEFGHJKLMNPQRSTUVWXYZ23456789"
  const CodeLength := 5

  const PlayerIdKey := "playerId"
  const PlayerIdPrefix := "player_"

  /** A string `generateRoomCode` can return. */
  predicate IsRoomCode(code: string) {
    |code| == CodeLength && forall i :: 0 <= i < |code| ==> code[i] in CodeAlphabet
  }

  /** A value `Math.random` can return. */
  predicate IsDraw(r: real) {
    0.0 <= r < 1.0
  }

  /** `chars.charAt(Math.floor(r * chars.length))`. */
  function CodeChar(r: real): (c: char)
    requires IsDraw(r)
    ensures c in CodeAlphabet
  {
    assert 0 <= (r * 32.0).Floor < 32;
    CodeAlphabet[(r * 32.0).Floor]
  }

  /** The code five draws produce, one character per draw. */
  function RoomCodeFrom(draws: seq<real>): (code: string)
    requires |draws| == CodeLength
    requires forall i :: 0 <= i < |draws| ==> IsDraw(draws[i])
  {
    seq(CodeLength, i requires 0 <= i < CodeLength => CodeChar(draws[i]))
  }

  /** `generateRoomCode`: five iterations, each appending one character. */
  method GenerateRoomCode(draws: seq<real>) returns (code: string)
    requires |draws| == CodeLength
    requires forall i :: 0 <= i < |draws| ==> IsDraw(draws[i])
    ensures code == RoomCodeFrom(draws)
  {
    code := "";
    for i := 0 to CodeLength
      invariant code == RoomCodeFrom(draws)[..i]
    {
      code := code + [CodeChar(draws[i])];
    }
  }

  /** A generated code is five characters of the alphabet, the `i`-th chosen
      by the `i`-th draw. */
  lemma RoomCodeFromShape(draws: seq<real>)
    requires |draws| == CodeLength
    requires forall i :: 0 <= i < |draws| ==> IsDraw(draws[i])
    ensures IsRoomCode(RoomCodeFrom(draws))
    ensures forall i :: 0 <= i < CodeLength ==> RoomCodeFrom(draws)[i] == CodeChar(draws[i])
  {
  }

  /** The draw `k / 32` picks the `k`-th character of the alphabet. */
  lemma CodeCharAt(k: nat)
    requires k < |CodeAlphabet|
    ensures IsDraw(k as real / 32.0) && CodeChar(k as real / 32.0) == CodeAlphabet[k]
  {
    assert (k as real / 32.0) * 32.0 == k as real;
  }

  /** A draw that picks a given alphabet character. */
  function DrawFor(c: char): (r: real)
    requires c in CodeAlphabet
    ensures IsDraw(r) && CodeChar(r) == c
  {
    CodeCharAt(IndexIn(c, CodeAlphabet));
    IndexIn(c, CodeAlphabet) as real / 32.0
  }

  /** Every five-character string over the alphabet is some run of draws'
      code: no code is out of reach. */
  lemma EveryRoomCodeDrawable(code: string)
    requires IsRoomCode(code)
    ensures exists draws: seq<real> ::
      |draws| == CodeLength && (forall i :: 0 <= i < |draws| ==> IsDraw(draws[i])) && RoomCodeFrom(draws) == code
  {
    var draws := seq(CodeLength, i requires 0 <= i < CodeLength => DrawFor(code[i]));
    assert RoomCodeFrom(draws) == code;
  }

  /** The position of a character in a string that contains it. */
  function IndexIn(c: char, s: string): (k: nat)
    requires c in s
    ensures k < |s| && s[k] == c
  {
    if s[0] == c then 0 else 1 + IndexIn(c, s[1..])
  }

  /** The position of an alphabet character, computed from its code point. */
  function Rank(c: char): int {
    if 'A' <= c <= 'H' then c as int - 'A' as int
    else if 'J' <= c <= 'N' then c as int - 'J' as int + 8
    else if 'P' <= c <= 'Z' then c as int - 'P' as int + 13
    else c as int - '2' as int + 24
  }

  /** The alphabet has 32 characters and no two alike. */
  lemma AlphabetDistinct()
    ensures |CodeAlphabet| == 32
    ensures forall i, j :: 0 <= i < j < |CodeAlphabet| ==> CodeAlphabet[i] != CodeAlphabet[j]
  {
    forall k | 0 <= k < 8
      ensures Rank(CodeAlphabet[k]) == k
    {
    }
    forall k | 8 <= k < 13
      ensures Rank(CodeAlphabet[k]) == k
    {
    }
    forall k | 13 <= k < 24
      ensures Rank(CodeAlphabet[k]) == k
    {
    }
    forall k | 24 <= k < 32
      ensures Rank(CodeAlphabet[k]) == k
    {
    }
  }

  /** An upper-case letter other than `I` and `O`, or a digit from 2 to 9. */
  predicate IsCodeChar(c: char) {
    (IsUpperAscii(c) && c != 'I' && c != 'O') || ('2' <= c <= '9')
  }

  /** Every alphabet character is a letter other than `I` and `O` or a digit
      from 2 to 9. */
  lemma AlphabetChars()
    ensures forall c :: c in CodeAlphabet ==> IsCodeChar(c)
  {
    forall k | 0 <= k < |CodeAlphabet|
      ensures IsCodeChar(CodeAlphabet[k])
    {
    }
  }

  /** No alphabet character is a space, a lower-case letter, `I`, `O`, `0` or
      `1`: a code survives trimming and upper-casing, and has no look-alikes. */
  lemma AlphabetExcludes()
    ensures forall c :: c in CodeAlphabet ==> !IsSpace(c) && !IsLowerAscii(c)
    ensures 'I' !in CodeAlphabet && 'O' !in CodeAlphabet && '0' !in CodeAlphabet && '1' !in CodeAlphabet
  {
    AlphabetChars();
  }

  /** A code character and its lower-case form are not white space, and
      upper-casing either gives the character back. */
  lemma CodeCharCase(c: char)
    requires IsCodeChar(c)
    ensures !IsSpace(c) && !IsSpace(LowerChar(c))
    ensures UpperChar(c) == c && UpperChar(LowerChar(c)) == c
  {
  }

  // -----------------------------------------------------------------------
  // getPlayerId

  /** A stored value counts only when it is present and not empty. */
  predicate HasValue(items: map<string, string>, key: string) {
    key in items && items[key] != ""
  }

  /** `getPlayerId`: outside a browser the empty string and no storage;
      otherwise the stored id when there is one, or a new `player_` id,
      stored before it is returned. */
  function PlayerId(inBrowser: bool, items: map<string, string>, suffix: string): (string, map<string, string>) {
    if !inBrowser then ("", items)
    else if HasValue(items, PlayerIdKey) then (items[PlayerIdKey], items)
    else
      var id := PlayerIdPrefix + suffix;
      (id, items[PlayerIdKey := id])
  }

  /** The three outcomes of `getPlayerId`, and the id is never empty in a
      browser. */
  lemma PlayerIdOutcome(inBrowser: bool, items: map<string, string>, suffix: string)
    ensures var (id, after) := PlayerId(inBrowser, items, suffix);
      && (!inBrowser ==> id == "" && after == items)
      && (inBrowser && HasValue(items, PlayerIdKey) ==> id == items[PlayerIdKey] && after == items)
      && (inBrowser && !HasValue(items, PlayerIdKey) ==>
            StartsWith(id, PlayerIdPrefix) && id[|PlayerIdPrefix|..] == suffix
            && after == items[PlayerIdKey := id])
      && (inBrowser ==> id != "" && HasValue(after, PlayerIdKey) && after[PlayerIdKey] == id)
      && (forall k :: k != PlayerIdKey ==> (k in after <==> k in items) && (k in items ==> after[k] == items[k]))
  {
  }

  /** After the first call the id is fixed: a second call, whatever its
      random part, returns the same id and changes nothing. */
  lemma PlayerIdStable(inBrowser: bool, items: map<string, string>, suffix1: string, suffix2: string)
    ensures var (id1, after1) := PlayerId(inBrowser, items, suffix1);
      PlayerId(inBrowser, after1, suffix2) == (id1, after1)
  {
  }

  /** The browser's `localStorage`. */
  class LocalStore {
    var items: map<string, string>
    const inBrowser: bool

    constructor(inBrowser: bool, items: map<string, string>)
      ensures this.inBrowser == inBrowser && this.items == items
    {
      this.inBrowser := inBrowser;
      this.items := items;
    }

    /** `getPlayerId` against this storage. */
    method GetPlayerId(suffix: string) returns (id: string)
      modifies this
      ensures (id, items) == PlayerId(inBrowser, old(items), suffix)
    {
      if !inBrowser {
        return "";
      }
      if PlayerIdKey in items && items[PlayerIdKey] != "" {
        id := items[PlayerIdKey];
      } else {
        id := PlayerIdPrefix + suffix;
        items := items[PlayerIdKey := id];
      }
    }
  }
}
