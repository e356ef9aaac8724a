/** The word catalog: the shape of `data/words.json` and of the `/api/words`
    response (`WordsDataStructure`), and the game's `Word` record. */
module Catalog {

  datatype Option<T> = None | Some(value: T)

  /** The three difficulty tiers, which also name the description variants. */
  datatype Tier = Easy | Medium | Hard

  /** The tier's key in the JSON object (`'easy' | 'medium' | 'hard'`). */
  function TierName(t: Tier): string {
    match t
    case Easy => "easy"
    case Medium => "medium"
    case Hard => "hard"
  }

  /** Looking up `data.words[key]` with a request-supplied key: only the three
      tier names find a list. */
  function ParseTier(key: string): (r: Option<Tier>)
    ensures r.Some? ==> TierName(r.value) == key
    ensures forall t: Tier :: TierName(t) == key ==> r == Some(t)
  {
    if key == "easy" then Some(Easy)
    else if key == "medium" then Some(Medium)
    else if key == "hard" then Some(Hard)
    else None
  }

  datatype Descriptions = Descriptions(easy: string, medium: string, hard: string)

  /** A catalog entry as stored in a tier list (`Omit<Word, 'difficulty'>`). */
  datatype WordEntry = WordEntry(
    word: string,
    category: string,
    descriptions: Descriptions,
    hint: string,
    synonyms: seq<string>)

  /** The game's `Word`: a catalog entry tagged with the tier it came from. */
  datatype Word = Word(entry: WordEntry, difficulty: Tier)

  datatype Category = Category(id: string, name: string)

  /** `data.words`: one list per tier. */
  datatype Tiers = Tiers(easy: seq<WordEntry>, medium: seq<WordEntry>, hard: seq<WordEntry>) {
    function Get(t: Tier): seq<WordEntry> {
      match t
      case Easy => easy
      case Medium => medium
      case Hard => hard
    }

    function Set(t: Tier, ws: seq<WordEntry>): (r: Tiers)
      ensures r.Get(t) == ws
      ensures forall u :: u != t ==> r.Get(u) == Get(u)
    {
      match t
      case Easy => this.(easy := ws)
      case Medium => this.(medium := ws)
      case Hard => this.(hard := ws)
    }

    function Count(): nat {
      |easy| + |medium| + |hard|
    }
  }

  datatype Metadata = Metadata(totalWords: int, categories: int, difficultiesPerWord: int)

  /** `WordsDataStructure`: the whole catalog. */
  datatype WordsData = WordsData(metadata: Metadata, categories: seq<Category>, words: Tiers)

  /** The set of word strings of a list of entries. */
  function WordStrings(ws: seq<WordEntry>): (r: set<string>)
    ensures forall i :: 0 <= i < |ws| ==> ws[i].word in r
    ensures forall s :: s in r ==> exists i :: 0 <= i < |ws| && ws[i].word == s
  {
    set i | 0 <= i < |ws| :: ws[i].word
  }

  /** No two entries of the list share a word string. */
  predicate DistinctWords(ws: seq<WordEntry>) {
    forall i, j :: 0 <= i < j < |ws| ==> ws[i].word != ws[j].word
  }
}
