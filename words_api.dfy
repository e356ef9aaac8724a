/** GET /api/words (app/api/words/route.ts): the database rows of the words
    and categories tables turned into the catalog the game reads. The two
    queries are inputs: either their rows or a failure. */
module WordsApi {
  import opened Catalog

  /** A row of the `words` table (the columns the handler reads). */
  datatype WordRow = WordRow(
    word: string,
    category: string,
    difficulty: string,
    descriptionEasy: string,
    descriptionMedium: string,
    descriptionHard: string,
    hint: string,
    synonyms: Option<seq<string>>)

  /** A row of the `categories` table: its id, its name and whatever other
      columns it has. */
  datatype CategoryRow = CategoryRow(id: string, name: string, otherColumns: map<string, string>)

  /** The outcome of a query. */
  datatype Query<T> = Rows(rows: seq<T>) | QueryError

  /** The handler's answer: the catalog, or a 500 with its message. */
  datatype Response = Catalog(data: WordsData) | ServerError(message: string)

  /** The per-row mapping: descriptions from the three description columns,
      synonyms defaulting to the empty list when the column is null. */
  function ToEntry(row: WordRow): (e: WordEntry)
    ensures e.word == row.word && e.category == row.category && e.hint == row.hint
    ensures e.descriptions == Descriptions(row.descriptionEasy, row.descriptionMedium, row.descriptionHard)
    ensures row.synonyms.None? ==> e.synonyms == []
    ensures row.synonyms.Some? ==> e.synonyms == row.synonyms.value
  {
    WordEntry(row.word, row.category,
              Descriptions(row.descriptionEasy, row.descriptionMedium, row.descriptionHard),
              row.hint, if row.synonyms.Some? then row.synonyms.value else [])
  }

  /** `words.filter(w => w.difficulty === key).map(...)`. */
  function TierRows(rows: seq<WordRow>, key: string): seq<WordEntry> {
    if |rows| == 0 then []
    else (if rows[0].difficulty == key then [ToEntry(rows[0])] else []) + TierRows(rows[1..], key)
  }

  /** The rows whose difficulty is none of the three tier names. */
  function OtherRows(rows: seq<WordRow>): seq<WordRow> {
    if |rows| == 0 then []
    else (if rows[0].difficulty in {"easy", "medium", "hard"} then [] else [rows[0]]) + OtherRows(rows[1..])
  }

  /** The response object built from both queries' rows. */
  function BuildCatalog(words: seq<WordRow>, categories: seq<CategoryRow>): WordsData {
    WordsData(
      Metadata(|words|, |categories|, 3),
      seq(|categories|, i requires 0 <= i < |categories| => Category(categories[i].id, categories[i].name)),
      Tiers(TierRows(words, "easy"), TierRows(words, "medium"), TierRows(words, "hard")))
  }

  /** `GET`: a failed words query answers 500 first; then a failed categories
      query; otherwise the catalog. */
  function GetWords(words: Query<WordRow>, categories: Query<CategoryRow>): Response {
    match words
    case QueryError => ServerError("Failed to fetch words")
    case Rows(wordRows) =>
      match categories
      case QueryError => ServerError("Failed to fetch categories")
      case Rows(categoryRows) => Catalog(BuildCatalog(wordRows, categoryRows))
  }

  /** Filtering distributes over concatenation: the tier lists keep row order. */
  lemma {:induction false} TierRowsAppend(a: seq<WordRow>, b: seq<WordRow>, key: string)
    ensures TierRows(a + b, key) == TierRows(a, key) + TierRows(b, key)
    decreases |a|
  {
    if |a| == 0 {
      assert a + b == b;
    } else {
      assert (a + b)[1..] == a[1..] + b;
      TierRowsAppend(a[1..], b, key);
      var x := if a[0].difficulty == key then [ToEntry(a[0])] else [];
      assert x + (TierRows(a[1..], key) + TierRows(b, key)) == (x + TierRows(a[1..], key)) + TierRows(b, key);
    }
  }

  /** A single row lands in the tier its difficulty names, mapped, and in no
      other. */
  lemma TierRowsSingle(row: WordRow, key: string)
    ensures TierRows([row], key) == if row.difficulty == key then [ToEntry(row)] else []
  {
    assert [row][1..] == [];
  }

  /** Every row is in exactly one of the three tiers or among the others. */
  lemma {:induction false} RowsPartition(rows: seq<WordRow>)
    ensures |TierRows(rows, "easy")| + |TierRows(rows, "medium")| + |TierRows(rows, "hard")| + |OtherRows(rows)| == |rows|
    decreases |rows|
  {
    if |rows| > 0 {
      RowsPartition(rows[1..]);
    }
  }

  /** `totalWords` is the number of rows fetched: the tiers' words plus the
      rows with an unknown difficulty, which are counted but in no tier. */
  lemma TotalWordsCountsRows(words: seq<WordRow>, categories: seq<CategoryRow>)
    ensures var data := BuildCatalog(words, categories);
      && data.metadata.totalWords == |words| == data.words.Count() + |OtherRows(words)|
      && (|OtherRows(words)| == 0 <==> data.metadata.totalWords == data.words.Count())
  {
    RowsPartition(words);
  }

  /** Categories are the rows projected to id and name, counted in the
      metadata, and every word has three description variants. */
  lemma CategoriesProjected(words: seq<WordRow>, categories: seq<CategoryRow>)
    ensures var data := BuildCatalog(words, categories);
      && |data.categories| == |categories| == data.metadata.categories
      && (forall i :: 0 <= i < |categories| ==>
            data.categories[i].id == categories[i].id && data.categories[i].name == categories[i].name)
      && data.metadata.difficultiesPerWord == 3
  {
  }

  /** Either query failing yields no catalog; both succeeding yields the
      catalog built from their rows. */
  lemma GetWordsOutcome(words: Query<WordRow>, categories: Query<CategoryRow>)
    ensures GetWords(words, categories).Catalog? <==> words.Rows? && categories.Rows?
    ensures words.QueryError? ==> GetWords(words, categories) == ServerError("Failed to fetch words")
    ensures GetWords(words, categories).Catalog? ==>
      GetWords(words, categories).data == BuildCatalog(words.rows, categories.rows)
  {
  }
}
