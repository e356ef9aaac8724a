/** The catalog file `data/words.json` and the handlers that edit it:
    app/api/admin/words/route.ts (add, update, delete a word),
    app/api/admin/categories/route.ts (add, rename, delete a category) and the
    one-off script remove-duplicates.js. Reading and writing the file become
    the `data` field; a handler that fails before its write leaves `data` as
    it was. Request bodies arrive already parsed. */
module CatalogAdmin {
  import opened Catalog
  import opened GameRules
  import opened Dedup

  const Ok := 200
  const BadRequest := 400
  const Unauthorized := 401
  const NotFound := 404
  const ServerError := 500

  /** `process.env.ADMIN_PASSWORD || 'admin123'`: an unset or empty variable
      falls back to the default. */
  function AdminPassword(env: Option<string>): (p: string)
    ensures env.Some? && env.value != "" ==> p == env.value
    ensures env.None? || env.value == "" ==> p == "admin123"
  {
    if env.Some? && env.value != "" then env.value else "admin123"
  }

  /** `checkAuth`: the `x-admin-password` header is present and equal to the
      admin password. */
  predicate Authorized(header: Option<string>, password: string) {
    header == Some(password)
  }

  /** The three tier lists one after the other (`[...easy, ...medium, ...hard]`). */
  function Entries(words: Tiers): seq<WordEntry> {
    words.easy + words.medium + words.hard
  }

  /** `findIndex(w => w.word === word)`. */
  function FindWord(ws: seq<WordEntry>, word: string): (r: Option<nat>)
    ensures r.Some? ==> r.value < |ws| && ws[r.value].word == word
    ensures r.Some? ==> forall j :: 0 <= j < r.value ==> ws[j].word != word
    ensures r.None? ==> forall j :: 0 <= j < |ws| ==> ws[j].word != word
  {
    if |ws| == 0 then None
    else if ws[0].word == word then Some(0)
    else match FindWord(ws[1..], word)
      case None => None
      case Some(k) => Some(k + 1)
  }

  /** `splice(i, 1)`. */
  function RemoveAt<T>(s: seq<T>, i: nat): (r: seq<T>)
    requires i < |s|
    ensures |r| == |s| - 1
    ensures forall j :: 0 <= j < i ==> r[j] == s[j]
    ensures forall j :: i <= j < |r| ==> r[j] == s[j + 1]
  {
    s[..i] + s[i + 1..]
  }

  /** `metadata.totalWords` set to the sum of the tier lengths. */
  function RecountWords(data: WordsData): WordsData {
    data.(metadata := data.metadata.(totalWords := data.words.Count()))
  }

  /** The metadata agrees with the lists it counts. */
  predicate Consistent(data: WordsData) {
    data.metadata.totalWords == data.words.Count() && data.metadata.categories == |data.categories|
  }

  // ---------------------------------------------------------------------
  // Word handlers, as functions from the file before to (status, file after)

  /** POST: refuse a word string already in any tier; otherwise append the
      word to the chosen tier and recount. A tier key that names no tier
      throws after the duplicate check (500, no write). */
  function AddWord(data: WordsData, word: WordEntry, difficulty: string): (int, WordsData) {
    if word.word in WordStrings(Entries(data.words)) then (BadRequest, data)
    else match ParseTier(difficulty)
      case None => (ServerError, data)
      case Some(t) =>
        (Ok, RecountWords(data.(words := data.words.Set(t, data.words.Get(t) + [word]))))
  }

  /** PUT: find the first entry with `originalWord` in the original tier (404
      if none), splice it out and append `updatedWord` to the new tier. No
      duplicate check and no recount. A bad original key throws at the lookup,
      a bad new key after the splice; either way nothing is written (500). */
  function UpdateWord(data: WordsData, originalWord: string, originalDifficulty: string,
                      updatedWord: WordEntry, newDifficulty: string): (int, WordsData)
  {
    match ParseTier(originalDifficulty)
    case None => (ServerError, data)
    case Some(from) =>
      match FindWord(data.words.Get(from), originalWord)
      case None => (NotFound, data)
      case Some(i) =>
        match ParseTier(newDifficulty)
        case None => (ServerError, data)
        case Some(to) =>
          var removed := data.words.Set(from, RemoveAt(data.words.Get(from), i));
          (Ok, data.(words := removed.Set(to, removed.Get(to) + [updatedWord])))
  }

  /** DELETE: splice out the first entry with that word string from the tier
      (404 if none) and recount. */
  function DeleteWord(data: WordsData, word: string, difficulty: string): (int, WordsData) {
    match ParseTier(difficulty)
    case None => (ServerError, data)
    case Some(t) =>
      match FindWord(data.words.Get(t), word)
      case None => (NotFound, data)
      case Some(i) => (Ok, RecountWords(data.(words := data.words.Set(t, RemoveAt(data.words.Get(t), i)))))
  }

  // ---------------------------------------------------------------------
  // Category handlers

  /** The category of every word equal to `from` becomes `to`. */
  function Recategorize(ws: seq<WordEntry>, from: string, to: string): (r: seq<WordEntry>)
    ensures |r| == |ws|
    ensures forall i :: 0 <= i < |ws| ==> r[i] == if ws[i].category == from then ws[i].(category := to) else ws[i]
  {
    seq(|ws|, i requires 0 <= i < |ws| => if ws[i].category == from then ws[i].(category := to) else ws[i])
  }

  function RecategorizeAll(words: Tiers, from: string, to: string): Tiers {
    Tiers(Recategorize(words.easy, from, to), Recategorize(words.medium, from, to), Recategorize(words.hard, from, to))
  }

  /** Some word of some tier uses the category. */
  predicate CategoryInUse(words: Tiers, id: string) {
    exists w :: w in Entries(words) && w.category == id
  }

  /** POST: refuse an id already present; otherwise append the category and
      recount the categories. */
  function AddCategory(data: WordsData, id: string, name: string): (int, WordsData) {
    if exists c :: c in data.categories && c.id == id then (BadRequest, data)
    else
      var categories := data.categories + [Category(id, name)];
      (Ok, data.(categories := categories, metadata := data.metadata.(categories := |categories|)))
  }

  /** PUT: replace the first category with `originalId` (404 if none) and, when
      the id changes, move every word of the old id to the new one. */
  function UpdateCategory(data: WordsData, originalId: string, newId: string, newName: string): (int, WordsData) {
    match FindCategory(data.categories, originalId)
    case None => (NotFound, data)
    case Some(i) =>
      var categories := data.categories[i := Category(newId, newName)];
      var words := if originalId != newId then RecategorizeAll(data.words, originalId, newId) else data.words;
      (Ok, data.(categories := categories, words := words))
  }

  /** DELETE: refuse a category some word uses (checked before existence),
      404 when it is missing, otherwise remove the first match and recount. */
  function DeleteCategory(data: WordsData, id: string): (int, WordsData) {
    if CategoryInUse(data.words, id) then (BadRequest, data)
    else match FindCategory(data.categories, id)
      case None => (NotFound, data)
      case Some(i) =>
        var categories := RemoveAt(data.categories, i);
        (Ok, data.(categories := categories, metadata := data.metadata.(categories := |categories|)))
  }

  // ---------------------------------------------------------------------
  // The duplicate-removal script

  /** remove-duplicates.js: de-duplicate each tier on its own, then drop from
      medium every word string easy has, and from hard every word string easy
      or medium had, and recount. */
  function RemoveDuplicatesScript(data: WordsData): WordsData {
    var easy := KeepFirst(data.words.easy, {});
    var medium := KeepFirst(data.words.medium, {});
    var hard := KeepFirst(data.words.hard, {});
    var seenAfterEasy := WordStrings(easy);
    var seenAfterMedium := seenAfterEasy + WordStrings(medium);
    RecountWords(data.(words := Tiers(easy, KeepFirst(medium, seenAfterEasy), KeepFirst(hard, seenAfterMedium))))
  }

  /** The persisted catalog with the admin password the handlers check. */
  class WordsFile {
    var data: WordsData
    const adminPassword: string

    constructor(env: Option<string>, initial: WordsData)
      ensures data == initial && adminPassword == AdminPassword(env)
    {
      data := initial;
      adminPassword := AdminPassword(env);
    }

    /** POST /api/admin/words. */
    method PostWord(header: Option<string>, word: WordEntry, difficulty: string) returns (status: int)
      modifies this
      ensures !Authorized(header, adminPassword) ==> status == Unauthorized && data == old(data)
      ensures Authorized(header, adminPassword) ==> (status, data) == AddWord(old(data), word, difficulty)
    {
      if !Authorized(header, adminPassword) {
        return Unauthorized;
      }
      if word.word in WordStrings(Entries(data.words)) {
        return BadRequest;
      }
      var tier := ParseTier(difficulty);
      if tier.None? {
        return ServerError;
      }
      var t := tier.value;
      data := data.(words := data.words.Set(t, data.words.Get(t) + [word]));
      data := data.(metadata := data.metadata.(totalWords := |data.words.easy| + |data.words.medium| + |data.words.hard|));
      status := Ok;
    }

    /** PUT /api/admin/words. */
    method PutWord(header: Option<string>, originalWord: string, originalDifficulty: string,
                   updatedWord: WordEntry, newDifficulty: string) returns (status: int)
      modifies this
      ensures !Authorized(header, adminPassword) ==> status == Unauthorized && data == old(data)
      ensures Authorized(header, adminPassword) ==>
        (status, data) == UpdateWord(old(data), originalWord, originalDifficulty, updatedWord, newDifficulty)
    {
      if !Authorized(header, adminPassword) {
        return Unauthorized;
      }
      var from := ParseTier(originalDifficulty);
      if from.None? {
        return ServerError;
      }
      var originalIndex := FindWord(data.words.Get(from.value), originalWord);
      if originalIndex.None? {
        return NotFound;
      }
      // The splice and the push act on a working copy; the file is written
      // only if both succeed.
      var working := data.words.Set(from.value, RemoveAt(data.words.Get(from.value), originalIndex.value));
      var to := ParseTier(newDifficulty);
      if to.None? {
        return ServerError;
      }
      working := working.Set(to.value, working.Get(to.value) + [updatedWord]);
      data := data.(words := working);
      status := Ok;
    }

    /** DELETE /api/admin/words. */
    method DeleteWordEntry(header: Option<string>, word: string, difficulty: string) returns (status: int)
      modifies this
      ensures !Authorized(header, adminPassword) ==> status == Unauthorized && data == old(data)
      ensures Authorized(header, adminPassword) ==> (status, data) == DeleteWord(old(data), word, difficulty)
    {
      if !Authorized(header, adminPassword) {
        return Unauthorized;
      }
      var tier := ParseTier(difficulty);
      if tier.None? {
        return ServerError;
      }
      var index := FindWord(data.words.Get(tier.value), word);
      if index.None? {
        return NotFound;
      }
      data := data.(words := data.words.Set(tier.value, RemoveAt(data.words.Get(tier.value), index.value)));
      data := data.(metadata := data.metadata.(totalWords := |data.words.easy| + |data.words.medium| + |data.words.hard|));
      status := Ok;
    }

    /** POST /api/admin/categories. */
    method PostCategory(header: Option<string>, id: string, name: string) returns (status: int)
      modifies this
      ensures !Authorized(header, adminPassword) ==> status == Unauthorized && data == old(data)
      ensures Authorized(header, adminPassword) ==> (status, data) == AddCategory(old(data), id, name)
    {
      if !Authorized(header, adminPassword) {
        return Unauthorized;
      }
      if exists c :: c in data.categories && c.id == id {
        return BadRequest;
      }
      data := data.(categories := data.categories + [Category(id, name)]);
      data := data.(metadata := data.metadata.(categories := |data.categories|));
      status := Ok;
    }

    /** PUT /api/admin/categories: the renaming walks every tier (`forEach`). */
    method PutCategory(header: Option<string>, originalId: string, newId: string, newName: string)
      returns (status: int)
      modifies this
      ensures !Authorized(header, adminPassword) ==> status == Unauthorized && data == old(data)
      ensures Authorized(header, adminPassword) ==>
        (status, data) == UpdateCategory(old(data), originalId, newId, newName)
    {
      if !Authorized(header, adminPassword) {
        return Unauthorized;
      }
      var index := FindCategory(data.categories, originalId);
      if index.None? {
        return NotFound;
      }
      data := data.(categories := data.categories[index.value := Category(newId, newName)]);
      if originalId != newId {
        var easy := RecategorizeTier(data.words.easy, originalId, newId);
        var medium := RecategorizeTier(data.words.medium, originalId, newId);
        var hard := RecategorizeTier(data.words.hard, originalId, newId);
        data := data.(words := Tiers(easy, medium, hard));
      }
      status := Ok;
    }

    /** DELETE /api/admin/categories. */
    method DeleteCategoryEntry(header: Option<string>, id: string) returns (status: int)
      modifies this
      ensures !Authorized(header, adminPassword) ==> status == Unauthorized && data == old(data)
      ensures Authorized(header, adminPassword) ==> (status, data) == DeleteCategory(old(data), id)
    {
      if !Authorized(header, adminPassword) {
        return Unauthorized;
      }
      if CategoryInUse(data.words, id) {
        return BadRequest;
      }
      var index := FindCategory(data.categories, id);
      if index.None? {
        return NotFound;
      }
      data := data.(categories := RemoveAt(data.categories, index.value));
      data := data.(metadata := data.metadata.(categories := |data.categories|));
      status := Ok;
    }

    /** Running remove-duplicates.js on the file. */
    method RunRemoveDuplicates()
      modifies this
      ensures data == RemoveDuplicatesScript(old(data))
    {
      var easy, easyRemoved := RemoveDuplicates(data.words.easy);
      var medium, mediumRemoved := RemoveDuplicates(data.words.medium);
      var hard, hardRemoved := RemoveDuplicates(data.words.hard);
      var allSeen := WordStrings(easy);
      var crossMedium, crossHard, crossRemoved;
      crossMedium, crossRemoved, allSeen := RemoveRepeats(medium, allSeen);
      crossHard, crossRemoved, allSeen := RemoveRepeats(hard, allSeen);
      data := data.(words := Tiers(easy, crossMedium, crossHard));
      data := data.(metadata := data.metadata.(totalWords := |data.words.easy| + |data.words.medium| + |data.words.hard|));
    }
  }

  /** The `forEach` that renames a category in one tier list, entry by entry. */
  method RecategorizeTier(ws: seq<WordEntry>, from: string, to: string) returns (r: seq<WordEntry>)
    ensures r == Recategorize(ws, from, to)
  {
    r := ws;
    for i := 0 to |ws|
      invariant |r| == |ws|
      invariant forall j :: 0 <= j < i ==> r[j] == if ws[j].category == from then ws[j].(category := to) else ws[j]
      invariant forall j :: i <= j < |ws| ==> r[j] == ws[j]
    {
      if r[i].category == from {
        r := r[i := r[i].(category := to)];
      }
    }
  }
}

/** What the catalog handlers and the duplicate-removal script guarantee. */
module CatalogAdminProperties {
  import opened Catalog
  import opened GameRules
  import opened Dedup
  import opened CatalogAdmin

  /** No word string occurs twice in the catalog: none twice in a tier, none
      in two tiers. */
  predicate UniqueWordStrings(words: Tiers) {
    && DistinctWords(words.easy) && DistinctWords(words.medium) && DistinctWords(words.hard)
    && WordStrings(words.easy) !! WordStrings(words.medium)
    && WordStrings(words.easy) !! WordStrings(words.hard)
    && WordStrings(words.medium) !! WordStrings(words.hard)
  }

  lemma WordStringsSnocOne(ws: seq<WordEntry>, w: WordEntry)
    ensures WordStrings(ws + [w]) == WordStrings(ws) + {w.word}
  {
    WordStringsSnoc(ws + [w], |ws|);
    assert (ws + [w])[..|ws| + 1] == ws + [w];
    assert (ws + [w])[..|ws|] == ws;
  }

  lemma DistinctSnoc(ws: seq<WordEntry>, w: WordEntry)
    requires DistinctWords(ws) && w.word !in WordStrings(ws)
    ensures DistinctWords(ws + [w])
  {
  }

  lemma RemoveAtWords(ws: seq<WordEntry>, i: nat)
    requires i < |ws|
    ensures WordStrings(RemoveAt(ws, i)) <= WordStrings(ws)
    ensures DistinctWords(ws) ==> DistinctWords(RemoveAt(ws, i))
  {
    var r := RemoveAt(ws, i);
    forall s | s in WordStrings(r) ensures s in WordStrings(ws) {
      var j :| 0 <= j < |r| && r[j].word == s;
      if j < i { assert r[j] == ws[j]; } else { assert r[j] == ws[j + 1]; }
    }
    if DistinctWords(ws) {
      forall a, b | 0 <= a < b < |r| ensures r[a].word != r[b].word {
        var a', b' := if a < i then a else a + 1, if b < i then b else b + 1;
        assert r[a] == ws[a'] && r[b] == ws[b'];
      }
    }
  }

  /** POST refuses a word string already in the catalog and changes nothing. */
  lemma AddWordRefusesDuplicate(data: WordsData, word: WordEntry, difficulty: string)
    requires exists i :: 0 <= i < |Entries(data.words)| && Entries(data.words)[i].word == word.word
    ensures AddWord(data, word, difficulty) == (BadRequest, data)
  {
    var i :| 0 <= i < |Entries(data.words)| && Entries(data.words)[i].word == word.word;
    assert word.word in WordStrings(Entries(data.words));
  }

  /** POST keeps every word string unique. */
  lemma AddWordKeepsUnique(data: WordsData, word: WordEntry, difficulty: string)
    requires UniqueWordStrings(data.words)
    ensures UniqueWordStrings(AddWord(data, word, difficulty).1.words)
  {
    if AddWord(data, word, difficulty).0 == Ok {
      var t := ParseTier(difficulty).value;
      EntriesWords(data.words);
      WordStringsSnocOne(data.words.Get(t), word);
      DistinctSnoc(data.words.Get(t), word);
    }
  }

  /** A successful POST appends the word to the end of its tier, leaves the
      other tiers and the categories alone and recounts the words. */
  lemma AddWordAppends(data: WordsData, word: WordEntry, difficulty: string)
    requires AddWord(data, word, difficulty).0 == Ok
    ensures ParseTier(difficulty).Some?
    ensures var after := AddWord(data, word, difficulty).1; var t := ParseTier(difficulty).value;
      && after.words.Get(t) == data.words.Get(t) + [word]
      && (forall u :: u != t ==> after.words.Get(u) == data.words.Get(u))
      && after.categories == data.categories
      && after.metadata.totalWords == after.words.Count() == data.words.Count() + 1
  {
  }

  /** PUT answers 404 exactly when the original tier is valid but holds no
      entry with that word string; on success it moves the first such entry's
      slot: the original tier loses that entry, the new tier gains
      `updatedWord` at its end, nothing else changes, and the metadata is not
      recounted (the number of words is unchanged anyway). */
  lemma UpdateWordOutcome(data: WordsData, originalWord: string, originalDifficulty: string,
                          updatedWord: WordEntry, newDifficulty: string)
    ensures var (status, after) := UpdateWord(data, originalWord, originalDifficulty, updatedWord, newDifficulty);
      && (status == NotFound <==>
            ParseTier(originalDifficulty).Some?
            && originalWord !in WordStrings(data.words.Get(ParseTier(originalDifficulty).value)))
      && (status != Ok ==> after == data)
      && (status == Ok ==>
            var from := ParseTier(originalDifficulty).value;
            var to := ParseTier(newDifficulty).value;
            var i := FindWord(data.words.Get(from), originalWord).value;
            && ParseTier(newDifficulty).Some?
            && after.metadata == data.metadata && after.categories == data.categories
            && after.words.Count() == data.words.Count()
            && (from != to ==>
                  after.words.Get(from) == RemoveAt(data.words.Get(from), i)
                  && after.words.Get(to) == data.words.Get(to) + [updatedWord])
            && (from == to ==> after.words.Get(to) == RemoveAt(data.words.Get(from), i) + [updatedWord])
            && (forall u :: u != from && u != to ==> after.words.Get(u) == data.words.Get(u)))
  {
    match ParseTier(originalDifficulty)
    case None =>
    case Some(from) =>
      var ws := data.words.Get(from);
      match FindWord(ws, originalWord)
      case None =>
        forall s | s in WordStrings(ws) ensures s != originalWord {
          var j :| 0 <= j < |ws| && ws[j].word == s;
        }
      case Some(i) =>
        assert originalWord in WordStrings(ws);
  }

  /** DELETE answers 404 exactly when the tier is valid but holds no entry
      with that word string; on success the first such entry is removed, the
      catalog holds one word fewer and `totalWords` is recounted. */
  lemma DeleteWordOutcome(data: WordsData, word: string, difficulty: string)
    ensures var (status, after) := DeleteWord(data, word, difficulty);
      && (status == NotFound <==>
            ParseTier(difficulty).Some? && word !in WordStrings(data.words.Get(ParseTier(difficulty).value)))
      && (status != Ok ==> after == data)
      && (status == Ok ==>
            var t := ParseTier(difficulty).value;
            && after.words.Get(t) == RemoveAt(data.words.Get(t), FindWord(data.words.Get(t), word).value)
            && (forall u :: u != t ==> after.words.Get(u) == data.words.Get(u))
            && after.words.Count() == data.words.Count() - 1
            && after.metadata.totalWords == after.words.Count()
            && after.categories == data.categories)
  {
    match ParseTier(difficulty)
    case None =>
    case Some(t) =>
      var ws := data.words.Get(t);
      match FindWord(ws, word)
      case None =>
        forall s | s in WordStrings(ws) ensures s != word {
          var j :| 0 <= j < |ws| && ws[j].word == s;
        }
      case Some(i) =>
        assert word in WordStrings(ws);
  }

  /** DELETE keeps every word string unique. */
  lemma DeleteWordKeepsUnique(data: WordsData, word: string, difficulty: string)
    requires UniqueWordStrings(data.words)
    ensures UniqueWordStrings(DeleteWord(data, word, difficulty).1.words)
  {
    if DeleteWord(data, word, difficulty).0 == Ok {
      var t := ParseTier(difficulty).value;
      RemoveAtWords(data.words.Get(t), FindWord(data.words.Get(t), word).value);
    }
  }

  /** Every word handler keeps the metadata in step with the lists it counts. */
  lemma WordHandlersKeepConsistent(data: WordsData, word: WordEntry, name: string,
                                   difficulty: string, newDifficulty: string)
    requires Consistent(data)
    ensures Consistent(AddWord(data, word, difficulty).1)
    ensures Consistent(UpdateWord(data, name, difficulty, word, newDifficulty).1)
    ensures Consistent(DeleteWord(data, name, difficulty).1)
  {
    UpdateWordOutcome(data, name, difficulty, word, newDifficulty);
  }

  /** Every category handler keeps the metadata in step with the lists it counts. */
  lemma CategoryHandlersKeepConsistent(data: WordsData, id: string, newId: string, name: string)
    requires Consistent(data)
    ensures Consistent(AddCategory(data, id, name).1)
    ensures Consistent(UpdateCategory(data, id, newId, name).1)
    ensures Consistent(DeleteCategory(data, id).1)
  {
  }

  /** POST answers 400 exactly when the id is taken; otherwise the category
      is appended and counted. */
  lemma AddCategoryOutcome(data: WordsData, id: string, name: string)
    ensures var (status, after) := AddCategory(data, id, name);
      && (status == BadRequest <==> exists j :: 0 <= j < |data.categories| && data.categories[j].id == id)
      && (status != BadRequest ==>
            status == Ok && after.categories == data.categories + [Category(id, name)]
            && after.metadata.categories == |after.categories| && after.words == data.words)
      && (status == BadRequest ==> after == data)
  {
    if exists j :: 0 <= j < |data.categories| && data.categories[j].id == id {
      var j :| 0 <= j < |data.categories| && data.categories[j].id == id;
      assert data.categories[j] in data.categories;
    }
  }

  /** PUT on a category: 404 when no category has the id; otherwise exactly
      that position is replaced, and when the id changes every word of the old
      id (and only those) now carries the new one, with nothing else about any
      word changed. */
  lemma UpdateCategoryOutcome(data: WordsData, originalId: string, newId: string, newName: string)
    ensures var (status, after) := UpdateCategory(data, originalId, newId, newName);
      && (status == NotFound <==> forall j :: 0 <= j < |data.categories| ==> data.categories[j].id != originalId)
      && (status == NotFound ==> after == data)
      && (status == Ok ==>
            var i := FindCategory(data.categories, originalId).value;
            && after.categories == data.categories[i := Category(newId, newName)]
            && after.metadata == data.metadata
            && forall t: Tier ::
                 && |after.words.Get(t)| == |data.words.Get(t)|
                 && forall k :: 0 <= k < |data.words.Get(t)| ==>
                      after.words.Get(t)[k] ==
                        if originalId != newId && data.words.Get(t)[k].category == originalId
                        then data.words.Get(t)[k].(category := newId)
                        else data.words.Get(t)[k])
  {
  }

  /** DELETE on a category: a category some word uses is refused with 400
      before its existence is even looked at; an unused missing one gives 404;
      otherwise exactly the first category with that id is removed and the
      count follows. */
  lemma DeleteCategoryOutcome(data: WordsData, id: string)
    ensures var (status, after) := DeleteCategory(data, id);
      && (status == BadRequest <==> CategoryInUse(data.words, id))
      && (status == NotFound <==>
            !CategoryInUse(data.words, id) && forall j :: 0 <= j < |data.categories| ==> data.categories[j].id != id)
      && (status != Ok ==> after == data)
      && (status == Ok ==>
            && after.categories == RemoveAt(data.categories, FindCategory(data.categories, id).value)
            && after.metadata.categories == |data.categories| - 1
            && after.words == data.words)
  {
  }

  /** The script's passes, on the three tier lists: the result repeats no
      word string anywhere and keeps every word string. */
  lemma ScriptTiers(e0: seq<WordEntry>, m0: seq<WordEntry>, h0: seq<WordEntry>)
    ensures var e, m, h := KeepFirst(e0, {}), KeepFirst(m0, {}), KeepFirst(h0, {});
      var words := Tiers(e, KeepFirst(m, WordStrings(e)), KeepFirst(h, WordStrings(e) + WordStrings(m)));
      && UniqueWordStrings(words)
      && WordStrings(words.easy) + WordStrings(words.medium) + WordStrings(words.hard)
         == WordStrings(e0) + WordStrings(m0) + WordStrings(h0)
  {
    var e, m, h := KeepFirst(e0, {}), KeepFirst(m0, {}), KeepFirst(h0, {});
    KeepFirstDistinct(e0, {});
    KeepFirstDistinct(m0, {});
    KeepFirstDistinct(h0, {});
    var m2, h2 := KeepFirst(m, WordStrings(e)), KeepFirst(h, WordStrings(e) + WordStrings(m));
    KeepFirstDistinct(m, WordStrings(e));
    KeepFirstDistinct(h, WordStrings(e) + WordStrings(m));
    var se, sm, sh := WordStrings(e0), WordStrings(m0), WordStrings(h0);
    assert WordStrings(e) == se && WordStrings(m) == sm && WordStrings(h) == sh;
    assert WordStrings(m2) == sm - se;
    assert WordStrings(h2) == sh - (se + sm);
    assert se + (sm - se) + (sh - (se + sm)) == se + sm + sh;
  }

  /** After remove-duplicates.js no word string occurs twice anywhere in the
      catalog, the easy tier is exactly its own first-occurrence pass (the
      cross-tier step never touches it), no word string of the catalog is
      lost, and `totalWords` counts the lists. */
  lemma RemoveDuplicatesScriptResult(data: WordsData)
    ensures var after := RemoveDuplicatesScript(data);
      && UniqueWordStrings(after.words)
      && after.words.easy == KeepFirst(data.words.easy, {})
      && WordStrings(Entries(after.words)) == WordStrings(Entries(data.words))
      && (Consistent(data) ==> Consistent(after))
  {
    ScriptTiers(data.words.easy, data.words.medium, data.words.hard);
    var after := RemoveDuplicatesScript(data);
    EntriesWords(after.words);
    EntriesWords(data.words);
  }

  lemma EntriesWords(words: Tiers)
    ensures WordStrings(Entries(words)) == WordStrings(words.easy) + WordStrings(words.medium) + WordStrings(words.hard)
  {
    var e := Entries(words);
    forall s | s in WordStrings(e)
      ensures s in WordStrings(words.easy) + WordStrings(words.medium) + WordStrings(words.hard)
    {
      var i :| 0 <= i < |e| && e[i].word == s;
      if i < |words.easy| {
        assert e[i] == words.easy[i];
      } else if i < |words.easy| + |words.medium| {
        assert e[i] == words.medium[i - |words.easy|];
      } else {
        assert e[i] == words.hard[i - |words.easy| - |words.medium|];
      }
    }
    forall s | s in WordStrings(words.easy) + WordStrings(words.medium) + WordStrings(words.hard)
      ensures s in WordStrings(e)
    {
      if s in WordStrings(words.easy) {
        var i :| 0 <= i < |words.easy| && words.easy[i].word == s;
        assert e[i] == words.easy[i];
      } else if s in WordStrings(words.medium) {
        var i :| 0 <= i < |words.medium| && words.medium[i].word == s;
        assert e[|words.easy| + i] == words.medium[i];
      } else {
        var i :| 0 <= i < |words.hard| && words.hard[i].word == s;
        assert e[|words.easy| + |words.medium| + i] == words.hard[i];
      }
    }
  }
}
