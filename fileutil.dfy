/**
 * The file layer of file_util.py over an in-memory file system: a map from
 * path to text, where an absent path is a missing file. The loaders are
 * functions of that map; the read-modify-write operations are methods of
 * `FileStore`, each proved to leave the map as a pure function of the old
 * map says, and lemmas state what the files mean afterwards.
 */
module FileUtil {
  import opened Wrappers
  import opened PyText
  import opened Seqs
  import opened OrderedDict
  import opened Dates
  import opened DictionaryFormat
  import opened CardMerge
  import opened PracticeList
  import opened DifficultQueue

  /** Path to text; a path that is not a key is a file that does not exist. */
  type Files = map<string, string>

  /** The path `load_new_words` reads its preview dictionary from. */
  const PreviewDictionaryPath: string := "dictionary.txt"

  /** `read_text_file(path)` */
  function ReadText(files: Files, path: string): (r: Result<string>)
    ensures r.Failed? <==> path !in files
    ensures r.Failed? ==> r.failure == FileNotFound(path)
  {
    if path in files then Success(files[path]) else Failed(FileNotFound(path))
  }

  /** `read_text_file(path)` where the caller treats a missing file as empty. */
  function TextOrEmpty(files: Files, path: string): string {
    if path in files then files[path] else ""
  }

  // ------------------------------------------------------------------ loaders

  /** `filter_words_in_dictionary(words, dictionary)` */
  function FilterWords(words: seq<string>, dictionary: map<string, Card>): (r: seq<string>)
    ensures |r| <= |words|
    ensures forall w :: w in r <==> w in words && w in dictionary
    decreases |words|
  {
    if words == [] then []
    else
      var p, w := words[..|words| - 1], words[|words| - 1];
      assert words == p + [w];
      FilterWords(p, dictionary) + (if w in dictionary then [w] else [])
  }

  /** The filter keeps the order of the input: filtering a concatenation
      concatenates the filtered parts. */
  lemma {:induction false} FilterWordsConcat(a: seq<string>, b: seq<string>, dictionary: map<string, Card>)
    ensures FilterWords(a + b, dictionary) == FilterWords(a, dictionary) + FilterWords(b, dictionary)
    decreases |b|
  {
    if b != [] {
      var p, w := b[..|b| - 1], b[|b| - 1];
      var last := if w in dictionary then [w] else [];
      assert FilterWords(a + b, dictionary) == FilterWords(a + p, dictionary) + last by {
        assert (a + b)[..|a + b| - 1] == a + p;
        assert (a + b)[|a + b| - 1] == w;
      }
      FilterWordsConcat(a, p, dictionary);
      assert FilterWords(b, dictionary) == FilterWords(p, dictionary) + last;
      ConcatAssoc(FilterWords(a, dictionary), FilterWords(p, dictionary), last);
    } else {
      assert a + b == a;
    }
  }

  /** Words that are all in the dictionary pass the filter unchanged. */
  lemma {:induction false} FilterWordsAllKnown(words: seq<string>, dictionary: map<string, Card>)
    requires forall i :: 0 <= i < |words| ==> words[i] in dictionary
    ensures FilterWords(words, dictionary) == words
    decreases |words|
  {
    if words != [] {
      var p := words[..|words| - 1];
      FilterWordsAllKnown(p, dictionary);
      assert FilterWords(words, dictionary) == FilterWords(p, dictionary) + [words[|words| - 1]];
      PrefixSnoc(words);
    }
  }

  /** `load_dictionary(path)` */
  function DictionaryIn(files: Files, path: string): (r: Result<Dict<string, Card>>)
    ensures r.Failed? <==> path !in files
    ensures r.Success? ==> WellFormedStore(r.value)
  {
    match ReadText(files, path)
    case Failed(f) => Failed(f)
    case Success(text) => Success(ParseDictionary(text))
  }

  /** `load_review_words(path, dictionary)` */
  function ReviewWordsIn(files: Files, path: string, dictionary: map<string, Card>): (r: Result<seq<string>>)
    ensures r.Failed? <==> path !in files
    ensures r.Success? ==> forall w :: w in r.value <==> w in ParsePracticeList(files[path]) && w in dictionary
  {
    match ReadText(files, path)
    case Failed(f) => Failed(f)
    case Success(text) => Success(FilterWords(ParsePracticeList(text), dictionary))
  }

  /** `load_due_words(path, interval_days=interval, dictionary=dictionary, today=today)` */
  function DueWordsIn(files: Files, path: string, interval: int, dictionary: map<string, Card>, today: Date)
    : (r: Result<seq<string>>)
    ensures path !in files ==> r == Failed(FileNotFound(path))
    ensures r.Success? ==> forall w :: w in r.value <==>
      w in dictionary && w in ParseDifficult(files[path]).vals
      && IsDue(ParseDifficult(files[path]).vals[w], interval, today)
  {
    match ReadText(files, path)
    case Failed(f) => Failed(f)
    case Success(text) =>
      var m := ParseDifficult(text);
      DueOfMeaning(m.keys, m.vals, interval, today);
      match DueWords(m, interval, today)
      case Failed(f) => Failed(f)
      case Success(due) => Success(FilterWords(due, dictionary))
  }

  /** `load_today_words(path, dictionary)`: a missing file is an empty list. */
  function TodayWordsIn(files: Files, path: string, dictionary: map<string, Card>): (r: seq<string>)
    ensures path !in files ==> r == []
    ensures forall w :: w in r <==> path in files && w in ParsePracticeList(files[path]) && w in dictionary
  {
    if path !in files then [] else FilterWords(ParsePracticeList(files[path]), dictionary)
  }

  /** The preview loop of `load_new_words`: each staged card, merged with the
      dictionary's card when the word is already there. */
  function Preview(newCards: Dict<string, Card>, dictionary: map<string, Card>): (r: Dict<string, Card>)
    requires newCards.Valid()
    ensures r.Valid() && r.keys == newCards.keys
  {
    Dict(newCards.keys, map w | w in newCards.vals :: PreviewCard(w, newCards.vals[w], dictionary))
  }

  /** The card the preview shows for staged word `w`. */
  function PreviewCard(w: string, c: Card, dictionary: map<string, Card>): Card {
    if w in dictionary then Merge(c, dictionary) else c
  }

  /** The loop of `load_new_words` that builds the preview. */
  method PreviewMerge(newCards: Dict<string, Card>, dictionary: map<string, Card>) returns (merged: Dict<string, Card>)
    requires newCards.Valid()
    ensures merged == Preview(newCards, dictionary)
  {
    ghost var target := Preview(newCards, dictionary);
    merged := Empty();
    var i := 0;
    while i < |newCards.keys|
      invariant 0 <= i <= |newCards.keys|
      invariant merged.Valid() && merged.keys == newCards.keys[..i]
      invariant forall w :: w in merged.vals ==> merged.vals[w] == target.vals[w]
    {
      var w := newCards.keys[i];
      var c := newCards.vals[w];
      TakeSnoc(newCards.keys, i);
      var card: Card;
      if w in dictionary {
        card := Merge(c, dictionary);
      } else {
        card := c;
      }
      assert card == target.vals[w];
      merged := merged.Set(w, card);
      i := i + 1;
    }
    assert newCards.keys[..i] == newCards.keys;
    SameEntries(merged, target);
  }

  /** `load_new_words(path)`: a missing staging file is empty; a missing preview
      dictionary is an empty one. */
  function NewWordsIn(files: Files, path: string): (r: Dict<string, Card>)
    ensures r.Valid()
    ensures path !in files ==> r.keys == []
    ensures path in files ==> r.keys == ParseDictionary(files[path]).keys
  {
    if path !in files then Empty()
    else
      var dictionary := if PreviewDictionaryPath in files then ParseDictionary(files[PreviewDictionaryPath]).vals else map[];
      Preview(ParseDictionary(files[path]), dictionary)
  }

  /** A staged word that the preview dictionary lacks is shown as staged; one it has
      is shown merged. */
  lemma NewWordsPreview(files: Files, path: string, w: string)
    requires path in files && w in ParseDictionary(files[path]).vals
    ensures w in NewWordsIn(files, path).vals
    ensures var dictionary := if PreviewDictionaryPath in files then ParseDictionary(files[PreviewDictionaryPath]).vals else map[];
      NewWordsIn(files, path).vals[w] == Merge(ParseDictionary(files[path]).vals[w], dictionary)
  {
  }

  // ------------------------------------------------------------------ file effects

  /** The files after `remove_word_from_practice_file(path, word)`. */
  function WithoutPracticeWord(files: Files, path: string, word: string): (r: Result<Files>)
    ensures r.Failed? <==> path !in files
  {
    match ReadText(files, path)
    case Failed(f) => Failed(f)
    case Success(text) => Success(files[path := PracticeListText(Without(ParsePracticeList(text), word))])
  }

  /** The files after `upsert_word_in_difficult_file(path, word, added)`. */
  function WithDifficultWord(files: Files, path: string, word: string, added: Date): (r: Files)
    ensures path in r
  {
    var m := ParseDifficult(TextOrEmpty(files, path));
    files[path := SerializeDifficult(m.Set(word, added))]
  }

  /** The files after `remove_word_from_difficult_file(path, word)`. */
  function WithoutDifficultWord(files: Files, path: string, word: string): (r: Files)
    ensures path !in files ==> r == files
  {
    if path !in files then files
    else
      var m := ParseDifficult(files[path]);
      if word in m.vals then files[path := SerializeDifficult(m.Remove(word))] else files
  }

  /** The files after `move_word_between_difficult_files(src, dst, word, added)`. */
  function MovedDifficultWord(files: Files, src: string, dst: string, word: string, added: Date): (r: Files)
    ensures dst in r
  {
    WithDifficultWord(WithoutDifficultWord(files, src, word), dst, word, added)
  }

  /** The files after `add_word_to_today_file(path, word)`. */
  function WithTodayWord(files: Files, path: string, word: string): (r: Files)
    ensures path in r
  {
    var words := if path in files then ParsePracticeList(files[path]) else [];
    files[path := PracticeListText(if word in words then words else words + [word])]
  }

  /** The files after `remove_word_from_today_file(path, word)`. */
  function WithoutTodayWord(files: Files, path: string, word: string): (r: Files)
    ensures path !in files ==> r == files
  {
    if path !in files then files
    else files[path := PracticeListText(Without(ParsePracticeList(files[path]), word))]
  }

  /** The files after `remove_word_from_new_words_file(path, word)`. */
  function WithoutNewWord(files: Files, path: string, word: string): (r: Files)
    ensures path !in files ==> r == files
  {
    if path !in files then files
    else
      var d := ParseDictionary(files[path]);
      files[path := CardsText(if word in d.vals then d.Remove(word) else d)]
  }

  /** The files after `merge_new_words_to_dictionary(newPath, dictPath, word)`. */
  function WithMergedWord(files: Files, newPath: string, dictPath: string, word: string): (r: Files)
    ensures newPath !in files || word !in ParseDictionary(files[newPath]).vals ==> r == files
  {
    if newPath !in files then files
    else
      var newCards := ParseDictionary(files[newPath]);
      if word !in newCards.vals then files
      else
        var dictionary := ParseDictionary(TextOrEmpty(files, dictPath));
        var merged := Merge(newCards.vals[word], dictionary.vals);
        WithoutNewWord(files[dictPath := SortedDictionaryText(dictionary.Set(word, merged))], newPath, word)
  }

  // ------------------------------------------------------------------ the store

  /** The data directory the application reads and rewrites. */
  class FileStore {
    var files: Files

    constructor(initial: Files)
      ensures files == initial
    {
      files := initial;
    }

    method WriteTextFile(path: string, content: string)
      modifies this
      ensures files == old(files)[path := content]
    {
      files := files[path := content];
    }

    method LoadDictionary(path: string) returns (r: Result<Dict<string, Card>>)
      ensures r == DictionaryIn(files, path)
    {
      if path !in files {
        return Failed(FileNotFound(path));
      }
      var d := ParseDictionaryText(files[path]);
      r := Success(d);
    }

    method LoadReviewWords(path: string, dictionary: map<string, Card>) returns (r: Result<seq<string>>)
      ensures r == ReviewWordsIn(files, path, dictionary)
    {
      if path !in files {
        return Failed(FileNotFound(path));
      }
      var words := ParsePracticeListText(files[path]);
      r := Success(FilterWords(words, dictionary));
    }

    method LoadDueWords(path: string, interval: int, dictionary: map<string, Card>, today: Date)
      returns (r: Result<seq<string>>)
      ensures r == DueWordsIn(files, path, interval, dictionary, today)
    {
      if path !in files {
        return Failed(FileNotFound(path));
      }
      var m := ParseDifficultText(files[path]);
      var due := DueWordsFromDifficultMap(m, interval, today);
      match due
      case Failed(f) => r := Failed(f);
      case Success(ws) => r := Success(FilterWords(ws, dictionary));
    }

    method LoadTodayWords(path: string, dictionary: map<string, Card>) returns (words: seq<string>)
      ensures words == TodayWordsIn(files, path, dictionary)
    {
      if path !in files {
        return [];
      }
      words := ParsePracticeListText(files[path]);
      words := FilterWords(words, dictionary);
    }

    method LoadNewWords(path: string) returns (merged: Dict<string, Card>)
      ensures merged == NewWordsIn(files, path)
    {
      if path !in files {
        return Empty();
      }
      var newCards := ParseDictionaryText(files[path]);
      var dictionary: map<string, Card> := map[];
      if PreviewDictionaryPath in files {
        var d := ParseDictionaryText(files[PreviewDictionaryPath]);
        dictionary := d.vals;
      }
      merged := PreviewMerge(newCards, dictionary);
    }

    method RemoveWordFromPracticeFile(path: string, word: string) returns (r: Outcome)
      modifies this
      ensures WithoutPracticeWord(old(files), path, word).Failed? ==>
        r == Raised(FileNotFound(path)) && files == old(files)
      ensures WithoutPracticeWord(old(files), path, word).Success? ==>
        r == Done && files == WithoutPracticeWord(old(files), path, word).value
    {
      if path !in files {
        return Raised(FileNotFound(path));
      }
      var words := ParsePracticeListText(files[path]);
      words := Without(words, word);
      var text := SerializePracticeList(words);
      WriteTextFile(path, text);
      r := Done;
    }

    method UpsertWordInDifficultFile(path: string, word: string, added: Date)
      modifies this
      ensures files == WithDifficultWord(old(files), path, word, added)
    {
      var text := if path in files then files[path] else "";
      var m := ParseDifficultText(text);
      m := m.Set(word, added);
      WriteTextFile(path, SerializeDifficult(m));
    }

    method RemoveWordFromDifficultFile(path: string, word: string)
      modifies this
      ensures files == WithoutDifficultWord(old(files), path, word)
    {
      if path !in files {
        return;
      }
      var m := ParseDifficultText(files[path]);
      if word in m.vals {
        m := m.Remove(word);
        WriteTextFile(path, SerializeDifficult(m));
      }
    }

    method MoveWordBetweenDifficultFiles(src: string, dst: string, word: string, added: Date)
      modifies this
      ensures files == MovedDifficultWord(old(files), src, dst, word, added)
    {
      RemoveWordFromDifficultFile(src, word);
      UpsertWordInDifficultFile(dst, word, added);
    }

    method AddWordToTodayFile(path: string, word: string)
      modifies this
      ensures files == WithTodayWord(old(files), path, word)
    {
      var words: seq<string> := [];
      if path in files {
        words := ParsePracticeListText(files[path]);
      }
      if word !in words {
        words := words + [word];
      }
      var text := SerializePracticeList(words);
      WriteTextFile(path, text);
    }

    method RemoveWordFromTodayFile(path: string, word: string)
      modifies this
      ensures files == WithoutTodayWord(old(files), path, word)
    {
      if path !in files {
        return;
      }
      var words := ParsePracticeListText(files[path]);
      words := Without(words, word);
      var text := SerializePracticeList(words);
      WriteTextFile(path, text);
    }

    method RemoveWordFromNewWordsFile(path: string, word: string)
      modifies this
      ensures files == WithoutNewWord(old(files), path, word)
    {
      if path !in files {
        return;
      }
      var wordsDict := ParseDictionaryText(files[path]);
      if word in wordsDict.vals {
        wordsDict := wordsDict.Remove(word);
      }
      WriteTextFile(path, CardsText(wordsDict));
    }

    method MergeNewWordsToDictionary(newPath: string, dictPath: string, word: string)
      modifies this
      ensures files == WithMergedWord(old(files), newPath, dictPath, word)
    {
      if newPath !in files {
        return;
      }
      var newCards := ParseDictionaryText(files[newPath]);
      if word !in newCards.vals {
        return;
      }
      var newCard := newCards.vals[word];
      var dictText := if dictPath in files then files[dictPath] else "";
      var dictionary := ParseDictionaryText(dictText);
      var mergedCard := Merge(newCard, dictionary.vals);
      dictionary := dictionary.Set(word, mergedCard);
      WriteTextFile(dictPath, SortedDictionaryText(dictionary));
      RemoveWordFromNewWordsFile(newPath, word);
    }
  }
}
