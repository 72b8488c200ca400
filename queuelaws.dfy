/**
 * What the file operations of file_util.py leave in the files, read back
 * through the parsers: the entry that was set, removed or moved, and nothing
 * else changed.
 */
module QueueLaws {
  import opened Wrappers
  import opened Seqs
  import opened OrderedDict
  import opened Dates
  import opened PyText
  import opened DictionaryFormat
  import opened CardMerge
  import opened PracticeList
  import opened DifficultQueue
  import opened FileUtil

  /** `after` differs from `before` at most in the file at `path`. */
  ghost predicate SameExcept(before: Files, after: Files, path: string) {
    forall q :: q != path ==> (q in after <==> q in before) && (q in after ==> after[q] == before[q])
  }

  /** `after` differs from `before` at most in the files at `p1` and `p2`. */
  ghost predicate SameExcept2(before: Files, after: Files, p1: string, p2: string) {
    forall q :: q != p1 && q != p2 ==> (q in after <==> q in before) && (q in after ==> after[q] == before[q])
  }

  // ------------------------------------------------------------------ difficult queues

  /** Writing a parsed queue with one entry set reads back as that entry set. */
  lemma SetEntryRoundTrip(m: Dict<string, Date>, word: string, added: Date)
    requires m.Valid() && IsQueueWord(word) && forall w :: w in m.vals ==> IsQueueWord(w)
    ensures ParseDifficult(SerializeDifficult(m.Set(word, added))).vals == m.vals[word := added]
  {
    SerializeDifficultRoundTrip(m.Set(word, added));
  }

  /** `upsert_word_in_difficult_file` leaves the word at the given date and every
      other entry and file as it was, creating the file when it is missing. */
  lemma UpsertSetsDate(files: Files, path: string, word: string, added: Date)
    requires IsQueueWord(word)
    ensures var r := WithDifficultWord(files, path, word, added);
      path in r && ParseDifficult(r[path]).vals == ParseDifficult(TextOrEmpty(files, path)).vals[word := added]
    ensures SameExcept(files, WithDifficultWord(files, path, word, added), path)
  {
    var text := TextOrEmpty(files, path);
    ParsedWordsClean(text);
    SetEntryRoundTrip(ParseDifficult(text), word, added);
  }

  /** `remove_word_from_difficult_file` drops the word and keeps every other entry;
      it writes nothing when the file is missing or lacks the word. */
  lemma RemoveDropsEntry(files: Files, path: string, word: string)
    ensures var r := WithoutDifficultWord(files, path, word);
      path in files ==> path in r && ParseDifficult(r[path]).vals == ParseDifficult(files[path]).vals - {word}
    ensures path !in files || word !in ParseDifficult(files[path]).vals ==>
      WithoutDifficultWord(files, path, word) == files
    ensures SameExcept(files, WithoutDifficultWord(files, path, word), path)
  {
    if path in files {
      var m := ParseDifficult(files[path]);
      if word in m.vals {
        ParsedWordsClean(files[path]);
        SerializeDifficultRoundTrip(m.Remove(word));
      } else {
        assert m.vals - {word} == m.vals;
      }
    }
  }

  /** `move_word_between_difficult_files` between two different queues: the word
      leaves the source queue and sits in the destination queue at the given date;
      every other entry and file is kept. */
  lemma MoveTransfersWord(files: Files, src: string, dst: string, word: string, added: Date)
    requires IsQueueWord(word) && src != dst
    ensures var r := MovedDifficultWord(files, src, dst, word, added);
      dst in r && ParseDifficult(r[dst]).vals == ParseDifficult(TextOrEmpty(files, dst)).vals[word := added]
    ensures var r := MovedDifficultWord(files, src, dst, word, added);
      src in files ==> src in r && ParseDifficult(r[src]).vals == ParseDifficult(files[src]).vals - {word}
    ensures SameExcept2(files, MovedDifficultWord(files, src, dst, word, added), src, dst)
  {
    var mid := WithoutDifficultWord(files, src, word);
    RemoveDropsEntry(files, src, word);
    UpsertSetsDate(mid, dst, word, added);
    assert TextOrEmpty(mid, dst) == TextOrEmpty(files, dst);
  }

  // ------------------------------------------------------------------ word lists

  /** The words the list file at `path` holds; a missing file holds none. */
  function ListWords(files: Files, path: string): seq<string> {
    if path in files then ParsePracticeList(files[path]) else []
  }

  /** `add_word_to_today_file` leaves the list deduplicated with the word last when
      it was absent and in place when it was there; other files are kept. */
  lemma AddTodayAppends(files: Files, path: string, word: string)
    requires IsListWord(word)
    ensures var r := WithTodayWord(files, path, word);
      ParsePracticeList(r[path]) == Dedup(ListWords(files, path) + [word])
    ensures SameExcept(files, WithTodayWord(files, path, word), path)
  {
    var words := ListWords(files, path);
    var next := if word in words then words else words + [word];
    forall i | 0 <= i < |next| ensures IsListWord(next[i]) {
      if i < |words| {
        assert next[i] == words[i];
      }
    }
    PracticeListRoundTrip(next);
    DedupSnoc(words, word);
    if word in words {
      DedupSnoc(words, word);
    }
  }

  /** The list `add_word_to_today_file` writes: the word appended when absent. */
  function Appended(words: seq<string>, word: string): (r: seq<string>)
    ensures word in r && forall w :: w in r ==> w in words || w == word
  {
    if word in words then words else words + [word]
  }

  /** Writing a list with a word appended, reading it back and appending the word
      again writes the same text. */
  lemma AppendedTextStable(words: seq<string>, word: string)
    requires IsListWord(word) && forall i :: 0 <= i < |words| ==> IsListWord(words[i])
    ensures var text := PracticeListText(Appended(words, word));
      PracticeListText(Appended(ParsePracticeList(text), word)) == text
  {
    var next := Appended(words, word);
    forall i | 0 <= i < |next| ensures IsListWord(next[i]) {
      assert next[i] in next;
    }
    PracticeListRoundTrip(next);
    assert word in Dedup(next);
    DedupIdempotent(next);
  }

  /** A list file that adding the word would not change is left as it is. */
  lemma AddTodayFixed(files: Files, path: string, word: string)
    requires path in files
    requires PracticeListText(Appended(ParsePracticeList(files[path]), word)) == files[path]
    ensures WithTodayWord(files, path, word) == files
  {
  }

  /** Adding the same word to the today list twice is the same as adding it once. */
  lemma AddTodayIdempotent(files: Files, path: string, word: string)
    requires IsListWord(word)
    ensures WithTodayWord(WithTodayWord(files, path, word), path, word) == WithTodayWord(files, path, word)
  {
    var once := WithTodayWord(files, path, word);
    assert once[path] == PracticeListText(Appended(ListWords(files, path), word));
    AppendedTextStable(ListWords(files, path), word);
    AddTodayFixed(once, path, word);
  }

  /** Rewriting a list without a word reads back as the deduplicated list without it. */
  lemma WithoutWordRoundTrip(text: string, word: string)
    ensures ParsePracticeList(PracticeListText(Without(ParsePracticeList(text), word)))
         == Dedup(Without(ParsePracticeList(text), word))
    ensures word !in ParsePracticeList(PracticeListText(Without(ParsePracticeList(text), word)))
  {
    var ws := Without(ParsePracticeList(text), word);
    forall i | 0 <= i < |ws| ensures IsListWord(ws[i]) {
      assert ws[i] in ParsePracticeList(text);
    }
    PracticeListRoundTrip(ws);
  }

  /** `remove_word_from_today_file` removes every occurrence of the word and keeps the
      other words in order; a missing file is left missing. */
  lemma RemoveTodayDrops(files: Files, path: string, word: string)
    ensures var r := WithoutTodayWord(files, path, word);
      path in files ==> ParsePracticeList(r[path]) == Dedup(Without(ParsePracticeList(files[path]), word))
    ensures var r := WithoutTodayWord(files, path, word);
      path in files ==> word !in ParsePracticeList(r[path])
    ensures SameExcept(files, WithoutTodayWord(files, path, word), path)
  {
    if path in files {
      WithoutWordRoundTrip(files[path], word);
    }
  }

  /** `remove_word_from_practice_file` does the same, but raises on a missing file. */
  lemma RemovePracticeDrops(files: Files, path: string, word: string)
    ensures WithoutPracticeWord(files, path, word).Failed? <==> path !in files
    ensures var r := WithoutPracticeWord(files, path, word);
      r.Success? ==>
        (ParsePracticeList(r.value[path]) == Dedup(Without(ParsePracticeList(files[path]), word))
         && word !in ParsePracticeList(r.value[path])
         && SameExcept(files, r.value, path))
  {
    if path in files {
      WithoutWordRoundTrip(files[path], word);
    }
  }

  // ------------------------------------------------------------------ new words

  lemma RemoveKeepsWellFormed(d: Dict<string, Card>, word: string)
    requires WellFormedStore(d)
    ensures WellFormedStore(d.Remove(word))
  {
  }

  /** `remove_word_from_new_words_file` leaves the staging file holding the other
      staged cards in their order. */
  lemma RemoveNewWordDrops(files: Files, path: string, word: string)
    ensures var r := WithoutNewWord(files, path, word);
      path in files ==>
        (path in r && ParseDictionary(r[path]) ==
          (var d := ParseDictionary(files[path]); if word in d.vals then d.Remove(word) else d))
    ensures SameExcept(files, WithoutNewWord(files, path, word), path)
  {
    if path in files {
      var d := ParseDictionary(files[path]);
      if word in d.vals {
        RemoveKeepsWellFormed(d, word);
        CardsTextRoundTrip(d.Remove(word));
      } else {
        CardsTextRoundTrip(d);
      }
    }
  }

  /** The dictionary with the merged card set is still well formed. */
  lemma MergedStoreWellFormed(dictionary: Dict<string, Card>, newCard: Card)
    requires WellFormedStore(dictionary) && CleanCard(newCard)
    ensures WellFormedStore(dictionary.Set(newCard.word, Merge(newCard, dictionary.vals)))
  {
    MergeClean(newCard, dictionary.vals);
    MergeKeepsWord(newCard, dictionary.vals);
  }

  /** `merge_new_words_to_dictionary` for a staged word: the dictionary file reads
      back as the old dictionary with the word set to the merged card, written in
      word order, and the staging file no longer holds the word. Other files are kept. */
  lemma MergeCommits(files: Files, newPath: string, dictPath: string, word: string)
    requires newPath != dictPath
    requires newPath in files && word in ParseDictionary(files[newPath]).vals
    ensures var r := WithMergedWord(files, newPath, dictPath, word);
      var dictionary := ParseDictionary(TextOrEmpty(files, dictPath));
      dictPath in r
      && ParseDictionary(r[dictPath]).vals ==
        dictionary.vals[word := Merge(ParseDictionary(files[newPath]).vals[word], dictionary.vals)]
      && StrictlySorted(ParseDictionary(r[dictPath]).keys, StrLess)
    ensures var r := WithMergedWord(files, newPath, dictPath, word);
      newPath in r && ParseDictionary(r[newPath]) == ParseDictionary(files[newPath]).Remove(word)
    ensures SameExcept2(files, WithMergedWord(files, newPath, dictPath, word), newPath, dictPath)
  {
    var newCards := ParseDictionary(files[newPath]);
    var newCard := newCards.vals[word];
    var dictionary := ParseDictionary(TextOrEmpty(files, dictPath));
    var updated := dictionary.Set(word, Merge(newCard, dictionary.vals));
    MergedStoreWellFormed(dictionary, newCard);
    SortedDictionaryTextRoundTrip(updated);
    var written := files[dictPath := SortedDictionaryText(updated)];
    RemoveNewWordDrops(written, newPath, word);
  }
}
