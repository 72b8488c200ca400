/**
 * The judgment state machine of flashcard.py: which words a mode practises,
 * what "I know" and a confirmed "Don't know" do to the files in each mode, and
 * the session flags the page keeps between reruns, with the mode-switch gate
 * that a pending "Don't know" closes.
 */
module Flashcard {
  import opened Wrappers
  import opened Seqs
  import opened OrderedDict
  import opened Dates
  import opened PyText
  import opened DictionaryFormat
  import opened CardMerge
  import opened PracticeList
  import opened DifficultQueue
  import opened FileUtil
  import opened QueueLaws

  const DictionaryFile: string := "data/dictionary.txt"
  const PracticeFile: string := "data/to_practice.txt"
  const Difficult5File: string := "data/difficult_5.txt"
  const Difficult15File: string := "data/difficult_15.txt"
  const TodayFile: string := "data/today.txt"
  const NewWordsFile: string := "data/new_words.txt"

  const NewWordsMode: string := "New words"
  const ReviewMode: string := "Review"
  const FiveDayMode: string := "5 Day"
  const FifteenDayMode: string := "15 Day"
  const TodayMode: string := "Today"

  /** One of the five modes the sidebar offers. */
  predicate IsMode(mode: string) {
    mode == NewWordsMode || mode == ReviewMode || mode == FiveDayMode || mode == FifteenDayMode || mode == TodayMode
  }

  // ------------------------------------------------------------------ word lists

  /** `load_words_for_mode(mode)`: the staged words in New words mode, otherwise the
      words of the mode's list or queue that the dictionary knows; any other mode
      string practises the Review list. */
  function WordsForMode(files: Files, mode: string, dictionary: map<string, Card>, today: Date)
    : (r: Result<seq<string>>)
    ensures mode == NewWordsMode ==>
      r == Success(if NewWordsFile in files then ParseDictionary(files[NewWordsFile]).keys else [])
    ensures mode != NewWordsMode && r.Success? ==> forall w :: w in r.value ==> w in dictionary
  {
    if mode == NewWordsMode then Success(NewWordsIn(files, NewWordsFile).keys)
    else if mode == ReviewMode then ReviewWordsIn(files, PracticeFile, dictionary)
    else if mode == FiveDayMode then DueWordsIn(files, Difficult5File, 5, dictionary, today)
    else if mode == FifteenDayMode then DueWordsIn(files, Difficult15File, 15, dictionary, today)
    else if mode == TodayMode then Success(TodayWordsIn(files, TodayFile, dictionary))
    else ReviewWordsIn(files, PracticeFile, dictionary)
  }

  /** Any mode string other than the five is the Review mode. */
  lemma UnknownModeIsReview(files: Files, mode: string, dictionary: map<string, Card>, today: Date)
    requires !IsMode(mode)
    ensures WordsForMode(files, mode, dictionary, today) == WordsForMode(files, ReviewMode, dictionary, today)
  {
  }

  /** The words each mode practises, and when loading them raises. */
  lemma ModeWords(files: Files, dictionary: map<string, Card>, today: Date, w: string)
    ensures var r := WordsForMode(files, ReviewMode, dictionary, today);
      (r.Failed? <==> PracticeFile !in files)
      && (r.Success? ==> (w in r.value <==> w in ParsePracticeList(files[PracticeFile]) && w in dictionary))
    ensures var r := WordsForMode(files, TodayMode, dictionary, today);
      r.Success? && (w in r.value <==> TodayFile in files && w in ParsePracticeList(files[TodayFile]) && w in dictionary)
    ensures var r := WordsForMode(files, FiveDayMode, dictionary, today);
      (Difficult5File !in files ==> r == Failed(FileNotFound(Difficult5File)))
      && (r.Success? ==>
            (w in r.value <==>
               (w in dictionary && w in ParseDifficult(files[Difficult5File]).vals
                && IsDue(ParseDifficult(files[Difficult5File]).vals[w], 5, today))))
    ensures var r := WordsForMode(files, FifteenDayMode, dictionary, today);
      (Difficult15File !in files ==> r == Failed(FileNotFound(Difficult15File)))
      && (r.Success? ==>
            (w in r.value <==>
               (w in dictionary && w in ParseDifficult(files[Difficult15File]).vals
                && IsDue(ParseDifficult(files[Difficult15File]).vals[w], 15, today))))
  {
  }

  /** Every word a mode practises is a word the list files can hold, provided the
      dictionary's words are. */
  lemma ModeWordsClean(files: Files, mode: string, dictionary: map<string, Card>, today: Date)
    requires forall w :: w in dictionary ==> IsListWord(w)
    ensures var r := WordsForMode(files, mode, dictionary, today);
      r.Success? ==> forall i :: 0 <= i < |r.value| ==> IsListWord(r.value[i])
  {
    var r := WordsForMode(files, mode, dictionary, today);
    if r.Success? {
      forall i | 0 <= i < |r.value| ensures IsListWord(r.value[i]) {
        var w := r.value[i];
        assert w in r.value;
        if mode == NewWordsMode {
          var d := ParseDictionary(files[NewWordsFile]);
          assert w in d.keys;
          assert d.vals[w].word == w && CleanCard(d.vals[w]);
        }
      }
    }
  }

  /** The words of a staging file's preview are words the list files can hold. */
  lemma NewWordsClean(files: Files, path: string)
    ensures forall w :: w in NewWordsIn(files, path).vals ==> IsListWord(w)
  {
    forall w | w in NewWordsIn(files, path).vals ensures IsListWord(w) {
      var d := ParseDictionary(files[path]);
      assert w in NewWordsIn(files, path).keys;
      assert w in d.vals;
      assert d.vals[w].word == w && CleanCard(d.vals[w]);
    }
  }

  /** The words of a parsed dictionary are words the list files can hold. */
  lemma StoreWordsClean(d: Dict<string, Card>)
    requires WellFormedStore(d)
    ensures forall w :: w in d.vals ==> IsListWord(w)
  {
    forall w | w in d.vals ensures IsListWord(w) {
      assert d.vals[w].word == w && CleanCard(d.vals[w]);
    }
  }

  // ------------------------------------------------------------------ effects on the files

  /** The files after an effect, and whether it raised. */
  datatype Step = Step(files: Files, outcome: Outcome)

  /** The file effects of `handle_i_know(word)` in `mode`, before the reload. */
  function IKnowStep(files: Files, mode: string, word: string, today: Date): (r: Step)
    ensures r.outcome.Raised? ==> r.outcome == Raised(FileNotFound(PracticeFile)) && PracticeFile !in files
    ensures !IsMode(mode) ==> r == Step(files, Done)
  {
    if mode == NewWordsMode then Step(WithMergedWord(files, NewWordsFile, DictionaryFile, word), Done)
    else if mode == ReviewMode then
      match WithoutPracticeWord(files, PracticeFile, word)
      case Failed(f) => Step(files, Raised(f))
      case Success(next) => Step(next, Done)
    else if mode == FiveDayMode then Step(MovedDifficultWord(files, Difficult5File, Difficult15File, word, today), Done)
    else if mode == FifteenDayMode then
      var cleared := WithoutDifficultWord(files, Difficult15File, word);
      match WithoutPracticeWord(cleared, PracticeFile, word)
      case Failed(f) => Step(cleared, Raised(f))
      case Success(next) => Step(next, Done)
    else if mode == TodayMode then Step(WithoutTodayWord(files, TodayFile, word), Done)
    else Step(files, Done)
  }

  /** Set the word's date in `queue` to today, then add it to the today list. */
  function Remember(files: Files, queue: string, word: string, today: Date): Files {
    WithTodayWord(WithDifficultWord(files, queue, word, today), TodayFile, word)
  }

  /** The file effects of `apply_dont_know_effect(word)` in `mode`, before the reload. */
  function DontKnowFiles(files: Files, mode: string, word: string, today: Date): Files {
    if mode == NewWordsMode then Remember(WithMergedWord(files, NewWordsFile, DictionaryFile, word), Difficult5File, word, today)
    else if mode == ReviewMode || mode == FiveDayMode then Remember(files, Difficult5File, word, today)
    else if mode == FifteenDayMode then Remember(files, Difficult15File, word, today)
    else files
  }

  /** "I know" in Review takes the word off the practice list, raising when the list is missing. */
  lemma IKnowReview(files: Files, word: string, today: Date)
    ensures var r := IKnowStep(files, ReviewMode, word, today);
      (r.outcome.Raised? <==> PracticeFile !in files) && (r.outcome.Raised? ==> r.files == files)
    ensures var r := IKnowStep(files, ReviewMode, word, today);
      r.outcome == Done ==>
        (ParsePracticeList(r.files[PracticeFile]) == Dedup(Without(ParsePracticeList(files[PracticeFile]), word))
         && word !in ParsePracticeList(r.files[PracticeFile])
         && SameExcept(files, r.files, PracticeFile))
  {
    RemovePracticeDrops(files, PracticeFile, word);
  }

  /** "I know" in 5 Day moves the word from the 5-day queue to the 15-day queue, dated today. */
  lemma IKnowFiveDay(files: Files, word: string, today: Date)
    requires IsListWord(word)
    ensures var r := IKnowStep(files, FiveDayMode, word, today);
      r.outcome == Done
      && Difficult15File in r.files
      && ParseDifficult(r.files[Difficult15File]).vals == ParseDifficult(TextOrEmpty(files, Difficult15File)).vals[word := today]
      && (Difficult5File in files ==>
            ParseDifficult(r.files[Difficult5File]).vals == ParseDifficult(files[Difficult5File]).vals - {word})
      && SameExcept2(files, r.files, Difficult5File, Difficult15File)
  {
    MoveTransfersWord(files, Difficult5File, Difficult15File, word, today);
  }

  /** "I know" in 15 Day takes the word off the 15-day queue and then off the practice
      list; a missing practice list raises after the queue was rewritten. */
  lemma IKnowFifteenDay(files: Files, word: string, today: Date)
    ensures var r := IKnowStep(files, FifteenDayMode, word, today);
      Difficult15File in files ==>
        (Difficult15File in r.files
         && ParseDifficult(r.files[Difficult15File]).vals == ParseDifficult(files[Difficult15File]).vals - {word})
    ensures var r := IKnowStep(files, FifteenDayMode, word, today);
      (r.outcome.Raised? <==> PracticeFile !in files)
      && (r.outcome == Done ==>
            ParsePracticeList(r.files[PracticeFile]) == Dedup(Without(ParsePracticeList(files[PracticeFile]), word))
            && word !in ParsePracticeList(r.files[PracticeFile]))
      && SameExcept2(files, r.files, Difficult15File, PracticeFile)
  {
    var cleared := WithoutDifficultWord(files, Difficult15File, word);
    RemoveDropsEntry(files, Difficult15File, word);
    RemovePracticeDrops(cleared, PracticeFile, word);
    assert Difficult15File != PracticeFile;
  }

  /** "I know" in Today takes the word off the today list; a missing list stays missing. */
  lemma IKnowToday(files: Files, word: string, today: Date)
    ensures var r := IKnowStep(files, TodayMode, word, today);
      r.outcome == Done
      && (TodayFile !in files ==> r.files == files)
      && (TodayFile in files ==>
            (ParsePracticeList(r.files[TodayFile]) == Dedup(Without(ParsePracticeList(files[TodayFile]), word))
             && word !in ParsePracticeList(r.files[TodayFile])))
      && SameExcept(files, r.files, TodayFile)
  {
    RemoveTodayDrops(files, TodayFile, word);
  }

  /** "I know" on a staged word commits the merged card into the dictionary, written in
      word order, and takes the word out of the staging file. */
  lemma IKnowNewWord(files: Files, word: string, today: Date)
    requires NewWordsFile in files && word in ParseDictionary(files[NewWordsFile]).vals
    ensures var r := IKnowStep(files, NewWordsMode, word, today);
      var dictionary := ParseDictionary(TextOrEmpty(files, DictionaryFile));
      r.outcome == Done
      && DictionaryFile in r.files
      && ParseDictionary(r.files[DictionaryFile]).vals ==
           dictionary.vals[word := Merge(ParseDictionary(files[NewWordsFile]).vals[word], dictionary.vals)]
      && StrictlySorted(ParseDictionary(r.files[DictionaryFile]).keys, StrLess)
      && NewWordsFile in r.files
      && ParseDictionary(r.files[NewWordsFile]) == ParseDictionary(files[NewWordsFile]).Remove(word)
      && SameExcept2(files, r.files, NewWordsFile, DictionaryFile)
  {
    MergeCommits(files, NewWordsFile, DictionaryFile, word);
  }

  /** Remembering a word dates it today in the queue and adds it to the today list. */
  lemma RememberSchedules(files: Files, queue: string, word: string, today: Date)
    requires queue != TodayFile && IsListWord(word)
    ensures var r := Remember(files, queue, word, today);
      queue in r
      && ParseDifficult(r[queue]).vals == ParseDifficult(TextOrEmpty(files, queue)).vals[word := today]
      && ParsePracticeList(r[TodayFile]) == Dedup(ListWords(files, TodayFile) + [word])
      && SameExcept2(files, r, queue, TodayFile)
  {
    var dated := WithDifficultWord(files, queue, word, today);
    UpsertSetsDate(files, queue, word, today);
    AddTodayAppends(dated, TodayFile, word);
    assert ListWords(dated, TodayFile) == ListWords(files, TodayFile);
  }

  /** A confirmed "Don't know" in Review or 5 Day dates the word today in the 5-day
      queue and adds it to the today list. */
  lemma DontKnowFiveDay(files: Files, mode: string, word: string, today: Date)
    requires mode == ReviewMode || mode == FiveDayMode
    requires IsListWord(word)
    ensures var r := DontKnowFiles(files, mode, word, today);
      Difficult5File in r
      && ParseDifficult(r[Difficult5File]).vals == ParseDifficult(TextOrEmpty(files, Difficult5File)).vals[word := today]
      && ParsePracticeList(r[TodayFile]) == Dedup(ListWords(files, TodayFile) + [word])
      && SameExcept2(files, r, Difficult5File, TodayFile)
  {
    RememberSchedules(files, Difficult5File, word, today);
  }

  /** A confirmed "Don't know" in 15 Day dates the word today in the 15-day queue
      and adds it to the today list. */
  lemma DontKnowFifteenDay(files: Files, mode: string, word: string, today: Date)
    requires mode == FifteenDayMode
    requires IsListWord(word)
    ensures var r := DontKnowFiles(files, mode, word, today);
      Difficult15File in r
      && ParseDifficult(r[Difficult15File]).vals == ParseDifficult(TextOrEmpty(files, Difficult15File)).vals[word := today]
      && ParsePracticeList(r[TodayFile]) == Dedup(ListWords(files, TodayFile) + [word])
      && SameExcept2(files, r, Difficult15File, TodayFile)
  {
    assert mode != NewWordsMode && mode != ReviewMode && mode != FiveDayMode;
    RememberSchedules(files, Difficult15File, word, today);
  }

  /** A confirmed "Don't know" in Today mode, or in a mode that is none of the five,
      changes no file. */
  lemma DontKnowTodayKeepsFiles(files: Files, mode: string, word: string, today: Date)
    requires mode == TodayMode || !IsMode(mode)
    ensures DontKnowFiles(files, mode, word, today) == files
  {
  }

  /** A confirmed "Don't know" on a staged word commits it like "I know" does: the
      merged card goes into the dictionary and the word leaves the staging file. */
  lemma DontKnowNewWordCommits(files: Files, word: string, today: Date)
    requires NewWordsFile in files && word in ParseDictionary(files[NewWordsFile]).vals
    ensures var r := DontKnowFiles(files, NewWordsMode, word, today);
      var dictionary := ParseDictionary(TextOrEmpty(files, DictionaryFile));
      DictionaryFile in r
      && ParseDictionary(r[DictionaryFile]).vals ==
           dictionary.vals[word := Merge(ParseDictionary(files[NewWordsFile]).vals[word], dictionary.vals)]
      && NewWordsFile in r
      && ParseDictionary(r[NewWordsFile]) == ParseDictionary(files[NewWordsFile]).Remove(word)
  {
    var committed := WithMergedWord(files, NewWordsFile, DictionaryFile, word);
    var r := Remember(committed, Difficult5File, word, today);
    MergeCommits(files, NewWordsFile, DictionaryFile, word);
    assert DictionaryFile in r && r[DictionaryFile] == committed[DictionaryFile] by {
      StagedWordClean(files, word);
      RememberSchedules(committed, Difficult5File, word, today);
      Untouched(committed, r, Difficult5File, TodayFile, DictionaryFile);
    }
    assert NewWordsFile in r && r[NewWordsFile] == committed[NewWordsFile] by {
      StagedWordClean(files, word);
      RememberSchedules(committed, Difficult5File, word, today);
      Untouched(committed, r, Difficult5File, TodayFile, NewWordsFile);
    }
  }

  /** ... and then dates it today in the 5-day queue and adds it to the today list. */
  lemma DontKnowNewWordSchedules(files: Files, word: string, today: Date)
    requires NewWordsFile in files && word in ParseDictionary(files[NewWordsFile]).vals
    ensures var r := DontKnowFiles(files, NewWordsMode, word, today);
      Difficult5File in r
      && ParseDifficult(r[Difficult5File]).vals == ParseDifficult(TextOrEmpty(files, Difficult5File)).vals[word := today]
      && ParsePracticeList(r[TodayFile]) == Dedup(ListWords(files, TodayFile) + [word])
  {
    var committed := WithMergedWord(files, NewWordsFile, DictionaryFile, word);
    MergeCommits(files, NewWordsFile, DictionaryFile, word);
    StagedWordClean(files, word);
    RememberSchedules(committed, Difficult5File, word, today);
    Untouched(files, committed, NewWordsFile, DictionaryFile, Difficult5File);
    Untouched(files, committed, NewWordsFile, DictionaryFile, TodayFile);
  }

  /** A word staged in the new-words file is a word the list formats carry. */
  lemma StagedWordClean(files: Files, word: string)
    requires NewWordsFile in files && word in ParseDictionary(files[NewWordsFile]).vals
    ensures IsListWord(word)
  {
    var card := ParseDictionary(files[NewWordsFile]).vals[word];
    assert card.word == word && CleanCard(card);
  }

  /** A file outside the two that changed reads the same before and after. */
  lemma Untouched(before: Files, after: Files, p1: string, p2: string, q: string)
    requires SameExcept2(before, after, p1, p2) && q != p1 && q != p2
    ensures TextOrEmpty(after, q) == TextOrEmpty(before, q)
    ensures ListWords(after, q) == ListWords(before, q)
    ensures q in after <==> q in before
    ensures q in before ==> after[q] == before[q]
  {
  }

  // ------------------------------------------------------------------ the session

  /** The page's session state, kept across reruns, over the data directory. */
  class Session {
    const store: FileStore
    var mode: string
    var currentWord: Option<string>
    var practiceWords: seq<string>
    var showHint: bool
    var showAnswer: bool
    var pendingDontKnow: bool  // "Don't know" pressed, waiting for OK
    var showVerify: bool
    var dictionary: map<string, Card>
    var newWords: Dict<string, Card>

    /** Every word the session holds is one the list files can hold, and the word on
        the card is one of the words being practised. */
    ghost predicate Valid()
      reads this
    {
      (forall w :: w in dictionary ==> IsListWord(w))
      && (forall w :: w in newWords.vals ==> IsListWord(w))
      && (forall i :: 0 <= i < |practiceWords| ==> IsListWord(practiceWords[i]))
      && (currentWord.Some? ==> currentWord.value in practiceWords)
    }

    /** The state `reload_current_mode_words` leaves: the mode's words as the files
        give them today, every flag down, and a card shown exactly when there are words. */
    ghost predicate Settled(today: Date)
      reads this, store
    {
      WordsForMode(store.files, mode, dictionary, today) == Success(practiceWords)
      && !showHint && !showAnswer && !pendingDontKnow && !showVerify
      && (currentWord.None? <==> practiceWords == [])
      && (currentWord.Some? ==> currentWord.value in practiceWords)
    }

    /** A session before `ensure_initialized` has loaded anything. */
    constructor(store: FileStore)
      ensures this.store == store && Valid()
      ensures mode == NewWordsMode && practiceWords == [] && currentWord == None
      ensures !showHint && !showAnswer && !pendingDontKnow && !showVerify
    {
      this.store := store;
      mode := NewWordsMode;
      currentWord := None;
      practiceWords := [];
      showHint, showAnswer, pendingDontKnow, showVerify := false, false, false, false;
      dictionary := map[];
      newWords := Empty();
    }

    /** `load_words_for_mode(mode)` */
    method LoadWordsForMode(today: Date) returns (r: Result<seq<string>>)
      ensures r == WordsForMode(store.files, mode, dictionary, today)
    {
      if mode == NewWordsMode {
        var staged := store.LoadNewWords(NewWordsFile);
        return Success(staged.keys);
      }
      if mode == ReviewMode {
        r := store.LoadReviewWords(PracticeFile, dictionary);
        return;
      }
      if mode == FiveDayMode {
        r := store.LoadDueWords(Difficult5File, 5, dictionary, today);
        return;
      }
      if mode == FifteenDayMode {
        r := store.LoadDueWords(Difficult15File, 15, dictionary, today);
        return;
      }
      if mode == TodayMode {
        var words := store.LoadTodayWords(TodayFile, dictionary);
        return Success(words);
      }
      r := store.LoadReviewWords(PracticeFile, dictionary);
    }

    /** `reset_session_for_new_wordlist(words)`: `random.choice` is any member. */
    method ResetSessionForNewWordlist(words: seq<string>)
      modifies this
      ensures practiceWords == words
      ensures currentWord.None? <==> words == []
      ensures currentWord.Some? ==> currentWord.value in words
      ensures !showHint && !showAnswer && !pendingDontKnow && !showVerify
      ensures mode == old(mode) && dictionary == old(dictionary) && newWords == old(newWords)
    {
      practiceWords := words;
      if words == [] {
        currentWord := None;
      } else {
        assert words[0] in words;
        var w :| w in words;
        currentWord := Some(w);
      }
      showHint, showAnswer, pendingDontKnow, showVerify := false, false, false, false;
    }

    /** `ensure_initialized()` on the first run: the dictionary must exist; the session
        starts in New words mode on the staged words. */
    method EnsureInitialized(today: Date) returns (r: Outcome)
      modifies this
      ensures r.Raised? <==> DictionaryFile !in store.files
      ensures r.Raised? ==> r.failure == FileNotFound(DictionaryFile) && unchanged(this)
      ensures r == Done ==>
        dictionary == ParseDictionary(store.files[DictionaryFile]).vals
        && newWords == NewWordsIn(store.files, NewWordsFile)
        && mode == NewWordsMode && Settled(today) && Valid()
    {
      var loaded := store.LoadDictionary(DictionaryFile);
      if loaded.Failed? {
        return Raised(loaded.failure);
      }
      dictionary := loaded.value.vals;
      StoreWordsClean(loaded.value);
      newWords := store.LoadNewWords(NewWordsFile);
      NewWordsClean(store.files, NewWordsFile);
      mode := NewWordsMode;
      var words := LoadWordsForMode(today);
      ModeWordsClean(store.files, mode, dictionary, today);
      ResetSessionForNewWordlist(words.value);
      r := Done;
    }

    /** `reload_current_mode_words(keep_current_word)`: reload the mode's words and put
        every flag down; keep the shown word when asked and still listed. A load that
        raises leaves the session as it was. */
    method ReloadCurrentModeWords(keepCurrent: bool, today: Date) returns (r: Outcome)
      requires Valid()
      modifies this
      ensures r.Raised? <==> WordsForMode(store.files, old(mode), old(dictionary), today).Failed?
      ensures r.Raised? ==>
        r.failure == WordsForMode(store.files, old(mode), old(dictionary), today).failure && unchanged(this)
      ensures r == Done ==> Settled(today)
      ensures mode == old(mode) && dictionary == old(dictionary) && newWords == old(newWords)
      ensures r == Done && keepCurrent && old(currentWord).Some? && old(currentWord).value in practiceWords ==>
        currentWord == old(currentWord)
      ensures Valid()
    {
      var keep := if keepCurrent then currentWord else None;
      var loaded := LoadWordsForMode(today);
      if loaded.Failed? {
        return Raised(loaded.failure);
      }
      ModeWordsClean(store.files, mode, dictionary, today);
      ShowWords(loaded.value, keep);
      r := Done;
    }

    /** The tail of `reload_current_mode_words`: every flag down, no card for an empty
        list, else the kept word when it is still listed, else any listed word. */
    method ShowWords(words: seq<string>, keep: Option<string>)
      modifies this
      ensures practiceWords == words
      ensures !showHint && !showAnswer && !pendingDontKnow && !showVerify
      ensures currentWord.None? <==> words == []
      ensures currentWord.Some? ==> currentWord.value in words
      ensures keep.Some? && keep.value in words ==> currentWord == keep
      ensures mode == old(mode) && dictionary == old(dictionary) && newWords == old(newWords)
    {
      practiceWords := words;
      showHint, showAnswer, pendingDontKnow, showVerify := false, false, false, false;
      if words == [] {
        currentWord := None;
      } else if keep.Some? && keep.value in words {
        currentWord := keep;
      } else {
        assert words[0] in words;
        var w :| w in words;
        currentWord := Some(w);
      }
    }

    /** Reload the staged words and then the dictionary after a commit, as the New
        words branches of both judgments do; a missing dictionary raises. */
    method ReloadCards() returns (r: Outcome)
      requires Valid()
      modifies this
      ensures newWords == NewWordsIn(store.files, NewWordsFile)
      ensures r.Raised? <==> DictionaryFile !in store.files
      ensures r.Raised? ==> r.failure == FileNotFound(DictionaryFile) && dictionary == old(dictionary)
      ensures r == Done ==> dictionary == ParseDictionary(store.files[DictionaryFile]).vals
      ensures mode == old(mode) && currentWord == old(currentWord) && practiceWords == old(practiceWords)
      ensures showHint == old(showHint) && showAnswer == old(showAnswer)
      ensures pendingDontKnow == old(pendingDontKnow) && showVerify == old(showVerify)
      ensures Valid()
    {
      newWords := store.LoadNewWords(NewWordsFile);
      NewWordsClean(store.files, NewWordsFile);
      var loaded := store.LoadDictionary(DictionaryFile);
      if loaded.Failed? {
        return Raised(loaded.failure);
      }
      dictionary := loaded.value.vals;
      StoreWordsClean(loaded.value);
      r := Done;
    }

    /** The file writes of `handle_i_know(word)` in the session's mode. */
    method IKnowFileEffect(word: string, today: Date) returns (r: Outcome)
      modifies store
      ensures store.files == IKnowStep(old(store.files), mode, word, today).files
      ensures r == IKnowStep(old(store.files), mode, word, today).outcome
    {
      r := Done;
      if mode == NewWordsMode {
        store.MergeNewWordsToDictionary(NewWordsFile, DictionaryFile, word);
      } else if mode == ReviewMode {
        r := store.RemoveWordFromPracticeFile(PracticeFile, word);
      } else if mode == FiveDayMode {
        store.MoveWordBetweenDifficultFiles(Difficult5File, Difficult15File, word, today);
      } else if mode == FifteenDayMode {
        store.RemoveWordFromDifficultFile(Difficult15File, word);
        r := store.RemoveWordFromPracticeFile(PracticeFile, word);
      } else if mode == TodayMode {
        store.RemoveWordFromTodayFile(TodayFile, word);
      }
    }

    /** The file writes of `apply_dont_know_effect(word)` in the session's mode. */
    method DontKnowFileEffect(word: string, today: Date)
      modifies store
      ensures store.files == DontKnowFiles(old(store.files), mode, word, today)
    {
      if mode == NewWordsMode {
        store.MergeNewWordsToDictionary(NewWordsFile, DictionaryFile, word);
        RememberWord(Difficult5File, word, today);
      } else if mode == ReviewMode {
        RememberWord(Difficult5File, word, today);
      } else if mode == FiveDayMode {
        RememberWord(Difficult5File, word, today);
      } else if mode == FifteenDayMode {
        RememberWord(Difficult15File, word, today);
      }
    }

    /** Date the word today in `queue`, then add it to the today list. */
    method RememberWord(queue: string, word: string, today: Date)
      modifies store
      ensures store.files == Remember(old(store.files), queue, word, today)
    {
      store.UpsertWordInDifficultFile(queue, word, today);
      store.AddWordToTodayFile(TodayFile, word);
    }

    /** `handle_i_know(word)`: the mode's file effect, then a reload of the mode's words.
        A raised exception stops the handler where it was raised. */
    method HandleIKnow(word: string, today: Date) returns (r: Outcome)
      requires Valid()
      modifies this, store
      ensures store.files == IKnowStep(old(store.files), old(mode), word, today).files
      ensures mode == old(mode)
      ensures IKnowStep(old(store.files), old(mode), word, today).outcome.Raised? ==>
        r == IKnowStep(old(store.files), old(mode), word, today).outcome && unchanged(this)
      ensures old(mode) != NewWordsMode ==> dictionary == old(dictionary) && newWords == old(newWords)
      ensures old(mode) == NewWordsMode ==> newWords == NewWordsIn(store.files, NewWordsFile)
      ensures old(mode) == NewWordsMode && r == Done ==>
        DictionaryFile in store.files && dictionary == ParseDictionary(store.files[DictionaryFile]).vals
      // it raises in the file effect, in the dictionary reload, or in the list reload
      ensures r.Raised? <==>
        IKnowStep(old(store.files), old(mode), word, today).outcome.Raised?
        || (old(mode) == NewWordsMode && DictionaryFile !in store.files)
        || WordsForMode(store.files, old(mode), dictionary, today).Failed?
      ensures r.Raised? && IKnowStep(old(store.files), old(mode), word, today).outcome == Done ==>
        if old(mode) == NewWordsMode && DictionaryFile !in store.files then r.failure == FileNotFound(DictionaryFile)
        else r.failure == WordsForMode(store.files, old(mode), dictionary, today).failure
      // a raise leaves the list, the card and the flags as they were
      ensures r.Raised? ==>
        practiceWords == old(practiceWords) && currentWord == old(currentWord)
        && showHint == old(showHint) && showAnswer == old(showAnswer)
        && pendingDontKnow == old(pendingDontKnow) && showVerify == old(showVerify)
        && dictionary == old(dictionary)
      ensures r == Done ==> Settled(today)
      ensures Valid()
    {
      r := IKnowFileEffect(word, today);
      if r.Raised? {
        return;
      }
      if mode == NewWordsMode {
        r := ReloadCards();
        if r.Raised? {
          return;
        }
      }
      r := ReloadCurrentModeWords(false, today);
    }

    /** `apply_dont_know_effect(word)`, run when OK confirms a "Don't know": the mode's
        file effect, then a reload of the mode's words. */
    method ApplyDontKnowEffect(word: string, today: Date) returns (r: Outcome)
      requires Valid()
      modifies this, store
      ensures store.files == DontKnowFiles(old(store.files), old(mode), word, today)
      ensures mode == old(mode)
      ensures old(mode) != NewWordsMode ==> dictionary == old(dictionary) && newWords == old(newWords)
      ensures old(mode) == NewWordsMode ==> newWords == NewWordsIn(store.files, NewWordsFile)
      ensures old(mode) == NewWordsMode && r == Done ==>
        DictionaryFile in store.files && dictionary == ParseDictionary(store.files[DictionaryFile]).vals
      // the file effect never raises; the dictionary reload or the list reload can
      ensures r.Raised? <==>
        (old(mode) == NewWordsMode && DictionaryFile !in store.files)
        || WordsForMode(store.files, old(mode), dictionary, today).Failed?
      ensures r.Raised? ==>
        if old(mode) == NewWordsMode && DictionaryFile !in store.files then r.failure == FileNotFound(DictionaryFile)
        else r.failure == WordsForMode(store.files, old(mode), dictionary, today).failure
      // a raise leaves the list, the card and the flags as they were: the confirmation stays pending
      ensures r.Raised? ==>
        practiceWords == old(practiceWords) && currentWord == old(currentWord)
        && showHint == old(showHint) && showAnswer == old(showAnswer)
        && pendingDontKnow == old(pendingDontKnow) && showVerify == old(showVerify)
        && dictionary == old(dictionary)
      ensures r == Done ==> Settled(today)
      ensures Valid()
    {
      DontKnowFileEffect(word, today);
      if mode == NewWordsMode {
        r := ReloadCards();
        if r.Raised? {
          return;
        }
      }
      r := ReloadCurrentModeWords(false, today);
    }

    /** A sidebar mode button: disabled while a "Don't know" waits for OK; otherwise it
        sets the mode and reloads its words. */
    method SelectMode(m: string, today: Date) returns (r: Outcome)
      requires Valid()
      modifies this
      ensures old(pendingDontKnow) ==> r == Done && unchanged(this)
      ensures !old(pendingDontKnow) ==> mode == m
      ensures !old(pendingDontKnow) && r == Done ==> Settled(today)
      ensures r.Raised? ==>
        WordsForMode(store.files, m, dictionary, today).Failed?
        && r.failure == WordsForMode(store.files, m, dictionary, today).failure
        && practiceWords == old(practiceWords) && currentWord == old(currentWord)
        && showHint == old(showHint) && showAnswer == old(showAnswer)
        && pendingDontKnow == old(pendingDontKnow) && showVerify == old(showVerify)
      ensures dictionary == old(dictionary) && newWords == old(newWords)
      ensures Valid()
    {
      if pendingDontKnow {
        return Done;
      }
      mode := m;
      r := ReloadCurrentModeWords(false, today);
    }

    /** The "Reload files" button: disabled while a "Don't know" waits for OK;
        otherwise it drops the session keys but the staged words, so the next run
        reloads the dictionary and restarts in New words mode. */
    method ReloadFiles(today: Date) returns (r: Outcome)
      requires Valid()
      modifies this
      ensures old(pendingDontKnow) ==> r == Done && unchanged(this)
      ensures !old(pendingDontKnow) ==> (r.Raised? <==> DictionaryFile !in store.files)
      ensures r.Raised? ==> r.failure == FileNotFound(DictionaryFile) && unchanged(this)
      ensures !old(pendingDontKnow) && r == Done ==>
        dictionary == ParseDictionary(store.files[DictionaryFile]).vals
        && newWords == old(newWords) && mode == NewWordsMode && Settled(today)
      ensures Valid()
    {
      if pendingDontKnow {
        return Done;
      }
      var loaded := store.LoadDictionary(DictionaryFile);
      if loaded.Failed? {
        return Raised(loaded.failure);
      }
      dictionary := loaded.value.vals;
      StoreWordsClean(loaded.value);
      mode := NewWordsMode;
      var words := LoadWordsForMode(today);
      ModeWordsClean(store.files, mode, dictionary, today);
      ResetSessionForNewWordlist(words.value);
      r := Done;
    }

    /** The "Don't know" button: show the answer and wait for OK; no file changes. */
    method PressDontKnow()
      requires Valid() && !pendingDontKnow
      modifies this
      ensures Valid()
      ensures pendingDontKnow && showAnswer && !showHint
      ensures showVerify == old(showVerify)
      ensures mode == old(mode) && currentWord == old(currentWord) && practiceWords == old(practiceWords)
      ensures dictionary == old(dictionary) && newWords == old(newWords)
    {
      pendingDontKnow := true;
      showAnswer := true;
      showHint := false;
    }

    /** The "Hint" button: show the examples; nothing else changes. */
    method PressHint()
      requires Valid() && !pendingDontKnow
      modifies this
      ensures Valid()
      ensures showHint
      ensures showAnswer == old(showAnswer) && pendingDontKnow == old(pendingDontKnow) && showVerify == old(showVerify)
      ensures mode == old(mode) && currentWord == old(currentWord) && practiceWords == old(practiceWords)
      ensures dictionary == old(dictionary) && newWords == old(newWords)
    {
      showHint := true;
    }

    /** The "Verify" button: show the meaning and examples and put the other flags
        down; nothing else changes. */
    method PressVerify()
      requires Valid() && !pendingDontKnow
      modifies this
      ensures Valid()
      ensures showVerify && !showHint && !showAnswer && !pendingDontKnow
      ensures mode == old(mode) && currentWord == old(currentWord) && practiceWords == old(practiceWords)
      ensures dictionary == old(dictionary) && newWords == old(newWords)
    {
      showVerify := true;
      showHint := false;
      showAnswer := false;
      pendingDontKnow := false;
    }
  }
}
