# Vocabulary flashcard trainer — a Dafny model

The modelled program is a personal vocabulary trainer. It keeps its state in six
plain text files:

- `data/dictionary.txt` — the known words, one `word : meaning : example` line each.
  The example field holds sentences separated by `|`.
- `data/new_words.txt` — staged words that are not yet confirmed, in the same format.
- `data/to_practice.txt` and `data/today.txt` — plain word lists, one word per line.
- `data/difficult_5.txt` and `data/difficult_15.txt` — dated queues, one
  `YYYY-MM-DD,word` line each. A word is due once its date plus 5 (or 15) days is
  not after today.

A session practises one of five modes: `New words`, `Review`, `5 Day`, `15 Day` and
`Today`. Each mode draws its word list from one of the files. The two judgments,
"I know" and "Don't know", move the current word between the files:

- New words: the staged card is merged into the dictionary.
- Review: the word leaves the practice list.
- 5 Day: the word is promoted to the 15-day queue.
- 15 Day: the word leaves the 15-day queue and the practice list.
- Today: the word leaves the today list.

"Don't know" is two-phase. Pressing it shows the answer and sets a pending flag.
The file effects happen only when OK is pressed. While the flag is set, the mode
buttons and the "Reload files" button are disabled.

The project has one module per concern:

- `Wrappers` — Option, Result and the two exceptions the code raises.
- `PyText` — the Python string operations the parsers use: `strip`, `split`,
  `splitlines`, substring `in`, and string order.
- `Seqs` — dedup in first-seen order, filtering, and sorting.
- `OrderedDict` — Python's insertion-ordered `dict`, as a key sequence plus a map.
- `Dates` — `datetime.date`: its ordinal, `isoformat` and `strptime("%Y-%m-%d")`.
- `DictionaryFormat`, `PracticeList`, `DifficultQueue` — the three file formats.
  Each has a parser and a serializer, proved to round-trip.
- `CardMerge` — the rule that merges a new card into the dictionary.
- `FileUtil` — the loaders and the file mutations.
  - The file system is the field `files: map<string, string>` of class `FileStore`.
  - Each mutation is a method whose new `files` is stated by a pure effect function.
- `QueueLaws` — what each file mutation does to the parsed contents of each file.
- `Flashcard` — `load_words_for_mode`, the judgment effects per mode, and the page
  session as class `Session`. The session's fields are the session keys the page
  reads and writes.

The model follows these details of the code:

- Loading the Review list or a difficult queue raises `FileNotFoundError` when its
  file is missing (file_util.py:230-248). So does removing a word from the practice
  list (file_util.py:255-260). Only today.txt (docstring file_util.py:172),
  new_words.txt and the mutations that catch the error treat a missing file as empty.
- The "Don't know" button also clears `show_hint` (flashcard.py:342).
- The preview in `load_new_words` reads `dictionary.txt` relative to the program
  directory (file_util.py:318). The session's dictionary is `data/dictionary.txt`.
  The model keeps the two paths apart (`FileUtil.PreviewDictionaryPath`).
- When the new meaning is not covered, the merge function's own description says the
  new example sentence is used. The code instead keeps the sorted union of both
  examples' fragments (file_util.py:365-368), and `CardMerge.Merge` states that.
- When the new meaning is a substring of the existing one, the merge returns the
  existing card whatever the examples are (file_util.py:352-360). This branch's
  result is always the existing card, and `CardMerge.CoveredMeaningKeepsExisting`
  proves it. The model keeps this documented behaviour; it does not fix it.

The model also keeps a consequence of the code's order of steps. A "Don't know"
confirmation whose reload raises leaves `pending_dont_know` set. The list is loaded
(flashcard.py:115) before the flags are cleared (flashcard.py:118-121), so the mode
buttons stay disabled. `Flashcard.Session.ApplyDontKnowEffect` states that a raise
keeps every flag.

## Model

| member | source | states |
|---|---|---|
| PyText.Strip | file_util.py:65 | `str.strip()`: the result is a stripped infix of the input, and it is empty iff the input is all whitespace |
| PyText.Split | file_util.py:68 | `str.split(sep)`: at least one piece, no piece contains the separator, and every character of a piece comes from the input |
| PyText.SplitOnce | file_util.py:117 | `s.split(",", 1)` on a string that contains a comma: the input is the head, the separator and the rest, and the head has no separator |
| PyText.SplitLines | file_util.py:64 | `str.splitlines()`: no resulting line contains a line boundary |
| PyText.SplitLinesOfLines | file_util.py:103 | splitting the newline-terminated join of break-free lines gives the lines back |
| PyText.Contains | file_util.py:352 | substring `in`: true iff the needle occurs at some index of the haystack |
| PyText.StrLessIsStrictTotalOrder | file_util.py:357 | Python's string order (code-point lexicographic) is irreflexive, transitive and total |
| Seqs.Dedup | file_util.py:97-102 | dedup with a seen-set: no duplicates, the same members as the input, and no longer |
| Seqs.DedupFirstSeenOrder | file_util.py:99-102 | dedup keeps the words in the order of their first occurrence |
| Seqs.DedupSnoc | file_util.py:195-196 | appending a word already present leaves the dedup unchanged; appending a new word appends it |
| Seqs.Sort | file_util.py:145 | `sorted`: the result is a permutation of the input |
| Seqs.SortSorted | file_util.py:145 | sorting distinct elements under a strict total order gives a strictly ascending sequence |
| OrderedDict.Dict.Set | file_util.py:74 | `d[k] = v`: the map gets the entry; an existing key keeps its place and a new key goes last |
| OrderedDict.Dict.Remove | file_util.py:380-381 | `del d[k]`: the entry and its key leave the dict; the other keys keep their order |
| Dates.OrdinalMonotone | file_util.py:138 | an earlier date has a smaller day ordinal, so the date comparison agrees with day arithmetic |
| Dates.OrdinalRange | file_util.py:161 | every date from 0001-01-01 to 9999-12-31 has an ordinal between 1 and 3652059 |
| Dates.IsoFormat | file_util.py:146 | `date.isoformat()` is ten characters, each a digit or `-` |
| Dates.ParseIsoFormat | file_util.py:121 | `strptime("%Y-%m-%d")` reads back every date written by `isoformat` |
| DictionaryFormat.ParseCardLine | file_util.py:65-74 | a line yields a card only with a non-empty word |
| DictionaryFormat.ParsedCardClean | file_util.py:65-74 | a parsed card's three fields are stripped, free of `:` and free of line breaks |
| DictionaryFormat.Collect | file_util.py:63-75 | the parsed mapping is a valid ordered dict whose every card is stored under its own word |
| DictionaryFormat.ParseDictionary | file_util.py:56-75 | the parsed dictionary is a well-formed store |
| DictionaryFormat.ParseDictionaryText | file_util.py:56-75 | the line loop computes the dictionary that the line-by-line definition gives |
| DictionaryFormat.CollectKeys | file_util.py:64-74 | a word is in the parsed dictionary iff some line parses to a card with that word |
| DictionaryFormat.LaterLineWins | file_util.py:74 | a card's line that no later line for the same word follows gives the card stored for that word |
| DictionaryFormat.FormatEntryRoundTrip | file_util.py:383 | a clean card written as `word : meaning : example` has no line break and parses back to itself |
| DictionaryFormat.SortedWords | file_util.py:426 | the dictionary's words, strictly ascending, each once, exactly the dictionary's keys |
| DictionaryFormat.CardsTextRoundTrip | file_util.py:383-384 | rewriting a dictionary in its own order and parsing it again gives the same ordered dict |
| DictionaryFormat.SortedDictionaryTextRoundTrip | file_util.py:426-427 | rewriting a dictionary sorted by word and parsing it again gives the same cards, keyed in sorted order |
| PracticeList.ListWord | file_util.py:88-91 | a line yields a word only when it is non-empty, stripped and not a comment |
| PracticeList.ParsePracticeList | file_util.py:80-92 | every word parsed from a list file is a clean list word |
| PracticeList.ParsePracticeListText | file_util.py:80-92 | the line loop computes the list that the line-by-line definition gives |
| PracticeList.SerializePracticeList | file_util.py:95-103 | the seen-set loop writes the deduplicated words one per line, with a final newline iff any |
| PracticeList.PracticeListRoundTrip | file_util.py:95-103 | parsing a written list of clean words gives the words deduplicated in first-seen order |
| PracticeList.RewriteStable | file_util.py:80-103 | read-then-write is stable: a second rewrite of a list file reproduces the first |
| DifficultQueue.ParseDifficultLine | file_util.py:108-124 | a line yields a dated word only with a non-empty stripped word |
| DifficultQueue.ParsedWordClean | file_util.py:108-124 | a word parsed from a queue line is clean (stripped, no line break) |
| DifficultQueue.ParseDifficultText | file_util.py:127-140 | the line loop computes the queue that the line-by-line definition gives |
| DifficultQueue.LatestKeys | file_util.py:133-139 | a word is in the parsed queue iff some line parses to that word |
| DifficultQueue.LatestDateWins | file_util.py:138-139 | a duplicated word keeps a date that appears on one of its lines and that no other of its lines exceeds |
| DifficultQueue.SortedItems | file_util.py:145 | the queue's (date, word) pairs, strictly ascending by date then word, exactly the queue's entries |
| DifficultQueue.FormatItemRoundTrip | file_util.py:146 | a line `isoformat(date),word` has no line break and parses back to the pair |
| DifficultQueue.SerializeDifficultRoundTrip | file_util.py:143-147 | writing a queue and parsing it again gives the same word-to-date map, keyed in (date, word) order |
| DifficultQueue.DueWordsFromDifficultMap | file_util.py:150-163 | the loop computes the definition's due list, or raises OverflowError |
| DifficultQueue.DueOfMeaning | file_util.py:158-163 | the scan raises iff some date plus the interval leaves the date range; otherwise it keeps exactly the words whose date plus the interval is not after today |
| DifficultQueue.Filter | file_util.py:160-162 | a word is due iff it is in the queue and its date plus the interval is not after today |
| CardMerge.Fragments | file_util.py:354-355 | the example fragments are non-empty, stripped and free of `|` |
| CardMerge.SortedFragments | file_util.py:365-368 | the merged fragments are each listed once, strictly ascending, and are exactly the fragments of either example |
| CardMerge.MergedExamplesFragments | file_util.py:357 | the fragments of the `" \| "`-joined merged example are the sorted union again |
| CardMerge.Merge | file_util.py:333-369 | an absent word gives the new card unchanged; a covered meaning keeps the existing meaning and example; otherwise the meanings are joined with `", "` and the example is the sorted union of fragments joined by `" \| "` |
| CardMerge.MergeKeepsWord | file_util.py:346-369 | in a dictionary keyed by word, the merged card carries the new card's word |
| CardMerge.CoveredMeaningKeepsExisting | file_util.py:352-360 | a new meaning that is a substring of the existing one returns the existing card unchanged |
| CardMerge.MergeClean | file_util.py:333-369 | merging clean cards gives a clean card, one that survives a dictionary line |
| FileUtil.ReadText | file_util.py:30-34 | reading fails with FileNotFound of that path iff the file is absent |
| FileUtil.FileStore.WriteTextFile | file_util.py:37-40 | the file at the path now holds the content; no other file changes |
| FileUtil.FilterWords | file_util.py:226-227 | the result keeps exactly the listed words that the dictionary knows, and is no longer |
| FileUtil.FilterWordsConcat | file_util.py:226-227 | filtering a concatenation is the concatenation of the filtered parts, so the listed order and repeats are kept |
| FileUtil.FilterWordsAllKnown | file_util.py:226-227 | a list whose every word is known is kept whole |
| FileUtil.DictionaryIn | file_util.py:220-223 | loading the dictionary fails iff its file is absent, and otherwise gives a well-formed store |
| FileUtil.FileStore.LoadDictionary | file_util.py:220-223 | returns the dictionary loaded from the current files |
| FileUtil.ReviewWordsIn | file_util.py:230-234 | fails iff the list file is absent; otherwise holds exactly the listed words the dictionary knows |
| FileUtil.FileStore.LoadReviewWords | file_util.py:230-234 | returns the review words of the current files |
| FileUtil.DueWordsIn | file_util.py:237-248 | a missing queue file raises; otherwise it holds exactly the known queue words that are due today |
| FileUtil.FileStore.LoadDueWords | file_util.py:237-248 | returns the due words of the current files |
| FileUtil.TodayWordsIn | file_util.py:168-180 | a missing today file gives no words; otherwise exactly the listed words the dictionary knows |
| FileUtil.FileStore.LoadTodayWords | file_util.py:168-180 | returns the today words of the current files |
| FileUtil.Preview | file_util.py:324-330 | the preview has exactly the staged words, in staged order |
| FileUtil.PreviewMerge | file_util.py:324-330 | the loop builds the preview that the definition gives |
| FileUtil.NewWordsIn | file_util.py:307-330 | a missing staging file gives an empty dict; otherwise the staged words in file order |
| FileUtil.NewWordsPreview | file_util.py:314-330 | each staged card is previewed merged with the dictionary read from `dictionary.txt`, or with an empty one when that file is absent |
| FileUtil.FileStore.LoadNewWords | file_util.py:307-330 | returns the staged preview of the current files |
| FileUtil.FileStore.RemoveWordFromPracticeFile | file_util.py:255-260 | a missing list raises and changes nothing; otherwise the list file is rewritten without the word |
| FileUtil.FileStore.UpsertWordInDifficultFile | file_util.py:263-275 | the files become the upsert effect on the queue file, created if missing |
| FileUtil.FileStore.RemoveWordFromDifficultFile | file_util.py:278-287 | the files become the removal effect; a missing file is left alone |
| FileUtil.FileStore.MoveWordBetweenDifficultFiles | file_util.py:290-300 | the files become the removal from the source followed by the upsert into the destination |
| FileUtil.FileStore.AddWordToTodayFile | file_util.py:183-198 | the files become the append effect on the today file, created if missing |
| FileUtil.FileStore.RemoveWordFromTodayFile | file_util.py:201-214 | the files become the removal effect; a missing file is left alone |
| FileUtil.FileStore.RemoveWordFromNewWordsFile | file_util.py:372-385 | the files become the staging-file rewrite without the word |
| FileUtil.FileStore.MergeNewWordsToDictionary | file_util.py:388-431 | the files become the commit effect; a missing staging file or an unstaged word changes nothing |
| QueueLaws.UpsertSetsDate | file_util.py:263-275 | after the upsert the queue reads as the old queue with the word's date set to the given date, and no other file changes |
| QueueLaws.RemoveDropsEntry | file_util.py:278-287 | after the removal the queue reads as the old queue without the word; an absent file or word leaves the files identical |
| QueueLaws.MoveTransfersWord | file_util.py:290-300 | the word leaves the source queue and is in the destination with the given date; only those two files change |
| QueueLaws.AddTodayAppends | file_util.py:183-198 | the today list reads as the old list with the word appended, deduplicated; no other file changes |
| QueueLaws.AddTodayIdempotent | file_util.py:183-198 | adding the same word twice leaves the files as adding it once |
| QueueLaws.AddTodayFixed | file_util.py:195-198 | a today file already in its rewritten form holding the word is not changed by adding it |
| QueueLaws.RemoveTodayDrops | file_util.py:201-214 | the today list reads as the old list without the word, deduplicated; no other file changes |
| QueueLaws.RemovePracticeDrops | file_util.py:255-260 | raises iff the list is missing; otherwise the list reads without the word and no other file changes |
| QueueLaws.RemoveNewWordDrops | file_util.py:372-385 | the staging file reads as the old staged dict without the word, others in order; no other file changes |
| QueueLaws.MergedStoreWellFormed | file_util.py:422-423 | storing a merged clean card keeps the dictionary well-formed |
| QueueLaws.MergeCommits | file_util.py:388-431 | the dictionary reads as before with the word set to the merged card, in sorted order; the staging file loses the word; nothing else changes |
| Flashcard.WordsForMode | flashcard.py:48-71 | New words lists the staged words in file order; every other mode lists only dictionary words |
| Flashcard.UnknownModeIsReview | flashcard.py:71 | a mode string that is none of the five lists the Review words |
| Flashcard.ModeWords | flashcard.py:52-69 | Review, Today, 5 Day and 15 Day each list exactly the known words of their file (due ones for the queues), and the error cases raise FileNotFound |
| Flashcard.ModeWordsClean | flashcard.py:48-71 | every listed word is a clean list word |
| Flashcard.IKnowStep | flashcard.py:139-167 | "I know" can raise only FileNotFound for the practice list, when it is missing; an unknown mode changes nothing |
| Flashcard.IKnowReview | flashcard.py:154-155 | Review: the word leaves the practice list, raising iff the list is missing; nothing else changes |
| Flashcard.IKnowFiveDay | flashcard.py:157-158 | 5 Day: the word leaves the 5-day queue and is in the 15-day queue dated today; only those files change |
| Flashcard.IKnowFifteenDay | flashcard.py:160-162 | 15 Day: the word leaves the 15-day queue and the practice list; a missing list raises after the queue change |
| Flashcard.IKnowToday | flashcard.py:164-165 | Today: the word leaves the today list; nothing else changes |
| Flashcard.IKnowNewWord | flashcard.py:146-148 | New words: the merged card is committed to the sorted dictionary and the staging file loses the word |
| Flashcard.RememberSchedules | flashcard.py:190-199 | upserting into a queue and adding to Today dates the word today in the queue and appends it to the today list |
| Flashcard.DontKnowFiveDay | flashcard.py:189-195 | Review and 5 Day: the word is dated today in the 5-day queue and appended to the today list; nothing else changes |
| Flashcard.DontKnowFifteenDay | flashcard.py:197-199 | 15 Day: the word is dated today in the 15-day queue and appended to the today list; nothing else changes |
| Flashcard.DontKnowTodayKeepsFiles | flashcard.py:201-204 | Today, or an unknown mode: the files stay as they were |
| Flashcard.DontKnowNewWordCommits | flashcard.py:178-180 | New words: the merged card is in the dictionary and the staging file loses the word |
| Flashcard.DontKnowNewWordSchedules | flashcard.py:181-183 | New words: the word is also dated today in the 5-day queue and appended to the today list |
| Flashcard.Session.constructor | flashcard.py:90-106 | a fresh session starts in New words with no words, no current word and all four flags cleared |
| Flashcard.Session.LoadWordsForMode | flashcard.py:48-71 | returns the session mode's word list from the current files |
| Flashcard.Session.ResetSessionForNewWordlist | flashcard.py:74-80 | the new list is in place, the four flags are cleared, and the current word is None iff the list is empty, otherwise a listed word |
| Flashcard.Session.EnsureInitialized | flashcard.py:83-106 | raises iff the dictionary file is missing and then changes nothing; otherwise loads the dictionary and staged words, selects New words and settles its list |
| Flashcard.Session.ReloadCurrentModeWords | flashcard.py:109-130 | raises and changes nothing iff the list cannot load; otherwise the list is reloaded, the flags are cleared, and a kept current word that is still listed stays |
| Flashcard.Session.HandleIKnow | flashcard.py:139-167 | the files take the mode's "I know" effect; New words then reloads the staged words and the dictionary, and the mode's list is reloaded. It raises iff the file effect, the dictionary reload or the list reload raises. A raise leaves the list, the current word, the four flags and the session dictionary as they were; the staged words are already reloaded when the dictionary reload raises |
| Flashcard.Session.ApplyDontKnowEffect | flashcard.py:170-206 | the files take the mode's "Don't know" effect; New words then reloads the staged words and the dictionary, and the list is reloaded with the flags cleared. It raises iff the dictionary reload or the list reload raises; a raise leaves the list, the current word, the flags and the session dictionary as they were, so the confirmation stays pending |
| Flashcard.Session.SelectMode | flashcard.py:244-264 | a pending "Don't know" leaves the session unchanged; otherwise the mode is set and its list is loaded; a failed load keeps the list, the current word and the four flags |
| Flashcard.Session.ReloadFiles | flashcard.py:270-273 | a pending "Don't know" leaves the session unchanged; otherwise the dictionary is reloaded, the mode returns to New words and its list is loaded, while the staged words are kept |
| Flashcard.Session.PressDontKnow | flashcard.py:338-343 | sets pending and show-answer, clears show-hint, and changes nothing else |
| Flashcard.Session.PressHint | flashcard.py:325-326 | sets show-hint and changes nothing else |
| Flashcard.Session.PressVerify | flashcard.py:329-335 | sets show-verify, clears the other three flags, and changes nothing else |

## Left out

- The page rendering is not modelled: `render_header`, `apply_background`, the sidebar
  caption and counter, the card display (flashcard.py:283-299) and the example lists.
- The page lifecycle is not modelled: `all_reviewed_view`, `st.stop` and `st.rerun`.
  The session methods model what the following rerun of the page does.
- `base_dir` and `resolve_path` are left out. Paths are the keys of the file map as
  written in the code. So `dictionary.txt` (read by the preview) and
  `data/dictionary.txt` are different files.
- Real file I/O is left out: encodings, directory creation and permission errors. A
  file is either present with its text or absent.
- Writes are atomic in the model. A crash between the two writes of a move or a
  merge is not modelled, and neither is concurrent change of the files.
- `random.choice` is modelled as an arbitrary choice among the listed words.
- `date.today()` is a parameter.
- Dates.ParseDate: `strptime` also accepts non-ASCII Unicode digits. The model
  accepts ASCII digits only.
- Flashcard.Session.EnsureInitialized: it models the first run of the page, where no
  session key is present yet. Runs where only some keys are present are not modelled.
  `Flashcard.Session.ReloadFiles` models the rerun after the keys are popped.
- Flashcard.Session.ReloadFiles: when the rerun fails on a missing dictionary, the
  model leaves the session as it was. The page has already popped its keys by then.
- Flashcard.Session.SelectMode: models one click on the five mode buttons. Several
  buttons in one run cannot be pressed together.
