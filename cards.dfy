/**
 * The `word : meaning : example` format shared by dictionary.txt and
 * new_words.txt: the `Card` record, the line parser, the whole-file parser
 * (as a specification function and as the loop the source runs) and the two
 * ways the source writes such a file back (mapping order, sorted by word).
 */
module DictionaryFormat {
  import opened Wrappers
  import opened PyText
  import opened Seqs
  import opened OrderedDict

  datatype Card = Card(word: string, meaning: string, example: string)

  /** A field that one `:`-separated line carries and gives back unchanged. */
  predicate IsField(s: string) {
    IsStripped(s) && ':' !in s && NoBreak(s)
  }

  /** A card the file format can hold: its word non-empty, not a comment, and
      every field free of `:`, line breaks and outer whitespace. */
  predicate CleanCard(c: Card) {
    c.word != [] && !IsComment(c.word) && IsField(c.word) && IsField(c.meaning) && IsField(c.example)
  }

  /** What the parser produces: every card stored under its own word, and clean. */
  ghost predicate WellFormedStore(d: Dict<string, Card>) {
    d.Valid() && forall k :: k in d.vals ==> d.vals[k].word == k && CleanCard(d.vals[k])
  }

  /** The body of the loop of `parse_dictionary_text` for one raw line; None
      where the line is skipped (blank, `#`, not exactly three fields, empty word). */
  function ParseCardLine(raw: string): (r: Option<Card>)
    ensures r.Some? ==> r.value.word != []
  {
    var line := Strip(raw);
    if line == [] || IsComment(line) then None
    else
      var parts := Split(line, ':');
      if |parts| != 3 then None
      else
        var word := Strip(parts[0]);
        if word == [] then None
        else Some(Card(word, Strip(parts[1]), Strip(parts[2])))
  }

  /** A card read from a line without line breaks is clean. */
  lemma ParsedCardClean(raw: string)
    requires NoBreak(raw) && ParseCardLine(raw).Some?
    ensures CleanCard(ParseCardLine(raw).value)
  {
    var line := Strip(raw);
    var parts := Split(line, ':');
    StripChars(raw);
    NoBreakChars(raw, line);
    forall i | 0 <= i < 3 ensures IsField(Strip(parts[i])) {
      StripChars(parts[i]);
      NoBreakChars(line, parts[i]);
      NoBreakChars(parts[i], Strip(parts[i]));
    }
    // the word starts where the stripped line starts, so it is no comment either
    SplitFirst(line, ':');
    assert parts[0] == line[..|parts[0]|];
    assert parts[0][0] == line[0];
    StripKeepsFirst(parts[0]);
  }

  /** The card each line yields, line by line. */
  function ParseLines(lines: seq<string>): (r: seq<Option<Card>>)
    ensures |r| == |lines| && forall i :: 0 <= i < |lines| ==> r[i] == ParseCardLine(lines[i])
  {
    seq(|lines|, i requires 0 <= i < |lines| => ParseCardLine(lines[i]))
  }

  /** Every card in the sequence has a non-empty word, as every parsed card has. */
  predicate WordsPresent(cards: seq<Option<Card>>) {
    forall i :: 0 <= i < |cards| && cards[i].Some? ==> cards[i].value.word != []
  }

  /** The mapping the loop of `parse_dictionary_text` builds from the cards its
      lines yield, assigning `mapping[word]` for each in turn. */
  function Collect(cards: seq<Option<Card>>): (d: Dict<string, Card>)
    ensures d.Valid()
    ensures forall k :: k in d.vals ==> d.vals[k].word == k
    decreases |cards|
  {
    if cards == [] then Empty()
    else
      var d := Collect(cards[..|cards| - 1]);
      match cards[|cards| - 1]
      case None => d
      case Some(c) => d.Set(c.word, c)
  }

  /** `parse_dictionary_text(text)` */
  function ParseDictionary(text: string): (d: Dict<string, Card>)
    ensures WellFormedStore(d)
  {
    var cards := ParseLines(SplitLines(text));
    ParsedLinesClean(SplitLines(text));
    CollectClean(cards);
    Collect(cards)
  }

  /** Every card a line of a text yields is clean. */
  lemma ParsedLinesClean(lines: seq<string>)
    requires forall i :: 0 <= i < |lines| ==> NoBreak(lines[i])
    ensures forall i :: 0 <= i < |lines| && ParseLines(lines)[i].Some? ==> CleanCard(ParseLines(lines)[i].value)
  {
    forall i | 0 <= i < |lines| && ParseLines(lines)[i].Some?
      ensures CleanCard(ParseLines(lines)[i].value)
    {
      ParsedCardClean(lines[i]);
    }
  }

  lemma {:induction false} CollectClean(cards: seq<Option<Card>>)
    requires forall i :: 0 <= i < |cards| && cards[i].Some? ==> CleanCard(cards[i].value)
    ensures forall k :: k in Collect(cards).vals ==> CleanCard(Collect(cards).vals[k])
    decreases |cards|
  {
    if cards != [] {
      CollectClean(cards[..|cards| - 1]);
    }
  }

  /** One more line either leaves the mapping or assigns the card it yields. */
  lemma CollectStep(lines: seq<string>, i: int)
    requires 0 <= i < |lines|
    ensures var c := ParseCardLine(lines[i]);
      Collect(ParseLines(lines[..i + 1])) ==
        if c.None? then Collect(ParseLines(lines[..i])) else Collect(ParseLines(lines[..i])).Set(c.value.word, c.value)
  {
    assert ParseLines(lines[..i + 1])[..i] == ParseLines(lines[..i]);
  }

  /** The loop of `parse_dictionary_text`. */
  method ParseDictionaryText(text: string) returns (mapping: Dict<string, Card>)
    ensures mapping == ParseDictionary(text)
  {
    var lines := SplitLines(text);
    mapping := Empty();
    var i := 0;
    while i < |lines|
      invariant 0 <= i <= |lines|
      invariant mapping == Collect(ParseLines(lines[..i]))
    {
      CollectStep(lines, i);
      var line := Strip(lines[i]);
      if line == [] || IsComment(line) {
        i := i + 1;
        continue;
      }
      var parts := Split(line, ':');
      if |parts| != 3 {
        i := i + 1;
        continue;
      }
      var word, meaning, example := Strip(parts[0]), Strip(parts[1]), Strip(parts[2]);
      if word == [] {
        i := i + 1;
        continue;
      }
      mapping := mapping.Set(word, Card(word, meaning, example));
      i := i + 1;
    }
    assert lines[..i] == lines;
  }

  /** A word is a key of the parsed mapping exactly when some line yields a card for it. */
  lemma {:induction false} CollectKeys(cards: seq<Option<Card>>, w: string)
    ensures w in Collect(cards).vals <==>
      exists j :: 0 <= j < |cards| && cards[j].Some? && cards[j].value.word == w
    decreases |cards|
  {
    if cards != [] {
      var p := cards[..|cards| - 1];
      CollectKeys(p, w);
      assert forall j :: 0 <= j < |p| ==> p[j] == cards[j];
    }
  }

  /** A later line for the same word overwrites an earlier one: the card kept for a
      word is the one of the last line that yields that word. */
  lemma {:induction false} LaterLineWins(cards: seq<Option<Card>>, i: int)
    requires 0 <= i < |cards| && cards[i].Some?
    requires forall j :: i < j < |cards| ==> cards[j].None? || cards[j].value.word != cards[i].value.word
    ensures cards[i].value.word in Collect(cards).vals
    ensures Collect(cards).vals[cards[i].value.word] == cards[i].value
    decreases |cards|
  {
    if i < |cards| - 1 {
      var p := cards[..|cards| - 1];
      assert forall j :: 0 <= j < |p| ==> p[j] == cards[j];
      LaterLineWins(p, i);
    }
  }

  // ------------------------------------------------------------------ writing

  /** `f"{w} : {c.meaning} : {c.example}"` */
  function FormatEntry(w: string, c: Card): string {
    w + " : " + c.meaning + " : " + c.example
  }

  /** The lines for the keys `ks`, in that order. */
  function EntryLines(ks: seq<string>, vals: map<string, Card>): (r: seq<string>)
    requires forall k :: k in ks ==> k in vals
    ensures |r| == |ks|
  {
    seq(|ks|, i requires 0 <= i < |ks| => FormatEntry(ks[i], vals[ks[i]]))
  }

  /** The text `remove_word_from_new_words_file` writes: one line per entry, in mapping order. */
  function CardsText(d: Dict<string, Card>): string
    requires d.Valid()
  {
    Lines(EntryLines(d.keys, d.vals))
  }

  /** The words of a mapping in the order `sorted(dictionary.items())` visits them. */
  function SortedWords(d: Dict<string, Card>): (ws: seq<string>)
    requires d.Valid()
    ensures StrictlySorted(ws, StrLess)
    ensures Distinct(ws) && forall k :: k in ws <==> k in d.vals
  {
    var ws := Sort(d.keys, StrLess);
    StrLessIsStrictTotalOrder();
    SortSorted(d.keys, StrLess);
    SortedDistinct(ws, StrLess);
    assert forall k :: k in ws <==> k in multiset(d.keys);
    ws
  }

  /** The text `merge_new_words_to_dictionary` writes: one line per entry, sorted by word. */
  function SortedDictionaryText(d: Dict<string, Card>): string
    requires d.Valid()
  {
    Lines(EntryLines(SortedWords(d), d.vals))
  }

  /** What remains of a card's line after `strip()`: the line itself, less its
      final blank when the example is empty. */
  function StrippedEntry(c: Card): string {
    c.word + " : " + c.meaning + (if c.example == [] then " :" else " : " + c.example)
  }

  lemma EntryNoBreak(c: Card)
    requires CleanCard(c)
    ensures NoBreak(FormatEntry(c.word, c))
  {
    var w, m, e := c.word, c.meaning, c.example;
    var raw := FormatEntry(w, c);
    forall i | 0 <= i < |raw| ensures !IsLineBreak(raw[i]) {
      if i < |w| {
        assert raw[i] == w[i];
      } else if i < |w| + 3 {
      } else if i < |w| + 3 + |m| {
        assert raw[i] == m[i - |w| - 3];
      } else if i < |w| + 6 + |m| {
      } else {
        assert raw[i] == e[i - |w| - 6 - |m|];
      }
    }
  }

  lemma EntryStrip(c: Card)
    requires CleanCard(c)
    ensures Strip(FormatEntry(c.word, c)) == StrippedEntry(c)
  {
    var line := StrippedEntry(c);
    var post := if c.example == [] then " " else "";
    assert FormatEntry(c.word, c) == [] + line + post;
    assert line[0] == c.word[0];
    assert line[|line| - 1] == if c.example == [] then ':' else c.example[|c.example| - 1];
    StripPadded([], line, post);
  }

  lemma EntryShape(c: Card)
    ensures StrippedEntry(c) == (c.word + " ") + [':'] +
      ((" " + c.meaning + " ") + [':'] + (if c.example == [] then "" else " " + c.example))
  {
  }

  lemma EntrySplit(c: Card)
    requires CleanCard(c)
    ensures Split(StrippedEntry(c), ':') ==
      [c.word + " ", " " + c.meaning + " ", if c.example == [] then "" else " " + c.example]
  {
    EntryShape(c);
    Split3(c.word + " ", " " + c.meaning + " ", if c.example == [] then "" else " " + c.example, ':');
  }

  lemma EntryFieldsStrip(c: Card)
    requires CleanCard(c)
    ensures Strip(c.word + " ") == c.word
    ensures Strip(" " + c.meaning + " ") == c.meaning
    ensures Strip(if c.example == [] then "" else " " + c.example) == c.example
  {
    StripPadded([], c.word, " ");
    assert [] + c.word + " " == c.word + " ";
    StripPadded(" ", c.meaning, " ");
    if c.example != [] {
      StripPadded(" ", c.example, []);
      assert " " + c.example + [] == " " + c.example;
    }
  }

  /** A clean card's line reads back as the same card. */
  lemma FormatEntryRoundTrip(c: Card)
    requires CleanCard(c)
    ensures NoBreak(FormatEntry(c.word, c))
    ensures ParseCardLine(FormatEntry(c.word, c)) == Some(c)
  {
    EntryNoBreak(c);
    var raw := FormatEntry(c.word, c);
    var line := Strip(raw);
    EntryStrip(c);
    assert line == StrippedEntry(c);
    assert line[0] == c.word[0];
    assert line != [] && !IsComment(line);
    var parts := Split(line, ':');
    EntrySplit(c);
    assert |parts| == 3;
    EntryFieldsStrip(c);
    assert Strip(parts[0]) == c.word && Strip(parts[1]) == c.meaning && Strip(parts[2]) == c.example;
  }

  /** The cards a sequence of keys names, each as a line yields it. */
  function EntryCards(ks: seq<string>, vals: map<string, Card>): (r: seq<Option<Card>>)
    requires forall k :: k in ks ==> k in vals
    ensures |r| == |ks|
  {
    seq(|ks|, i requires 0 <= i < |ks| => Some(vals[ks[i]]))
  }

  lemma ParseEntryLinesCards(ks: seq<string>, vals: map<string, Card>)
    requires forall k :: k in ks ==> k in vals && vals[k].word == k && CleanCard(vals[k])
    ensures forall i :: 0 <= i < |ks| ==> NoBreak(EntryLines(ks, vals)[i])
    ensures ParseLines(EntryLines(ks, vals)) == EntryCards(ks, vals)
  {
    forall i | 0 <= i < |ks|
      ensures NoBreak(EntryLines(ks, vals)[i])
      ensures ParseCardLine(EntryLines(ks, vals)[i]) == Some(vals[ks[i]])
    {
      FormatEntryRoundTrip(vals[ks[i]]);
    }
  }

  /** The last card of a run of entry cards is collected last. */
  lemma CollectEntryCardsSnoc(ks: seq<string>, vals: map<string, Card>)
    requires ks != [] && forall k :: k in ks ==> k in vals
    requires vals[ks[|ks| - 1]].word == ks[|ks| - 1]
    ensures forall k :: k in ks[..|ks| - 1] ==> k in vals
    ensures Collect(EntryCards(ks, vals)) ==
      Collect(EntryCards(ks[..|ks| - 1], vals)).Set(ks[|ks| - 1], vals[ks[|ks| - 1]])
  {
    var p := ks[..|ks| - 1];
    assert forall x :: x in p ==> x in ks;
    var cs := EntryCards(ks, vals);
    assert cs[..|ks| - 1] == EntryCards(p, vals);
    assert cs[|ks| - 1] == Some(vals[ks[|ks| - 1]]);
  }

  /** Setting a new key whose card is the wanted one extends an ordered mapping
      that agrees with `vals` on its keys. */
  lemma SetNewAgrees(d: Dict<string, Card>, p: seq<string>, k: string, vals: map<string, Card>)
    requires d.Valid() && d.keys == p && k !in p && k in vals
    requires forall x :: x in p ==> x in vals && d.vals[x] == vals[x]
    ensures d.Set(k, vals[k]).keys == p + [k]
    ensures forall x :: x in p + [k] ==> d.Set(k, vals[k]).vals[x] == vals[x]
  {
    forall x | x in p + [k] ensures d.Set(k, vals[k]).vals[x] == vals[x] {
      if x != k {
        assert x in p;
      }
    }
  }

  /** Cards with distinct words, one per line, are collected under their words in
      the same order. */
  lemma {:induction false} CollectEntryCards(ks: seq<string>, vals: map<string, Card>)
    requires Distinct(ks)
    requires forall k :: k in ks ==> k in vals && vals[k].word == k
    ensures Collect(EntryCards(ks, vals)).keys == ks
    ensures forall k :: k in ks ==> Collect(EntryCards(ks, vals)).vals[k] == vals[k]
    decreases |ks|
  {
    if ks != [] {
      var p, k := ks[..|ks| - 1], ks[|ks| - 1];
      assert p + [k] == ks;
      assert Distinct(p) && k !in p;
      assert forall x :: x in p ==> x in vals && vals[x].word == x by {
        assert forall x :: x in p ==> x in ks;
      }
      CollectEntryCards(p, vals);
      CollectEntryCardsSnoc(ks, vals);
      SetNewAgrees(Collect(EntryCards(p, vals)), p, k, vals);
    }
  }

  /** Writing cards with distinct words one line each and parsing the text gives
      those cards back, keyed by word, in the same order. */
  lemma ParseEntryText(ks: seq<string>, vals: map<string, Card>)
    requires Distinct(ks)
    requires forall k :: k in ks ==> k in vals && vals[k].word == k && CleanCard(vals[k])
    ensures ParseDictionary(Lines(EntryLines(ks, vals))).keys == ks
    ensures forall k :: k in ks ==> ParseDictionary(Lines(EntryLines(ks, vals))).vals[k] == vals[k]
  {
    ParseEntryLinesCards(ks, vals);
    SplitLinesOfLines(EntryLines(ks, vals));
    CollectEntryCards(ks, vals);
  }

  /** Rewriting the new-words file in mapping order and reading it back gives the same
      mapping, order included. */
  lemma CardsTextRoundTrip(d: Dict<string, Card>)
    requires WellFormedStore(d)
    ensures ParseDictionary(CardsText(d)) == d
  {
    ParseEntryText(d.keys, d.vals);
  }

  /** Rewriting the dictionary sorted by word and reading it back gives the same
      word-to-card mapping; the keys come back in sorted order. */
  lemma SortedDictionaryTextRoundTrip(d: Dict<string, Card>)
    requires WellFormedStore(d)
    ensures ParseDictionary(SortedDictionaryText(d)).vals == d.vals
    ensures ParseDictionary(SortedDictionaryText(d)).keys == SortedWords(d)
  {
    var ws := SortedWords(d);
    ParseEntryText(ws, d.vals);
  }
}
