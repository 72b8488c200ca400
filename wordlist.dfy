/**
 * The one-word-per-line format of to_practice.txt and today.txt:
 * `parse_practice_list_text` and `serialize_practice_list`.
 */
module PracticeList {
  import opened Wrappers
  import opened PyText
  import opened Seqs

  /** A word the list format holds and gives back: non-empty, stripped, on one
      line and not taken for a comment. */
  predicate IsListWord(w: string) {
    w != [] && IsStripped(w) && NoBreak(w) && !IsComment(w)
  }

  /** The word one raw line contributes; None for a blank or `#` line. */
  function ListWord(raw: string): (r: Option<string>)
    ensures r.Some? ==> r.value != [] && IsStripped(r.value) && !IsComment(r.value)
  {
    var w := Strip(raw);
    if w == [] || IsComment(w) then None else Some(w)
  }

  function WordsOfLines(lines: seq<string>): (ws: seq<string>)
    ensures |ws| <= |lines|
    decreases |lines|
  {
    if lines == [] then []
    else
      var ws := WordsOfLines(lines[..|lines| - 1]);
      match ListWord(lines[|lines| - 1])
      case None => ws
      case Some(w) => ws + [w]
  }

  /** `parse_practice_list_text(text)` */
  function ParsePracticeList(text: string): (ws: seq<string>)
    ensures forall i :: 0 <= i < |ws| ==> IsListWord(ws[i])
  {
    WordsOfLinesClean(SplitLines(text));
    WordsOfLines(SplitLines(text))
  }

  lemma {:induction false} WordsOfLinesClean(lines: seq<string>)
    requires forall i :: 0 <= i < |lines| ==> NoBreak(lines[i])
    ensures forall i :: 0 <= i < |WordsOfLines(lines)| ==> IsListWord(WordsOfLines(lines)[i])
    decreases |lines|
  {
    if lines != [] {
      var last := lines[|lines| - 1];
      WordsOfLinesClean(lines[..|lines| - 1]);
      StripChars(last);
      NoBreakChars(last, Strip(last));
    }
  }

  /** One more line either leaves the words or appends the one it carries. */
  lemma WordsStep(lines: seq<string>, i: int)
    requires 0 <= i < |lines|
    ensures var w := ListWord(lines[i]);
      WordsOfLines(lines[..i + 1]) == if w.None? then WordsOfLines(lines[..i]) else WordsOfLines(lines[..i]) + [w.value]
  {
    assert lines[..i + 1][..i] == lines[..i];
  }

  /** The loop of `parse_practice_list_text`. */
  method ParsePracticeListText(text: string) returns (words: seq<string>)
    ensures words == ParsePracticeList(text)
  {
    var lines := SplitLines(text);
    words := [];
    var i := 0;
    while i < |lines|
      invariant 0 <= i <= |lines|
      invariant words == WordsOfLines(lines[..i])
    {
      WordsStep(lines, i);
      var w := Strip(lines[i]);
      assert ListWord(lines[i]) == if w == [] || IsComment(w) then None else Some(w);
      if w == [] || IsComment(w) {
        i := i + 1;
        continue;
      }
      words := words + [w];
      i := i + 1;
    }
    assert lines[..i] == lines;
  }

  /** A list word on a line of its own is read back as itself. */
  lemma ListWordOfWord(w: string)
    requires IsListWord(w)
    ensures ListWord(w) == Some(w)
  {
    StrippedIsFixed(w);
  }

  /** The text `serialize_practice_list(words)` returns: each word once, in
      first-seen order, one per line. */
  function PracticeListText(words: seq<string>): string {
    Lines(Dedup(words))
  }

  /** The `seen`-set loop of `serialize_practice_list`. */
  method SerializePracticeList(words: seq<string>) returns (text: string)
    ensures text == PracticeListText(words)
  {
    var seen: set<string> := {};
    var out: seq<string> := [];
    var i := 0;
    while i < |words|
      invariant 0 <= i <= |words|
      invariant out == Dedup(words[..i])
      invariant forall w :: w in seen <==> w in words[..i]
    {
      var w := words[i];
      TakeSnoc(words, i);
      DedupSnoc(words[..i], w);
      if w !in seen {
        seen := seen + {w};
        out := out + [w];
      }
      i := i + 1;
    }
    assert words[..i] == words;
    text := Lines(out);
  }

  /** Reading back lines of list words gives the same words, in order. */
  lemma {:induction false} WordsOfWordLines(ws: seq<string>)
    requires forall i :: 0 <= i < |ws| ==> IsListWord(ws[i])
    ensures WordsOfLines(ws) == ws
    decreases |ws|
  {
    if ws != [] {
      WordsOfWordLines(ws[..|ws| - 1]);
      ListWordOfWord(ws[|ws| - 1]);
      assert ws == ws[..|ws| - 1] + [ws[|ws| - 1]];
    }
  }

  /** Writing a list and reading it back gives the list without its repetitions. */
  lemma PracticeListRoundTrip(words: seq<string>)
    requires forall i :: 0 <= i < |words| ==> IsListWord(words[i])
    ensures ParsePracticeList(PracticeListText(words)) == Dedup(words)
  {
    var ws := Dedup(words);
    forall i | 0 <= i < |ws| ensures IsListWord(ws[i]) {
      assert ws[i] in words;
    }
    SplitLinesOfLines(ws);
    WordsOfWordLines(ws);
  }

  /** Rewriting a list file that was read changes nothing more than dropping repeats;
      a second rewrite changes nothing at all. */
  lemma RewriteStable(text: string)
    ensures ParsePracticeList(PracticeListText(ParsePracticeList(text))) == Dedup(ParsePracticeList(text))
    ensures PracticeListText(ParsePracticeList(PracticeListText(ParsePracticeList(text))))
         == PracticeListText(ParsePracticeList(text))
  {
    var ws := ParsePracticeList(text);
    PracticeListRoundTrip(ws);
    DedupIdempotent(ws);
  }
}
