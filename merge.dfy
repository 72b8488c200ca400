/**
 * `merge_new_word_into_dictionary`: how a card from the new-words file is
 * combined with the dictionary's card for the same word. Example sentences
 * are `|`-separated fragments; a merge takes the sorted set union of the
 * fragments of both cards and joins it with `" | "`.
 */
module CardMerge {
  import opened PyText
  import opened Seqs
  import opened DictionaryFormat

  /** A fragment as it comes out of the example split: non-empty, stripped, no `|`. */
  predicate IsFragment(f: string) {
    f != [] && IsStripped(f) && '|' !in f
  }

  /** `[p.strip() for p in pieces if p.strip()]` */
  function StrippedPieces(pieces: seq<string>): (r: seq<string>)
    requires forall i :: 0 <= i < |pieces| ==> '|' !in pieces[i]
    ensures forall i :: 0 <= i < |r| ==> IsFragment(r[i])
    decreases |pieces|
  {
    if pieces == [] then []
    else
      var f := Strip(pieces[0]);
      StripChars(pieces[0]);
      (if f == [] then [] else [f]) + StrippedPieces(pieces[1..])
  }

  /** The example fragments of an example string, in order, duplicates kept. */
  function Fragments(example: string): (r: seq<string>)
    ensures forall i :: 0 <= i < |r| ==> IsFragment(r[i])
  {
    StrippedPieces(Split(example, '|'))
  }

  /** `sorted(existing_examples | new_examples)`: the fragments of both examples,
      each once, in string order. */
  function SortedFragments(a: string, b: string): (r: seq<string>)
    ensures Distinct(r) && StrictlySorted(r, StrLess)
    ensures forall f :: f in r <==> f in Fragments(a) || f in Fragments(b)
    ensures forall i :: 0 <= i < |r| ==> IsFragment(r[i])
  {
    var all := Fragments(a) + Fragments(b);
    SortedUnique(all);
    Sort(Dedup(all), StrLess)
  }

  /** Sorting the distinct fragments gives each fragment once, in string order. */
  lemma SortedUnique(all: seq<string>)
    requires forall i :: 0 <= i < |all| ==> IsFragment(all[i])
    ensures var r := Sort(Dedup(all), StrLess);
      Distinct(r) && StrictlySorted(r, StrLess)
      && (forall f :: f in r <==> f in all)
      && (forall i :: 0 <= i < |r| ==> IsFragment(r[i]))
  {
    var u := Dedup(all);
    var r := Sort(u, StrLess);
    StrLessIsStrictTotalOrder();
    SortSorted(u, StrLess);
    SortedDistinct(r, StrLess);
    forall f ensures f in r <==> f in all {
      assert f in r <==> f in multiset(r);
      assert f in u <==> f in multiset(u);
    }
    forall i | 0 <= i < |r| ensures IsFragment(r[i]) {
      assert r[i] in all;
    }
  }

  /** `" | ".join(sorted(all_examples))` */
  function MergedExamples(a: string, b: string): string {
    Join(" | ", SortedFragments(a, b))
  }

  /** Splitting fragments joined by `" | "` (after any leading blanks) on `|` and
      keeping the stripped non-empty pieces gives the fragments back. */
  lemma {:induction false} JoinedFragments(pad: string, fs: seq<string>)
    requires AllSpace(pad)
    requires forall i :: 0 <= i < |fs| ==> IsFragment(fs[i])
    ensures StrippedPieces(Split(pad + Join(" | ", fs), '|')) == fs
    decreases |fs|
  {
    if |fs| <= 1 {
      JoinedFragmentsShort(pad, fs);
    } else {
      var head := pad + fs[0] + " ";
      var tail := Split(" " + Join(" | ", fs[1..]), '|');
      JoinedHead(pad, fs);
      JoinedFragments(" ", fs[1..]);
      StrippedHead(head, tail, fs[0]);
      HeadTail(fs);
    }
  }

  /** A first piece that strips to a fragment contributes that fragment first. */
  lemma StrippedHead(head: string, tail: seq<string>, f: string)
    requires '|' !in head && Strip(head) == f && f != []
    requires forall i :: 0 <= i < |tail| ==> '|' !in tail[i]
    ensures StrippedPieces([head] + tail) == [f] + StrippedPieces(tail)
  {
    assert ([head] + tail)[1..] == tail;
  }

  /** The first piece of joined fragments is the padded first fragment. */
  lemma JoinedHead(pad: string, fs: seq<string>)
    requires AllSpace(pad) && |fs| >= 2
    requires forall i :: 0 <= i < |fs| ==> IsFragment(fs[i])
    ensures Split(pad + Join(" | ", fs), '|') == [pad + fs[0] + " "] + Split(" " + Join(" | ", fs[1..]), '|')
    ensures Strip(pad + fs[0] + " ") == fs[0] && '|' !in pad + fs[0] + " "
  {
    var f, rest := fs[0], Join(" | ", fs[1..]);
    assert IsFragment(f);
    assert Join(" | ", fs) == f + " | " + rest;
    PipeHead(pad, f, rest);
    StripPadded(pad, f, " ");
  }

  /** Splitting a padded head, `|`, and a tail on `|` separates the head. */
  lemma PipeHead(pad: string, f: string, rest: string)
    requires AllSpace(pad) && '|' !in f
    ensures Split(pad + (f + " | " + rest), '|') == [pad + f + " "] + Split(" " + rest, '|')
    ensures '|' !in pad + f + " "
  {
    var head := pad + f + " ";
    NoPipeInSpace(pad);
    assert '|' !in head by {
      assert head == pad + (f + " ");
    }
    assert pad + (f + " | " + rest) == head + ['|'] + (" " + rest);
    SplitCons(head, '|', " " + rest);
  }

  lemma JoinedFragmentsShort(pad: string, fs: seq<string>)
    requires AllSpace(pad) && |fs| <= 1
    requires forall i :: 0 <= i < |fs| ==> IsFragment(fs[i])
    ensures StrippedPieces(Split(pad + Join(" | ", fs), '|')) == fs
  {
    NoPipeInSpace(pad);
    if fs == [] {
      assert Split(pad + Join(" | ", fs), '|') == [pad] by {
        assert pad + Join(" | ", fs) == pad;
        SplitNoSep(pad, '|');
      }
      StrippedSingle(pad);
    } else {
      var f := fs[0];
      assert Split(pad + Join(" | ", fs), '|') == [pad + f] by {
        assert pad + Join(" | ", fs) == pad + f;
        SplitNoSep(pad + f, '|');
      }
      assert Strip(pad + f) == f by {
        StripPadded(pad, f, []);
        assert pad + f + [] == pad + f;
      }
      StrippedSingle(pad + f);
    }
  }

  lemma StrippedSingle(p: string)
    requires '|' !in p
    ensures StrippedPieces([p]) == if Strip(p) == [] then [] else [Strip(p)]
  {
    assert [p][1..] == [];
  }

  lemma NoPipeInSpace(pad: string)
    requires AllSpace(pad)
    ensures '|' !in pad
  {
    forall i | 0 <= i < |pad| ensures pad[i] != '|' {
      assert IsSpace(pad[i]);
    }
  }

  /** The merged example string reads back as exactly the sorted union of fragments. */
  lemma MergedExamplesFragments(a: string, b: string)
    ensures Fragments(MergedExamples(a, b)) == SortedFragments(a, b)
  {
    JoinedFragments([], SortedFragments(a, b));
    assert [] + MergedExamples(a, b) == MergedExamples(a, b);
  }

  /** Fragments of a clean field carry neither `:` nor a line break. */
  lemma FragmentsOfField(example: string)
    requires IsField(example)
    ensures forall i :: 0 <= i < |Fragments(example)| ==>
      ':' !in Fragments(example)[i] && NoBreak(Fragments(example)[i])
  {
    var pieces := Split(example, '|');
    forall j | 0 <= j < |pieces| ensures ':' !in pieces[j] && NoBreak(pieces[j]) {
      NoBreakChars(example, pieces[j]);
    }
    StrippedPiecesPlain(pieces);
  }

  lemma {:induction false} StrippedPiecesPlain(pieces: seq<string>)
    requires forall i :: 0 <= i < |pieces| ==> '|' !in pieces[i] && ':' !in pieces[i] && NoBreak(pieces[i])
    ensures forall i :: 0 <= i < |StrippedPieces(pieces)| ==>
      ':' !in StrippedPieces(pieces)[i] && NoBreak(StrippedPieces(pieces)[i])
    decreases |pieces|
  {
    if pieces != [] {
      StripChars(pieces[0]);
      NoBreakChars(pieces[0], Strip(pieces[0]));
      StrippedPiecesPlain(pieces[1..]);
    }
  }

  /** Joining clean fragments with `" | "` gives a clean field. */
  lemma {:induction false} JoinIsField(fs: seq<string>)
    requires forall i :: 0 <= i < |fs| ==> IsFragment(fs[i]) && ':' !in fs[i] && NoBreak(fs[i])
    ensures IsField(Join(" | ", fs))
    ensures fs != [] ==> Join(" | ", fs) != []
    decreases |fs|
  {
    if |fs| > 1 {
      var f, rest := fs[0], fs[1..];
      JoinIsField(rest);
      var j := Join(" | ", rest);
      assert Join(" | ", fs) == f + (" | " + j);
      NoBreakConcat(" | ", j);
      NoBreakConcat(f, " | " + j);
    }
  }

  /** The merged example of two clean examples is a clean field. */
  lemma MergedExamplesField(a: string, b: string)
    requires IsField(a) && IsField(b)
    ensures IsField(MergedExamples(a, b))
  {
    FragmentsOfField(a);
    FragmentsOfField(b);
    var fs := SortedFragments(a, b);
    forall i | 0 <= i < |fs| ensures ':' !in fs[i] && NoBreak(fs[i]) {
      var f := fs[i];
      assert f in Fragments(a) || f in Fragments(b);
      if f in Fragments(a) {
        var j :| 0 <= j < |Fragments(a)| && Fragments(a)[j] == f;
      } else {
        var j :| 0 <= j < |Fragments(b)| && Fragments(b)[j] == f;
      }
    }
    JoinIsField(fs);
  }

  /** `merge_new_word_into_dictionary(new_card, dictionary)` */
  function Merge(newCard: Card, dictionary: map<string, Card>): (r: Card)
    ensures newCard.word !in dictionary ==> r == newCard
    ensures newCard.word in dictionary ==> r.word in {newCard.word, dictionary[newCard.word].word}
    // a meaning already covered keeps the existing meaning and example
    ensures newCard.word in dictionary && Contains(dictionary[newCard.word].meaning, newCard.meaning) ==>
      r.meaning == dictionary[newCard.word].meaning && r.example == dictionary[newCard.word].example
    // otherwise the meanings are concatenated and the example is the sorted union of fragments joined by " | "
    ensures newCard.word in dictionary && !Contains(dictionary[newCard.word].meaning, newCard.meaning) ==>
      r.word == newCard.word
      && r.meaning == dictionary[newCard.word].meaning + ", " + newCard.meaning
      && r.example == MergedExamples(dictionary[newCard.word].example, newCard.example)
      && Fragments(r.example) == SortedFragments(dictionary[newCard.word].example, newCard.example)
  {
    var word := newCard.word;
    if word !in dictionary then newCard
    else
      var existing := dictionary[word];
      var mergedExample := MergedExamples(existing.example, newCard.example);
      MergedExamplesFragments(existing.example, newCard.example);
      if Contains(existing.meaning, newCard.meaning) then
        if mergedExample != existing.example then existing
        else Card(word, existing.meaning, mergedExample)
      else
        Card(word, existing.meaning + ", " + newCard.meaning, mergedExample)
  }

  /** Every card is stored under its own word, as in a parsed file. */
  predicate Keyed(dictionary: map<string, Card>) {
    forall k :: k in dictionary ==> dictionary[k].word == k
  }

  /** In a keyed dictionary the merged card keeps the new card's word. */
  lemma MergeKeepsWord(newCard: Card, dictionary: map<string, Card>)
    requires Keyed(dictionary)
    ensures Merge(newCard, dictionary).word == newCard.word
  {
  }

  /** A new meaning that the existing one already contains leaves the existing card
      exactly as it is, even when the new card brings example fragments the existing
      one lacks: the computed union is discarded in that branch. */
  lemma CoveredMeaningKeepsExisting(newCard: Card, dictionary: map<string, Card>)
    requires Keyed(dictionary) && newCard.word in dictionary
    requires Contains(dictionary[newCard.word].meaning, newCard.meaning)
    ensures Merge(newCard, dictionary) == dictionary[newCard.word]
  {
  }

  lemma ContainsEmpty(hay: string)
    ensures Contains(hay, [])
  {
    assert OccursAt(hay, [], 0);
  }

  /** Appending a non-empty clean meaning after `", "` keeps the field clean. */
  lemma JoinedMeaningField(existing: string, added: string)
    requires IsField(existing) && IsField(added) && added != []
    ensures IsField(existing + ", " + added)
  {
    var m := existing + ", " + added;
    assert m == existing + (", " + added);
    NoBreakConcat(", ", added);
    NoBreakConcat(existing, ", " + added);
    assert m[|m| - 1] == added[|added| - 1];
    assert m[0] == if existing == [] then ',' else existing[0];
  }

  /** Merging clean cards gives a clean card, so the merged dictionary can be written
      and read back. */
  lemma MergeClean(newCard: Card, dictionary: map<string, Card>)
    requires CleanCard(newCard)
    requires forall k :: k in dictionary ==> dictionary[k].word == k && CleanCard(dictionary[k])
    ensures CleanCard(Merge(newCard, dictionary))
  {
    var word := newCard.word;
    if word in dictionary {
      var existing := dictionary[word];
      if !Contains(existing.meaning, newCard.meaning) {
        assert newCard.meaning != [] by {
          ContainsEmpty(existing.meaning);
        }
        JoinedMeaningField(existing.meaning, newCard.meaning);
        MergedExamplesField(existing.example, newCard.example);
      }
    }
  }
}
