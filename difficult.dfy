/**
 * The `yyyy-mm-dd,word` format of the difficult_*.txt review queues:
 * `_parse_difficult_line`, `parse_difficult_text` (a later date wins),
 * `serialize_difficult_map` (sorted by date, then word) and
 * `due_words_from_difficult_map`.
 */
module DifficultQueue {
  import opened Wrappers
  import opened PyText
  import opened Seqs
  import opened OrderedDict
  import opened Dates

  /** A word the queue format holds and gives back: non-empty, stripped, on one line. */
  predicate IsQueueWord(w: string) {
    w != [] && IsStripped(w) && NoBreak(w)
  }

  /** `_parse_difficult_line(line)`: the date and word of one line, or None for a
      blank or `#` line, a line without `,`, an empty field or a date `strptime`
      rejects. */
  function ParseDifficultLine(raw: string): (r: Option<(Date, string)>)
    ensures r.Some? ==> r.value.1 != [] && IsStripped(r.value.1)
  {
    var s := Strip(raw);
    if s == [] || IsComment(s) then None
    else if ',' !in s then None
    else
      var (dPart, wPart) := SplitOnce(s, ',');
      var dStr, word := Strip(dPart), Strip(wPart);
      if dStr == [] || word == [] then None
      else
        match ParseDate(dStr)
        case None => None
        case Some(added) => Some((added, word))
  }

  /** A word read from a line without line breaks is a queue word. */
  lemma ParsedWordClean(raw: string)
    requires NoBreak(raw) && ParseDifficultLine(raw).Some?
    ensures IsQueueWord(ParseDifficultLine(raw).value.1)
  {
    var s := Strip(raw);
    var (dPart, wPart) := SplitOnce(s, ',');
    StripChars(raw);
    NoBreakChars(raw, s);
    SliceChars(s, |dPart| + 1, |s|);
    assert wPart == s[|dPart| + 1..];
    NoBreakChars(s, wPart);
    StripChars(wPart);
    NoBreakChars(wPart, Strip(wPart));
  }

  /** The entry each line yields, line by line. */
  function ParseLines(lines: seq<string>): (r: seq<Option<(Date, string)>>)
    ensures |r| == |lines| && forall i :: 0 <= i < |lines| ==> r[i] == ParseDifficultLine(lines[i])
  {
    seq(|lines|, i requires 0 <= i < |lines| => ParseDifficultLine(lines[i]))
  }

  /** The loop of `parse_difficult_text` over the entries its lines yield: a word
      is assigned when it is new or its date is later than the one kept. */
  function Latest(entries: seq<Option<(Date, string)>>): (m: Dict<string, Date>)
    ensures m.Valid()
    decreases |entries|
  {
    if entries == [] then Empty()
    else
      var m := Latest(entries[..|entries| - 1]);
      match entries[|entries| - 1]
      case None => m
      case Some((d, w)) => Keep(m, d, w)
  }

  /** One step of that loop: assign `w` when it is new or `d` is later than its date. */
  function Keep(m: Dict<string, Date>, d: Date, w: string): (r: Dict<string, Date>)
    requires m.Valid()
    ensures r.Valid()
  {
    if w !in m.vals || Before(m.vals[w], d) then m.Set(w, d) else m
  }

  lemma LatestSnoc(es: seq<Option<(Date, string)>>, e: Option<(Date, string)>)
    ensures Latest(es + [e]) == if e.None? then Latest(es) else Keep(Latest(es), e.value.0, e.value.1)
  {
    assert (es + [e])[..|es|] == es;
  }

  /** `parse_difficult_text(text)` */
  function ParseDifficult(text: string): (m: Dict<string, Date>)
    ensures m.Valid()
  {
    Latest(ParseLines(SplitLines(text)))
  }

  /** One more line either leaves the mapping or keeps its entry. */
  lemma ParseStep(lines: seq<string>, i: int)
    requires 0 <= i < |lines|
    ensures var p := ParseDifficultLine(lines[i]);
      Latest(ParseLines(lines[..i + 1])) ==
        if p.None? then Latest(ParseLines(lines[..i])) else Keep(Latest(ParseLines(lines[..i])), p.value.0, p.value.1)
  {
    assert ParseLines(lines[..i + 1]) == ParseLines(lines[..i]) + [ParseDifficultLine(lines[i])];
    LatestSnoc(ParseLines(lines[..i]), ParseDifficultLine(lines[i]));
  }

  /** The loop of `parse_difficult_text`. */
  method ParseDifficultText(text: string) returns (m: Dict<string, Date>)
    ensures m == ParseDifficult(text)
  {
    var lines := SplitLines(text);
    m := Empty();
    var i := 0;
    while i < |lines|
      invariant 0 <= i <= |lines|
      invariant m == Latest(ParseLines(lines[..i]))
    {
      ParseStep(lines, i);
      var parsed := ParseDifficultLine(lines[i]);
      if parsed.None? {
        i := i + 1;
        continue;
      }
      var (d, w) := parsed.value;
      m := Keep(m, d, w);
      i := i + 1;
    }
    assert lines[..i] == lines;
  }

  /** Every word read from a text is a queue word. */
  lemma ParsedWordsClean(text: string)
    ensures forall w :: w in ParseDifficult(text).vals ==> IsQueueWord(w)
  {
    var lines := SplitLines(text);
    var es := ParseLines(lines);
    forall w | w in Latest(es).vals ensures IsQueueWord(w) {
      var j := LatestKey(es, w);
      ParsedWordClean(lines[j]);
    }
  }

  /** A word is kept exactly when some entry names it. */
  lemma {:induction false} LatestKeys(entries: seq<Option<(Date, string)>>, w: string)
    ensures w in Latest(entries).vals <==>
      exists j :: 0 <= j < |entries| && entries[j].Some? && entries[j].value.1 == w
    decreases |entries|
  {
    if entries != [] {
      var p := entries[..|entries| - 1];
      LatestKeys(p, w);
      assert forall j :: 0 <= j < |p| ==> p[j] == entries[j];
    }
  }

  /** An entry that names a kept word. */
  lemma LatestKey(entries: seq<Option<(Date, string)>>, w: string) returns (j: int)
    requires w in Latest(entries).vals
    ensures 0 <= j < |entries| && entries[j].Some? && entries[j].value.1 == w
  {
    LatestKeys(entries, w);
    j :| 0 <= j < |entries| && entries[j].Some? && entries[j].value.1 == w;
  }

  /** Duplicates keep the latest date: the date kept for a word is the date of one of
      its entries, and no entry for it carries a later date. */
  lemma LatestDateWins(entries: seq<Option<(Date, string)>>, w: string)
    requires w in Latest(entries).vals
    ensures exists j :: 0 <= j < |entries| && entries[j] == Some((Latest(entries).vals[w], w))
    ensures forall j :: 0 <= j < |entries| && entries[j].Some? && entries[j].value.1 == w ==>
      !Before(Latest(entries).vals[w], entries[j].value.0)
  {
    LatestDateIsEntry(entries, w);
    forall j | 0 <= j < |entries| && entries[j].Some? && entries[j].value.1 == w
      ensures !Before(Latest(entries).vals[w], entries[j].value.0)
    {
      LatestDateIsMax(entries, w, j);
    }
  }

  lemma {:induction false} LatestDateIsEntry(entries: seq<Option<(Date, string)>>, w: string)
    requires w in Latest(entries).vals
    ensures exists j :: 0 <= j < |entries| && entries[j] == Some((Latest(entries).vals[w], w))
    decreases |entries|
  {
    var n := |entries| - 1;
    var p := entries[..n];
    var m := Latest(p);
    var kept := Latest(entries).vals[w];
    var e := entries[n];
    if e.Some? && e.value.1 == w && (w !in m.vals || Before(m.vals[w], e.value.0)) {
      assert entries[n] == Some((kept, w));
    } else {
      assert w in m.vals && kept == m.vals[w];
      LatestDateIsEntry(p, w);
      var j :| 0 <= j < n && p[j] == Some((kept, w));
      assert entries[j] == Some((kept, w));
    }
  }

  lemma {:induction false} LatestDateIsMax(entries: seq<Option<(Date, string)>>, w: string, j: int)
    requires w in Latest(entries).vals
    requires 0 <= j < |entries| && entries[j].Some? && entries[j].value.1 == w
    ensures !Before(Latest(entries).vals[w], entries[j].value.0)
    decreases |entries|
  {
    var n := |entries| - 1;
    var p := entries[..n];
    var m := Latest(p);
    var kept := Latest(entries).vals[w];
    var e := entries[n];
    BeforeStrictTotal();
    if j < n {
      assert p[j] == entries[j];
      if w !in m.vals {
        LatestKeys(p, w);
        assert false;
      }
      LatestDateIsMax(p, w, j);
    }
  }

  /** `<` on dates is a strict total order. */
  lemma BeforeStrictTotal()
    ensures forall a: Date :: !Before(a, a)
    ensures forall a: Date, b: Date, c: Date :: Before(a, b) && Before(b, c) ==> Before(a, c)
    ensures forall a: Date, b: Date :: a != b ==> Before(a, b) || Before(b, a)
  {
  }

  // ------------------------------------------------------------------ writing

  /** The key `sorted` uses: `(date, word)`, compared date first, then word. */
  predicate EntryLess(x: (Date, string), y: (Date, string)) {
    Before(x.0, y.0) || (x.0 == y.0 && StrLess(x.1, y.1))
  }

  lemma EntryLessIsStrictTotalOrder()
    ensures StrictTotalOrder(EntryLess)
  {
    StrLessIsStrictTotalOrder();
    BeforeStrictTotal();
    forall x: (Date, string), y: (Date, string) | x != y ensures EntryLess(x, y) || EntryLess(y, x) {
      if x.0 == y.0 {
        assert x.1 != y.1;
      }
    }
  }

  /** `(d, w) for w, d in m.items()` */
  function Items(m: Dict<string, Date>): (r: seq<(Date, string)>)
    requires m.Valid()
    ensures |r| == |m.keys|
  {
    seq(|m.keys|, i requires 0 <= i < |m.keys| => (m.vals[m.keys[i]], m.keys[i]))
  }

  /** The items of a mapping in the order `serialize_difficult_map` writes them. */
  function SortedItems(m: Dict<string, Date>): (r: seq<(Date, string)>)
    requires m.Valid()
    ensures StrictlySorted(r, EntryLess)
    ensures forall x :: x in r <==> x.1 in m.vals && x.0 == m.vals[x.1]
  {
    var items := Items(m);
    var r := Sort(items, EntryLess);
    EntryLessIsStrictTotalOrder();
    SortSorted(items, EntryLess);
    forall x ensures x in r <==> x.1 in m.vals && x.0 == m.vals[x.1] {
      assert x in r <==> x in multiset(r);
      assert x in items <==> x in multiset(items);
      if x.1 in m.vals && x.0 == m.vals[x.1] {
        var i :| 0 <= i < |m.keys| && m.keys[i] == x.1;
        assert items[i] == x;
      }
    }
    r
  }

  /** `f"{d.isoformat()},{w}"` */
  function FormatItem(x: (Date, string)): string {
    IsoFormat(x.0) + "," + x.1
  }

  /** `serialize_difficult_map(m)` */
  function SerializeDifficult(m: Dict<string, Date>): string
    requires m.Valid()
  {
    var items := SortedItems(m);
    Lines(seq(|items|, i requires 0 <= i < |items| => FormatItem(items[i])))
  }

  /** The line of a queue word reads back as its date and word. */
  lemma FormatItemRoundTrip(x: (Date, string))
    requires IsQueueWord(x.1)
    ensures NoBreak(FormatItem(x))
    ensures ParseDifficultLine(FormatItem(x)) == Some(x)
  {
    var (d, w) := x;
    var iso := IsoFormat(d);
    var s := FormatItem(x);
    assert NoBreak(iso) && ',' !in iso && IsStripped(iso) by {
      forall i | 0 <= i < |iso| ensures !IsSpace(iso[i]) && iso[i] != ',' {
        assert IsDigit(iso[i]) || iso[i] == '-';
      }
    }
    assert NoBreak(s) by {
      NoBreakConcat(iso, ",");
      NoBreakConcat(iso + ",", w);
    }
    assert Strip(s) == s by {
      assert s[0] == iso[0];
      assert s[|s| - 1] == w[|w| - 1];
      StrippedIsFixed(s);
    }
    SplitOnceCons(iso, ',', w);
    StrippedIsFixed(iso);
    StrippedIsFixed(w);
    ParseIsoFormat(d);
    assert s[0] == iso[0];
  }

  /** Each item as the entry a line yields. */
  function AsEntries(items: seq<(Date, string)>): (r: seq<Option<(Date, string)>>)
    ensures |r| == |items|
  {
    seq(|items|, i requires 0 <= i < |items| => Some(items[i]))
  }

  /** The words of the items, in order. */
  function ItemWords(items: seq<(Date, string)>): (r: seq<string>)
    ensures |r| == |items|
  {
    seq(|items|, i requires 0 <= i < |items| => items[i].1)
  }

  /** The last item is read last. */
  lemma ItemsSnoc(items: seq<(Date, string)>)
    requires items != []
    ensures var n := |items| - 1;
      Latest(AsEntries(items)) == Keep(Latest(AsEntries(items[..n])), items[n].0, items[n].1)
      && ItemWords(items) == ItemWords(items[..n]) + [items[n].1]
  {
    var n := |items| - 1;
    var es := AsEntries(items[..n]);
    assert AsEntries(items) == es + [Some(items[n])] by {
      forall i | 0 <= i < |items| ensures AsEntries(items)[i] == (es + [Some(items[n])])[i] {
        if i < n { assert items[..n][i] == items[i]; }
      }
    }
    LatestSnoc(es, Some(items[n]));
    ItemWordsSnoc(items);
  }

  lemma ItemWordsSnoc(items: seq<(Date, string)>)
    requires items != []
    ensures ItemWords(items) == ItemWords(items[..|items| - 1]) + [items[|items| - 1].1]
  {
    var n := |items| - 1;
    var ws := ItemWords(items[..n]);
    forall i | 0 <= i < |items| ensures ItemWords(items)[i] == (ws + [items[n].1])[i] {
      if i < n { assert items[..n][i] == items[i]; }
    }
  }

  /** Items with distinct words, one per line, are read back under their words in
      the same order. */
  lemma {:induction false} LatestOfItems(items: seq<(Date, string)>)
    requires forall i, j :: 0 <= i < j < |items| ==> items[i].1 != items[j].1
    ensures Latest(AsEntries(items)).keys == ItemWords(items)
    ensures forall i :: 0 <= i < |items| ==>
      items[i].1 in Latest(AsEntries(items)).vals && Latest(AsEntries(items)).vals[items[i].1] == items[i].0
    decreases |items|
  {
    if items != [] {
      var n := |items| - 1;
      var p, x := items[..n], items[n];
      LatestOfItems(p);
      ItemsSnoc(items);
      assert forall i :: 0 <= i < n ==> p[i].1 != x.1;
      NewItem(Latest(AsEntries(p)), p, x);
      PrefixSnoc(items);
    }
  }

  /** Reading an item whose word no earlier item carries appends that word and
      keeps the earlier items' dates. */
  lemma NewItem(m: Dict<string, Date>, p: seq<(Date, string)>, x: (Date, string))
    requires m.Valid() && m.keys == ItemWords(p)
    requires forall i :: 0 <= i < |p| ==> p[i].1 in m.vals && m.vals[p[i].1] == p[i].0
    requires forall i :: 0 <= i < |p| ==> p[i].1 != x.1
    ensures Keep(m, x.0, x.1) == m.Set(x.1, x.0)
    ensures m.Set(x.1, x.0).keys == ItemWords(p) + [x.1]
    ensures forall i :: 0 <= i < |p + [x]| ==>
      (p + [x])[i].1 in m.Set(x.1, x.0).vals && m.Set(x.1, x.0).vals[(p + [x])[i].1] == (p + [x])[i].0
  {
    assert x.1 !in m.vals;
    var r := m.Set(x.1, x.0);
    forall i | 0 <= i < |p + [x]|
      ensures (p + [x])[i].1 in r.vals && r.vals[(p + [x])[i].1] == (p + [x])[i].0
    {
      if i < |p| {
        assert (p + [x])[i] == p[i];
      }
    }
  }

  /** The sorted items of a mapping carry distinct words. */
  lemma SortedItemsDistinctWords(m: Dict<string, Date>)
    requires m.Valid()
    ensures forall i, j :: 0 <= i < j < |SortedItems(m)| ==> SortedItems(m)[i].1 != SortedItems(m)[j].1
  {
    var items := SortedItems(m);
    EntryLessIsStrictTotalOrder();
    forall i, j | 0 <= i < j < |items| ensures items[i].1 != items[j].1 {
      assert items[i] in items && items[j] in items;
      assert EntryLess(items[i], items[j]);
    }
  }

  /** The lines `serialize_difficult_map` writes for some items. */
  function ItemLines(items: seq<(Date, string)>): (r: seq<string>)
    ensures |r| == |items|
  {
    seq(|items|, i requires 0 <= i < |items| => FormatItem(items[i]))
  }

  /** Each line written for a queue word reads back as its item. */
  lemma ParseItemLinesEach(items: seq<(Date, string)>)
    requires forall i :: 0 <= i < |items| ==> IsQueueWord(items[i].1)
    ensures forall i :: 0 <= i < |items| ==> NoBreak(ItemLines(items)[i])
    ensures ParseLines(ItemLines(items)) == AsEntries(items)
  {
    var lines := ItemLines(items);
    forall i | 0 <= i < |items|
      ensures NoBreak(lines[i]) && ParseDifficultLine(lines[i]) == Some(items[i])
    {
      FormatItemRoundTrip(items[i]);
    }
  }

  /** The lines `serialize_difficult_map` writes read back as the sorted items. */
  lemma ParseItemLines(m: Dict<string, Date>)
    requires m.Valid() && forall w :: w in m.vals ==> IsQueueWord(w)
    ensures ParseDifficult(SerializeDifficult(m)) == Latest(AsEntries(SortedItems(m)))
  {
    var items := SortedItems(m);
    assert forall i :: 0 <= i < |items| ==> IsQueueWord(items[i].1) by {
      forall i | 0 <= i < |items| ensures IsQueueWord(items[i].1) {
        assert items[i] in items;
      }
    }
    ParseItemLinesEach(items);
    assert SerializeDifficult(m) == Lines(ItemLines(items));
    SplitLinesOfLines(ItemLines(items));
  }

  /** Writing a queue and reading it back gives the same word-to-date mapping, with
      the words in the order they were written (by date, then word). */
  lemma SerializeDifficultRoundTrip(m: Dict<string, Date>)
    requires m.Valid() && forall w :: w in m.vals ==> IsQueueWord(w)
    ensures ParseDifficult(SerializeDifficult(m)).vals == m.vals
    ensures ParseDifficult(SerializeDifficult(m)).keys == ItemWords(SortedItems(m))
  {
    ParseItemLines(m);
    SortedItemsDistinctWords(m);
    LatestOfItems(SortedItems(m));
    SameVals(m, SortedItems(m), Latest(AsEntries(SortedItems(m))));
  }

  /** A mapping holding each item of `m` under its word, and keyed by those words
      alone, has the values of `m`. */
  lemma SameVals(m: Dict<string, Date>, items: seq<(Date, string)>, back: Dict<string, Date>)
    requires forall x :: x in items <==> x.1 in m.vals && x.0 == m.vals[x.1]
    requires back.keys == ItemWords(items) && back.Valid()
    requires forall i :: 0 <= i < |items| ==> items[i].1 in back.vals && back.vals[items[i].1] == items[i].0
    ensures back.vals == m.vals
  {
    forall w ensures w in back.vals <==> w in m.vals {
      if w in m.vals {
        assert (m.vals[w], w) in items;
      }
      if w in back.vals {
        var i :| 0 <= i < |back.keys| && back.keys[i] == w;
        assert items[i] in items;
      }
    }
    forall w | w in m.vals ensures back.vals[w] == m.vals[w] {
      assert (m.vals[w], w) in items;
    }
  }

  // ------------------------------------------------------------------ due words

  /** `added + timedelta(days=interval)` leaves the range of `date` (OverflowError). */
  predicate AddOverflows(added: Date, interval: int) {
    !(1 <= Ordinal(added) + interval <= MaxOrdinal)
  }

  /** `added + timedelta(days=interval) <= today` */
  predicate IsDue(added: Date, interval: int, today: Date) {
    Ordinal(added) + interval <= Ordinal(today)
  }

  /** The loop of `due_words_from_difficult_map` over the words `ks`, in order. */
  function DueOf(ks: seq<string>, vals: map<string, Date>, interval: int, today: Date): (r: Result<seq<string>>)
    requires forall k :: k in ks ==> k in vals
    ensures r.Failed? ==> r.failure == DateOverflow
    decreases |ks|
  {
    if ks == [] then Success([])
    else
      var p, w := ks[..|ks| - 1], ks[|ks| - 1];
      assert forall k :: k in p ==> k in ks;
      match DueOf(p, vals, interval, today)
      case Failed(f) => Failed(f)
      case Success(due) =>
        if AddOverflows(vals[w], interval) then Failed(DateOverflow)
        else if IsDue(vals[w], interval, today) then Success(due + [w])
        else Success(due)
  }

  /** `due_words_from_difficult_map(m, interval_days=interval, today=today)` */
  function DueWords(m: Dict<string, Date>, interval: int, today: Date): Result<seq<string>>
    requires m.Valid()
  {
    DueOf(m.keys, m.vals, interval, today)
  }

  /** The loop of `due_words_from_difficult_map`. */
  method DueWordsFromDifficultMap(m: Dict<string, Date>, interval: int, today: Date) returns (r: Result<seq<string>>)
    requires m.Valid()
    ensures r == DueWords(m, interval, today)
  {
    var due: seq<string> := [];
    var i := 0;
    while i < |m.keys|
      invariant 0 <= i <= |m.keys|
      invariant DueOf(m.keys[..i], m.vals, interval, today) == Success(due)
    {
      DueStep(m.keys, i, m.vals, interval, today);
      var w := m.keys[i];
      var added := m.vals[w];
      var o := Ordinal(added) + interval;
      if !(1 <= o <= MaxOrdinal) {
        DueFailedExtends(m.keys, i + 1, m.vals, interval, today);
        return Failed(DateOverflow);
      }
      if o <= Ordinal(today) {
        due := due + [w];
      }
      i := i + 1;
    }
    assert m.keys[..i] == m.keys;
    r := Success(due);
  }

  /** One more word either raises, adds the word, or leaves the due list. */
  lemma DueStep(ks: seq<string>, i: int, vals: map<string, Date>, interval: int, today: Date)
    requires 0 <= i < |ks| && forall k :: k in ks ==> k in vals
    ensures forall k :: k in ks[..i] ==> k in vals
    ensures forall k :: k in ks[..i + 1] ==> k in vals
    ensures DueOf(ks[..i], vals, interval, today).Success? ==>
      DueOf(ks[..i + 1], vals, interval, today) ==
        if AddOverflows(vals[ks[i]], interval) then Failed(DateOverflow)
        else if IsDue(vals[ks[i]], interval, today) then Success(DueOf(ks[..i], vals, interval, today).value + [ks[i]])
        else DueOf(ks[..i], vals, interval, today)
  {
    assert forall k :: k in ks[..i + 1] ==> k in ks;
    assert ks[..i + 1][..i] == ks[..i];
  }

  /** Once the loop has raised, the rest of the words cannot undo it. */
  lemma {:induction false} DueFailedExtends(ks: seq<string>, n: int, vals: map<string, Date>, interval: int, today: Date)
    requires 0 <= n <= |ks| && forall k :: k in ks ==> k in vals
    requires DueOf(ks[..n], vals, interval, today).Failed?
    ensures DueOf(ks, vals, interval, today).Failed?
    decreases |ks| - n
  {
    if n < |ks| {
      assert ks[..n + 1][..n] == ks[..n];
      DueFailedExtends(ks, n + 1, vals, interval, today);
    } else {
      assert ks[..n] == ks;
    }
  }

  /** The due list fails exactly when adding the interval to some word's date
      overflows; otherwise it holds the due words, in mapping order. */
  lemma {:induction false} DueOfMeaning(ks: seq<string>, vals: map<string, Date>, interval: int, today: Date)
    requires forall k :: k in ks ==> k in vals
    ensures DueOf(ks, vals, interval, today).Failed? <==>
      exists k :: k in ks && AddOverflows(vals[k], interval)
    ensures DueOf(ks, vals, interval, today).Success? ==>
      DueOf(ks, vals, interval, today).value == Filter(ks, vals, interval, today)
    decreases |ks|
  {
    if ks != [] {
      var p, w := ks[..|ks| - 1], ks[|ks| - 1];
      assert ks == p + [w];
      assert forall k :: k in p ==> k in ks;
      DueOfMeaning(p, vals, interval, today);
    }
  }

  /** `[w for w in ks if added(w) + interval <= today]` */
  function Filter(ks: seq<string>, vals: map<string, Date>, interval: int, today: Date): (r: seq<string>)
    requires forall k :: k in ks ==> k in vals
    ensures forall w :: w in r <==> w in ks && IsDue(vals[w], interval, today)
    decreases |ks|
  {
    if ks == [] then []
    else
      var p, w := ks[..|ks| - 1], ks[|ks| - 1];
      assert ks == p + [w];
      Filter(p, vals, interval, today) + (if IsDue(vals[w], interval, today) then [w] else [])
  }
}
