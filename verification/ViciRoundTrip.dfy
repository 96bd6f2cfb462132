/** When a dumped message parses back to the label and the tree it was printed from. */
module ViciRoundTrip {
  import opened Chars
  import opened Vici
  import opened ViciPrint
  import opened Options

  /** The style loses no empty value of these entries. */
  predicate Kept(es: seq<Entry>, st: Style) {
    st == PRETTY || EmptyOnlyLast(es)
  }

  predicate KeptValue(v: Value, st: Style) {
    v.Section? ==> Kept(v.entries, st)
  }

  /** What the text must hold right after a run of entries. */
  ghost predicate BodyEnds(text: string, pos: nat, st: Style) {
    pos < |text| && (text[pos] == '}' || (st == PRETTY && text[pos] == ' '))
  }

  ghost predicate Disjoint(acc: seq<Entry>, es: seq<Entry>) {
    forall i :: 0 <= i < |es| ==> !HasKey(acc, es[i].key)
  }

  lemma DisjointStep(acc: seq<Entry>, es: seq<Entry>)
    requires es != [] && ValidEntries(es) && Disjoint(acc, es)
    ensures DictSet(acc, es[0].key, es[0].value) == acc + [es[0]]
    ensures Disjoint(acc + [es[0]], es[1..])
  {
    forall i | 0 <= i < |es[1..]| ensures !HasKey(acc + [es[0]], es[1..][i].key) {
      assert es[1..][i] == es[i + 1];
      assert es[1..][i].key != es[0].key;
    }
  }

  /** The entries after the first print something that separates them from it. */
  lemma RestSeparates(text: string, pos: nat, rest: seq<Entry>, st: Style, ind: nat)
    requires IsStyle(st)
    requires At(text, pos, PrintEntries(rest, st, ind, false))
    requires BodyEnds(text, pos + |PrintEntries(rest, st, ind, false)|, st)
    ensures Separated(text, pos, st)
  {
    if st == COMPACT && rest != [] {
      assert PrintEntries(rest, st, ind, false)[0] == Lead(st, ind, false)[0];
      assert text[pos] == PrintEntries(rest, st, ind, false)[0];
    }
  }

  lemma PrintText(s: string, st: Style, ind: nat)
    ensures PrintValue(Text(s), st, ind) == st.assign + s + st.term
  {
  }

  lemma PrintSection(es: seq<Entry>, st: Style, ind: nat)
    ensures PrintValue(Section(es), st, ind) == " {" + SectionBody(es, st, ind) + st.term
  {
    assert PrintValue(Section(es), st, ind)
        == " {" + st.term + PrintEntries(es, st, ind + st.delta, true) + Indent(ind) + "}" + st.term;
    hide *;
  }

  lemma PrintCons(es: seq<Entry>, st: Style, ind: nat, first: bool)
    requires es != []
    ensures PrintEntries(es, st, ind, first)
         == Lead(st, ind, first) + es[0].key + PrintValue(es[0].value, st, ind) + PrintEntries(es[1..], st, ind, false)
  {
  }

  /** One entry, key and value, is read and stored. */
  lemma {:induction false} EntryReads(text: string, pos: nat, e: Entry, st: Style, ind: nat, acc: seq<Entry>)
    requires IsStyle(st) && IsName(e.key) && ValidValue(e.value) && KeptValue(e.value, st)
    requires st == COMPACT ==> ind == 0
    requires At(text, pos, e.key) && At(text, pos + |e.key|, PrintValue(e.value, st, ind))
    requires var end := pos + |e.key| + |PrintValue(e.value, st, ind)|;
      Separated(text, end, st) && (e.value == Text("") && st == COMPACT ==> text[end] == '}')
    ensures SectionFrom(text, pos, acc, None)
         == SectionFrom(text, pos + |e.key| + |PrintValue(e.value, st, ind)|, DictSet(acc, e.key, e.value), None)
    decreases e, 1
  {
    hide SectionFrom, ItemsFrom, ValueAt, Opened, PrintValue, PrintEntries, ValidEntries, EmptyOnlyLast;
    match e.value
    case Text(s) =>
      PrintText(s, st, ind);
      TextReads(text, pos, e.key, s, st, acc);
    case Items(items) =>
      ItemsValueReads(text, pos, e.key, items, st, ind, acc);
    case Section(es) =>
      var open := pos + |e.key| + 1;
      SectionOpens(text, pos, e.key, es, st, ind, acc);
      SectionReads(text, open + 1, es, st, ind);
      var close := open + 1 + |SectionBody(es, st, ind)|;
      OpenedSection(text, open);
      StepOpened(text, open, acc, e.key);
      AssignShape(st);
      SkipGaps(text, close, st.term, DictSet(acc, e.key, e.value), None);
  }

  /** A section's print after its opening brace, up to and including its closing one. */
  function SectionBody(es: seq<Entry>, st: Style, ind: nat): string {
    st.term + PrintEntries(es, st, ind + st.delta, true) + Indent(ind) + "}"
  }

  lemma OpenedSection(text: string, pos: nat)
    requires pos < |text| && text[pos] == '{'
    ensures Opened(text, pos) == SectionFrom(text, pos + 1, [], None)
  {
  }

  lemma SectionOpens(text: string, pos: nat, key: string, es: seq<Entry>, st: Style, ind: nat, acc: seq<Entry>)
    requires IsStyle(st) && IsName(key)
    requires At(text, pos, key) && At(text, pos + |key|, PrintValue(Section(es), st, ind))
    ensures var open := pos + |key| + 1;
      && open < |text| && text[open] == '{'
      && SectionFrom(text, pos, acc, None) == SectionFrom(text, open, acc, Some(key))
      && At(text, open + 1, SectionBody(es, st, ind))
      && At(text, open + 1 + |SectionBody(es, st, ind)|, st.term)
      && |key| + |PrintValue(Section(es), st, ind)| == |key| + 2 + |SectionBody(es, st, ind)| + |st.term|
  {
    hide SectionFrom, ItemsFrom, ValueAt, Opened, PrintValue, PrintEntries, SectionBody;
    PrintSection(es, st, ind);
    AtSplit3(text, pos + |key|, " {", SectionBody(es, st, ind), st.term);
    assert " {" == " " + "{";
    AtSplit(text, pos + |key|, " ", "{");
    assert text[pos + |key| + 1] == "{"[0];
    KeyStep(text, pos, key, " ", acc);
  }

  /** A whole section, from one past its `{` to one past its `}`. */
  lemma {:induction false} SectionReads(text: string, pos: nat, es: seq<Entry>, st: Style, ind: nat)
    requires IsStyle(st) && ValidEntries(es) && Kept(es, st)
    requires st == COMPACT ==> ind == 0
    requires At(text, pos, SectionBody(es, st, ind))
    ensures SectionFrom(text, pos, [], None) == Done(Section(es), pos + |SectionBody(es, st, ind)|)
    decreases es, 2
  {
    hide SectionFrom, ItemsFrom, ValueAt, Opened, PrintEntries, ValidEntries, EmptyOnlyLast;
    var inner := PrintEntries(es, st, ind + st.delta, true);
    AtSplit4(text, pos, st.term, inner, Indent(ind), "}");
    var from := pos + |st.term|;
    var close := from + |inner| + |Indent(ind)|;
    assert text[close] == "}"[0];
    assert Indent(ind) != [] ==> text[from + |inner|] == Indent(ind)[0];
    AssignShape(st);
    SkipGaps(text, pos, st.term, [], None);
    EntriesRead(text, from, es, st, ind + st.delta, true, []);
    SkipGaps(text, from + |inner|, Indent(ind), es, None);
    StepClose(text, close, es);
    assert [] + es == es;
  }

  /** Where the pieces of a printed run of entries stand. */
  lemma EntriesUnfold(text: string, pos: nat, es: seq<Entry>, st: Style, ind: nat, first: bool)
    requires es != [] && At(text, pos, PrintEntries(es, st, ind, first))
    ensures var from := pos + |Lead(st, ind, first)|;
      var next := from + |es[0].key| + |PrintValue(es[0].value, st, ind)|;
      && At(text, pos, Lead(st, ind, first))
      && At(text, from, es[0].key)
      && At(text, from + |es[0].key|, PrintValue(es[0].value, st, ind))
      && At(text, next, PrintEntries(es[1..], st, ind, false))
      && pos + |PrintEntries(es, st, ind, first)| == next + |PrintEntries(es[1..], st, ind, false)|
  {
    hide PrintEntries, PrintValue;
    PrintCons(es, st, ind, first);
    AtSplit4(text, pos, Lead(st, ind, first), es[0].key, PrintValue(es[0].value, st, ind),
             PrintEntries(es[1..], st, ind, false));
  }

  lemma NothingPrinted(st: Style, ind: nat, first: bool)
    ensures PrintEntries([], st, ind, first) == []
  {
  }

  lemma EntriesCons(es: seq<Entry>, st: Style, ind: nat)
    requires es != [] && ValidEntries(es) && Kept(es, st)
    ensures IsName(es[0].key) && ValidValue(es[0].value) && ValidEntries(es[1..])
    ensures KeptValue(es[0].value, st) && Kept(es[1..], st)
    ensures st == COMPACT && es[0].value == Text("") ==> PrintEntries(es[1..], st, ind, false) == []
  {
  }

  /** A run of entries is read in order and appended to what was there. */
  lemma {:induction false} EntriesRead(text: string, pos: nat, es: seq<Entry>, st: Style, ind: nat, first: bool,
        acc: seq<Entry>)
    requires IsStyle(st) && ValidEntries(es) && Kept(es, st) && Disjoint(acc, es)
    requires st == COMPACT ==> ind == 0
    requires At(text, pos, PrintEntries(es, st, ind, first))
    requires BodyEnds(text, pos + |PrintEntries(es, st, ind, first)|, st)
    ensures SectionFrom(text, pos, acc, None)
         == SectionFrom(text, pos + |PrintEntries(es, st, ind, first)|, acc + es, None)
    decreases es, 1
  {
    hide SectionFrom, ItemsFrom, ValueAt, Opened, PrintEntries, PrintValue, ValidEntries, ValidValue, EmptyOnlyLast;
    hide At, DictSet, Disjoint, Separated, IsName, HasKey;
    if es == [] {
      assert PrintEntries(es, st, ind, first) == [] by {
        NothingPrinted(st, ind, first);
      }
      assert acc + es == acc;
    } else {
      var e := es[0];
      EntriesUnfold(text, pos, es, st, ind, first);
      EntriesCons(es, st, ind);
      var from := pos + |Lead(st, ind, first)|;
      var next := from + |e.key| + |PrintValue(e.value, st, ind)|;
      AssignShape(st);
      SkipGaps(text, pos, Lead(st, ind, first), acc, None);
      RestSeparates(text, next, es[1..], st, ind);
      EntryReads(text, from, e, st, ind, acc);
      DisjointStep(acc, es);
      EntriesRead(text, next, es[1..], st, ind, false, acc + [e]);
      assert acc + [e] + es[1..] == acc + es;
    }
  }

  // ---------- Empty values the compact form loses ----------

  /** The text after a compact entry: the closing brace, or a blank and the next key. */
  ghost predicate Followed(text: string, pos: nat) {
    pos < |text| && (text[pos] == '}' || (text[pos] == ' ' && pos + 1 < |text| && IsNameChar(text[pos + 1])))
  }

  /** An entry printed right after an empty compact value: its key is taken for
      that value, and what the key should have opened is stray. */
  lemma EmptySwallows(text: string, pos: nat, e: Entry, acc: seq<Entry>)
    requires IsName(e.key) && ValidValue(e.value)
    requires At(text, pos, e.key) && At(text, pos + |e.key|, PrintValue(e.value, COMPACT, 0))
    requires Followed(text, pos + |e.key| + |PrintValue(e.value, COMPACT, 0)|)
    requires e.value.Section? ==> !SectionFrom(text, pos + |e.key| + 2, [], None).Hang?
    ensures NameEnd(text, pos) == pos + |e.key|
    ensures SectionFrom(text, pos + |e.key|, acc, None).Raise?
  {
    hide SectionFrom, ItemsFrom, Opened, PrintEntries, ValidEntries;
    var at := pos + |e.key|;
    var v := PrintValue(e.value, COMPACT, 0);
    assert text[at] == v[0];
    NameEndsAt(text, pos, e.key);
    match e.value
    case Text(s) =>
      AtSplit3(text, at, "=", s, "");
      assert s != "" ==> text[at + 1] == s[0];
      EqualsStray(text, at, acc);
    case Items(items) =>
      ListOpens(text, at, items);
      EqualsStray(text, at, acc);
    case Section(es) =>
      AtSplit3(text, at, " {", SectionBody(es, COMPACT, 0), "") by {
        PrintSection(es, COMPACT, 0);
      }
      assert text[at + 1] == " {"[1];
      SkipGaps(text, at, " ", acc, None);
      OpenedSection(text, at + 1);
      StepStray(text, at + 1, acc, None);
  }

  lemma ListOpens(text: string, at: nat, items: seq<Value>)
    requires ValidItems(items)
    requires At(text, at, PrintValue(Items(items), COMPACT, 0))
    ensures text[at] == '=' && at + 1 < |text| && text[at + 1] == '['
    ensures ItemsFrom(text, at + 2, []).Done?
  {
    hide ItemsFrom, SectionFrom, PrintItems;
    var inner := PrintItems(items, COMPACT, 0, true);
    assert PrintValue(Items(items), COMPACT, 0) == "=" + "[" + "" + inner + Indent(0) + "]" + "";
    assert "=" + "[" + "" + inner + Indent(0) + "]" + "" == "=" + "[" + inner + "]" by { hide *; }
    AtSplit4(text, at, "=", "[", inner, "]");
    assert text[at] == "="[0] && text[at + 1] == "["[0];
    ItemsClose(text, at + 2, items, COMPACT, 0);
  }

  /** `=` with no key pending is stray whatever readable value follows. */
  lemma EqualsStray(text: string, at: nat, acc: seq<Entry>)
    requires at < |text| && text[at] == '='
    requires var from := SkipBlank(text, at + 1);
      from < |text| && text[from] != '{' && (text[from] == '[' ==> ItemsFrom(text, from + 1, []).Done?)
    ensures SectionFrom(text, at, acc, None).Raise?
  {
    hide SectionFrom, ItemsFrom;
    StepStray(text, at, acc, None);
  }

  lemma FollowedBy(text: string, pos: nat, rest: seq<Entry>)
    requires ValidEntries(rest)
    requires At(text, pos, PrintEntries(rest, COMPACT, 0, false))
    requires BodyEnds(text, pos + |PrintEntries(rest, COMPACT, 0, false)|, COMPACT)
    ensures Followed(text, pos)
    ensures rest != [] ==> text[pos] == ' '
  {
    if rest != [] {
      EntriesUnfold(text, pos, rest, COMPACT, 0, false);
      hide PrintEntries, PrintValue, ValidEntries;
      assert text[pos] == Lead(COMPACT, 0, false)[0];
      assert text[pos + 1] == rest[0].key[0];
    }
  }

  /** `key=` with nothing before the blank: the next key becomes its value. */
  lemma EmptyTakesNext(text: string, pos: nat, key: string, rest: seq<Entry>, acc: seq<Entry>)
    requires IsName(key) && At(text, pos, key) && At(text, pos + |key|, "=")
    requires rest != [] && ValidEntries(rest)
    requires At(text, pos + |key| + 1, PrintEntries(rest, COMPACT, 0, false))
    requires BodyEnds(text, pos + |key| + 1 + |PrintEntries(rest, COMPACT, 0, false)|, COMPACT)
    requires var open := pos + |key| + 2 + |rest[0].key| + 2;
      rest[0].value.Section? ==> open <= |text| && !SectionFrom(text, open, [], None).Hang?
    ensures SectionFrom(text, pos, acc, None).Raise?
  {
    hide SectionFrom, ItemsFrom, Opened, PrintEntries, PrintValue, EmptyOnlyLast, ValidEntries;
    var eq := pos + |key|;
    var from := eq + 2;
    var e := rest[0];
    EntriesUnfold(text, eq + 1, rest, COMPACT, 0, false);
    EntriesCons(rest, PRETTY, 0);
    FollowedBy(text, eq + 1, rest);
    var end := from + |e.key| + |PrintValue(e.value, COMPACT, 0)|;
    FollowedBy(text, end, rest[1..]);
    assert text[eq] == "="[0] && text[from] == e.key[0];
    assert SkipBlank(text, eq + 1) == from;
    EmptySwallows(text, from, e, DictSet(acc, key, Text(e.key)));
    AtSlice(text, from, e.key);
    KeyStep(text, pos, key, "", acc);
    OpenedEquals(text, eq);
    StepOpened(text, eq, acc, key);
  }

  lemma OpenedEquals(text: string, pos: nat)
    requires pos < |text| && text[pos] == '='
    ensures Opened(text, pos) == ValueAt(text, SkipBlank(text, pos + 1))
  {
  }

  /** A compact section with an empty value before another entry raises an error. */
  lemma {:induction false} EntriesFail(text: string, pos: nat, es: seq<Entry>, first: bool, acc: seq<Entry>)
    requires ValidEntries(es) && !EmptyOnlyLast(es)
    requires At(text, pos, PrintEntries(es, COMPACT, 0, first))
    requires BodyEnds(text, pos + |PrintEntries(es, COMPACT, 0, first)|, COMPACT)
    ensures SectionFrom(text, pos, acc, None).Raise?
    decreases es, 1
  {
    hide SectionFrom, ItemsFrom, ValueAt, Opened, PrintEntries, PrintValue;
    var e, rest := es[0], es[1..];
    EntriesUnfold(text, pos, es, COMPACT, 0, first);
    EntriesCons(es, PRETTY, 0);
    var from := pos + |Lead(COMPACT, 0, first)|;
    var next := from + |e.key| + |PrintValue(e.value, COMPACT, 0)|;
    SkipGaps(text, pos, Lead(COMPACT, 0, first), acc, None);
    if e.value == Text("") && |es| > 1 {
      PrintText("", COMPACT, 0);
      AtSplit3(text, from + |e.key|, "=", "", "");
      if rest[0].value.Section? {
        SecondNeverHangs(text, next, rest);
      }
      EmptyTakesNext(text, from, e.key, rest, acc);
    } else if e.value.Section? && !EmptyOnlyLast(e.value.entries) {
      SectionOpens(text, from, e.key, e.value.entries, COMPACT, 0, acc);
      var open := from + |e.key| + 1;
      SectionFails(text, open + 1, e.value.entries);
      OpenedSection(text, open);
      StepStray(text, open, acc, Some(e.key));
    } else {
      RestSeparates(text, next, rest, COMPACT, 0);
      EntryReads(text, from, e, COMPACT, 0, acc);
      EntriesFail(text, next, rest, false, DictSet(acc, e.key, e.value));
    }
  }

  lemma {:induction false} SectionFails(text: string, pos: nat, es: seq<Entry>)
    requires ValidEntries(es) && !EmptyOnlyLast(es)
    requires At(text, pos, SectionBody(es, COMPACT, 0))
    ensures SectionFrom(text, pos, [], None).Raise?
    decreases es, 2
  {
    hide SectionFrom, PrintEntries, ValidEntries, EmptyOnlyLast;
    AtSplit4(text, pos, "", PrintEntries(es, COMPACT, 0, true), Indent(0), "}");
    assert text[pos + |PrintEntries(es, COMPACT, 0, true)|] == "}"[0];
    EntriesFail(text, pos, es, true, []);
  }

  lemma {:induction false} SecondNeverHangs(text: string, pos: nat, es: seq<Entry>)
    requires es != [] && ValidEntries(es) && es[0].value.Section?
    requires At(text, pos, PrintEntries(es, COMPACT, 0, false))
    ensures var open := pos + 1 + |es[0].key| + 2;
      open <= |text| && !SectionFrom(text, open, [], None).Hang?
    decreases es, 0
  {
    hide SectionFrom, PrintEntries, PrintValue, EmptyOnlyLast;
    var inner := es[0].value.entries;
    EntriesUnfold(text, pos, es, COMPACT, 0, false);
    EntriesCons(es, PRETTY, 0);
    SectionOpens(text, pos + 1, es[0].key, inner, COMPACT, 0, []);
    var open := pos + 1 + |es[0].key| + 2;
    if EmptyOnlyLast(inner) {
      SectionReads(text, open, inner, COMPACT, 0);
    } else {
      SectionFails(text, open, inner);
    }
  }

  // ---------- The envelope ----------

  /** One whole dump message. */
  function Dump(tag: string, es: seq<Entry>, st: Style): string {
    tag + " {" + SectionBody(es, st, 0)
  }

  /** A label of two or more characters is captured whole. */
  lemma {:induction false} LongLabel(text: string, tag: string, j: nat)
    requires ValidTag(tag) && At(text, 0, tag) && At(text, |tag|, " {") && 1 <= j < |tag|
    ensures LabelEnd(text, j) == |tag| - 1
    decreases |tag| - j
  {
    assert text[|tag|] == " {"[0] && text[|tag| + 1] == " {"[1];
    assert text[|tag| - 1] == tag[|tag| - 1];
    if j < |tag| - 1 {
      var k := SkipSpace(text, j + 1);
      assert k <= |tag| - 1;
      assert text[k] == tag[k];
      LongLabel(text, tag, j + 1);
    } else {
      SkipSpaceRun(text, |tag|, |tag| + 1);
    }
  }

  predicate NoBrace(s: string) {
    forall i :: 0 <= i < |s| ==> s[i] != '{'
  }

  lemma {:induction false} ItemsHaveNoBrace(items: seq<Value>, st: Style, ind: nat, first: bool)
    requires IsStyle(st) && ValidItems(items)
    ensures NoBrace(PrintItems(items, st, ind, first))
  {
    if items != [] {
      ItemsHaveNoBrace(items[1..], st, ind, false);
      assert NoBrace(Lead(st, ind, first)) && NoBrace(items[0].chars);
    }
  }

  lemma ValueHasNoBrace(v: Value, st: Style, ind: nat)
    requires IsStyle(st) && ValidValue(v) && !v.Section?
    ensures NoBrace(PrintValue(v, st, ind))
  {
    hide PrintItems, ValidItems;
    if v.Items? {
      var open, inner := st.assign + "[" + st.term, PrintItems(v.items, st, ind + st.delta, true);
      ItemsHaveNoBrace(v.items, st, ind + st.delta, true);
      assert NoBrace(open) && NoBrace(open + inner) && NoBrace(open + inner + Indent(ind));
    }
  }

  lemma {:induction false} EntriesHaveNoBrace(es: seq<Entry>, st: Style, ind: nat, first: bool)
    requires IsStyle(st) && ValidEntries(es) && !HasSection(es)
    ensures NoBrace(PrintEntries(es, st, ind, first))
    decreases |es|
  {
    if es != [] {
      assert !HasSection(es[1..]) by {
        forall i | 0 <= i < |es[1..]| ensures !es[1..][i].value.Section? {
          assert es[1..][i] == es[i + 1];
        }
      }
      PrintCons(es, st, ind, first);
      EntriesCons(es, PRETTY, ind);
      hide PrintEntries, PrintValue, ValidEntries, ValidValue;
      EntriesHaveNoBrace(es[1..], st, ind, false);
      ValueHasNoBrace(es[0].value, st, ind);
      assert NoBrace(Lead(st, ind, first)) && NoBrace(es[0].key);
    }
  }

  /** The last character of a section's key could close a label. */
  lemma {:induction false} HeaderClosesLabel(text: string, pos: nat, es: seq<Entry>, st: Style, ind: nat, first: bool)
    returns (j: nat)
    requires IsStyle(st) && ValidEntries(es) && HasSection(es)
    requires At(text, pos, PrintEntries(es, st, ind, first))
    ensures pos <= j < |text| && ClosesLabel(text, j)
    decreases |es|
  {
    hide SectionFrom, ItemsFrom, PrintEntries, PrintValue;
    var e := es[0];
    EntriesUnfold(text, pos, es, st, ind, first);
    EntriesCons(es, PRETTY, 0);
    var from := pos + |Lead(st, ind, first)|;
    if e.value.Section? {
      SectionOpens(text, from, e.key, e.value.entries, st, ind, []);
      j := from + |e.key| - 1;
      PrintSection(e.value.entries, st, ind);
      AtSplit3(text, j + 1, " {", SectionBody(e.value.entries, st, ind), st.term);
      assert text[j + 1] == " {"[0] && text[j] == e.key[|e.key| - 1];
      SkipSpaceRun(text, j + 1, j + 2);
    } else {
      var i :| 0 <= i < |es| && es[i].value.Section?;
      assert es[1..][i - 1].value.Section?;
      j := HeaderClosesLabel(text, from + |e.key| + |PrintValue(e.value, st, ind)|, es[1..], st, ind, false);
    }
  }

  lemma BodyEnd(es: seq<Entry>, st: Style)
    ensures SectionBody(es, st, 0) != [] && SectionBody(es, st, 0)[|SectionBody(es, st, 0)| - 1] == '}'
  {
    hide PrintEntries;
  }

  /** Where the pieces of a dump stand. */
  lemma DumpShape(tag: string, es: seq<Entry>, st: Style)
    requires ValidTag(tag)
    ensures var text := Dump(tag, es, st);
      && At(text, 0, tag) && text[..|tag|] == tag
      && At(text, |tag|, " {") && At(text, |tag| + 2, SectionBody(es, st, 0))
      && |text| == |tag| + 2 + |SectionBody(es, st, 0)|
      && !IsSpace(text[0]) && !IsSpace(text[|text| - 1])
      && text[|tag|] == ' ' && text[|tag| + 1] == '{' && SkipSpace(text, |tag|) == |tag| + 1
  {
    hide PrintEntries, SectionBody, SkipSpace, IsSpace, At;
    BodyEnd(es, st);
    LabelAndBody(tag, SectionBody(es, st, 0));
  }

  lemma LabelAndBody(tag: string, body: string)
    requires tag != [] && !IsSpace(tag[0]) && body != [] && body[|body| - 1] == '}'
    ensures var text := tag + " {" + body;
      && At(text, 0, tag) && text[..|tag|] == tag
      && At(text, |tag|, " {") && At(text, |tag| + 2, body)
      && !IsSpace(text[0]) && !IsSpace(text[|text| - 1])
      && text[|tag|] == ' ' && text[|tag| + 1] == '{' && SkipSpace(text, |tag|) == |tag| + 1
  {
    var text := tag + " {" + body;
    assert text[0] == tag[0] && text[|text| - 1] == body[|body| - 1];
    assert text[|tag|] == " {"[0] && text[|tag| + 1] == " {"[1];
    SkipSpaceRun(text, |tag|, |tag| + 1);
  }

  lemma BodyHasNoBrace(es: seq<Entry>, st: Style)
    requires IsStyle(st) && ValidEntries(es) && !HasSection(es)
    ensures NoBrace(SectionBody(es, st, 0))
  {
    EntriesHaveNoBrace(es, st, st.delta, true);
    hide PrintEntries, ValidEntries;
    assert NoBrace(st.term) && NoBrace(Indent(0));
  }

  /** A one-character label is captured alone when no section header follows it. */
  lemma ShortLabelAlone(tag: string, es: seq<Entry>, st: Style)
    requires ValidTag(tag) && |tag| == 1 && IsStyle(st) && ValidEntries(es) && !HasSection(es)
    ensures EnvelopeLabel(Dump(tag, es, st)) == Some(0)
  {
    var text := Dump(tag, es, st);
    var body := SectionBody(es, st, 0);
    DumpShape(tag, es, st);
    BodyHasNoBrace(es, st);
    hide PrintEntries, ValidEntries, SectionBody, Dump;
    forall j | 1 <= j < |text| ensures !ClosesLabel(text, j) {
      var k := SkipSpace(text, j + 1);
      if 2 < k < |text| {
        assert text[k] == body[k - 3];
      }
    }
  }

  lemma LongLabelAlone(tag: string, es: seq<Entry>, st: Style)
    requires ValidTag(tag) && |tag| >= 2
    ensures EnvelopeLabel(Dump(tag, es, st)) == Some(|tag| - 1)
  {
    hide PrintEntries, Dump, SectionBody;
    DumpShape(tag, es, st);
    LongLabel(Dump(tag, es, st), tag, 1);
  }

  /** It is captured together with what follows it when a section header does. */
  lemma ShortLabelOverruns(tag: string, es: seq<Entry>, st: Style)
    requires ValidTag(tag) && |tag| == 1 && IsStyle(st) && ValidEntries(es) && HasSection(es)
    ensures EnvelopeLabel(Dump(tag, es, st)).Some? && EnvelopeLabel(Dump(tag, es, st)).value >= 1
  {
    hide PrintEntries, ValidEntries, Dump, SectionBody, HasSection, ClosesLabel;
    var text := Dump(tag, es, st);
    DumpShape(tag, es, st);
    var j := BodyClosesLabel(text, 3, es, st);
    assert LabelEnd(text, 1) <= j < |text|;
  }

  lemma BodyClosesLabel(text: string, pos: nat, es: seq<Entry>, st: Style) returns (j: nat)
    requires IsStyle(st) && ValidEntries(es) && HasSection(es)
    requires At(text, pos, SectionBody(es, st, 0))
    ensures pos <= j < |text| && ClosesLabel(text, j)
  {
    hide PrintEntries, ValidEntries, HasSection, ClosesLabel;
    AtSplit4(text, pos, st.term, PrintEntries(es, st, st.delta, true), Indent(0), "}");
    j := HeaderClosesLabel(text, pos + |st.term|, es, st, st.delta, true);
  }

  /**
   The round trip, exactly: a dump of `es` under `tag`, in either layout and
   with whitespace around it, parses back to that tag and those entries if and
   only if the label is longer than one character or no section header follows
   it, and the layout is pretty or every empty value ends its section.
   */
  lemma DumpRoundTrip(pre: string, tag: string, es: seq<Entry>, st: Style, post: string)
    requires AllSpace(pre) && AllSpace(post) && IsStyle(st)
    requires ValidTag(tag) && ValidEntries(es)
    ensures Parse(pre + Dump(tag, es, st) + post) == Envelope(tag, Section(es))
       <==> (|tag| >= 2 || !HasSection(es)) && (st == PRETTY || EmptyOnlyLast(es))
  {
    hide SectionFrom, PrintEntries, ValidEntries, EmptyOnlyLast, SectionBody, Dump;
    hide EnvelopeLabel, Strip, SkipSpace, IsSpace, HasSection;
    var text := Dump(tag, es, st);
    DumpShape(tag, es, st);
    StripsTo(pre, text, post);
    if |tag| >= 2 {
      LongLabelAlone(tag, es, st);
    } else if HasSection(es) {
      ShortLabelOverruns(tag, es, st);
    } else {
      ShortLabelAlone(tag, es, st);
    }
    if |tag| >= 2 || !HasSection(es) {
      if Kept(es, st) {
        SectionReads(text, |tag| + 2, es, st, 0);
      } else {
        SectionFails(text, |tag| + 2, es);
      }
    }
  }
}
