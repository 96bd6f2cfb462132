/**
 charon's two dump layouts, compact and pretty, and exactly when the parser
 of module Vici reads each of them back.
 */
module ViciPrint {
  import opened Chars
  import opened Vici
  import opened Options

  datatype Style = Style(assign: string, separ: string, term: string, delta: nat)

  const COMPACT := Style("=", " ", "", 0)
  const PRETTY := Style(" = ", "", "\n", 2)

  function Indent(n: nat): (r: string)
    ensures |r| == n && forall i :: 0 <= i < n ==> r[i] == ' '
  {
    seq(n, i => ' ')
  }

  function Lead(st: Style, ind: nat, first: bool): string {
    Indent(ind) + (if first then "" else st.separ)
  }

  function PrintItems(items: seq<Value>, st: Style, ind: nat, first: bool): string {
    if items == [] || !items[0].Text? then ""
    else
      Lead(st, ind, first) + items[0].chars + st.term
      + PrintItems(items[1..], st, ind, false)
  }

  /** Everything the dump writes for one entry after its key. */
  function PrintValue(v: Value, st: Style, ind: nat): string
    decreases v, 1
  {
    match v
    case Text(s) => st.assign + s + st.term
    case Section(es) => " {" + st.term + PrintEntries(es, st, ind + st.delta, true) + Indent(ind) + "}" + st.term
    case Items(items) => st.assign + "[" + st.term + PrintItems(items, st, ind + st.delta, true) + Indent(ind) + "]" + st.term
    case Missing => ""
  }

  function PrintEntries(es: seq<Entry>, st: Style, ind: nat, first: bool): string
    decreases es, 0
  {
    if es == [] then ""
    else
      Lead(st, ind, first) + es[0].key + PrintValue(es[0].value, st, ind)
      + PrintEntries(es[1..], st, ind, false)
  }

  // ---------- The trees a message can carry ----------

  predicate ValidItems(items: seq<Value>) {
    forall i :: 0 <= i < |items| ==> items[i].Text? && IsName(items[i].chars)
  }

  predicate ValidValue(v: Value)
    decreases v, 1
  {
    match v
    case Text(s) => s == "" || IsName(s)
    case Section(es) => ValidEntries(es)
    case Items(items) => ValidItems(items)
    case Missing => false
  }

  /** Keys are distinct names; values are tokens (possibly empty), sections or lists of tokens. */
  predicate ValidEntries(es: seq<Entry>)
    decreases es, 0
  {
    es != [] ==>
      && IsName(es[0].key)
      && !HasKey(es[1..], es[0].key)
      && ValidValue(es[0].value)
      && ValidEntries(es[1..])
  }

  /** Every empty value is the last entry of its section. */
  predicate EmptyOnlyLast(es: seq<Entry>)
    decreases es, 0
  {
    es != [] ==>
      && (es[0].value == Text("") ==> |es| == 1)
      && (es[0].value.Section? ==> EmptyOnlyLast(es[0].value.entries))
      && EmptyOnlyLast(es[1..])
  }

  predicate HasSection(es: seq<Entry>) {
    exists i :: 0 <= i < |es| && es[i].value.Section?
  }

  predicate ValidTag(tag: string) {
    && tag != [] && !IsSpace(tag[0]) && !IsSpace(tag[|tag| - 1])
    && forall i :: 0 <= i < |tag| ==> tag[i] != '{'
  }

  predicate IsStyle(st: Style) {
    st == COMPACT || st == PRETTY
  }

  // ---------- Lexing facts ----------

  predicate IsGaps(s: string) {
    forall i :: 0 <= i < |s| ==> IsGap(s[i])
  }

  lemma {:induction false} SkipGaps(text: string, pos: nat, gap: string, es: seq<Entry>, pending: Option<string>)
    requires At(text, pos, gap) && IsGaps(gap)
    ensures SectionFrom(text, pos, es, pending) == SectionFrom(text, pos + |gap|, es, pending)
    decreases |gap|
  {
    if gap != [] {
      assert text[pos] == gap[0];
      SkipGaps(text, pos + 1, gap[1..], es, pending);
    }
  }

  lemma {:induction false} SkipGapsInList(text: string, pos: nat, gap: string, items: seq<Value>)
    requires At(text, pos, gap) && IsGaps(gap)
    ensures ItemsFrom(text, pos, items) == ItemsFrom(text, pos + |gap|, items)
    decreases |gap|
  {
    if gap != [] {
      assert text[pos] == gap[0];
      SkipGapsInList(text, pos + 1, gap[1..], items);
    }
  }

  lemma {:induction false} SkipsGap(text: string, pos: nat, gap: string)
    requires At(text, pos, gap) && IsGaps(gap)
    requires pos + |gap| == |text| || !IsGap(text[pos + |gap|])
    ensures SkipGap(text, pos) == pos + |gap|
    decreases |gap|
  {
    if gap != [] {
      assert text[pos] == gap[0];
      SkipsGap(text, pos + 1, gap[1..]);
    }
  }

  lemma {:induction false} NameEndsAt(text: string, pos: nat, name: string)
    requires At(text, pos, name) && forall i :: 0 <= i < |name| ==> IsNameChar(name[i])
    requires pos + |name| == |text| || !IsNameChar(text[pos + |name|])
    ensures NameEnd(text, pos) == pos + |name| && text[pos..NameEnd(text, pos)] == name
    decreases |name|
  {
    if name != [] {
      assert text[pos] == name[0];
      NameEndsAt(text, pos + 1, name[1..]);
    }
    AtSlice(text, pos, name);
  }

  // ---------- Single steps of the parser ----------

  lemma KeyStep(text: string, pos: nat, key: string, gap: string, acc: seq<Entry>)
    requires IsName(key) && At(text, pos, key)
    requires IsGaps(gap) && At(text, pos + |key|, gap)
    requires pos + |key| + |gap| < |text| && Opens(text[pos + |key| + |gap|])
    ensures SectionFrom(text, pos, acc, None) == SectionFrom(text, pos + |key| + |gap|, acc, Some(key))
  {
    assert text[pos] == key[0];
    assert gap != [] ==> text[pos + |key|] == gap[0];
    NameEndsAt(text, pos, key);
    SkipsGap(text, pos + |key|, gap);
  }

  lemma StepOpened(text: string, pos: nat, acc: seq<Entry>, key: string)
    requires pos < |text| && Opens(text[pos]) && Opened(text, pos).Done?
    ensures var r := Opened(text, pos);
      SectionFrom(text, pos, acc, Some(key)) == SectionFrom(text, r.pos, DictSet(acc, key, r.value), None)
  {
  }

  lemma StepStray(text: string, pos: nat, acc: seq<Entry>, pending: Option<string>)
    requires pos < |text| && Opens(text[pos])
    requires Opened(text, pos).Raise? || (Opened(text, pos).Done? && pending.None?)
    ensures SectionFrom(text, pos, acc, pending).Raise?
  {
  }

  lemma StepClose(text: string, pos: nat, acc: seq<Entry>)
    requires pos < |text| && text[pos] == '}'
    ensures SectionFrom(text, pos, acc, None) == Done(Section(acc), pos + 1)
  {
  }

  lemma StepListClose(text: string, pos: nat, acc: seq<Value>)
    requires pos < |text| && text[pos] == ']'
    ensures ItemsFrom(text, pos, acc) == Done(Items(acc), pos + 1)
  {
  }

  lemma StepItem(text: string, pos: nat, item: string, acc: seq<Value>)
    requires IsName(item) && At(text, pos, item)
    requires pos + |item| == |text| || !IsNameChar(text[pos + |item|])
    ensures ItemsFrom(text, pos, acc) == ItemsFrom(text, pos + |item|, acc + [Text(item)])
  {
    assert text[pos] == item[0];
    NameEndsAt(text, pos, item);
  }

  // ---------- Reading one value back ----------

  /** The blanks a style writes on each side of its `=`. */
  function Pad(st: Style): (r: string)
    ensures IsGaps(r)
  {
    if st == PRETTY then " " else ""
  }

  lemma AssignShape(st: Style)
    requires IsStyle(st)
    ensures st.assign == Pad(st) + "=" + Pad(st) && IsGaps(st.term) && IsGaps(st.separ)
  {
  }

  /** The first character after an entry or a section body. */
  predicate Separated(text: string, pos: nat, st: Style) {
    st == PRETTY || (pos < |text| && (text[pos] == ' ' || text[pos] == '}'))
  }

  /** `key = ` or `key=`: the parser reaches the value with the key pending. */
  lemma AssignReads(text: string, pos: nat, key: string, st: Style, acc: seq<Entry>)
    requires IsStyle(st) && IsName(key)
    requires At(text, pos, key) && At(text, pos + |key|, st.assign)
    requires var from := pos + |key| + |st.assign|; from < |text| && !IsBlank(text[from])
    ensures var eq := pos + |key| + |Pad(st)|;
      && eq < |text| && text[eq] == '='
      && SectionFrom(text, pos, acc, None) == SectionFrom(text, eq, acc, Some(key))
      && Opened(text, eq) == ValueAt(text, pos + |key| + |st.assign|)
  {
    hide SectionFrom, ItemsFrom, ValueAt;
    var pad := Pad(st);
    AssignShape(st);
    AtSplit3(text, pos + |key|, pad, "=", pad);
    var eq := pos + |key| + |pad|;
    assert text[eq] == "="[0];
    assert pad != [] ==> text[eq + 1] == pad[0];
    assert SkipBlank(text, eq + 1) == eq + 1 + |pad|;
    KeyStep(text, pos, key, pad, acc);
  }

  lemma TextAt(text: string, pos: nat, s: string, st: Style)
    requires IsStyle(st) && (s == "" || IsName(s)) && At(text, pos, s) && At(text, pos + |s|, st.term)
    requires var end := pos + |s| + |st.term|;
      Separated(text, end, st) && (s == "" && st == COMPACT ==> text[end] == '}')
    ensures pos < |text| && !IsBlank(text[pos])
    ensures ValueAt(text, pos) == Done(Text(s), pos + |s|)
  {
    assert s != "" ==> text[pos] == s[0];
    assert st == PRETTY ==> text[pos + |s|] == st.term[0];
    NameEndsAt(text, pos, s);
  }

  lemma TextReads(text: string, pos: nat, key: string, s: string, st: Style, acc: seq<Entry>)
    requires IsStyle(st) && IsName(key) && (s == "" || IsName(s))
    requires At(text, pos, key) && At(text, pos + |key|, st.assign + s + st.term)
    requires var end := pos + |key| + |st.assign| + |s| + |st.term|;
      Separated(text, end, st) && (s == "" && st == COMPACT ==> text[end] == '}')
    ensures SectionFrom(text, pos, acc, None)
         == SectionFrom(text, pos + |key| + |st.assign| + |s| + |st.term|, DictSet(acc, key, Text(s)), None)
  {
    hide SectionFrom, ItemsFrom, ValueAt, Opened;
    AtSplit3(text, pos + |key|, st.assign, s, st.term);
    var from := pos + |key| + |st.assign|;
    TextAt(text, from, s, st);
    AssignReads(text, pos, key, st, acc);
    StepOpened(text, pos + |key| + |Pad(st)|, acc, key);
    AssignShape(st);
    SkipGaps(text, from + |s|, st.term, DictSet(acc, key, Text(s)), None);
  }

  lemma {:induction false} ItemsRead(text: string, pos: nat, items: seq<Value>, st: Style, ind: nat, first: bool,
        acc: seq<Value>)
    requires IsStyle(st) && ValidItems(items)
    requires At(text, pos, PrintItems(items, st, ind, first))
    requires var end := pos + |PrintItems(items, st, ind, first)|;
      st == PRETTY || (end < |text| && text[end] == ']')
    ensures ItemsFrom(text, pos, acc) == ItemsFrom(text, pos + |PrintItems(items, st, ind, first)|, acc + items)
    decreases |items|
  {
    hide ItemsFrom, IsName, IsNameChar, IsSpace, Indent;
    if items == [] {
      assert acc + items == acc;
    } else {
      var lead := Lead(st, ind, first);
      var s := items[0].chars;
      AtSplit4(text, pos, lead, s, st.term, PrintItems(items[1..], st, ind, false));
      AssignShape(st);
      SkipGapsInList(text, pos, lead, acc);
      var after := pos + |lead| + |s|;
      ItemEnds(text, after, items[1..], st, ind);
      StepItem(text, pos + |lead|, s, acc);
      SkipGapsInList(text, after, st.term, acc + [items[0]]);
      ItemsRead(text, after + |st.term|, items[1..], st, ind, false, acc + [items[0]]);
      assert acc + [items[0]] + items[1..] == acc + items;
    }
  }

  /** A token of a list is followed by a line end, a separator or the closing bracket. */
  lemma ItemEnds(text: string, pos: nat, rest: seq<Value>, st: Style, ind: nat)
    requires IsStyle(st) && ValidItems(rest)
    requires At(text, pos, st.term) && At(text, pos + |st.term|, PrintItems(rest, st, ind, false))
    requires var end := pos + |st.term| + |PrintItems(rest, st, ind, false)|;
      st == PRETTY || (end < |text| && text[end] == ']')
    ensures pos < |text| && !IsNameChar(text[pos])
  {
    if st == PRETTY {
      assert text[pos] == st.term[0];
    } else if rest != [] {
      assert text[pos] == PrintItems(rest, st, ind, false)[0];
    }
  }

  lemma ItemsValueReads(text: string, pos: nat, key: string, items: seq<Value>, st: Style, ind: nat, acc: seq<Entry>)
    requires IsStyle(st) && IsName(key) && ValidItems(items) && (st == COMPACT ==> ind == 0)
    requires At(text, pos, key) && At(text, pos + |key|, PrintValue(Items(items), st, ind))
    ensures SectionFrom(text, pos, acc, None)
         == SectionFrom(text, pos + |key| + |PrintValue(Items(items), st, ind)|, DictSet(acc, key, Items(items)), None)
  {
    hide SectionFrom, ItemsFrom, Opened, PrintItems, ValidItems, IsName, IsSpace, SkipBlank, DictSet;
    var open := st.assign + "[" + st.term;
    var inner := PrintItems(items, st, ind + st.delta, true);
    var close := Indent(ind);
    AtSplit3(text, pos + |key|, open + inner + close, "]", st.term);
    AtSplit3(text, pos + |key|, open, inner, close);
    AtSplit3(text, pos + |key|, st.assign, "[", st.term);
    var from := pos + |key| + |st.assign|;
    assert text[from] == "["[0];
    AssignShape(st);
    SkipGapsInList(text, from + 1, st.term, []);
    ItemsClose(text, from + 1 + |st.term|, items, st, ind);
    AssignReads(text, pos, key, st, acc);
    StepOpened(text, pos + |key| + |Pad(st)|, acc, key);
    SkipGaps(text, pos + |key| + |open + inner + close| + 1, st.term, DictSet(acc, key, Items(items)), None);
  }

  /** From the first item to one past the closing bracket. */
  lemma ItemsClose(text: string, pos: nat, items: seq<Value>, st: Style, ind: nat)
    requires IsStyle(st) && ValidItems(items) && (st == COMPACT ==> ind == 0)
    requires var inner := PrintItems(items, st, ind + st.delta, true);
      && At(text, pos, inner)
      && At(text, pos + |inner|, Indent(ind))
      && At(text, pos + |inner| + |Indent(ind)|, "]")
    ensures ItemsFrom(text, pos, [])
         == Done(Items(items), pos + |PrintItems(items, st, ind + st.delta, true)| + |Indent(ind)| + 1)
  {
    hide ItemsFrom, PrintItems, ValidItems;
    var inner := PrintItems(items, st, ind + st.delta, true);
    assert text[pos + |inner| + |Indent(ind)|] == "]"[0];
    ItemsRead(text, pos, items, st, ind + st.delta, true, []);
    SkipGapsInList(text, pos + |inner|, Indent(ind), items);
    StepListClose(text, pos + |inner| + |Indent(ind)|, items);
    assert [] + items == items;
  }
}
