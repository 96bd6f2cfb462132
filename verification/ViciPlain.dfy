/** The round trip for the dumps that charon sends, spelled out by their characters, and two such dumps. */
module ViciPlain {
  import opened Chars
  import opened Vici
  import opened ViciPrint
  import opened ViciRoundTrip
  import opened Options

  /** A token of letters, digits, `_`, `.` and `-`. */
  predicate IsToken(s: string) {
    s != [] && forall i :: 0 <= i < |s| ==> IsPlain(s[i])
  }

  predicate PlainItems(items: seq<Value>) {
    forall i :: 0 <= i < |items| ==> items[i].Text? && IsToken(items[i].chars)
  }

  predicate PlainValue(v: Value)
    decreases v, 1
  {
    match v
    case Text(s) => s == "" || IsToken(s)
    case Section(es) => PlainEntries(es)
    case Items(items) => PlainItems(items)
    case Missing => false
  }

  /** Distinct tokens as keys, with tokens, nothing, lists of tokens or such sections as values. */
  predicate PlainEntries(es: seq<Entry>)
    decreases es, 0
  {
    es != [] ==>
      && IsToken(es[0].key)
      && (forall i :: 0 < i < |es| ==> es[i].key != es[0].key)
      && PlainValue(es[0].value)
      && PlainEntries(es[1..])
  }

  /** Tokens with blanks between them. */
  predicate PlainTag(tag: string) {
    && tag != [] && IsPlain(tag[0]) && IsPlain(tag[|tag| - 1])
    && forall i :: 0 <= i < |tag| ==> IsPlain(tag[i]) || tag[i] == ' '
  }

  predicate PlainBlank(s: string) {
    forall i :: 0 <= i < |s| ==> s[i] == ' ' || s[i] == '\t' || s[i] == '\r' || s[i] == '\n'
  }

  lemma TokenIsName(s: string)
    requires IsToken(s)
    ensures IsName(s)
  {
    forall i | 0 <= i < |s| ensures IsNameChar(s[i]) {
      PlainIsNoSpace(s[i]);
    }
  }

  lemma PlainItemsValid(items: seq<Value>)
    requires PlainItems(items)
    ensures ValidItems(items)
  {
    hide IsName, IsToken;
    forall i | 0 <= i < |items| ensures items[i].Text? && IsName(items[i].chars) {
      TokenIsName(items[i].chars);
    }
  }

  lemma {:induction false} PlainIsValid(es: seq<Entry>)
    requires PlainEntries(es)
    ensures ValidEntries(es)
    decreases es
  {
    hide IsName, IsToken;
    if es != [] {
      TokenIsName(es[0].key);
      PlainIsValid(es[1..]);
      assert !HasKey(es[1..], es[0].key) by {
        assert forall i :: 0 <= i < |es[1..]| ==> es[1..][i] == es[i + 1];
      }
      match es[0].value
      case Text(s) =>
        if s != "" {
          TokenIsName(s);
        }
      case Section(inner) => PlainIsValid(inner);
      case Items(items) => PlainItemsValid(items);
      case Missing =>
    }
  }

  lemma PlainTagValid(tag: string)
    requires PlainTag(tag)
    ensures ValidTag(tag)
  {
    PlainIsNoSpace(tag[0]);
    PlainIsNoSpace(tag[|tag| - 1]);
  }

  lemma BlankIsSpace(s: string)
    requires PlainBlank(s)
    ensures AllSpace(s)
  {
  }

  /**
   The round trip for labels and trees of letters, digits, `_`, `.` and `-`, with blanks,
   tabs and line ends around the dump: exact, as for all names.
   */
  lemma PlainDumpRoundTrip(pre: string, tag: string, es: seq<Entry>, st: Style, post: string)
    requires PlainBlank(pre) && PlainBlank(post) && IsStyle(st)
    requires PlainTag(tag) && PlainEntries(es)
    ensures Parse(pre + Dump(tag, es, st) + post) == Envelope(tag, Section(es))
       <==> (|tag| >= 2 || !HasSection(es)) && (st == PRETTY || EmptyOnlyLast(es))
  {
    hide Parse, Dump, ValidEntries, EmptyOnlyLast, PlainEntries;
    PlainIsValid(es);
    PlainTagValid(tag);
    BlankIsSpace(pre);
    BlankIsSpace(post);
    DumpRoundTrip(pre, tag, es, st, post);
  }

  // ---------- Two dumps ----------

  const POOL: seq<Entry> := [Entry("base", Text("10.99.0.0")), Entry("size", Text("254"))]

  const POOLS: seq<Entry> := [Entry("vpn", Section(POOL))]

  lemma PoolIsPlain()
    ensures PlainEntries(POOL) && EmptyOnlyLast(POOL)
  {
    assert POOL[1..] == [POOL[1]] && [POOL[1]][1..] == [];
  }

  lemma PoolsArePlain()
    ensures PlainEntries(POOLS) && EmptyOnlyLast(POOLS)
  {
    PoolIsPlain();
    hide POOL;
    assert POOLS[1..] == [];
  }

  /** One printed entry. */
  function Line(lead: string, key: string, assign: string, value: string, term: string): string {
    lead + key + (assign + value + term)
  }

  lemma PoolText(st: Style, ind: nat)
    ensures PrintEntries(POOL, st, ind, true)
      == Line(Indent(ind) + "", "base", st.assign, "10.99.0.0", st.term)
         + (Line(Indent(ind) + st.separ, "size", st.assign, "254", st.term) + "")
  {
    hide Indent;
    PrintCons(POOL, st, ind, true);
    PrintCons(POOL[1..], st, ind, false);
    assert POOL[1..][1..] == [];
    PrintText("10.99.0.0", st, ind);
    PrintText("254", st, ind);
    assert forall l: string, k: string, v: string, r: string :: l + k + v + r == (l + k + v) + r;
  }

  lemma PoolsText(st: Style)
    ensures PrintEntries(POOLS, st, st.delta, true)
      == Line(Indent(st.delta) + "", "vpn", " {", SectionBody(POOL, st, st.delta), st.term) + ""
  {
    hide Indent, POOL, SectionBody;
    PrintCons(POOLS, st, st.delta, true);
    assert POOLS[1..] == [];
    PrintSection(POOL, st, st.delta);
  }

  lemma Indents()
    ensures Indent(0) == "" && Indent(2) == "  " && Indent(4) == "    "
  {
  }

  lemma CompactPool()
    ensures SectionBody(POOL, COMPACT, 0) == "base=10.99.0.0 size=254}"
  {
    hide PrintEntries, Indent, POOL;
    PoolText(COMPACT, 0);
    Indents();
    assert Line("" + "", "base", "=", "10.99.0.0", "") == "base=10.99.0.0";
    assert Line("" + " ", "size", "=", "254", "") + "" == " size=254";
    assert "base=10.99.0.0" + " size=254" == "base=10.99.0.0 size=254";
    assert "" + "base=10.99.0.0 size=254" + "" + "}" == "base=10.99.0.0 size=254}";
  }

  lemma CompactPools()
    ensures SectionBody(POOLS, COMPACT, 0) == "vpn {base=10.99.0.0 size=254}}"
  {
    hide PrintEntries, Indent, POOLS;
    CompactPool();
    PoolsText(COMPACT);
    Indents();
    hide SectionBody;
    VpnText();
    BodyIs(POOLS, COMPACT, "vpn {base=10.99.0.0 size=254}");
  }

  lemma VpnText()
    ensures Line("" + "", "vpn", " {", "base=10.99.0.0 size=254}", "") + "" == "vpn {base=10.99.0.0 size=254}"
    ensures "" + "vpn {base=10.99.0.0 size=254}" + "" + "}" == "vpn {base=10.99.0.0 size=254}}"
  {
  }

  lemma BodyIs(es: seq<Entry>, st: Style, inner: string)
    requires PrintEntries(es, st, st.delta, true) == inner
    ensures SectionBody(es, st, 0) == st.term + inner + Indent(0) + "}"
  {
    assert 0 + st.delta == st.delta;
  }

  lemma ReplyIsTag()
    ensures PlainTag("list-pools reply")
  {
  }

  lemma ReplyText()
    ensures "list-pools reply" + " {" + "vpn {base=10.99.0.0 size=254}}" == "list-pools reply {vpn {base=10.99.0.0 size=254}}"
  {
    var head := "list-pools reply {";
    assert "list-pools reply" + " {" == head;
    assert head + "vpn {base=10.99.0.0 size=254}}" == "list-pools reply {vpn {base=10.99.0.0 size=254}}";
  }

  lemma DumpParses(tag: string, es: seq<Entry>, st: Style, text: string)
    requires IsStyle(st) && PlainTag(tag) && |tag| >= 2 && PlainEntries(es) && EmptyOnlyLast(es)
    requires text == tag + " {" + SectionBody(es, st, 0)
    ensures Parse(text) == Envelope(tag, Section(es))
  {
    hide Parse, PlainEntries, EmptyOnlyLast, SectionBody, PlainTag, HasSection;
    PlainDumpRoundTrip("", tag, es, st, "");
    assert "" + Dump(tag, es, st) + "" == Dump(tag, es, st);
  }

  /** A pool listing as it arrives, in one line. */
  lemma CompactPoolsParse()
    ensures Parse("list-pools reply {vpn {base=10.99.0.0 size=254}}") == Envelope("list-pools reply", Section(POOLS))
  {
    hide Parse, PlainEntries, EmptyOnlyLast, POOL, POOLS, PrintEntries, Indent, SectionBody, PlainTag;
    PoolsArePlain();
    CompactPools();
    ReplyIsTag();
    ReplyText();
    DumpParses("list-pools reply", POOLS, COMPACT, "list-pools reply {vpn {base=10.99.0.0 size=254}}");
  }

  // ---------- What is skipped ----------

  /** Blanks, tabs and line ends are skipped before a name or an item; all other whitespace raises in a section. */
  lemma OnlyGapsAreSkipped(text: string, pos: nat, es: seq<Entry>, pending: Option<string>, items: seq<Value>)
    requires pos < |text|
    ensures text[pos] in " \t\n" ==>
      && SectionFrom(text, pos, es, pending) == SectionFrom(text, pos + 1, es, pending)
      && ItemsFrom(text, pos, items) == ItemsFrom(text, pos + 1, items)
    ensures text[pos] in WHITESPACE && text[pos] !in " \t\n" ==>
      SectionFrom(text, pos, es, pending) == Raise(UnexpectedChar)
  {
    hide Opened, ValueAt, DictSet, IsSpace;
    var c := text[pos];
    SpacesAreThese(c);
    BracketsAreNoSpaces();
    if c in " \t\n" {
      assert c == ' ' || c == '\t' || c == '\n';
    }
  }

  lemma BracketsAreNoSpaces()
    ensures '=' !in WHITESPACE && '{' !in WHITESPACE && '}' !in WHITESPACE && '[' !in WHITESPACE && ']' !in WHITESPACE
  {
    hide WHITESPACE;
    SpacesAreThese('=');
    SpacesAreThese('{');
    SpacesAreThese('}');
    SpacesAreThese('[');
    SpacesAreThese(']');
  }

  /** A value without a key raises, and the error names the character that introduced it. */
  lemma StrayValueRaises(text: string, pos: nat, es: seq<Entry>)
    requires pos < |text| && text[pos] in "={[" && Opened(text, pos).Done?
    ensures SectionFrom(text, pos, es, None) == Raise(
      match text[pos]
      case '=' => StrayEquals
      case '{' => StrayBrace
      case _ => StrayBracket)
  {
    hide Opened, DictSet, IsSpace;
    assert text[pos] == '=' || text[pos] == '{' || text[pos] == '[';
  }
}
