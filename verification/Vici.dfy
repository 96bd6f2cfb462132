/**
 The text parser for charon's VICI dumps (quota/quota-exporter.py).

 `SectionFrom`, `ValueAt` and `ItemsFrom` say what the parser computes from a
 position, its open dictionary and its pending key; `ViciSection`, `ViciValue`
 and `ViciItems` are the position-passing loops, proved to compute just that.
 A list loop whose item parser does not move repeats the same state for ever:
 that outcome is `Hang`.
 */
module Vici {
  import opened Chars
  import opened Options

  /** A parsed value. A dictionary keeps its insertion order, as Python's does. */
  datatype Value =
    | Text(chars: string)
    | Section(entries: seq<Entry>)
    | Items(items: seq<Value>)
    | Missing

  datatype Entry = Entry(key: string, value: Value)

  datatype Error =
    | NoEnvelope
    | StrayEquals
    | StrayBrace
    | StrayBracket
    | UnexpectedChar
    | Unterminated

  datatype Outcome =
    | Done(value: Value, pos: nat)
    | Raise(error: Error)
    | Hang

  predicate IsBlank(c: char) {
    c == ' ' || c == '\t'
  }

  predicate IsGap(c: char) {
    IsBlank(c) || c == '\n'
  }

  predicate IsNameChar(c: char) {
    !IsSpace(c) && c != '=' && c != '{' && c != '}' && c != '[' && c != ']'
  }

  predicate IsName(s: string) {
    s != [] && forall i :: 0 <= i < |s| ==> IsNameChar(s[i])
  }

  /** The characters that give the name before them a value. */
  predicate Opens(c: char) {
    c == '=' || c == '{' || c == '['
  }

  function Stray(c: char): Error {
    if c == '=' then StrayEquals else if c == '{' then StrayBrace else StrayBracket
  }

  predicate HasKey(entries: seq<Entry>, key: string) {
    exists i :: 0 <= i < |entries| && entries[i].key == key
  }

  /** `result[key] = value` on an insertion-ordered dictionary. */
  function DictSet(entries: seq<Entry>, key: string, value: Value): (r: seq<Entry>)
    ensures !HasKey(entries, key) ==> r == entries + [Entry(key, value)]
  {
    if entries == [] then [Entry(key, value)]
    else if entries[0].key == key then [Entry(key, value)] + entries[1..]
    else
      assert HasKey(entries[1..], key) ==> HasKey(entries, key) by {
        if i :| 0 <= i < |entries[1..]| && entries[1..][i].key == key {
          assert entries[i + 1].key == key;
        }
      }
      [entries[0]] + DictSet(entries[1..], key, value)
  }

  function SkipBlank(text: string, pos: nat): (r: nat)
    requires pos <= |text|
    ensures pos <= r <= |text|
    decreases |text| - pos
  {
    if pos < |text| && IsBlank(text[pos]) then SkipBlank(text, pos + 1) else pos
  }

  function SkipGap(text: string, pos: nat): (r: nat)
    requires pos <= |text|
    ensures pos <= r <= |text|
    decreases |text| - pos
  {
    if pos < |text| && IsGap(text[pos]) then SkipGap(text, pos + 1) else pos
  }

  /** One past the longest name starting at `pos`. */
  function NameEnd(text: string, pos: nat): (r: nat)
    requires pos <= |text|
    ensures pos <= r <= |text|
    ensures pos < |text| && IsNameChar(text[pos]) ==> pos < r
    ensures forall i :: pos <= i < r ==> IsNameChar(text[i])
    decreases |text| - pos
  {
    if pos < |text| && IsNameChar(text[pos]) then NameEnd(text, pos + 1) else pos
  }

  /** The section loop from position `pos` with dictionary `entries` and key `pending`. */
  function SectionFrom(text: string, pos: nat, entries: seq<Entry>, pending: Option<string>): (r: Outcome)
    requires pos <= |text|
    ensures r.Done? ==> r.value.Section? && pos < r.pos <= |text|
    decreases |text| - pos, 2
  {
    if pos == |text| then
      Raise(Unterminated)
    else
      var c := text[pos];
      if c == '}' || c == ']' then
        Done(Section(entries), pos + 1)
      else if IsGap(c) then
        SectionFrom(text, pos + 1, entries, pending)
      else if Opens(c) then
        var r := Opened(text, pos);
        if !r.Done? then r
        else if pending.None? then Raise(Stray(c))
        else SectionFrom(text, r.pos, DictSet(entries, pending.value, r.value), None)
      else if !IsNameChar(c) then
        Raise(UnexpectedChar)
      else
        var end := NameEnd(text, pos);
        var next := SkipGap(text, end);
        if next < |text| && Opens(text[next]) then
          SectionFrom(text, next, entries, Some(text[pos..end]))
        else
          SectionFrom(text, next, DictSet(entries, text[pos..end], Missing), pending)
  }

  /** What the equals sign or opening bracket at `pos` introduces. */
  function Opened(text: string, pos: nat): (r: Outcome)
    requires pos < |text| && Opens(text[pos])
    ensures r.Done? ==> pos < r.pos <= |text|
    decreases |text| - pos, 1
  {
    if text[pos] == '=' then ValueAt(text, SkipBlank(text, pos + 1))
    else if text[pos] == '{' then SectionFrom(text, pos + 1, [], None)
    else ItemsFrom(text, pos + 1, [])
  }

  /** The value that starts at `pos`; nothing is consumed when none does. */
  function ValueAt(text: string, pos: nat): (r: Outcome)
    requires pos <= |text|
    ensures r.Done? ==> pos <= r.pos <= |text|
    ensures r.Done? && pos < |text| && (IsNameChar(text[pos]) || text[pos] == '{' || text[pos] == '[') ==> pos < r.pos
    decreases |text| - pos, 0
  {
    if pos == |text| then Done(Text(""), pos)
    else if text[pos] == '{' then SectionFrom(text, pos + 1, [], None)
    else if text[pos] == '[' then ItemsFrom(text, pos + 1, [])
    else Done(Text(text[pos..NameEnd(text, pos)]), NameEnd(text, pos))
  }

  /** The list loop from position `pos` with `items` read so far. */
  function ItemsFrom(text: string, pos: nat, items: seq<Value>): (r: Outcome)
    requires pos <= |text|
    ensures r.Done? ==> r.value.Items? && pos <= r.pos <= |text|
    decreases |text| - pos, 1
  {
    if pos == |text| then
      Done(Items(items), pos)
    else if text[pos] == ']' then
      Done(Items(items), pos + 1)
    else if IsGap(text[pos]) then
      ItemsFrom(text, pos + 1, items)
    else
      var r := ValueAt(text, pos);
      if !r.Done? then r
      else if r.pos == pos then Hang
      else ItemsFrom(text, r.pos, items + [r.value])
  }

  /** `_vici_section`: the section whose opening brace stands just before `start`. */
  method ViciSection(text: string, start: nat) returns (r: Outcome)
    requires 1 <= start <= |text| && text[start - 1] == '{'
    ensures r == SectionFrom(text, start, [], None)
    decreases |text| - start, 2
  {
    var pos := start;
    var result: seq<Entry> := [];
    var pending: Option<string> := None;
    while pos < |text|
      invariant start <= pos <= |text|
      invariant SectionFrom(text, pos, result, pending) == SectionFrom(text, start, [], None)
      decreases |text| - pos
    {
      var c := text[pos];
      if c == '}' || c == ']' {
        return Done(Section(result), pos + 1);
      }
      if IsGap(c) {
        pos := pos + 1;
        continue;
      }
      if Opens(c) {
        var inner := ViciOpened(text, pos);
        if !inner.Done? {
          return inner;
        }
        if pending.None? {
          return Raise(Stray(c));
        }
        result := DictSet(result, pending.value, inner.value);
        pending := None;
        pos := inner.pos;
        continue;
      }
      if !IsNameChar(c) {
        return Raise(UnexpectedChar);
      }
      var end := NameEnd(text, pos);
      var name := text[pos..end];
      var next := end;
      while next < |text| && IsGap(text[next])
        invariant end <= next <= |text|
        invariant SkipGap(text, next) == SkipGap(text, end)
      {
        next := next + 1;
      }
      pos := next;
      if pos < |text| && Opens(text[pos]) {
        pending := Some(name);
      } else {
        result := DictSet(result, name, Missing);
      }
    }
    return Raise(Unterminated);
  }

  /** The three branches of the section loop that read a value. */
  method ViciOpened(text: string, pos: nat) returns (r: Outcome)
    requires pos < |text| && Opens(text[pos])
    ensures r == Opened(text, pos)
    decreases |text| - pos, 1
  {
    if text[pos] == '=' {
      var from := pos + 1;
      while from < |text| && IsBlank(text[from])
        invariant pos < from <= |text|
        invariant SkipBlank(text, from) == SkipBlank(text, pos + 1)
      {
        from := from + 1;
      }
      r := ViciValue(text, from);
    } else if text[pos] == '{' {
      r := ViciSection(text, pos + 1);
    } else {
      r := ViciItems(text, pos + 1);
    }
  }

  /** `_vici_value`. */
  method ViciValue(text: string, pos: nat) returns (r: Outcome)
    requires pos <= |text|
    ensures r == ValueAt(text, pos)
    decreases |text| - pos, 0
  {
    if pos == |text| {
      return Done(Text(""), pos);
    }
    if text[pos] == '{' {
      r := ViciSection(text, pos + 1);
    } else if text[pos] == '[' {
      r := ViciItems(text, pos + 1);
    } else {
      var end := NameEnd(text, pos);
      r := Done(Text(text[pos..end]), end);
    }
  }

  /** The list loop that `_vici_section` and `_vici_value` share. */
  method ViciItems(text: string, start: nat) returns (r: Outcome)
    requires start <= |text|
    ensures r == ItemsFrom(text, start, [])
    decreases |text| - start, 1
  {
    var pos := start;
    var items: seq<Value> := [];
    while pos < |text| && text[pos] != ']'
      invariant start <= pos <= |text|
      invariant ItemsFrom(text, pos, items) == ItemsFrom(text, start, [])
      decreases |text| - pos
    {
      if IsGap(text[pos]) {
        pos := pos + 1;
        continue;
      }
      var item := ViciValue(text, pos);
      if !item.Done? {
        return item;
      }
      if item.pos == pos {
        return Hang;
      }
      items := items + [item.value];
      pos := item.pos;
    }
    if pos < |text| {
      pos := pos + 1;
    }
    return Done(Items(items), pos);
  }

  // ---------- The envelope ----------

  /** `\S` at `j` closes a label there: only whitespace separates it from an opening brace. */
  predicate ClosesLabel(text: string, j: nat) {
    && j < |text|
    && !IsSpace(text[j])
    && SkipSpace(text, j + 1) < |text|
    && text[SkipSpace(text, j + 1)] == '{'
  }

  /** Least closing position at or after `j`, or `|text|` when there is none. */
  function LabelEnd(text: string, j: nat): (r: nat)
    requires j <= |text|
    ensures j <= r <= |text|
    ensures r < |text| ==> ClosesLabel(text, r)
    ensures forall k :: j <= k < r ==> !ClosesLabel(text, k)
    decreases |text| - j
  {
    if j == |text| || ClosesLabel(text, j) then j else LabelEnd(text, j + 1)
  }

  /** Last character of the label the envelope pattern captures: the pattern
      first tries every label of two or more characters, shortest first. */
  function EnvelopeLabel(text: string): (r: Option<nat>)
    ensures r.Some? ==> ClosesLabel(text, r.value)
  {
    if text == [] || IsSpace(text[0]) then None
    else if LabelEnd(text, 1) < |text| then Some(LabelEnd(text, 1))
    else if ClosesLabel(text, 0) then Some(0)
    else None
  }

  datatype Parsed = Envelope(tag: string, body: Value) | Failed(error: Error) | Diverges

  /** What `vici_parse` returns. */
  function Parse(raw: string): Parsed {
    var text := Strip(raw);
    match EnvelopeLabel(text)
    case None => Failed(NoEnvelope)
    case Some(last) =>
      match SectionFrom(text, SkipSpace(text, last + 1) + 1, [], None)
      case Done(body, _) => Envelope(text[..last + 1], body)
      case Raise(e) => Failed(e)
      case Hang => Diverges
  }

  /** `vici_parse`. */
  method ViciParse(raw: string) returns (r: Parsed)
    ensures r == Parse(raw)
  {
    hide SectionFrom;
    var text := Strip(raw);
    if text == [] || IsSpace(text[0]) {
      return Failed(NoEnvelope);
    }
    var last := 1;
    while last < |text| && !ClosesLabel(text, last)
      invariant 1 <= last <= |text|
      invariant LabelEnd(text, last) == LabelEnd(text, 1)
    {
      last := last + 1;
    }
    if last == |text| {
      if !ClosesLabel(text, 0) {
        return Failed(NoEnvelope);
      }
      last := 0;
    }
    var section := ViciSection(text, SkipSpace(text, last + 1) + 1);
    match section {
      case Done(body, _) => return Envelope(text[..last + 1], body);
      case Raise(e) => return Failed(e);
      case Hang => return Diverges;
    }
  }
}
