/**
 What the recursive-descent parser does with arbitrary text: where a section
 ends, and a flat scanner with an explicit stack of open brackets that
 foretells acceptance, rejection or an endless list loop.
 */
module ViciStructure {
  import opened Chars
  import opened Vici
  import opened Options

  // ---------- Matching brackets ----------

  predicate IsOpener(c: char) {
    c == '{' || c == '['
  }

  predicate IsCloser(c: char) {
    c == '}' || c == ']'
  }

  /** Openers minus closers in `text[a..b]`; the parser does not tell the two kinds apart. */
  function Depth(text: string, a: nat, b: nat): int
    requires a <= b <= |text|
    decreases b - a
  {
    if a == b then 0
    else Depth(text, a, b - 1) + (if IsOpener(text[b - 1]) then 1 else if IsCloser(text[b - 1]) then -1 else 0)
  }

  /** Every bracket opened in `text[a..b]` is closed there, and no other one is. */
  ghost predicate Balanced(text: string, a: nat, b: nat) {
    a <= b <= |text| && Depth(text, a, b) == 0 && forall k :: a <= k <= b ==> Depth(text, a, k) >= 0
  }

  lemma {:induction false} DepthSplit(text: string, a: nat, b: nat, c: nat)
    requires a <= b <= c <= |text|
    ensures Depth(text, a, c) == Depth(text, a, b) + Depth(text, b, c)
    decreases c - b
  {
    if b < c {
      DepthSplit(text, a, b, c - 1);
    }
  }

  lemma BalancedJoin(text: string, a: nat, b: nat, c: nat)
    requires Balanced(text, a, b) && Balanced(text, b, c)
    ensures Balanced(text, a, c)
  {
    forall k | a <= k <= c ensures Depth(text, a, k) >= 0 {
      if b <= k {
        DepthSplit(text, a, b, k);
      }
    }
    DepthSplit(text, a, b, c);
  }

  lemma BalancedWrap(text: string, a: nat, b: nat)
    requires a < b <= |text| && IsOpener(text[a]) && IsCloser(text[b - 1])
    requires Balanced(text, a + 1, b - 1)
    ensures Balanced(text, a, b)
  {
    DepthSplit(text, a, a + 1, b - 1);
    forall k | a <= k <= b ensures Depth(text, a, k) >= 0 {
      if a < k < b {
        DepthSplit(text, a, a + 1, k);
        assert Depth(text, a + 1, k) >= 0;
      }
    }
  }

  lemma {:induction false} BalancedFlat(text: string, a: nat, b: nat)
    requires a <= b <= |text|
    requires forall i :: a <= i < b ==> !IsOpener(text[i]) && !IsCloser(text[i])
    ensures Balanced(text, a, b)
    decreases b - a
  {
    if a < b {
      BalancedFlat(text, a, b - 1);
    }
  }

  lemma SkipBlankFlat(text: string, pos: nat)
    requires pos <= |text|
    ensures Balanced(text, pos, SkipBlank(text, pos))
    decreases |text| - pos
  {
    if pos < |text| && IsBlank(text[pos]) {
      BalancedFlat(text, pos, pos + 1);
      SkipBlankFlat(text, pos + 1);
      BalancedJoin(text, pos, pos + 1, SkipBlank(text, pos));
    }
  }

  lemma SkipGapFlat(text: string, pos: nat)
    requires pos <= |text|
    ensures Balanced(text, pos, SkipGap(text, pos))
    decreases |text| - pos
  {
    if pos < |text| && IsGap(text[pos]) {
      BalancedFlat(text, pos, pos + 1);
      SkipGapFlat(text, pos + 1);
      BalancedJoin(text, pos, pos + 1, SkipGap(text, pos));
    }
  }

  lemma NameFlat(text: string, pos: nat)
    requires pos < |text| && IsNameChar(text[pos])
    ensures Balanced(text, pos, SkipGap(text, NameEnd(text, pos)))
  {
    var stop := NameEnd(text, pos);
    BalancedFlat(text, pos, stop);
    SkipGapFlat(text, stop);
    BalancedJoin(text, pos, stop, SkipGap(text, stop));
  }

  /**
   On every text, a section that parses ends one past the closing bracket that
   matches its opening brace: what lies between is balanced.
   */
  lemma {:induction false} SectionEndsAtMatch(text: string, pos: nat, entries: seq<Entry>, pending: Option<string>)
    requires pos <= |text| && SectionFrom(text, pos, entries, pending).Done?
    ensures var end := SectionFrom(text, pos, entries, pending).pos;
      pos < end && IsCloser(text[end - 1]) && Balanced(text, pos, end - 1)
    decreases |text| - pos, 2
  {
    hide Balanced, DictSet, ItemsFrom, ValueAt, Opened, SkipGap, IsSpace;
    var end := SectionFrom(text, pos, entries, pending).pos;
    var c := text[pos];
    if IsCloser(c) {
      BalancedFlat(text, pos, pos);
    } else if IsGap(c) {
      BalancedFlat(text, pos, pos + 1);
      SectionEndsAtMatch(text, pos + 1, entries, pending);
      BalancedJoin(text, pos, pos + 1, end - 1);
    } else if Opens(c) {
      var r := Opened(text, pos);
      var entries' := DictSet(entries, pending.value, r.value);
      OpenedIsBalanced(text, pos);
      SectionEndsAtMatch(text, r.pos, entries', None);
      BalancedJoin(text, pos, r.pos, end - 1);
    } else {
      NameFlat(text, pos);
      var stop := NameEnd(text, pos);
      var next := SkipGap(text, stop);
      if next < |text| && Opens(text[next]) {
        SectionEndsAtMatch(text, next, entries, Some(text[pos..stop]));
      } else {
        SectionEndsAtMatch(text, next, DictSet(entries, text[pos..stop], Missing), pending);
      }
      BalancedJoin(text, pos, next, end - 1);
    }
  }

  /** What an equals sign or an opening bracket introduces is balanced, unless the text ran out inside a list. */
  lemma {:induction false} OpenedIsBalanced(text: string, pos: nat)
    requires pos < |text| && Opens(text[pos]) && Opened(text, pos).Done?
    ensures Opened(text, pos).pos == |text| || Balanced(text, pos, Opened(text, pos).pos)
    decreases |text| - pos, 1
  {
    hide Balanced, SectionFrom, ItemsFrom, ValueAt;
    var end := Opened(text, pos).pos;
    if text[pos] == '=' {
      var from := SkipBlank(text, pos + 1);
      BalancedFlat(text, pos, pos + 1);
      SkipBlankFlat(text, pos + 1);
      BalancedJoin(text, pos, pos + 1, from);
      ValueIsBalanced(text, from);
      if end < |text| {
        BalancedJoin(text, pos, from, end);
      }
    } else if text[pos] == '{' {
      SectionEndsAtMatch(text, pos + 1, [], None);
      BalancedWrap(text, pos, end);
    } else {
      ListEndsAtMatch(text, pos + 1, []);
      if end < |text| {
        BalancedWrap(text, pos, end);
      }
    }
  }

  lemma {:induction false} ValueIsBalanced(text: string, pos: nat)
    requires pos <= |text| && ValueAt(text, pos).Done?
    ensures ValueAt(text, pos).pos == |text| || Balanced(text, pos, ValueAt(text, pos).pos)
    decreases |text| - pos, 0
  {
    hide Balanced, SectionFrom, ItemsFrom;
    var end := ValueAt(text, pos).pos;
    if pos < |text| {
      if text[pos] == '{' {
        SectionEndsAtMatch(text, pos + 1, [], None);
        BalancedWrap(text, pos, end);
      } else if text[pos] == '[' {
        ListEndsAtMatch(text, pos + 1, []);
        if end < |text| {
          BalancedWrap(text, pos, end);
        }
      } else {
        BalancedFlat(text, pos, end);
      }
    }
  }

  lemma {:induction false} ListEndsAtMatch(text: string, pos: nat, items: seq<Value>)
    requires pos <= |text| && ItemsFrom(text, pos, items).Done?
    ensures var end := ItemsFrom(text, pos, items).pos;
      end == |text| || (pos < end && IsCloser(text[end - 1]) && Balanced(text, pos, end - 1))
    decreases |text| - pos, 1
  {
    hide Balanced, SectionFrom, ValueAt;
    var end := ItemsFrom(text, pos, items).pos;
    if pos == |text| {
    } else if text[pos] == ']' {
      BalancedFlat(text, pos, pos);
    } else if IsGap(text[pos]) {
      BalancedFlat(text, pos, pos + 1);
      ListEndsAtMatch(text, pos + 1, items);
      if end < |text| {
        BalancedJoin(text, pos, pos + 1, end - 1);
      }
    } else {
      var r := ValueAt(text, pos);
      ValueIsBalanced(text, pos);
      ListEndsAtMatch(text, r.pos, items + [r.value]);
      if end < |text| {
        BalancedJoin(text, pos, r.pos, end - 1);
      }
    }
  }

  // ---------- The flat scanner ----------

  datatype Frame = InSection(pending: bool) | InList

  datatype Verdict = Accepts(pos: nat) | Rejects | Loops

  predicate StartsValue(text: string, pos: nat) {
    pos < |text| && (IsOpener(text[pos]) || IsNameChar(text[pos]))
  }

  /** One pass over the text with a stack of open brackets and no values at all. */
  function Scan(text: string, pos: nat, stack: seq<Frame>): Verdict
    requires pos <= |text| && stack != []
    decreases |text| - pos, |stack|, 1
  {
    if stack[0].InSection? then
      if pos == |text| then Rejects
      else if IsCloser(text[pos]) then Finish(text, pos + 1, stack[1..])
      else if IsGap(text[pos]) then Scan(text, pos + 1, stack)
      else if text[pos] == '=' then ScanValue(text, SkipBlank(text, pos + 1), stack)
      else if IsOpener(text[pos]) then ScanValue(text, pos, stack)
      else if !IsNameChar(text[pos]) then Rejects
      else
        var next := SkipGap(text, NameEnd(text, pos));
        if next < |text| && Opens(text[next]) then Scan(text, next, [InSection(true)] + stack[1..])
        else Scan(text, next, stack)
    else
      if pos == |text| then Finish(text, pos, stack[1..])
      else if text[pos] == ']' then Finish(text, pos + 1, stack[1..])
      else if IsGap(text[pos]) then Scan(text, pos + 1, stack)
      else if StartsValue(text, pos) then ScanValue(text, pos, stack)
      else Loops
  }

  /** A value starts at `pos`, on behalf of the innermost open bracket. */
  function ScanValue(text: string, pos: nat, stack: seq<Frame>): Verdict
    requires pos <= |text| && stack != []
    decreases |text| - pos, |stack|, if StartsValue(text, pos) then 0 else 3
  {
    if pos < |text| && text[pos] == '{' then Scan(text, pos + 1, [InSection(false)] + stack)
    else if pos < |text| && text[pos] == '[' then Scan(text, pos + 1, [InList] + stack)
    else Finish(text, NameEnd(text, pos), stack)
  }

  /** A value has ended before `pos`: a section needs a key for it, a list does not. */
  function Finish(text: string, pos: nat, stack: seq<Frame>): Verdict
    requires pos <= |text|
    decreases |text| - pos, |stack|, 2
  {
    if stack == [] then Accepts(pos)
    else if stack[0] == InSection(false) then Rejects
    else if stack[0] == InSection(true) then Scan(text, pos, [InSection(false)] + stack[1..])
    else Scan(text, pos, stack)
  }

  /** What the scanner must say, given what the parser returned. */
  function Foretold(text: string, r: Outcome, stack: seq<Frame>): Verdict
    requires r.Done? ==> r.pos <= |text|
  {
    match r
    case Done(_, pos) => Finish(text, pos, stack)
    case Raise(_) => Rejects
    case Hang => Loops
  }

  lemma {:induction false} ScanForetellsSection(text: string, pos: nat, entries: seq<Entry>, pending: Option<string>,
        rest: seq<Frame>)
    requires pos <= |text|
    ensures Scan(text, pos, [InSection(pending.Some?)] + rest)
         == Foretold(text, SectionFrom(text, pos, entries, pending), rest)
    decreases |text| - pos, 2
  {
    hide DictSet, ItemsFrom, ValueAt, ScanValue, Finish, IsSpace;
    var stack := [InSection(pending.Some?)] + rest;
    assert stack[1..] == rest;
    if pos == |text| || IsCloser(text[pos]) {
    } else if IsGap(text[pos]) {
      ScanForetellsSection(text, pos + 1, entries, pending, rest);
    } else if Opens(text[pos]) {
      var r := Opened(text, pos);
      ScanForetellsOpened(text, pos, stack);
      AfterValue(text, r, pending, rest);
      if r.Done? && pending.Some? {
        ScanForetellsSection(text, r.pos, DictSet(entries, pending.value, r.value), None, rest);
      }
    } else if IsNameChar(text[pos]) {
      var stop := NameEnd(text, pos);
      var next := SkipGap(text, stop);
      if next < |text| && Opens(text[next]) {
        ScanForetellsSection(text, next, entries, Some(text[pos..stop]), rest);
      } else {
        ScanForetellsSection(text, next, DictSet(entries, text[pos..stop], Missing), pending, rest);
      }
    }
  }

  /** A section takes a value when a key is pending and rejects the text when none is. */
  lemma AfterValue(text: string, r: Outcome, pending: Option<string>, rest: seq<Frame>)
    requires r.Done? ==> r.pos <= |text|
    ensures Foretold(text, r, [InSection(pending.Some?)] + rest)
         == if r.Raise? then Rejects
            else if r.Hang? then Loops
            else if pending.None? then Rejects
            else Scan(text, r.pos, [InSection(false)] + rest)
  {
    hide Scan;
    assert ([InSection(pending.Some?)] + rest)[1..] == rest;
  }

  lemma {:induction false} ScanForetellsOpened(text: string, pos: nat, stack: seq<Frame>)
    requires pos < |text| && Opens(text[pos]) && stack != [] && stack[0].InSection?
    ensures Scan(text, pos, stack) == Foretold(text, Opened(text, pos), stack)
    decreases |text| - pos, 1
  {
    hide SectionFrom, ItemsFrom, ValueAt, Finish, ScanValue, IsSpace;
    if text[pos] == '=' {
      ScanForetellsValue(text, SkipBlank(text, pos + 1), stack);
    } else {
      OpenedValue(text, pos);
      ScanForetellsValue(text, pos, stack);
    }
  }

  lemma OpenedValue(text: string, pos: nat)
    requires pos < |text| && IsOpener(text[pos])
    ensures Opened(text, pos) == ValueAt(text, pos)
  {
    hide SectionFrom, ItemsFrom;
  }

  lemma {:induction false} ScanForetellsValue(text: string, pos: nat, stack: seq<Frame>)
    requires pos <= |text| && stack != []
    ensures ScanValue(text, pos, stack) == Foretold(text, ValueAt(text, pos), stack)
    decreases |text| - pos, 0
  {
    hide SectionFrom, ItemsFrom, Finish, Scan, IsSpace;
    if pos < |text| && text[pos] == '{' {
      ScanForetellsSection(text, pos + 1, [], None, stack);
    } else if pos < |text| && text[pos] == '[' {
      ScanForetellsList(text, pos + 1, [], stack);
    }
  }

  lemma {:induction false} ScanForetellsList(text: string, pos: nat, items: seq<Value>, rest: seq<Frame>)
    requires pos <= |text|
    ensures Scan(text, pos, [InList] + rest) == Foretold(text, ItemsFrom(text, pos, items), rest)
    decreases |text| - pos, 1
  {
    hide SectionFrom, ValueAt, ScanValue, Finish, IsSpace;
    var stack := [InList] + rest;
    assert stack[1..] == rest;
    if pos == |text| || text[pos] == ']' {
    } else if IsGap(text[pos]) {
      ScanForetellsList(text, pos + 1, items, rest);
    } else {
      var r := ValueAt(text, pos);
      NothingMoves(text, pos);
      if StartsValue(text, pos) {
        ScanForetellsValue(text, pos, stack);
        if r.Done? {
          ScanForetellsList(text, r.pos, items + [r.value], rest);
          ListTakes(text, r.pos, rest);
        }
      }
    }
  }

  lemma NothingMoves(text: string, pos: nat)
    requires pos < |text|
    ensures StartsValue(text, pos) <==> !(ValueAt(text, pos).Done? && ValueAt(text, pos).pos == pos)
  {
  }

  lemma ListTakes(text: string, pos: nat, rest: seq<Frame>)
    requires pos <= |text|
    ensures Finish(text, pos, [InList] + rest) == Scan(text, pos, [InList] + rest)
  {
    hide Scan;
  }

  /**
   The flat scanner decides the parser's fate on every text: it accepts exactly
   where the section ends, rejects exactly when the parser raises, and sees an
   endless loop exactly when the parser has one.
   */
  lemma ScanDecides(text: string, pos: nat)
    requires pos <= |text|
    ensures Scan(text, pos, [InSection(false)])
         == match SectionFrom(text, pos, [], None)
            case Done(_, end) => Accepts(end)
            case Raise(_) => Rejects
            case Hang => Loops
  {
    hide SectionFrom, Scan;
    ScanForetellsSection(text, pos, [], None, []);
    assert [InSection(false)] + [] == [InSection(false)];
  }

  // ---------- Termination ----------

  /** A character that no list item starts with and that does not end a list. */
  predicate Bare(c: char) {
    c == '=' || c == '}' || (IsSpace(c) && !IsGap(c))
  }

  /** From `pos` until the outermost bracket closes no list holds a bare character;
      `lists` says of each open bracket whether it is a square one. */
  predicate CleanLists(text: string, pos: nat, lists: seq<bool>)
    requires pos <= |text|
    decreases |text| - pos
  {
    pos == |text|
    || (&& !(lists != [] && lists[0] && Bare(text[pos]))
        && if IsOpener(text[pos]) then CleanLists(text, pos + 1, [text[pos] == '['] + lists)
           else if IsCloser(text[pos]) then |lists| <= 1 || CleanLists(text, pos + 1, lists[1..])
           else CleanLists(text, pos + 1, lists))
  }

  function Kinds(stack: seq<Frame>): seq<bool> {
    seq(|stack|, i requires 0 <= i < |stack| => stack[i].InList?)
  }

  lemma KindsOfPush(frame: Frame, stack: seq<Frame>)
    ensures Kinds([frame] + stack) == [frame.InList?] + Kinds(stack)
  {
  }

  lemma KindsOfPop(stack: seq<Frame>)
    requires stack != []
    ensures |Kinds(stack)| == |stack|
    ensures Kinds(stack[1..]) == Kinds(stack)[1..] && Kinds(stack)[0] == stack[0].InList?
  {
  }

  lemma {:induction false} CleanAfterFlat(text: string, a: nat, b: nat, lists: seq<bool>)
    requires a <= b <= |text| && CleanLists(text, a, lists)
    requires forall i :: a <= i < b ==> !IsOpener(text[i]) && !IsCloser(text[i])
    ensures CleanLists(text, b, lists)
    decreases b - a
  {
    if a < b {
      CleanAfterFlat(text, a + 1, b, lists);
    }
  }

  lemma {:induction false} SkippedIsFlat(text: string, pos: nat)
    requires pos <= |text|
    ensures forall i :: pos <= i < SkipGap(text, pos) ==> !IsOpener(text[i]) && !IsCloser(text[i])
    ensures forall i :: pos <= i < SkipBlank(text, pos) ==> !IsOpener(text[i]) && !IsCloser(text[i])
    decreases |text| - pos
  {
    if pos < |text| && IsGap(text[pos]) {
      SkippedIsFlat(text, pos + 1);
    }
  }

  /** With clean lists the scanner never loops. */
  lemma {:induction false} CleanNeverLoops(text: string, pos: nat, stack: seq<Frame>)
    requires pos <= |text| && stack != [] && CleanLists(text, pos, Kinds(stack))
    ensures !Scan(text, pos, stack).Loops?
    decreases |text| - pos, |stack|, 1
  {
    hide Finish, ScanValue, Kinds, IsSpace, CleanLists;
    KindsOfPop(stack);
    if pos < |text| {
      CleanHere(text, pos, Kinds(stack));
      var c := text[pos];
      if stack[0].InList? && (c == ']' || !(IsGap(c) || StartsValue(text, pos))) {
        if c == ']' {
          CleanFinishes(text, pos + 1, stack[1..]);
        } else {
          BareOrStarts(text, pos);
        }
      } else if IsCloser(c) {
        CleanFinishes(text, pos + 1, stack[1..]);
      } else if IsGap(c) {
        CleanNeverLoops(text, pos + 1, stack);
      } else if stack[0].InList? {
        CleanValueNeverLoops(text, pos, stack);
      } else if Opens(c) {
        var from := if c == '=' then SkipBlank(text, pos + 1) else pos;
        SkippedIsFlat(text, pos + 1);
        CleanAfterFlat(text, pos, from, Kinds(stack));
        CleanValueNeverLoops(text, from, stack);
      } else if IsNameChar(c) {
        var next := SkipGap(text, NameEnd(text, pos));
        SkippedIsFlat(text, NameEnd(text, pos));
        CleanAfterFlat(text, pos, next, Kinds(stack));
        KindsOfPush(InSection(true), stack[1..]);
        assert [false] + Kinds(stack)[1..] == Kinds(stack);
        CleanNeverLoops(text, next, stack);
        CleanNeverLoops(text, next, [InSection(true)] + stack[1..]);
      }
    } else {
      CleanAtEnd(text, Kinds(stack[1..]));
      CleanFinishes(text, pos, stack[1..]);
    }
  }

  lemma CleanAtEnd(text: string, lists: seq<bool>)
    ensures CleanLists(text, |text|, lists)
  {
  }

  lemma CleanHere(text: string, pos: nat, lists: seq<bool>)
    requires pos < |text| && CleanLists(text, pos, lists) && lists != []
    ensures lists[0] ==> !Bare(text[pos])
    ensures IsOpener(text[pos]) ==> CleanLists(text, pos + 1, [text[pos] == '['] + lists)
    ensures IsCloser(text[pos]) && |lists| > 1 ==> CleanLists(text, pos + 1, lists[1..])
    ensures !IsOpener(text[pos]) && !IsCloser(text[pos]) ==> CleanLists(text, pos + 1, lists)
  {
  }

  lemma BareOrStarts(text: string, pos: nat)
    requires pos < |text| && !Bare(text[pos]) && text[pos] != ']' && !IsGap(text[pos])
    ensures StartsValue(text, pos)
  {
  }

  lemma {:induction false} CleanValueNeverLoops(text: string, pos: nat, stack: seq<Frame>)
    requires pos <= |text| && stack != [] && CleanLists(text, pos, Kinds(stack))
    ensures !ScanValue(text, pos, stack).Loops?
    decreases |text| - pos, |stack|, if StartsValue(text, pos) then 0 else 3
  {
    hide Scan, Finish, Kinds, IsSpace, CleanLists;
    if pos < |text| && IsOpener(text[pos]) {
      KindsOfPop(stack);
      CleanHere(text, pos, Kinds(stack));
      var frame := if text[pos] == '{' then InSection(false) else InList;
      KindsOfPush(frame, stack);
      CleanNeverLoops(text, pos + 1, [frame] + stack);
    } else {
      CleanAfterFlat(text, pos, NameEnd(text, pos), Kinds(stack));
      CleanFinishes(text, NameEnd(text, pos), stack);
    }
  }

  lemma {:induction false} CleanFinishes(text: string, pos: nat, stack: seq<Frame>)
    requires pos <= |text| && (stack != [] ==> CleanLists(text, pos, Kinds(stack)))
    ensures !Finish(text, pos, stack).Loops?
    decreases |text| - pos, |stack|, 2
  {
    hide Scan, Kinds, CleanLists;
    if stack != [] {
      KindsOfPop(stack);
      KindsOfPush(InSection(false), stack[1..]);
      if stack[0] == InSection(true) {
        assert [false] + Kinds(stack)[1..] == Kinds(stack);
        CleanNeverLoops(text, pos, [InSection(false)] + stack[1..]);
      } else if stack[0].InList? {
        CleanNeverLoops(text, pos, stack);
      }
    }
  }

  // ---------- Accepted texts have clean lists ----------

  lemma {:induction false} CleanBeforeFlat(text: string, a: nat, b: nat, lists: seq<bool>)
    requires a <= b <= |text| && CleanLists(text, b, lists)
    requires forall i :: a <= i < b ==>
      !IsOpener(text[i]) && !IsCloser(text[i]) && !(lists != [] && lists[0] && Bare(text[i]))
    ensures CleanLists(text, a, lists)
    decreases b - a
  {
    if a < b {
      CleanBeforeFlat(text, a + 1, b, lists);
    }
  }

  lemma CleanFrom(text: string, pos: nat, lists: seq<bool>)
    requires pos < |text| && lists != [] && (lists[0] ==> !Bare(text[pos]))
    requires IsOpener(text[pos]) ==> CleanLists(text, pos + 1, [text[pos] == '['] + lists)
    requires IsCloser(text[pos]) && |lists| > 1 ==> CleanLists(text, pos + 1, lists[1..])
    requires !IsOpener(text[pos]) && !IsCloser(text[pos]) ==> CleanLists(text, pos + 1, lists)
    ensures CleanLists(text, pos, lists)
  {
  }

  lemma {:induction false} NamesAreNotBare(text: string, pos: nat)
    requires pos <= |text|
    ensures forall i :: pos <= i < NameEnd(text, pos) ==> !IsOpener(text[i]) && !IsCloser(text[i]) && !Bare(text[i])
    ensures forall i :: pos <= i < SkipGap(text, pos) ==> !IsOpener(text[i]) && !IsCloser(text[i]) && !Bare(text[i])
    decreases |text| - pos
  {
    if pos < |text| {
      NamesAreNotBare(text, pos + 1);
    }
  }

  lemma GapsAreNotBare(c: char)
    requires IsGap(c)
    ensures !Bare(c) && !IsOpener(c) && !IsCloser(c)
  {
  }

  lemma BracketsAreNotBare()
    ensures !Bare(']') && !Bare('[') && !Bare('{')
  {
  }

  /** What the scanner accepts has clean lists up to where it ends. */
  lemma {:induction false} AcceptedIsClean(text: string, pos: nat, stack: seq<Frame>)
    requires pos <= |text| && stack != [] && Scan(text, pos, stack).Accepts?
    ensures CleanLists(text, pos, Kinds(stack))
    decreases |text| - pos, |stack|, 1
  {
    hide Finish, ScanValue, Kinds, IsSpace, CleanLists, NameEnd, SkipGap, SkipBlank;
    KindsOfPop(stack);
    BracketsAreNotBare();
    if pos == |text| {
      CleanAtEnd(text, Kinds(stack));
    } else {
      var c := text[pos];
      if (stack[0].InSection? && IsCloser(c)) || (stack[0].InList? && c == ']') {
        if |stack| > 1 {
          AcceptedAfterValue(text, pos + 1, stack[1..]);
        }
        CleanFrom(text, pos, Kinds(stack));
      } else if IsGap(c) {
        GapsAreNotBare(c);
        AcceptedIsClean(text, pos + 1, stack);
        CleanFrom(text, pos, Kinds(stack));
      } else if stack[0].InList? {
        AcceptedValue(text, pos, stack);
      } else if Opens(c) {
        var from := if c == '=' then SkipBlank(text, pos + 1) else pos;
        SkippedIsFlat(text, pos + 1);
        AcceptedValue(text, from, stack);
        CleanBeforeFlat(text, pos, from, Kinds(stack));
      } else {
        AcceptedName(text, pos, stack);
      }
    }
  }

  lemma {:induction false} AcceptedName(text: string, pos: nat, stack: seq<Frame>)
    requires pos < |text| && stack != [] && stack[0].InSection? && Scan(text, pos, stack).Accepts?
    requires !IsCloser(text[pos]) && !IsGap(text[pos]) && !Opens(text[pos])
    ensures CleanLists(text, pos, Kinds(stack))
    decreases |text| - pos, |stack|, 0
  {
    hide Finish, ScanValue, Kinds, IsSpace, CleanLists, SkipGap;
    var stop := NameEnd(text, pos);
    var next := SkipGap(text, stop);
    NamesAreNotBare(text, pos);
    NamesAreNotBare(text, stop);
    KindsOfPop(stack);
    if next < |text| && Opens(text[next]) {
      KindsOfPush(InSection(true), stack[1..]);
      assert [false] + Kinds(stack)[1..] == Kinds(stack);
      AcceptedIsClean(text, next, [InSection(true)] + stack[1..]);
    } else {
      AcceptedIsClean(text, next, stack);
    }
    CleanBeforeFlat(text, pos, next, Kinds(stack));
  }

  lemma {:induction false} AcceptedValue(text: string, pos: nat, stack: seq<Frame>)
    requires pos <= |text| && stack != [] && ScanValue(text, pos, stack).Accepts?
    requires stack[0].InList? ==> StartsValue(text, pos)
    ensures CleanLists(text, pos, Kinds(stack))
    decreases |text| - pos, |stack|, if StartsValue(text, pos) then 0 else 3
  {
    hide Scan, Finish, Kinds, IsSpace, CleanLists;
    KindsOfPop(stack);
    BracketsAreNotBare();
    if pos < |text| && IsOpener(text[pos]) {
      var frame := if text[pos] == '{' then InSection(false) else InList;
      KindsOfPush(frame, stack);
      AcceptedIsClean(text, pos + 1, [frame] + stack);
      CleanFrom(text, pos, Kinds(stack));
    } else {
      AcceptedAfterValue(text, NameEnd(text, pos), stack);
      NamesAreNotBare(text, pos);
      CleanBeforeFlat(text, pos, NameEnd(text, pos), Kinds(stack));
    }
  }

  lemma {:induction false} AcceptedAfterValue(text: string, pos: nat, stack: seq<Frame>)
    requires pos <= |text| && stack != [] && Finish(text, pos, stack).Accepts?
    ensures CleanLists(text, pos, Kinds(stack))
    decreases |text| - pos, |stack|, 2
  {
    hide Scan, Kinds, CleanLists;
    KindsOfPop(stack);
    KindsOfPush(InSection(false), stack[1..]);
    if stack[0] == InSection(true) {
      assert [false] + Kinds(stack)[1..] == Kinds(stack);
      AcceptedIsClean(text, pos, [InSection(false)] + stack[1..]);
    } else {
      AcceptedIsClean(text, pos, stack);
    }
  }

  // ---------- The parser's fate ----------

  /** The body of the stripped text starts here. */
  function BodyStart(text: string): nat
    requires EnvelopeLabel(text).Some?
  {
    SkipSpace(text, EnvelopeLabel(text).value + 1) + 1
  }

  /** Within the envelope's body no list holds a bare character. */
  predicate CleanBody(text: string) {
    EnvelopeLabel(text).Some? ==> BodyStart(text) <= |text| && CleanLists(text, BodyStart(text), [false])
  }

  /**
   For every text: with clean lists the parser ends, and a text that parses has
   clean lists. So where no error is raised, the parser ends exactly on the texts
   whose lists hold no bare character.
   */
  lemma ParseEndsOnCleanLists(raw: string)
    ensures CleanBody(Strip(raw)) ==> !Parse(raw).Diverges?
    ensures Parse(raw).Envelope? ==> CleanBody(Strip(raw))
    ensures !Parse(raw).Failed? ==> (Parse(raw).Diverges? <==> !CleanBody(Strip(raw)))
  {
    hide SectionFrom, Scan, CleanLists;
    var text := Strip(raw);
    match EnvelopeLabel(text) {
      case None =>
      case Some(last) =>
        var pos := SkipSpace(text, last + 1) + 1;
        assert Kinds([InSection(false)]) == [false];
        ScanDecides(text, pos);
        if CleanLists(text, pos, [false]) {
          CleanNeverLoops(text, pos, [InSection(false)]);
        }
        if Parse(raw).Envelope? {
          AcceptedIsClean(text, pos, [InSection(false)]);
        }
    }
  }

  /** A list that comes to a bare character never ends. */
  lemma BareCharacterHangs(text: string, pos: nat, items: seq<Value>)
    requires pos < |text| && Bare(text[pos])
    ensures ItemsFrom(text, pos, items) == Hang
  {
  }

  lemma {:induction false} NoListIsClean(text: string, pos: nat, lists: seq<bool>)
    requires pos <= |text| && forall i :: pos <= i < |text| ==> text[i] != '['
    requires forall i :: 0 <= i < |lists| ==> !lists[i]
    ensures CleanLists(text, pos, lists)
    decreases |text| - pos
  {
    if pos < |text| {
      if IsOpener(text[pos]) {
        NoListIsClean(text, pos + 1, [false] + lists);
      } else if IsCloser(text[pos]) && |lists| > 1 {
        NoListIsClean(text, pos + 1, lists[1..]);
      } else {
        NoListIsClean(text, pos + 1, lists);
      }
    }
  }

  /** In particular it terminates on every text without a list. */
  lemma ParseEndsWithoutLists(raw: string)
    requires forall i :: 0 <= i < |raw| ==> raw[i] != '['
    ensures !Parse(raw).Diverges?
  {
    hide SectionFrom, Scan, CleanLists;
    var text := Strip(raw);
    StripIsPart(raw);
    if EnvelopeLabel(text).Some? {
      NoListIsClean(text, SkipSpace(text, EnvelopeLabel(text).value + 1) + 1, [false]);
    }
    ParseEndsOnCleanLists(raw);
  }

  lemma StripIsPart(raw: string)
    ensures forall i :: 0 <= i < |Strip(raw)| ==> Strip(raw)[i] in raw
  {
    var tail := raw[SkipSpace(raw, 0)..];
    forall i | 0 <= i < |Strip(raw)| ensures Strip(raw)[i] in raw {
      assert Strip(raw)[i] == tail[i] == raw[SkipSpace(raw, 0) + i];
    }
  }
}
