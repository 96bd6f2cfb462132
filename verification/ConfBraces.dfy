/** The brace structure of rw-eap.conf under the raw edits, for any content. */
module ConfBraces {
  import opened Chars
  import opened ConfText
  import opened Options

  /** Brace depth after `s` when it is `d` before it; None once it would go negative. */
  function Level(s: string, d: nat): Option<nat>
    decreases |s|
  {
    if s == [] then Some(d)
    else if s[0] == '{' then Level(s[1..], d + 1)
    else if s[0] == '}' then (if d == 0 then None else Level(s[1..], d - 1))
    else Level(s[1..], d)
  }

  /** The running depth never goes negative and ends at zero. */
  predicate Balanced(s: string) {
    Level(s, 0) == Some(0)
  }

  /** Opening braces minus closing ones. */
  function Net(s: string): int
    decreases |s|
  {
    if s == [] then 0
    else Net(s[1..]) + (if s[0] == '{' then 1 else if s[0] == '}' then -1 else 0)
  }

  predicate Braceless(s: string) {
    forall i :: 0 <= i < |s| ==> s[i] != '{' && s[i] != '}'
  }

  lemma {:induction false} LevelJoin(a: string, b: string, d: nat)
    ensures Level(a + b, d) == match Level(a, d) case None => None case Some(e) => Level(b, e)
    decreases |a|
  {
    if a == [] {
      assert a + b == b;
    } else {
      assert (a + b)[1..] == a[1..] + b;
      if a[0] == '{' {
        LevelJoin(a[1..], b, d + 1);
      } else if a[0] == '}' {
        if d > 0 {
          LevelJoin(a[1..], b, d - 1);
        }
      } else {
        LevelJoin(a[1..], b, d);
      }
    }
  }

  lemma {:induction false} LevelIsNet(s: string, d: nat)
    ensures Level(s, d).Some? ==> Level(s, d).value == d + Net(s)
    decreases |s|
  {
    if s != [] {
      if s[0] == '{' {
        LevelIsNet(s[1..], d + 1);
      } else if s[0] == '}' {
        if d > 0 {
          LevelIsNet(s[1..], d - 1);
        }
      } else {
        LevelIsNet(s[1..], d);
      }
    }
  }

  /** More room below never hurts. */
  lemma {:induction false} LevelLifts(s: string, d: nat, up: nat)
    requires Level(s, d).Some?
    ensures Level(s, d + up) == Some(Level(s, d).value + up)
    decreases |s|
  {
    if s != [] {
      if s[0] == '{' {
        LevelLifts(s[1..], d + 1, up);
      } else if s[0] == '}' {
        LevelLifts(s[1..], d - 1, up);
      } else {
        LevelLifts(s[1..], d, up);
      }
    }
  }

  lemma {:induction false} BracelessLevel(s: string, d: nat)
    requires Braceless(s)
    ensures Level(s, d) == Some(d) && Net(s) == 0
    decreases |s|
  {
    if s != [] {
      BracelessLevel(s[1..], d);
    }
  }

  /** Only one depth closes a given tail to zero. */
  lemma TailDecides(tail: string, d: nat, e: nat)
    requires Level(tail, d) == Some(0)
    ensures Level(tail, e) == Some(0) <==> e == d
  {
    LevelIsNet(tail, d);
    LevelIsNet(tail, e);
  }

  // ---------- The depth-counting scan ----------

  /** From inside a balanced rest the scan stops right after the brace that closes it. */
  lemma {:induction false} ScanCloses(t: string, i: nat, depth: nat, outer: nat)
    requires i <= |t| && depth > 0 && Level(t[i..], depth + outer) == Some(0)
    ensures var end := CloseFrom(t, i, depth);
      && i < end && t[end - 1] == '}'
      && Level(t[i..end], depth) == Some(0)
      && Level(t[i..end - 1], depth) == Some(1)
      && Level(t[end..], outer) == Some(0)
    decreases |t| - i
  {
    assert i < |t|;
    var rest := t[i..];
    assert rest[1..] == t[i + 1..];
    var end := CloseFrom(t, i, depth);
    if t[i] == '}' && depth == 1 {
      assert CloseFrom(t, i + 1, 0) == i + 1;
      assert t[i..end] == "}" && t[i..end - 1] == [];
    } else {
      var next := if t[i] == '{' then depth + 1 else if t[i] == '}' then depth - 1 else depth;
      ScanCloses(t, i + 1, next, outer);
      assert t[i..end][1..] == t[i + 1..end] && t[i..end - 1][1..] == t[i + 1..end - 1];
    }
  }

  /** In a balanced file, the scan from one past an opening brace ends one past the matching closing one. */
  lemma ScanFindsMatch(t: string, brace: nat)
    requires Balanced(t) && brace < |t| && t[brace] == '{'
    ensures var end := CloseFrom(t, brace + 1, 1);
      && brace + 1 < end && t[end - 1] == '}'
      && Balanced(t[brace..end]) && Balanced(t[brace + 1..end - 1])
  {
    var end := CloseFrom(t, brace + 1, 1);
    var outer := BeforeBrace(t, brace);
    ScanCloses(t, brace + 1, 1, outer);
    assert t[brace..end][1..] == t[brace + 1..end];
    var inner := t[brace + 1..end - 1];
    InnerBalanced(t, brace + 1, 1, outer);
  }

  lemma BeforeBrace(t: string, brace: nat) returns (outer: nat)
    requires Balanced(t) && brace < |t| && t[brace] == '{'
    ensures Level(t[..brace], 0) == Some(outer) && Level(t[brace + 1..], 1 + outer) == Some(0)
  {
    assert t == t[..brace] + t[brace..];
    LevelJoin(t[..brace], t[brace..], 0);
    outer := Level(t[..brace], 0).value;
    assert t[brace..][1..] == t[brace + 1..];
  }

  /** What the scan walks over before its last brace stays above the depth it will close. */
  lemma {:induction false} InnerBalanced(t: string, i: nat, depth: nat, outer: nat)
    requires i <= |t| && depth > 0 && Level(t[i..], depth + outer) == Some(0)
    ensures var end := CloseFrom(t, i, depth);
      i < end && Level(t[i..end - 1], depth - 1) == Some(0)
    decreases |t| - i
  {
    assert i < |t|;
    assert t[i..][1..] == t[i + 1..];
    var end := CloseFrom(t, i, depth);
    if t[i] == '}' && depth == 1 {
      assert CloseFrom(t, i + 1, 0) == i + 1;
      assert t[i..end - 1] == [];
    } else {
      var next := if t[i] == '{' then depth + 1 else if t[i] == '}' then depth - 1 else depth;
      InnerBalanced(t, i + 1, next, outer);
      assert t[i..end - 1][1..] == t[i + 1..end - 1];
    }
  }

  // ---------- Removal ----------

  /** Cutting from `start` to past the block whose brace is `brace` keeps the file
      balanced exactly when no closing brace is cut on the way to that brace. */
  lemma CutBalance(t: string, start: nat, brace: nat)
    requires Balanced(t) && start <= brace < |t| && t[brace] == '{'
    requires forall i :: start <= i < brace ==> t[i] != '{'
    ensures var end := PastNewline(t, CloseFrom(t, brace + 1, 1));
      && start <= end <= |t|
      && (Balanced(t[..start] + t[end..]) <==> forall i :: start <= i < brace ==> t[i] != '}')
  {
    hide CloseFrom, Balanced;
    var close := CloseFrom(t, brace + 1, 1);
    var end := PastNewline(t, close);
    var outer := BeforeBrace(t, brace);
    ScanCloses(t, brace + 1, 1, outer);
    var a, mid, c := t[..start], t[start..brace], t[end..];
    assert t[..brace] == a + mid;
    if end > close {
      assert t[close..][1..] == c;
    }
    assert forall i :: start <= i < brace ==> t[i] == mid[i - start];
    CutLevels(a, mid, c, outer);
  }

  lemma CutLevels(a: string, mid: string, c: string, outer: nat)
    requires Level(a + mid, 0) == Some(outer) && Level(c, outer) == Some(0)
    requires forall i :: 0 <= i < |mid| ==> mid[i] != '{'
    ensures Balanced(a + c) <==> forall i :: 0 <= i < |mid| ==> mid[i] != '}'
  {
    LevelJoin(a, mid, 0);
    LevelJoin(a, c, 0);
    var d := Level(a, 0).value;
    TailDecides(c, outer, d);
    LevelIsNet(mid, d);
    OnlyClosing(mid);
  }

  lemma {:induction false} OnlyClosing(s: string)
    requires forall i :: 0 <= i < |s| ==> s[i] != '{'
    ensures Net(s) <= 0 && (Net(s) == 0 <==> forall i :: 0 <= i < |s| ==> s[i] != '}')
    decreases |s|
  {
    if s != [] {
      OnlyClosing(s[1..]);
      assert forall i :: 0 < i < |s| ==> s[i] == s[1..][i - 1];
    }
  }

  /** The stretch between a search hit and the brace found after it. */
  ghost predicate NoCloseBetween(t: string, idx: nat)
    requires idx <= |t|
  {
    forall i :: idx <= i < Find(t, '{', idx) ==> t[i] != '}'
  }

  /** The portal's delete keeps a balanced file balanced, exactly when no closing brace
      stands between the name it found and the brace it found. */
  lemma RemoveBalance(t: string, id: string)
    requires Balanced(t) && RemoveText(t, id).Some?
    ensures Balanced(RemoveText(t, id).value)
       <==> NoCloseBetween(t, FirstHit(t, Needle(BlockName(id), Space), 0))
  {
    hide FirstHit, Hit, CloseFrom, Balanced;
    var idx := FirstHit(t, Needle(BlockName(id), Space), 0);
    var brace := Find(t, '{', idx);
    var start := BackOverBlanks(t, idx);
    CutBalance(t, start, brace);
    assert forall i :: start <= i < idx ==> t[i] == ' ' || t[i] == '\t';
  }

  /** The text after one turn of the expiry loop. */
  function ExpireTurn(t: string, id: string): string {
    var idx := FirstHit(t, Needle(BlockName(id), Any), 0);
    var brace := Find(t, '{', idx);
    if brace == |t| then t else t[..idx] + t[PastNewline(t, CloseFrom(t, brace + 1, 1))..]
  }

  lemma ExpireTurnBalance(t: string, id: string)
    requires Balanced(t)
    ensures var idx := FirstHit(t, Needle(BlockName(id), Any), 0);
      Find(t, '{', idx) < |t| ==> (Balanced(ExpireTurn(t, id)) <==> NoCloseBetween(t, idx))
  {
    hide FirstHit, Hit, CloseFrom, Balanced;
    var idx := FirstHit(t, Needle(BlockName(id), Any), 0);
    var brace := Find(t, '{', idx);
    if brace < |t| {
      CutBalance(t, idx, brace);
    }
  }

  /** Every turn of the expiry for `id` finds its brace before any closing one. */
  ghost predicate CleanTurns(t: string, id: string)
    decreases |t|
  {
    var idx := FirstHit(t, Needle(BlockName(id), Any), 0);
    idx == |t| || Find(t, '{', idx) == |t|
    || (NoCloseBetween(t, idx) && |ExpireTurn(t, id)| < |t| && CleanTurns(ExpireTurn(t, id), id))
  }

  lemma {:induction false} NetJoin(a: string, b: string)
    ensures Net(a + b) == Net(a) + Net(b)
    decreases |a|
  {
    if a == [] {
      assert a + b == b;
    } else {
      assert (a + b)[1..] == a[1..] + b;
      NetJoin(a[1..], b);
    }
  }

  /** From `b` on every opening brace is closed before the text ends. */
  ghost predicate AllClose(t: string, b: nat) {
    b <= |t| && forall i :: b <= i <= |t| ==> Net(t[i..]) <= 0
  }

  /** No occurrence of the block name lies before `b`. */
  ghost predicate NameFree(t: string, b: nat, id: string) {
    forall i :: 0 <= i && i + |BlockName(id)| <= b ==> !Stands(t, i, BlockName(id))
  }

  lemma {:induction false} CloseNet(t: string, i: nat, depth: nat)
    requires i <= |t| && depth > 0 && Net(t[i..]) + depth <= 0
    ensures var end := CloseFrom(t, i, depth); i < end <= |t| && Net(t[i..end]) + depth == 0
    decreases |t| - i
  {
    assert i < |t| && t[i..][1..] == t[i + 1..];
    var end := CloseFrom(t, i, depth);
    var next: int := if t[i] == '{' then depth + 1 else if t[i] == '}' then depth - 1 else depth;
    if next == 0 {
      assert CloseFrom(t, i + 1, 0) == i + 1;
      assert t[i..end] == "}";
      assert "}"[1..] == "";
    } else {
      CloseNet(t, i + 1, next);
      assert t[i..end][1..] == t[i + 1..end];
    }
  }

  lemma {:induction false} BalancedCloses(t: string, d: nat, i: nat)
    requires Level(t, d) == Some(0) && i <= |t|
    ensures Net(t[i..]) <= 0 && Net(t) + d == 0
    decreases |t|
  {
    LevelIsNet(t, d);
    assert t[0..] == t;
    if i > 0 {
      var next: int := if t[0] == '{' then d + 1 else if t[0] == '}' then d - 1 else d;
      BalancedCloses(t[1..], next, i - 1);
      assert t[1..][i - 1..] == t[i..];
    }
  }

  /** What one turn takes out: as many braces as stand closed before the one it found. */
  lemma TurnNet(t: string, idx: nat, brace: nat)
    requires idx <= brace < |t| && t[brace] == '{' && Net(t[brace..]) <= 0
    requires forall i :: idx <= i < brace ==> t[i] != '{'
    ensures var end := PastNewline(t, CloseFrom(t, brace + 1, 1));
      && brace < end <= |t|
      && Net(t[idx..end]) == Net(t[idx..brace]) <= 0
      && (Net(t[idx..end]) == 0 <==> forall i :: idx <= i < brace ==> t[i] != '}')
  {
    hide CloseFrom;
    assert t[brace..][1..] == t[brace + 1..];
    CloseNet(t, brace + 1, 1);
    var close := CloseFrom(t, brace + 1, 1);
    var end := PastNewline(t, close);
    var a, m, tail := t[idx..brace], t[brace..close], t[close..end];
    assert m[1..] == t[brace + 1..close];
    assert Net(m) == 0;
    BracelessLevel(tail, 0);
    assert t[idx..end] == a + (m + tail);
    NetJoin(a, m + tail);
    NetJoin(m, tail);
    OnlyClosing(a);
    assert forall i :: idx <= i < brace ==> t[i] == a[i - idx];
  }

  lemma CutNet(t: string, idx: nat, end: nat)
    requires idx <= end <= |t|
    ensures Net(t[..idx] + t[end..]) == Net(t) - Net(t[idx..end])
  {
    hide Net;
    assert t == t[..idx] + (t[idx..end] + t[end..]);
    NetJoin(t[..idx], t[idx..end] + t[end..]);
    NetJoin(t[idx..end], t[end..]);
    NetJoin(t[..idx], t[end..]);
  }

  /** The brace that a turn finds lies past the border, where every brace is closed. */
  lemma TurnBrace(t: string, b: nat, id: string)
    requires AllClose(t, b) && NameFree(t, b, id) && Braceless(id)
    ensures var idx := FirstHit(t, Needle(BlockName(id), Any), 0);
      var brace := Find(t, '{', idx);
      brace < |t| ==> idx < |t| && idx <= brace && b <= brace && Net(t[brace..]) <= 0
  {
    hide Net, FirstHit, Find;
    var idx := FirstHit(t, Needle(BlockName(id), Any), 0);
    var brace := Find(t, '{', idx);
    if brace < |t| {
      var w := BlockName(id);
      assert Hit(t, idx, Needle(w, Any)) && Stands(t, idx, w);
      NameBraceless(id);
      forall i | idx <= i < idx + |w| ensures t[i] != '{' {
        assert t[i] == w[i - idx];
      }
      assert idx + |w| > b;
    }
  }

  lemma NameBraceless(id: string)
    requires Braceless(id)
    ensures Braceless(BlockName(id))
  {
  }

  lemma StandsInPrefix(t: string, u: string, n: nat, i: nat, w: string)
    requires n <= |t| && n <= |u| && t[..n] == u[..n] && i + |w| <= n
    ensures Stands(t, i, w) == Stands(u, i, w)
  {
    assert t[i..i + |w|] == t[..n][i..i + |w|] == u[i..i + |w|];
  }

  /** After a turn the border is where it cut. */
  lemma TurnKeepsBorder(t: string, idx: nat, end: nat, b: nat, id: string)
    requires idx == FirstHit(t, Needle(BlockName(id), Any), 0) && b <= end && idx <= end <= |t| && AllClose(t, b)
    ensures AllClose(t[..idx] + t[end..], idx) && NameFree(t[..idx] + t[end..], idx, id)
  {
    hide Net, FirstHit, Stands;
    var u := t[..idx] + t[end..];
    forall i | idx <= i <= |u| ensures Net(u[i..]) <= 0 {
      assert u[i..] == t[i + end - idx..];
    }
    var w := BlockName(id);
    forall i | 0 <= i && i + |w| <= idx ensures !Stands(u, i, w) {
      assert !Hit(t, i, Needle(w, Any));
      StandsInPrefix(t, u, idx, i, w);
    }
  }

  lemma TurnUnfolds(t: string, id: string)
    ensures var idx := FirstHit(t, Needle(BlockName(id), Any), 0);
      if idx < |t| && Find(t, '{', idx) < |t|
      then && |ExpireTurn(t, id)| < |t|
           && ExpireOne(t, id).text == ExpireOne(ExpireTurn(t, id), id).text
           && (CleanTurns(t, id) <==> NoCloseBetween(t, idx) && CleanTurns(ExpireTurn(t, id), id))
      else ExpireOne(t, id).text == t && CleanTurns(t, id)
  {
    hide FirstHit, Find, CloseFrom, BlockName;
  }

  /** An expiry never lowers the net number of open braces, and keeps it exactly with clean turns. */
  lemma {:induction false} ExpiryNet(t: string, b: nat, id: string)
    requires AllClose(t, b) && NameFree(t, b, id) && Braceless(id)
    ensures Net(ExpireOne(t, id).text) >= Net(t)
    ensures Net(ExpireOne(t, id).text) == Net(t) <==> CleanTurns(t, id)
    decreases |t|
  {
    hide FirstHit, Hit, CloseFrom, Net, AllClose, NameFree, Find, ExpireOne, CleanTurns, BlockName, PastNewline;
    var idx := FirstHit(t, Needle(BlockName(id), Any), 0);
    var brace := Find(t, '{', idx);
    TurnBrace(t, b, id);
    TurnUnfolds(t, id);
    if idx < |t| && brace < |t| {
      TurnNet(t, idx, brace);
      var end := PastNewline(t, CloseFrom(t, brace + 1, 1));
      CutNet(t, idx, end);
      TurnKeepsBorder(t, idx, end, b, id);
      ExpiryNet(ExpireTurn(t, id), idx, id);
    }
  }

  /** Expiring an identity keeps a balanced file balanced exactly when every turn
      finds its brace before any closing one. */
  lemma ExpireBalance(t: string, id: string)
    requires Balanced(t) && Braceless(id)
    ensures Balanced(ExpireOne(t, id).text) <==> CleanTurns(t, id)
  {
    hide FirstHit, Hit, CloseFrom, ExpireOne, CleanTurns;
    forall i | 0 <= i <= |t| ensures Net(t[i..]) <= 0 {
      BalancedCloses(t, 0, i);
    }
    BalancedCloses(t, 0, 0);
    ExpiryNet(t, 0, id);
    if CleanTurns(t, id) {
      CleanKeepsBalance(t, id);
    } else if Balanced(ExpireOne(t, id).text) {
      BalancedCloses(ExpireOne(t, id).text, 0, 0);
    }
  }

  lemma {:induction false} CleanKeepsBalance(t: string, id: string)
    requires Balanced(t) && CleanTurns(t, id)
    ensures Balanced(ExpireOne(t, id).text)
    decreases |t|
  {
    hide FirstHit, Hit, CloseFrom, Balanced;
    var idx := FirstHit(t, Needle(BlockName(id), Any), 0);
    if idx < |t| && Find(t, '{', idx) < |t| {
      ExpireTurnBalance(t, id);
      CleanKeepsBalance(ExpireTurn(t, id), id);
    }
  }

  // ---------- Replacement and append ----------

  /** Exchanging one stretch for a braceless one keeps a file balanced exactly
      when the old stretch opened as many braces as it closed. */
  lemma ExchangeBalance(a: string, old': string, new': string, c: string)
    requires Balanced(a + old' + c) && Braceless(new')
    ensures Balanced(a + new' + c) <==> Net(old') == 0
  {
    LevelJoin(a + old', c, 0);
    LevelJoin(a, old', 0);
    LevelJoin(a + new', c, 0);
    LevelJoin(a, new', 0);
    var d := Level(a, 0).value;
    BracelessLevel(new', d);
    LevelIsNet(old', d);
    TailDecides(c, Level(old', d).value, d);
  }

  /** Replacing a secret by braceless text keeps a balanced file balanced, exactly when the old secret was. */
  lemma ReplaceBalance(t: string, id: string, secret: string)
    requires Balanced(t) && ReplaceText(t, id, secret).Replaced? && Braceless(InsertedText(t, id, secret).value)
    ensures var open := FirstSecret(t, 0, id).value;
      var close := Find(t, '"', open);
      open <= close <= |t| && (Balanced(ReplaceText(t, id, secret).text) <==> Net(t[open..close]) == 0)
  {
    hide FirstSecret, Balanced, SecretAt, InsertedText;
    var open := FirstSecret(t, 0, id).value;
    var close := Find(t, '"', open);
    assert t == t[..open] + t[open..close + 1] + t[close + 1..];
    assert t[open..close + 1] == t[open..close] + "\"";
    NetJoin(t[open..close], "\"");
    ExchangeBalance(t[..open], t[open..close + 1], InsertedText(t, id, secret).value, t[close + 1..]);
  }

  lemma {:induction false} SpaceIsBraceless(s: string)
    requires AllSpace(s)
    ensures Braceless(s)
  {
    assert forall i :: 0 <= i < |s| ==> IsSpace(s[i]);
  }

  lemma StripLevel(t: string, d: nat)
    ensures Level(RStrip(t), d) == Level(t, d)
  {
    var r := RStrip(t);
    assert t == r + t[|r|..];
    LevelJoin(r, t[|r|..], d);
    SpaceIsBraceless(t[|r|..]);
    if Level(r, d).Some? {
      BracelessLevel(t[|r|..], Level(r, d).value);
    }
  }

  lemma BlockLevel(id: string, secret: string, d: nat)
    requires Braceless(id) && Braceless(secret)
    ensures Level(BlockText(id, secret), d) == Some(d)
  {
    var name, line, rest := "eap-" + id + " ", "\n    id     = " + id + "\n    secret = \"" + secret + "\"\n  ", "}";
    assert BlockText(id, secret) == name + "{" + line + rest;
    BracelessLevel(name, d);
    BracelessLevel(line, d + 1);
    LevelJoin(name, "{", d);
    LevelJoin(name + "{", line, d);
    LevelJoin(name + "{" + line, rest, d);
    OneBrace(d);
  }

  lemma OneBrace(d: nat)
    ensures Level("{", d) == Some(d + 1) && Level("}", d + 1) == Some(d)
  {
    assert "{"[1..] == [] && "}"[1..] == [];
  }

  /** Appending a block to a balanced file gives a balanced file. */
  lemma AppendBalance(t: string, id: string, secret: string)
    requires Balanced(t) && Braceless(id) && Braceless(secret) && AppendText(t, id, secret).Appended?
    ensures Balanced(AppendText(t, id, secret).text)
  {
    hide RStrip, HasBlock, Contains, BlockText, BlockName;
    var core := RStrip(t);
    var body := core[..|core| - 1];
    StripLevel(t, 0);
    assert core == body + "}";
    LevelJoin(body, "}", 0);
    var d := Level(body, 0).value;
    OneBraceBack(d);
    StripLevel(body, 0);
    var block := BlockText(id, secret);
    BlockLevel(id, secret, d);
    var stem := RStrip(body);
    BracelessLevel("\n  ", d);
    BracelessLevel("\n", d);
    LevelJoin(stem, "\n  ", 0);
    LevelJoin(stem + "\n  ", block, 0);
    LevelJoin(stem + "\n  " + block, "\n", 0);
    LevelJoin(stem + "\n  " + block + "\n", "}\n", 0);
    assert "}\n" == "}" + "\n";
    LevelJoin("}", "\n", d);
    BracelessLevel("\n", 0);
  }

  lemma OneBraceBack(d: nat)
    ensures Level("}", d) == if d == 0 then None else Some((d - 1) as nat)
  {
    assert "}"[1..] == [];
  }
}
