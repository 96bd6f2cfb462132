/**
 rw-eap.conf as text: the searches and the raw string edits that the portal
 (host/vpn-portal/app.py, installer_tokens.py) and the quota monitor
 (quota/quota-monitor.py) make on it. Each regular expression is written out
 as the deterministic matcher it amounts to for identities without whitespace.
 */
module ConfText {
  import opened Chars
  import opened ConfTemplate
  import opened Options

  /** What must follow the searched word: anything, one space, or whitespace or an opening brace. */
  datatype Term = Any | Space | Opening

  datatype Needle = Needle(word: string, term: Term)

  predicate TermOk(term: Term, c: char) {
    match term
    case Any => true
    case Space => c == ' '
    case Opening => IsSpace(c) || c == '{'
  }

  /** Characters of identities and secrets. */
  predicate IsWordChar(c: char) {
    !IsSpace(c) && c != '{' && c != '}' && c != '"'
  }

  predicate IsWord(s: string) {
    s != [] && forall i :: 0 <= i < |s| ==> IsWordChar(s[i])
  }

  function BlockName(id: string): string {
    "eap-" + id
  }

  /** `word` stands at `i`: the executable form of `At`. */
  predicate Stands(text: string, i: nat, word: string)
    ensures Stands(text, i, word) <==> At(text, i, word)
  {
    i + |word| <= |text| && text[i..i + |word|] == word
  }

  predicate Hit(text: string, i: nat, nd: Needle) {
    && Stands(text, i, nd.word)
    && (nd.term.Any? || (i + |nd.word| < |text| && TermOk(nd.term, text[i + |nd.word|])))
  }

  /** First hit at or after `from`, or `|text|` when there is none: `str.find`. */
  function FirstHit(text: string, nd: Needle, from: nat): (r: nat)
    requires from <= |text|
    ensures from <= r <= |text|
    ensures r < |text| ==> Hit(text, r, nd)
    ensures forall i :: from <= i < r ==> !Hit(text, i, nd)
    decreases |text| - from
  {
    if from == |text| || Hit(text, from, nd) then from else FirstHit(text, nd, from + 1)
  }

  function Find(text: string, c: char, from: nat): (r: nat)
    requires from <= |text|
    ensures from <= r <= |text|
    ensures r < |text| ==> text[r] == c
    ensures forall i :: from <= i < r ==> text[i] != c
    decreases |text| - from
  {
    if from == |text| || text[from] == c then from else Find(text, c, from + 1)
  }

  /** Where the depth-counting scan stops: one past the brace that closes `depth` levels. */
  function CloseFrom(text: string, i: nat, depth: nat): (r: nat)
    requires i <= |text|
    ensures i <= r <= |text|
    decreases |text| - i
  {
    if i == |text| || depth == 0 then i
    else if text[i] == '{' then CloseFrom(text, i + 1, depth + 1)
    else if text[i] == '}' then CloseFrom(text, i + 1, depth - 1)
    else CloseFrom(text, i + 1, depth)
  }

  function PastNewline(text: string, i: nat): (r: nat)
    requires i <= |text|
    ensures i <= r <= |text|
  {
    if i < |text| && text[i] == '\n' then i + 1 else i
  }

  /** Start of the spaces and tabs that end just before `i`. */
  function BackOverBlanks(text: string, i: nat): (r: nat)
    requires i <= |text|
    ensures r <= i
    ensures forall k :: r <= k < i ==> text[k] == ' ' || text[k] == '\t'
    ensures r > 0 ==> text[r - 1] != ' ' && text[r - 1] != '\t'
  {
    if i > 0 && (text[i - 1] == ' ' || text[i - 1] == '\t') then BackOverBlanks(text, i - 1) else i
  }

  // ---------- _remove_eap_block ----------

  /** The text without the block of `id`, or None when no block is found. */
  function RemoveText(text: string, id: string): Option<string> {
    var idx := FirstHit(text, Needle(BlockName(id), Space), 0);
    if idx == |text| then None
    else
      var brace := Find(text, '{', idx);
      if brace == |text| then None
      else
        var end := PastNewline(text, CloseFrom(text, brace + 1, 1));
        Some(text[..BackOverBlanks(text, idx)] + text[end..])
  }

  // ---------- remove_customer_eap_blocks ----------

  datatype Expiry = Expiry(text: string, removed: nat)

  /** The inner loop of the expiry for one identity. */
  function ExpireOne(text: string, id: string): (r: Expiry)
    ensures |r.text| + r.removed <= |text|
    decreases |text|
  {
    var idx := FirstHit(text, Needle(BlockName(id), Any), 0);
    if idx == |text| then Expiry(text, 0)
    else
      var brace := Find(text, '{', idx);
      if brace == |text| then Expiry(text, 0)
      else
        var end := PastNewline(text, CloseFrom(text, brace + 1, 1));
        var r := ExpireOne(text[..idx] + text[end..], id);
        Expiry(r.text, r.removed + 1)
  }

  function ExpireAll(text: string, ids: seq<string>): Expiry
    decreases |ids|
  {
    if ids == [] then Expiry(text, 0)
    else
      var first := ExpireOne(text, ids[0]);
      var rest := ExpireAll(first.text, ids[1..]);
      Expiry(rest.text, first.removed + rest.removed)
  }

  // ---------- Patterns ----------

  /** Whitespace, the block name, whitespace and an opening brace at `i`: one past the brace. */
  function HeaderAt(text: string, i: nat, id: string): (r: Option<nat>)
    requires i <= |text|
    ensures r.Some? ==> i < r.value <= |text|
  {
    var j := SkipSpace(text, i);
    NameAt(text, j, id)
  }

  /** The same from the block name on, at `j`. */
  function NameAt(text: string, j: nat, id: string): (r: Option<nat>)
    requires j <= |text|
    ensures r.Some? ==> j < r.value <= |text| && Hit(text, j, Needle(BlockName(id), Opening))
  {
    if !Stands(text, j, BlockName(id)) then None
    else
      var k := SkipSpace(text, j + |BlockName(id)|);
      if k < |text| && text[k] == '{' then Some(k + 1) else None
  }

  predicate IsLineStart(text: string, i: nat)
    requires i <= |text|
  {
    i == 0 || text[i - 1] == '\n'
  }

  /** `\s*<word>` at `i`: one past the word. */
  function After(text: string, i: nat, word: string): (r: Option<nat>)
    requires i <= |text|
    ensures r.Some? ==> i <= r.value <= |text| && r.value == SkipSpace(text, i) + |word|
  {
    var j := SkipSpace(text, i);
    if Stands(text, j, word) then Some(j + |word|) else None
  }

  /** `\s*=\s*"`: the position one past the opening quote. */
  function Assigned(text: string, i: nat): (r: Option<nat>)
    requires i <= |text|
    ensures r.Some? ==> i < r.value <= |text|
  {
    match After(text, i, "=")
    case None => None
    case Some(j) => After(text, j, "\"")
  }

  /** Whether some line starts a block for `id`: `eap_block_exists` and the append guard. */
  predicate HasBlock(text: string, id: string) {
    exists i :: 0 <= i <= |text| && IsLineStart(text, i) && HeaderAt(text, i, id).Some?
  }

  /** The first quoted assignment to `secret` from `i` with no closing brace before it: one past its opening quote. */
  function SecretFrom(text: string, i: nat): (r: Option<nat>)
    requires i <= |text|
    ensures r.Some? ==> i < r.value <= |text| && Find(text, '"', r.value) < |text|
    decreases |text| - i
  {
    if i == |text| then None
    else
      var here := if Stands(text, i, "secret") then Assigned(text, i + 6) else None;
      if here.Some? && Find(text, '"', here.value) < |text| then here
      else if text[i] == '}' then None
      else SecretFrom(text, i + 1)
  }

  /** The replace pattern at line start `i`: one past the secret's opening quote. */
  function SecretAt(text: string, i: nat, id: string): (r: Option<nat>)
    requires i <= |text|
    ensures r.Some? ==> i < r.value <= |text| && Find(text, '"', r.value) < |text|
  {
    match HeaderAt(text, i, id)
    case None => None
    case Some(k) => SecretFrom(text, k)
  }

  function FirstSecret(text: string, i: nat, id: string): (r: Option<nat>)
    requires i <= |text|
    ensures r.Some? ==> i < r.value <= |text| && Find(text, '"', r.value) < |text|
    decreases |text| - i
  {
    if IsLineStart(text, i) && SecretAt(text, i, id).Some? then SecretAt(text, i, id)
    else if i == |text| then None
    else FirstSecret(text, i + 1, id)
  }

  /** The line start whose match `FirstSecret` reports. */
  function SecretLineFrom(text: string, i: nat, id: string): (r: nat)
    requires i <= |text| && FirstSecret(text, i, id).Some?
    ensures i <= r < FirstSecret(text, i, id).value
    ensures IsLineStart(text, r) && SecretAt(text, r, id) == FirstSecret(text, i, id)
    decreases |text| - i
  {
    if IsLineStart(text, i) && SecretAt(text, i, id).Some? then i else SecretLineFrom(text, i + 1, id)
  }

  /** `_replace_eap_secret`: no match is the 404 answer, and a template Python cannot read raises. */
  datatype Replacement = Replaced(text: string) | NotFound | BadTemplate

  /** The pattern's one group: from the line start to the opening quote. */
  function MatchedGroup(text: string, id: string): string
    requires FirstSecret(text, 0, id).Some?
  {
    text[SecretLineFrom(text, 0, id)..FirstSecret(text, 0, id).value - 1]
  }

  /** The whole match: from the line start to one past the closing quote. */
  function MatchedText(text: string, id: string): string
    requires FirstSecret(text, 0, id).Some?
  {
    text[SecretLineFrom(text, 0, id)..Find(text, '"', FirstSecret(text, 0, id).value) + 1]
  }

  /** What takes the place of the old secret and its closing quote. */
  function InsertedText(text: string, id: string, secret: string): Option<string>
    requires FirstSecret(text, 0, id).Some?
  {
    Expand(secret + "\"", MatchedGroup(text, id), MatchedText(text, id))
  }

  function ReplaceText(text: string, id: string, secret: string): Replacement {
    match FirstSecret(text, 0, id)
    case None => NotFound
    case Some(open) =>
      match InsertedText(text, id, secret)
      case None => BadTemplate
      case Some(put) => Replaced(text[..open] + put + text[Find(text, '"', open) + 1..])
  }

  /** A whole block up to its secret's closing quote, at `i`, with any whitespace between its words: the secret. */
  function SecretOf(text: string, i: nat, id: string): (r: Option<string>)
    requires i <= |text|
    ensures r.Some? ==> NameAt(text, i, id).Some?
  {
    match NameAt(text, i, id) case None => None case Some(a) =>
    match After(text, a, "id") case None => None case Some(b) =>
    match After(text, b, "=") case None => None case Some(c) =>
    match After(text, c, id) case None => None case Some(d) =>
    match After(text, d, "secret") case None => None case Some(e) =>
    match Assigned(text, e) case None => None case Some(open) =>
    var close := Find(text, '"', open);
    if open < close < |text| then Some(text[open..close]) else None
  }

  function LookupFrom(text: string, i: nat, id: string): Option<string>
    requires i <= |text|
    decreases |text| - i
  {
    if SecretOf(text, i, id).Some? then SecretOf(text, i, id)
    else if i == |text| then None
    else LookupFrom(text, i + 1, id)
  }

  /** The lookup half of `_read_eap_secret_from_conf`. */
  function LookupText(text: string, id: string): Option<string> {
    LookupFrom(text, 0, id)
  }

  // ---------- append_eap_block ----------

  predicate Contains(text: string, word: string) {
    exists i :: 0 <= i <= |text| && Stands(text, i, word)
  }

  datatype AppendResult = Appended(text: string) | Conflict | Corrupted | BadShape

  function BlockText(id: string, secret: string): string {
    BlockName(id) + " {\n    id     = " + id + "\n    secret = \"" + secret + "\"\n  }"
  }

  function AppendText(text: string, id: string, secret: string): AppendResult {
    if HasBlock(text, id) then Conflict
    else if !Contains(text, "connections {") || !Contains(text, "secrets {") then Corrupted
    else
      var core := RStrip(text);
      if core == [] || core[|core| - 1] != '}' then BadShape
      else Appended(RStrip(core[..|core| - 1]) + "\n  " + BlockText(id, secret) + "\n" + "}\n")
  }

  // ---------- create_client's compensation ----------

  /** Whitespace, a whole block without inner braces and at most one newline at `i`: one past the match. */
  function WholeBlockAt(text: string, i: nat, id: string): (r: Option<nat>)
    requires i <= |text|
    ensures r.Some? ==> i < r.value <= |text|
  {
    match HeaderAt(text, i, id)
    case None => None
    case Some(k) =>
      var close := Find(text, '}', k);
      if close < |text| && Find(text, '{', k) > close then Some(PastNewline(text, close + 1)) else None
  }

  function CompensateFrom(text: string, i: nat, id: string): string
    requires i <= |text|
    decreases |text| - i
  {
    match WholeBlockAt(text, i, id)
    case Some(end) => text[..i] + text[end..]
    case None => if i == |text| then text else CompensateFrom(text, i + 1, id)
  }

  /** The text after `pat.sub("", conf, count=1)`. */
  function CompensateText(text: string, id: string): string {
    CompensateFrom(text, 0, id)
  }

  // ---------- Answers on any text ----------

  /** A secret that lookup reports is not empty and holds no quote, and stands in the text
      between two quotes after the word `secret`, an equals sign and no other word. */
  lemma {:induction false} SecretIsQuoted(text: string, i: nat, id: string)
    requires i <= |text| && LookupFrom(text, i, id).Some?
    ensures var s := LookupFrom(text, i, id).value;
      s != "" && '"' !in s && exists open :: 0 < open <= |text| && text[open - 1] == '"' && At(text, open, s + "\"")
    decreases |text| - i
  {
    if SecretOf(text, i, id).Some? {
      SecretOfIsQuoted(text, i, id);
    } else {
      SecretIsQuoted(text, i + 1, id);
    }
  }

  lemma SecretOfIsQuoted(text: string, i: nat, id: string)
    requires i <= |text| && SecretOf(text, i, id).Some?
    ensures var s := SecretOf(text, i, id).value;
      s != "" && '"' !in s && exists open :: 0 < open <= |text| && text[open - 1] == '"' && At(text, open, s + "\"")
  {
    hide NameAt, SkipSpace, Find, After, Assigned, At;
    var a := NameAt(text, i, id).value;
    var b := After(text, a, "id").value;
    var c := After(text, b, "=").value;
    var d := After(text, c, id).value;
    var e := After(text, d, "secret").value;
    var open := Assigned(text, e).value;
    AssignedIsQuote(text, e);
    QuotedText(text, open, Find(text, '"', open));
  }

  lemma AssignedIsQuote(text: string, i: nat)
    requires i <= |text| && Assigned(text, i).Some?
    ensures text[Assigned(text, i).value - 1] == '"'
  {
    hide SkipSpace;
    var j := After(text, i, "=").value;
    var k := SkipSpace(text, j);
    assert text[k..k + 1] == "\"";
    assert text[k] == text[k..k + 1][0];
  }

  lemma QuotedText(text: string, open: nat, close: nat)
    requires open < close < |text| && text[close] == '"' && forall k :: open <= k < close ==> text[k] != '"'
    ensures var s := text[open..close]; s != "" && '"' !in s && At(text, open, s + "\"")
  {
  }

  /**
   What an append answers, on any text: a conflict if a line starts a block of the
   identity; else that the file is corrupted if it lacks a section; else that its shape
   is bad if it does not end, blanks apart, in a brace; else the text with the block
   before that last brace.
   */
  lemma AppendAnswers(text: string, id: string, secret: string)
    ensures var r, core := AppendText(text, id, secret), RStrip(text);
      var whole := Contains(text, "connections {") && Contains(text, "secrets {");
      var braced := core != "" && core[|core| - 1] == '}';
      && (r.Conflict? <==> HasBlock(text, id))
      && (r.Corrupted? <==> !HasBlock(text, id) && !whole)
      && (r.BadShape? <==> !HasBlock(text, id) && whole && !braced)
      && (r.Appended? <==> !HasBlock(text, id) && whole && braced)
      && (r.Appended? ==>
            r.text == RStrip(core[..|core| - 1])
            + "\n  eap-" + id + " {\n    id     = " + id + "\n    secret = \"" + secret + "\"\n  }\n}\n")
  {
    hide HasBlock, Contains, RStrip;
    var core := RStrip(text);
    if core != "" {
      AppendedText(RStrip(core[..|core| - 1]), id, secret);
    }
  }

  lemma AppendedText(stem: string, id: string, secret: string)
    ensures stem + "\n  " + BlockText(id, secret) + "\n" + "}\n"
         == stem + "\n  eap-" + id + " {\n    id     = " + id + "\n    secret = \"" + secret + "\"\n  }\n}\n"
  {
    hide *;
    assert BlockText(id, secret) == "eap-" + id + " {\n    id     = " + id + "\n    secret = \"" + secret + "\"\n  }" by {
      BlockTextIs(id, secret);
    }
    var mid := id + " {\n    id     = " + id + "\n    secret = \"" + secret;
    Reassociate(stem, "\n  ", "eap-", mid, "\"\n  }", "\n", "}\n");
    assert "\n  " + "eap-" == "\n  eap-";
    assert "\"\n  }" + "\n" + "}\n" == "\"\n  }\n}\n";
  }

  lemma BlockTextIs(id: string, secret: string)
    ensures BlockText(id, secret) == "eap-" + id + " {\n    id     = " + id + "\n    secret = \"" + secret + "\"\n  }"
  {
  }

  lemma Reassociate(a: string, b: string, c: string, d: string, e: string, f: string, g: string)
    ensures a + b + (c + d + e) + f + g == a + (b + c) + d + (e + f + g)
  {
  }

  /** What the replace pattern matches: its group, the old secret between quotes, nothing else. */
  lemma MatchIsGroupAndSecret(text: string, id: string)
    requires FirstSecret(text, 0, id).Some?
    ensures var open := FirstSecret(text, 0, id).value;
      var before := text[open..Find(text, '"', open)];
      '"' !in before && MatchedText(text, id) == MatchedGroup(text, id) + text[open - 1..open] + before + "\""
  {
    hide FirstSecret, SecretLineFrom, Find, SecretAt, IsLineStart;
    var open := FirstSecret(text, 0, id).value;
    UpToQuote(text, open);
    hide *;
    FourPieces(text, SecretLineFrom(text, 0, id), open - 1, open, Find(text, '"', open));
  }

  lemma UpToQuote(text: string, open: nat)
    requires open <= |text|
    ensures '"' !in text[open..Find(text, '"', open)]
  {
  }

  lemma FourPieces(text: string, a: nat, b: nat, c: nat, d: nat)
    requires a <= b <= c <= d < |text|
    ensures text[a..d + 1] == text[a..b] + text[b..c] + text[c..d] + [text[d]]
  {
  }

  /** The compensation matches exactly a header and a text without braces up to a closing
      one, and takes one newline after it. */
  lemma WholeBlockIsFlat(text: string, i: nat, id: string, close: nat)
    requires i <= |text| && HeaderAt(text, i, id).Some? && HeaderAt(text, i, id).value <= close < |text|
    requires text[close] == '}' && forall k :: HeaderAt(text, i, id).value <= k < close ==> text[k] != '}'
    ensures WholeBlockAt(text, i, id).Some? <==> forall k :: HeaderAt(text, i, id).value <= k < close ==> text[k] != '{'
    ensures WholeBlockAt(text, i, id).Some? ==>
      WholeBlockAt(text, i, id).value == if close + 1 < |text| && text[close + 1] == '\n' then close + 2 else close + 1
  {
    hide HeaderAt;
    var from := HeaderAt(text, i, id).value;
    FindIs(text, '}', from, close);
    var brace := Find(text, '{', from);
    assert brace < close ==> text[brace] == '{';
  }

  lemma {:induction false} FindIs(text: string, c: char, from: nat, pos: nat)
    requires from <= pos < |text| && text[pos] == c
    requires forall i :: from <= i < pos ==> text[i] != c
    ensures Find(text, c, from) == pos
    decreases pos - from
  {
    if from < pos {
      FindIs(text, c, from + 1, pos);
    }
  }
}
