/** The file being edited in place, and runs of edits. */
module ConfFile {
  import opened Chars
  import opened ConfText
  import opened ConfTemplate
  import opened ConfLayout
  import opened ConfStore
  import opened ConfRemoval
  import opened ConfExpiry
  import opened Options

  /** rw-eap.conf as the portal and the monitor change it. */
  class Conf {
    var text: string

    constructor (content: string)
      ensures text == content
    {
      text := content;
    }

    /** One past the brace that closes the block opened before `from`. */
    static method CloseBlock(text: string, from: nat) returns (end: nat)
      requires from <= |text|
      ensures end == CloseFrom(text, from, 1) && from <= end <= |text|
    {
      var depth := 1;
      end := from;
      while end < |text| && depth > 0
        invariant from <= end <= |text| && depth >= 0
        invariant CloseFrom(text, end, depth) == CloseFrom(text, from, 1)
        decreases |text| - end
      {
        if text[end] == '{' {
          depth := depth + 1;
        } else if text[end] == '}' {
          depth := depth - 1;
        }
        end := end + 1;
      }
    }

    /** Start of the spaces and tabs that end just before `idx`. */
    static method BackOver(text: string, idx: nat) returns (start: nat)
      requires idx <= |text|
      ensures start == BackOverBlanks(text, idx)
    {
      start := idx;
      while start > 0 && (text[start - 1] == ' ' || text[start - 1] == '\t')
        invariant 0 <= start <= idx
        invariant BackOverBlanks(text, start) == BackOverBlanks(text, idx)
      {
        start := start - 1;
      }
    }

    /** `_remove_eap_block`. */
    method Remove(id: string) returns (removed: bool)
      modifies this
      ensures removed == RemoveText(old(text), id).Some?
      ensures text == if removed then RemoveText(old(text), id).value else old(text)
    {
      hide FirstHit, Find, CloseFrom, BlockName, BackOverBlanks, Hit, RemoveText, PastNewline;
      RemoveUnfolds(text, id);
      var idx := FirstHit(text, Needle(BlockName(id), Space), 0);
      if idx == |text| {
        return false;
      }
      var brace := Find(text, '{', idx);
      if brace == |text| {
        return false;
      }
      var end := CloseBlock(text, brace + 1);
      var start := BackOver(text, idx);
      NewlineIs(text, end);
      if end < |text| && text[end] == '\n' {
        end := end + 1;
      }
      text := text[..start] + text[end..];
      return true;
    }

    /** The inner loop of `remove_customer_eap_blocks`: one identity. */
    static method RemoveEach(original: string, id: string) returns (newText: string, removed: nat)
      ensures Expiry(newText, removed) == ExpireOne(original, id)
    {
      hide FirstHit, Find, CloseFrom, BlockName, ExpireOne;
      var needle := Needle(BlockName(id), Any);
      newText := original;
      removed := 0;
      var idx := FirstHit(newText, needle, 0);
      while idx < |newText|
        invariant idx == FirstHit(newText, needle, 0)
        invariant ExpireOne(original, id)
               == Expiry(ExpireOne(newText, id).text, removed + ExpireOne(newText, id).removed)
        decreases |newText|
      {
        var brace := Find(newText, '{', idx);
        if brace == |newText| {
          ExpireStops(newText, id);
          return;
        }
        var end := CloseBlock(newText, brace + 1);
        ExpireOneUnfolds(newText, id, idx, brace, end);
        if end < |newText| && newText[end] == '\n' {
          end := end + 1;
        }
        newText := newText[..idx] + newText[end..];
        removed := removed + 1;
        idx := FirstHit(newText, needle, 0);
      }
      ExpireStops(newText, id);
    }

    /** The loops of `remove_customer_eap_blocks` over the text read at their start. */
    static method RemoveListed(original: string, ids: seq<string>) returns (newText: string, removed: nat)
      ensures Expiry(newText, removed) == ExpireAll(original, ids)
    {
      hide ExpireOne;
      newText := original;
      removed := 0;
      for n := 0 to |ids|
        invariant ExpireAll(original, ids)
               == Expiry(ExpireAll(newText, ids[n..]).text, removed + ExpireAll(newText, ids[n..]).removed)
      {
        var count: nat;
        newText, count := RemoveEach(newText, ids[n]);
        removed := removed + count;
        assert ids[n..][1..] == ids[n + 1..];
      }
    }

    /**
     `remove_customer_eap_blocks`: nothing is written when nothing was removed or
     the file lost one of its two sections; a write that raises counts nothing,
     and after a failed reload the original is written back.
     */
    method Expire(ids: seq<string>, write: Write, reloads: bool, restore: Write) returns (removed: nat)
      modifies this
      ensures (text, removed) == Expired(old(text), ids, write, reloads, restore)
      ensures write.Lands? && !reloads && !restore.Refused? ==> text == old(text) && removed == 0
      ensures write.Refused? ==> text == old(text) && removed == 0
    {
      hide ExpireAll, Contains;
      var original := text;
      var newText, count := RemoveListed(text, ids);
      if count == 0 || !Contains(newText, "connections {") || !Contains(newText, "secrets {") {
        return 0;
      }
      if !write.Refused? {
        text := newText;
      }
      if !write.Lands? {
        return 0;
      }
      if !reloads {
        if !restore.Refused? {
          text := original;
        }
        return 0;
      }
      return count;
    }

    /** Python's `rstrip`. */
    static method Stripped(s: string) returns (r: string)
      ensures r == RStrip(s)
    {
      var end := |s|;
      assert s[..end] == s;
      while end > 0 && IsSpace(s[end - 1])
        invariant 0 <= end <= |s| && RStrip(s[..end]) == RStrip(s)
      {
        assert s[..end][..end - 1] == s[..end - 1];
        end := end - 1;
      }
      assert end > 0 ==> s[..end][end - 1] == s[end - 1];
      return s[..end];
    }

    /** Whether some line starts a block for `id`. */
    static method SearchBlock(text: string, id: string) returns (found: bool)
      ensures found == HasBlock(text, id)
    {
      hide HeaderAt;
      for i := 0 to |text| + 1
        invariant forall j :: 0 <= j < i ==> !(IsLineStart(text, j) && HeaderAt(text, j, id).Some?)
      {
        if IsLineStart(text, i) && HeaderAt(text, i, id).Some? {
          return true;
        }
      }
      return false;
    }

    /** `append_eap_block`; the answer tells whether and why the file was left alone. */
    method Append(id: string, secret: string) returns (r: AppendResult)
      modifies this
      ensures r == AppendText(old(text), id, secret)
      ensures text == if r.Appended? then r.text else old(text)
    {
      hide HasBlock, RStrip, BlockText;
      var present := SearchBlock(text, id);
      if present {
        return Conflict;
      }
      ContainsIsHit(text, "connections {");
      ContainsIsHit(text, "secrets {");
      if FirstHit(text, Needle("connections {", Any), 0) == |text| || FirstHit(text, Needle("secrets {", Any), 0) == |text| {
        return Corrupted;
      }
      var core := Stripped(text);
      if core == "" || core[|core| - 1] != '}' {
        return BadShape;
      }
      var stem := Stripped(core[..|core| - 1]);
      text := stem + "\n  " + BlockText(id, secret) + "\n" + "}\n";
      return Appended(text);
    }

    /** Python's reading of a replacement template. */
    static method ReadTemplate(s: string, group: string, whole: string) returns (r: Option<string>)
      ensures r == Expand(s, group, whole)
    {
      hide ReadEscape;
      var pos, put := 0, "";
      assert s[0..] == s;
      PrependNothing(Expand(s, group, whole));
      while pos < |s|
        invariant pos <= |s| && Prepend(put, Expand(s[pos..], group, whole)) == Expand(s, group, whole)
      {
        var n, piece := 1, [s[pos]];
        if s[pos] == '\\' {
          var e := ReadEscape(s[pos..], group, whole);
          if e.None? {
            return None;
          }
          n, piece := e.value.1, e.value.0;
        }
        assert s[pos..][n..] == s[pos + n..];
        PrependTwice(put, piece, Expand(s[pos + n..], group, whole));
        pos, put := pos + n, put + piece;
      }
      assert s[pos..] == [] && put + "" == put;
      return Some(put);
    }

    /** `_replace_eap_secret`. */
    method Replace(id: string, secret: string) returns (r: Replacement)
      modifies this
      ensures r == ReplaceText(old(text), id, secret)
      ensures text == if r.Replaced? then r.text else old(text)
    {
      hide SecretAt, Find, Expand;
      var i := 0;
      while i <= |text| && !(IsLineStart(text, i) && SecretAt(text, i, id).Some?)
        invariant 0 <= i <= |text| + 1 && text == old(text)
        invariant i <= |text| ==> FirstSecret(text, i, id) == FirstSecret(text, 0, id)
        invariant i <= |text| && FirstSecret(text, 0, id).Some? ==> SecretLineFrom(text, i, id) == SecretLineFrom(text, 0, id)
        invariant i > |text| ==> FirstSecret(text, 0, id).None?
      {
        i := i + 1;
      }
      if i > |text| {
        return NotFound;
      }
      var open := SecretAt(text, i, id).value;
      var close := Find(text, '"', open);
      var put := ReadTemplate(secret + "\"", text[i..open - 1], text[i..close + 1]);
      if put.None? {
        return BadTemplate;
      }
      text := text[..open] + put.value + text[close + 1..];
      return Replaced(text);
    }
  }

  /** How an atomic write ends: it may land and still be reported as failed. */
  datatype Write = Lands | Refused | LandsUnreported

  /** The file and the count after an expiry. */
  function Expired(text: string, ids: seq<string>, write: Write, reloads: bool, restore: Write): (string, nat) {
    var r := ExpireAll(text, ids);
    if r.removed == 0 || !Contains(r.text, "connections {") || !Contains(r.text, "secrets {") || write.Refused? then (text, 0)
    else if write.LandsUnreported? then (r.text, 0)
    else if reloads then (r.text, r.removed)
    else (if restore.Refused? then r.text else text, 0)
  }

  /**
   What an expiry leaves, in all outcomes. Blocks are counted exactly when there were
   some, both sections remain, the write landed and charon reloaded, and then the file
   is the edited one. A write that raised before its rename, and a failed reload whose
   restoring write goes through, leave the file as it was. It is left edited without a
   count only when the write raised after its rename, or the restoring write was refused.
   */
  lemma ExpiryOutcomes(text: string, ids: seq<string>, write: Write, reloads: bool, restore: Write)
    ensures var (after, count) := Expired(text, ids, write, reloads, restore);
      var edited := ExpireAll(text, ids);
      var effective := edited.removed > 0 && Contains(edited.text, "connections {") && Contains(edited.text, "secrets {");
      && (count > 0 <==> effective && write.Lands? && reloads)
      && (count > 0 ==> count == edited.removed && after == edited.text)
      && (write.Refused? || (write.Lands? && !reloads && !restore.Refused?) ==> after == text)
      && (after != text ==> effective && after == edited.text)
      && (after != text ==> write.LandsUnreported? || (write.Lands? && (reloads || restore.Refused?)))
  {
    hide ExpireAll, Contains;
  }

  lemma RemoveUnfolds(t: string, id: string)
    ensures var idx := FirstHit(t, Needle(BlockName(id), Space), 0);
      RemoveText(t, id) ==
        if idx == |t| || Find(t, '{', idx) == |t| then None
        else Some(t[..BackOverBlanks(t, idx)] + t[PastNewline(t, CloseFrom(t, Find(t, '{', idx) + 1, 1))..])
  {
    hide FirstHit, Find, CloseFrom, BlockName, BackOverBlanks, PastNewline;
  }

  lemma NewlineIs(t: string, i: nat)
    requires i <= |t|
    ensures PastNewline(t, i) == if i < |t| && t[i] == '\n' then i + 1 else i
  {
  }

  lemma ContainsIsHit(text: string, word: string)
    requires word != ""
    ensures Contains(text, word) <==> FirstHit(text, Needle(word, Any), 0) < |text|
  {
    var pos := FirstHit(text, Needle(word, Any), 0);
    if pos < |text| {
      assert Stands(text, pos, word);
    }
    if Contains(text, word) {
      var i :| 0 <= i <= |text| && Stands(text, i, word);
      assert i < |text| && Hit(text, i, Needle(word, Any));
    }
  }

  lemma PrependNothing(r: Option<string>)
    ensures Prepend("", r) == r
  {
    if r.Some? {
      assert "" + r.value == r.value;
    }
  }

  lemma PrependTwice(a: string, b: string, r: Option<string>)
    ensures Prepend(a, Prepend(b, r)) == Prepend(a + b, r)
  {
    if r.Some? {
      assert a + (b + r.value) == a + b + r.value;
    }
  }

  lemma ExpireStops(t: string, id: string)
    requires var idx := FirstHit(t, For(id, Any), 0); idx == |t| || Find(t, '{', idx) == |t|
    ensures ExpireOne(t, id) == Expiry(t, 0)
  {
    hide FirstHit, Find;
  }

  // ---------- Runs of edits ----------

  datatype Edit =
    | Append(id: string, secret: string)
    | Replace(id: string, secret: string)
    | Remove(id: string)
    | Expire(ids: seq<string>)

  /** One edit of the text; a refused edit leaves it as it is. */
  function EditText(text: string, e: Edit): string {
    match e
    case Append(id, secret) =>
      var r := AppendText(text, id, secret);
      if r.Appended? then r.text else text
    case Replace(id, secret) =>
      var r := ReplaceText(text, id, secret);
      if r.Replaced? then r.text else text
    case Remove(id) =>
      var r := RemoveText(text, id);
      if r.Some? then r.value else text
    case Expire(ids) => Expired(text, ids, Lands, true, Lands).0
  }

  /** The same edit on the map: insert if absent, update if present, delete, delete by prefix. */
  ghost function EditMap(m: map<string, string>, e: Edit): map<string, string> {
    match e
    case Append(id, secret) => if id in m then m else m[id := secret]
    case Replace(id, secret) => if id in m then m[id := secret] else m
    case Remove(id) => m - {id}
    case Expire(ids) => SurvivingAll(m, ids)
  }

  function RunText(text: string, es: seq<Edit>): string
    decreases |es|
  {
    if es == [] then text else RunText(EditText(text, es[0]), es[1..])
  }

  ghost function RunMap(m: map<string, string>, es: seq<Edit>): map<string, string>
    decreases |es|
  {
    if es == [] then m else RunMap(EditMap(m, es[0]), es[1..])
  }

  /** Identities the header does not name: nothing in it can be taken for their block. */
  ghost predicate Clear(header: string, id: string, term: Term) {
    IsWord(id) && Silent(header, For(id, term))
  }

  /** A secret in which the block prefix does not occur, so that no expiry search stops in it. */
  ghost predicate Plain(secret: string) {
    IsWord(secret) && !Within("eap-", secret)
  }

  ghost predicate FitEdit(header: string, e: Edit) {
    match e
    case Append(id, secret) => ValidId(id) && Clear(header, id, Opening) && Plain(secret)
    case Replace(id, secret) => Clear(header, id, Opening) && Plain(secret) && Verbatim(secret)
    case Remove(id) => Clear(header, id, Space)
    case Expire(ids) => forall i :: 0 <= i < |ids| ==> Clear(header, ids[i], Any)
  }

  ghost predicate PlainSecrets(m: map<string, string>) {
    forall x :: x in m ==> Plain(m[x])
  }

  lemma PlainIsDiscreet(secret: string, id: string, term: Term)
    requires Plain(secret)
    ensures Discreet(secret, id, term)
  {
    forall i: nat | i < |secret| ensures !At(secret, i, BlockName(id)) {
      PrefixOfName(secret, i, id);
      assert !At(secret, i, "eap-");
    }
  }

  lemma AllExpirable(f: File, ids: seq<string>)
    requires ValidFile(f) && PlainSecrets(Secrets(f.blocks)) && FitEdit(f.header, Expire(ids))
    ensures forall i :: 0 <= i < |ids| ==> Expirable(f, ids[i])
  {
    forall i | 0 <= i < |ids| ensures Expirable(f, ids[i]) {
      assert Clear(f.header, ids[i], Any);
      forall k | 0 <= k < |f.blocks| ensures Discreet(f.blocks[k].secret, ids[i], Any) {
        SecretsAt(f.blocks, k);
        PlainIsDiscreet(f.blocks[k].secret, ids[i], Any);
      }
    }
  }

  lemma SurvivingAllPlain(m: map<string, string>, ids: seq<string>)
    requires PlainSecrets(m)
    ensures PlainSecrets(SurvivingAll(m, ids))
    decreases |ids|
  {
    if ids != [] {
      SurvivingAllPlain(Surviving(m, ids[0]), ids[1..]);
    }
  }

  /** One edit of the text is that edit of the map. */
  lemma EditRefines(f: File, e: Edit) returns (g: File)
    requires ValidFile(f) && Complete(f) && PlainSecrets(Secrets(f.blocks)) && FitEdit(f.header, e)
    ensures ValidFile(g) && g.header == f.header && EditText(Render(f), e) == Render(g)
    ensures Secrets(g.blocks) == EditMap(Secrets(f.blocks), e) && PlainSecrets(Secrets(g.blocks))
  {
    hide Render, Secrets, AppendText, ReplaceText, RemoveText, ExpireAll, Silent, Contains, Surviving, SurvivingAll, Plain;
    match e
    case Append(id, secret) =>
      assert IsWord(secret) by { PlainIsWord(secret); }
      g := AppendIsInsert(f, id, secret);
    case Replace(id, secret) =>
      assert IsWord(secret) by { PlainIsWord(secret); }
      g := ReplaceIsUpdate(f, id, secret);
    case Remove(id) =>
      g := RemoveIsDelete(f, id);
    case Expire(ids) =>
      AllExpirable(f, ids);
      g := ExpiryIsDelete(f, ids);
      HeaderContains(g, "connections {");
      HeaderContains(g, "secrets {");
      SurvivingAllPlain(Secrets(f.blocks), ids);
      if |g.blocks| == |f.blocks| {
        SameSize(f, g, ids);
        g := f;
      }
  }

  lemma PlainIsWord(secret: string)
    requires Plain(secret)
    ensures IsWord(secret)
  {
  }

  lemma {:induction false} SecretsSize(bs: seq<Block>)
    requires ValidBlocks(bs)
    ensures |Secrets(bs)| == |bs|
  {
    if bs != [] {
      ValidTail(bs, 1);
      SecretsSize(bs[1..]);
      forall i | 0 <= i < |bs[1..]| ensures bs[1..][i].id != bs[0].id {
      }
      SecretsKeys(bs[1..], bs[0].id);
    }
  }

  lemma {:induction false} SurvivingAllWithin(m: map<string, string>, ids: seq<string>)
    ensures SurvivingAll(m, ids).Keys <= m.Keys && forall x :: x in SurvivingAll(m, ids) ==> SurvivingAll(m, ids)[x] == m[x]
    decreases |ids|
  {
    if ids != [] {
      SurvivingAllWithin(Surviving(m, ids[0]), ids[1..]);
    }
  }

  /** An expiry that counted no block changed nothing. */
  lemma SameSize(f: File, g: File, ids: seq<string>)
    requires ValidFile(f) && ValidFile(g) && |f.blocks| == |g.blocks|
    requires Secrets(g.blocks) == SurvivingAll(Secrets(f.blocks), ids)
    ensures Secrets(g.blocks) == Secrets(f.blocks)
  {
    hide Secrets, SurvivingAll;
    SecretsSize(f.blocks);
    SecretsSize(g.blocks);
    SurvivingAllWithin(Secrets(f.blocks), ids);
    var m, n := Secrets(f.blocks), Secrets(g.blocks);
    assert n.Keys == m.Keys by {
      SubsetOfSameSize(n.Keys, m.Keys);
    }
  }

  lemma SubsetOfSameSize(a: set<string>, b: set<string>)
    requires a <= b && |a| == |b|
    ensures a == b
  {
    assert |b - a| == |b| - |a|;
  }

  /**
   Any sequence of edits of the text is that sequence of edits of the map: the
   final text is again a well-formed file, and it means the final map.
   */
  lemma {:induction false} RunRefines(f: File, es: seq<Edit>) returns (g: File)
    requires ValidFile(f) && Complete(f) && PlainSecrets(Secrets(f.blocks))
    requires forall i :: 0 <= i < |es| ==> FitEdit(f.header, es[i])
    ensures ValidFile(g) && g.header == f.header && RunText(Render(f), es) == Render(g)
    ensures Secrets(g.blocks) == RunMap(Secrets(f.blocks), es)
    decreases |es|
  {
    hide Render, Secrets, EditText, EditMap, Silent, PlainSecrets, FitEdit;
    if es == [] {
      g := f;
    } else {
      var h := EditRefines(f, es[0]);
      forall i | 0 <= i < |es[1..]| ensures FitEdit(h.header, es[1..][i]) {
        assert FitEdit(f.header, es[i + 1]);
      }
      g := RunRefines(h, es[1..]);
    }
  }

  /** After any sequence of edits, lookup on the text answers from the edited map. */
  lemma LookupAfterRun(f: File, es: seq<Edit>, x: string)
    requires ValidFile(f) && Complete(f) && PlainSecrets(Secrets(f.blocks))
    requires forall i :: 0 <= i < |es| ==> FitEdit(f.header, es[i])
    requires Clear(f.header, x, Opening)
    ensures LookupText(RunText(Render(f), es), x) == Get(RunMap(Secrets(f.blocks), es), x)
  {
    hide Render, Secrets, RunText, RunMap, Silent, LookupText, FitEdit;
    var g := RunRefines(f, es);
    LookupIsGet(g, x);
  }
}
