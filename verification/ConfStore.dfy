/** rw-eap.conf as a key-value store: every edit of the text is the edit of a map. */
module ConfStore {
  import opened Chars
  import opened ConfText
  import opened ConfLayout
  import opened ConfEdits
  import opened ConfTemplate
  import opened Options

  /** The layout that an append writes, block after block. */
  predicate Canonical(f: File) {
    && (forall i :: 0 <= i < |f.blocks| ==> f.blocks[i].gap == "\n  ")
    && f.tail == "\n" && f.ending == "\n"
  }

  // ---------- Cutting a file at one of its blocks ----------

  lemma RenderCons(b: Block, rest: seq<Block>)
    ensures RenderBlocks([b] + rest) == RenderBlock(b) + RenderBlocks(rest)
  {
    assert ([b] + rest)[1..] == rest;
  }

  lemma RenderCatStep(h: Block, t: seq<Block>, b: seq<Block>)
    requires RenderBlocks(t + b) == RenderBlocks(t) + RenderBlocks(b)
    ensures RenderBlocks([h] + (t + b)) == RenderBlocks([h] + t) + RenderBlocks(b)
  {
    hide RenderBlock, RenderBlocks;
    RenderCons(h, t);
    RenderCons(h, t + b);
    Associates(RenderBlock(h), RenderBlocks(t), RenderBlocks(b));
  }

  lemma Associates(a: string, b: string, c: string)
    ensures a + (b + c) == a + b + c
  {
  }

  lemma {:induction false} RenderCat(a: seq<Block>, b: seq<Block>)
    ensures RenderBlocks(a + b) == RenderBlocks(a) + RenderBlocks(b)
    decreases |a|
  {
    if a == [] {
      assert a + b == b;
    } else {
      hide RenderBlocks;
      RenderCat(a[1..], b);
      RenderCatStep(a[0], a[1..], b);
      assert [a[0]] + a[1..] == a;
      assert [a[0]] + (a[1..] + b) == a + b;
    }
  }

  /** The text up to the whitespace before block `k`. */
  function Head(f: File, k: nat): string
    requires k <= |f.blocks|
  {
    f.header + RenderBlocks(f.blocks[..k])
  }

  /** The text after block `k`. */
  function Foot(f: File, k: nat): string
    requires k < |f.blocks|
  {
    RenderBlocks(f.blocks[k + 1..]) + Closing(f)
  }

  lemma RenderSplit(f: File, k: nat)
    requires k < |f.blocks|
    ensures var b := f.blocks[k];
      Render(f) == Join(Head(f, k) + b.gap, b.id, b.secret, Foot(f, k))
  {
    var b := f.blocks[k];
    var rest := f.blocks[k + 1..];
    var x, y, c := RenderBlocks(f.blocks[..k]), RenderBlocks(rest), Closing(f);
    assert f.blocks == f.blocks[..k] + ([b] + rest);
    RenderCat(f.blocks[..k], [b] + rest);
    RenderCons(b, rest);
    assert RenderBlock(b) == b.gap + BlockText(b.id, b.secret);
    hide RenderBlock, RenderBlocks, BlockText, Closing;
    Regroup(f.header, x, b.gap, BlockText(b.id, b.secret), y, c);
  }

  lemma Regroup(h: string, x: string, g: string, t: string, y: string, c: string)
    ensures h + (x + (g + t + y)) + c == h + x + g + t + (y + c)
  {
  }

  lemma ClosingSilent(f: File, id: string, term: Term)
    requires IsWord(id) && AllSpace(f.tail) && AllSpace(f.ending)
    ensures Silent(Closing(f), For(id, term)) && Closing(f) != [] && !IsWordChar(Closing(f)[0])
  {
    NameIsWord(id, term);
    var s := Closing(f);
    forall i | 0 <= i < |s| ensures IsSpace(s[i]) || s[i] == '}' {
    }
    SilentWithout(s, For(id, term));
  }

  /** No block among `bs` answers the search for `id`, and the header does not either. */
  ghost predicate Quiet(f: File, bs: seq<Block>, id: string, term: Term) {
    IsWord(id) && ValidFile(f) && Silent(f.header, For(id, term)) && ValidBlocks(bs) && AllApart(bs, id, term)
  }

  lemma HeadSilent(f: File, k: nat, id: string, term: Term)
    requires k <= |f.blocks| && Quiet(f, f.blocks[..k], id, term)
    ensures Silent(Head(f, k), For(id, term))
    ensures Head(f, k) != [] && !IsSpace(Head(f, k)[|Head(f, k)| - 1])
  {
    BlocksSilent(f.blocks[..k], id, term);
    NameIsWord(id, term);
    SilentJoin(f.header, RenderBlocks(f.blocks[..k]), For(id, term));
  }

  lemma FootSilent(f: File, k: nat, id: string, term: Term)
    requires k < |f.blocks| && Quiet(f, f.blocks[k + 1..], id, term)
    ensures Silent(Foot(f, k), For(id, term)) && Foot(f, k) != [] && !IsWordChar(Foot(f, k)[0])
  {
    BlocksSilent(f.blocks[k + 1..], id, term);
    ClosingSilent(f, id, term);
    NameIsWord(id, term);
    hide Closing;
    SilentJoin(RenderBlocks(f.blocks[k + 1..]), Closing(f), For(id, term));
  }

  lemma RenderSilent(f: File, id: string, term: Term)
    requires Quiet(f, f.blocks, id, term)
    ensures Silent(Render(f), For(id, term))
  {
    BlocksSilent(f.blocks, id, term);
    ClosingSilent(f, id, term);
    NameIsWord(id, term);
    hide Closing;
    SilentJoin(f.header, RenderBlocks(f.blocks), For(id, term));
    SilentJoin(f.header + RenderBlocks(f.blocks), Closing(f), For(id, term));
  }

  lemma SilentGap(head: string, gap: string, id: string, term: Term)
    requires IsWord(id) && Silent(head, For(id, term)) && AllSpace(gap)
    ensures Silent(head + gap, For(id, term))
  {
    NameIsWord(id, term);
    SilentWithout(gap, For(id, term));
    SilentJoin(head, gap, For(id, term));
  }

  /** Block `k` stands framed by what is before and after it. */
  lemma BlockFramed(f: File, k: nat)
    requires ValidFile(f) && k < |f.blocks|
    ensures var b := f.blocks[k]; Framed(Head(f, k) + b.gap, b.id, b.secret, Foot(f, k))
  {
    var b := f.blocks[k];
    assert ValidBlock(b) && b.gap != [];
    if k + 1 < |f.blocks| {
      var next := f.blocks[k + 1];
      assert ValidBlock(next) && f.blocks[k + 1..][0] == next;
      BlockEnds(next);
    }
  }

  lemma ValidTail(bs: seq<Block>, k: nat)
    requires ValidBlocks(bs) && k <= |bs|
    ensures ValidBlocks(bs[k..])
  {
    var rest := bs[k..];
    forall i | 0 <= i < |rest| ensures ValidBlock(rest[i]) {
      assert rest[i] == bs[k + i];
    }
    forall i, j | 0 <= i < j < |rest| ensures rest[i].id != rest[j].id {
      assert rest[i] == bs[k + i] && rest[j] == bs[k + j];
    }
  }

  /** Only block `k` answers the search for its own identity. */
  lemma OthersQuiet(f: File, k: nat, term: Term)
    requires ValidFile(f) && k < |f.blocks| && !term.Any?
    requires Silent(f.header, For(f.blocks[k].id, term))
    ensures Quiet(f, f.blocks[..k], f.blocks[k].id, term)
    ensures Quiet(f, f.blocks[k + 1..], f.blocks[k].id, term)
  {
    assert ValidBlock(f.blocks[k]);
    var rest := f.blocks[k + 1..];
    ValidTail(f.blocks, k + 1);
    forall i | 0 <= i < |rest| ensures rest[i].id != f.blocks[k].id {
      assert rest[i] == f.blocks[k + 1 + i];
    }
  }

  /** With a terminator, the name of block `k` is found at that block and nowhere else. */
  lemma OneHit(f: File, k: nat, term: Term, i: nat)
    requires ValidFile(f) && k < |f.blocks| && !term.Any?
    requires Silent(f.header, For(f.blocks[k].id, term))
    requires i <= |Render(f)|
    ensures Hit(Render(f), i, For(f.blocks[k].id, term)) <==> i == |Head(f, k) + f.blocks[k].gap|
  {
    var b := f.blocks[k];
    var before, after := Head(f, k) + b.gap, Foot(f, k);
    OthersQuiet(f, k, term);
    HeadSilent(f, k, b.id, term);
    FootSilent(f, k, b.id, term);
    assert ValidBlock(b);
    SilentGap(Head(f, k), b.gap, b.id, term);
    RenderSplit(f, k);
    BlockFramed(f, k);
    NameIsWord(b.id, term);
    hide Silent, Render, Head, Foot, ValidFile, Quiet, ValidBlock, Hit, Join, Framed;
    if i < |before| {
      NoHitBefore(before, b.id, b.secret, after, i, For(b.id, term));
    } else if i == |before| {
      HitAtName(before, b.id, b.secret, after, b.id, term);
    } else if i < |Render(f)| {
      NoHitAfter(before, b.id, b.secret, after, i, b.id, term);
    } else {
      NoHitAtEnd(Render(f), For(b.id, term));
    }
  }

  lemma NoHitAtEnd(text: string, nd: Needle)
    requires nd.word != []
    ensures !Hit(text, |text|, nd)
  {
  }

  lemma SilentNoHit(text: string, nd: Needle, i: nat)
    requires nd.word != [] && Silent(text, nd) && i <= |text|
    ensures !Hit(text, i, nd)
  {
    assert i < |text| ==> !Speaks(text, i, nd);
  }

  // ---------- Lookup ----------

  lemma {:induction false} LookupReaches(text: string, i: nat, id: string, pos: nat, secret: string)
    requires i <= pos <= |text| && SecretOf(text, pos, id) == Some(secret)
    requires forall j :: i <= j < pos ==> SecretOf(text, j, id) == None
    ensures LookupFrom(text, i, id) == Some(secret)
    decreases pos - i
  {
    hide SecretOf;
    if i < pos {
      LookupReaches(text, i + 1, id, pos, secret);
    }
  }

  lemma {:induction false} LookupFails(text: string, i: nat, id: string)
    requires i <= |text|
    requires forall j :: i <= j <= |text| ==> SecretOf(text, j, id) == None
    ensures LookupFrom(text, i, id) == None
    decreases |text| - i
  {
    hide SecretOf;
    if i < |text| {
      LookupFails(text, i + 1, id);
    }
  }

  lemma SecretNeedsHit(text: string, i: nat, id: string)
    requires i <= |text| && !Hit(text, i, For(id, Opening))
    ensures SecretOf(text, i, id) == None
  {
  }

  lemma {:induction false} SecretsAt(bs: seq<Block>, k: nat)
    requires ValidBlocks(bs) && k < |bs|
    ensures bs[k].id in Secrets(bs) && Secrets(bs)[bs[k].id] == bs[k].secret
  {
    if k > 0 {
      assert ValidBlocks(bs[1..]);
      SecretsAt(bs[1..], k - 1);
    }
  }

  lemma {:induction false} SecretsKeys(bs: seq<Block>, id: string)
    ensures id in Secrets(bs) <==> HasId(bs, id)
  {
    if bs != [] {
      SecretsKeys(bs[1..], id);
      if HasId(bs[1..], id) {
        var i :| 0 <= i < |bs[1..]| && bs[1..][i].id == id;
        assert bs[i + 1].id == id;
      }
      if HasId(bs, id) && bs[0].id != id {
        var i :| 0 <= i < |bs| && bs[i].id == id;
        assert bs[1..][i - 1].id == id;
      }
    }
  }

  function Get(m: map<string, string>, id: string): Option<string> {
    if id in m then Some(m[id]) else None
  }

  /** Lookup on the text returns what the map holds, or nothing. */
  lemma LookupIsGet(f: File, id: string)
    requires ValidFile(f) && IsWord(id) && Silent(f.header, For(id, Opening))
    ensures LookupText(Render(f), id) == Get(Secrets(f.blocks), id)
  {
    var t := Render(f);
    SecretsKeys(f.blocks, id);
    if HasId(f.blocks, id) {
      var k :| 0 <= k < |f.blocks| && f.blocks[k].id == id;
      var pos := |Head(f, k) + f.blocks[k].gap|;
      SecretsAt(f.blocks, k);
      RenderSplit(f, k);
      BlockFramed(f, k);
      SecretOfBlock(Head(f, k) + f.blocks[k].gap, id, f.blocks[k].secret, Foot(f, k));
      hide SecretOf, LookupFrom, Render, Silent, Hit;
      assert pos <= |t|;
      forall j | 0 <= j < pos ensures SecretOf(t, j, id) == None {
        OneHit(f, k, Opening, j);
        SecretNeedsHit(t, j, id);
      }
      LookupReaches(t, 0, id, pos, f.blocks[k].secret);
    } else {
      RenderSilent(f, id, Opening);
      NameIsWord(id, Opening);
      hide SecretOf, LookupFrom, Render, Silent, Hit;
      forall j | 0 <= j <= |t| ensures SecretOf(t, j, id) == None {
        SilentNoHit(t, For(id, Opening), j);
        SecretNeedsHit(t, j, id);
      }
      LookupFails(t, 0, id);
    }
  }

  // ---------- Replace ----------

  /** Every match of the replace pattern goes to `open`, and there is one at or after `i`. */
  lemma {:induction false} FirstSecretIs(text: string, i: nat, id: string, open: nat, start: nat)
    requires i <= start <= |text| && IsLineStart(text, start) && SecretAt(text, start, id).Some?
    requires forall j :: i <= j <= |text| ==> SecretAt(text, j, id) in {None, Some(open)}
    ensures FirstSecret(text, i, id) == Some(open)
    decreases start - i
  {
    hide SecretAt;
    if i < start {
      FirstSecretIs(text, i + 1, id, open, start);
    }
  }

  lemma {:induction false} NoFirstSecret(text: string, i: nat, id: string)
    requires i <= |text|
    requires forall j :: i <= j <= |text| ==> SecretAt(text, j, id) == None
    ensures FirstSecret(text, i, id) == None
    decreases |text| - i
  {
    hide SecretAt;
    if i < |text| {
      NoFirstSecret(text, i + 1, id);
    }
  }

  lemma HeaderNeedsHit(text: string, i: nat, id: string)
    requires i <= |text| && !Hit(text, SkipSpace(text, i), For(id, Opening))
    ensures HeaderAt(text, i, id) == None
  {
  }

  /** Wherever a header of block `k` is matched, its name is the block's. */
  lemma HeaderOfBlock(f: File, k: nat, i: nat)
    requires ValidFile(f) && k < |f.blocks| && i <= |Render(f)|
    requires Silent(f.header, For(f.blocks[k].id, Opening))
    ensures var b := f.blocks[k];
      var before := Head(f, k) + b.gap;
      HeaderAt(Render(f), i, b.id)
        == if SkipSpace(Render(f), i) == |before| then Some(IdLine(before, b.id) + 2) else None
  {
    var b := f.blocks[k];
    var t, before := Render(f), Head(f, k) + b.gap;
    RenderSplit(f, k);
    BlockFramed(f, k);
    NameReads(before, b.id, b.secret, Foot(f, k));
    OneHit(f, k, Opening, SkipSpace(t, i));
    hide Render, Head, Join, Silent, Hit, NameAt, Foot, ValidFile;
    if SkipSpace(t, i) != |before| {
      HeaderNeedsHit(t, i, b.id);
    }
  }

  /** The line on which block `k` starts. */
  lemma LineOfBlock(f: File, k: nat) returns (i: nat)
    requires ValidFile(f) && k < |f.blocks|
    ensures i <= |Render(f)| && IsLineStart(Render(f), i)
    ensures SkipSpace(Render(f), i) == |Head(f, k) + f.blocks[k].gap|
  {
    var b := f.blocks[k];
    var t, head := Render(f), Head(f, k);
    assert ValidBlock(b);
    var m :| 0 <= m < |b.gap| && b.gap[m] == '\n';
    RenderSplit(f, k);
    Pieces(head + b.gap, b.id, b.secret, Foot(f, k));
    i := |head| + m + 1;
    LineStarts(head, b.gap, b.id, b.secret, Foot(f, k), m);
  }

  lemma LineStarts(head: string, gap: string, id: string, secret: string, after: string, m: nat)
    requires AllSpace(gap) && m < |gap| && gap[m] == '\n'
    ensures var t := Join(head + gap, id, secret, after);
      var i := |head| + m + 1;
      && i <= |t| && IsLineStart(t, i) && SkipSpace(t, i) == |head + gap|
  {
    var t := Join(head + gap, id, secret, after);
    Pieces(head + gap, id, secret, after);
    assert t[|head + gap|] == BlockName(id)[0] == 'e';
    assert t == (head + gap) + (BlockText(id, secret) + after);
    forall k | |head| <= k < |head + gap| ensures t[k] == gap[k - |head|] {
    }
    hide BlockText, BlockName, Join, At;
    SkipSpaceRun(t, |head| + m + 1, |head + gap|);
  }

  /** `f` with another secret in block `k`. */
  function WithSecret(f: File, k: nat, secret: string): File
    requires k < |f.blocks|
  {
    f.(blocks := f.blocks[k := f.blocks[k].(secret := secret)])
  }

  lemma {:induction false} SecretsUpdate(bs: seq<Block>, k: nat, secret: string)
    requires ValidBlocks(bs) && k < |bs|
    ensures Secrets(bs[k := bs[k].(secret := secret)]) == Secrets(bs)[bs[k].id := secret]
  {
    var c := bs[k := bs[k].(secret := secret)];
    if k > 0 {
      ValidTail(bs, 1);
      SecretsUpdate(bs[1..], k - 1, secret);
      assert c[1..] == bs[1..][k - 1 := bs[1..][k - 1].(secret := secret)];
      assert bs[k].id != bs[0].id;
    } else {
      assert c[1..] == bs[1..];
    }
  }

  /** The pattern leads from every header of block `k` to its secret. */
  lemma SecretAtBlock(f: File, k: nat, i: nat)
    requires ValidFile(f) && k < |f.blocks| && i <= |Render(f)|
    requires Silent(f.header, For(f.blocks[k].id, Opening))
    ensures var b := f.blocks[k];
      var before := Head(f, k) + b.gap;
      SecretAt(Render(f), i, b.id)
        == if SkipSpace(Render(f), i) == |before| then Some(SecretPos(before, b.id)) else None
  {
    hide Render, Head, Foot, Join, HeaderAt, SecretFrom, Silent, ValidFile, SkipSpace, Framed, BlockName, BlockText;
    var b := f.blocks[k];
    var before := Head(f, k) + b.gap;
    RenderSplit(f, k);
    BlockFramed(f, k);
    HeaderOfBlock(f, k, i);
    SecretFromBlock(before, b.id, b.secret, Foot(f, k), IdLine(before, b.id) + 2);
  }

  /** A new secret that stands for itself in the replacement template. */
  predicate Verbatim(secret: string) {
    Literal(secret + "\"")
  }

  /**
   Replacing a secret in the text is updating the map, exactly when the new
   secret stands for itself in the template, which it does without backslashes;
   an absent identity is refused.
   */
  lemma ReplaceIsUpdate(f: File, id: string, secret: string) returns (g: File)
    requires ValidFile(f) && IsWord(id) && IsWord(secret) && Silent(f.header, For(id, Opening))
    ensures if id in Secrets(f.blocks) then ReplaceText(Render(f), id, secret) == Replaced(Render(g)) <==> Verbatim(secret)
            else ReplaceText(Render(f), id, secret) == NotFound && g == f
    ensures ValidFile(g) && g.header == f.header && (Canonical(f) ==> Canonical(g))
    ensures Secrets(g.blocks) == if id in Secrets(f.blocks) then Secrets(f.blocks)[id := secret] else Secrets(f.blocks)
  {
    hide Render, Secrets, ReplaceText, Silent, Verbatim;
    SecretsKeys(f.blocks, id);
    g := f;
    if HasId(f.blocks, id) {
      var k :| 0 <= k < |f.blocks| && f.blocks[k].id == id;
      g := WithSecret(f, k, secret);
      WithSecretValid(f, k, secret);
      SecretsUpdate(f.blocks, k, secret);
      ReplaceAtBlock(f, k, secret);
    } else {
      ReplaceRefused(f, id, secret);
    }
  }

  lemma PlainIsVerbatim(secret: string)
    requires '\\' !in secret
    ensures Verbatim(secret)
  {
    var s := secret + "\"";
    forall i | 0 <= i < |s| ensures s[i] != '\\' {
      if i < |secret| {
        assert s[i] == secret[i] && secret[i] in secret;
      }
    }
  }

  lemma WithSecretValid(f: File, k: nat, secret: string)
    requires ValidFile(f) && k < |f.blocks| && IsWord(secret)
    ensures ValidFile(WithSecret(f, k, secret)) && (Canonical(f) ==> Canonical(WithSecret(f, k, secret)))
  {
    assert ValidBlock(f.blocks[k]);
  }

  lemma ReplaceRefused(f: File, id: string, secret: string)
    requires ValidFile(f) && IsWord(id) && Silent(f.header, For(id, Opening)) && !HasId(f.blocks, id)
    ensures ReplaceText(Render(f), id, secret) == NotFound
  {
    var t := Render(f);
    RenderSilent(f, id, Opening);
    NameIsWord(id, Opening);
    hide SecretAt, FirstSecret, Render, Silent, Hit, SkipSpace, HeaderAt;
    forall j | 0 <= j <= |t| ensures SecretAt(t, j, id) == None {
      SilentNoHit(t, For(id, Opening), SkipSpace(t, j));
      HeaderNeedsHit(t, j, id);
      SecretNeedsHeader(t, j, id);
    }
    NoFirstSecret(t, 0, id);
  }

  lemma SecretNeedsHeader(text: string, i: nat, id: string)
    requires i <= |text| && HeaderAt(text, i, id) == None
    ensures SecretAt(text, i, id) == None
  {
  }

  /** The group of the pattern holds the brace of the block's header. */
  lemma GroupHoldsBrace(text: string, id: string)
    requires FirstSecret(text, 0, id).Some?
    ensures '{' in MatchedGroup(text, id) && '{' in MatchedText(text, id)
  {
    hide FirstSecret, SecretFrom, SecretLineFrom, SkipSpace;
    var open, start := FirstSecret(text, 0, id).value, SecretLineFrom(text, 0, id);
    var k := HeaderAt(text, start, id).value;
    BraceEndsHeader(text, start, id);
    assert MatchedGroup(text, id)[k - 1 - start] == '{';
    assert MatchedText(text, id)[k - 1 - start] == '{';
  }

  lemma BraceEndsHeader(text: string, i: nat, id: string)
    requires i <= |text| && HeaderAt(text, i, id).Some?
    ensures i < HeaderAt(text, i, id).value <= |text| && text[HeaderAt(text, i, id).value - 1] == '{'
  {
  }

  lemma OnlyMiddle(a: string, m: string, n: string, c: string)
    ensures a + m + c == a + n + c <==> m == n
  {
    if a + m + c == a + n + c {
      assert |m| == |n|;
      assert m == (a + m + c)[|a|..|a| + |m|] == n;
    }
  }

  /** The text with `put` for the secret from `open` on and its closing quote. */
  function Exchanged(t: string, open: nat, put: string): string
    requires open <= |t| && Find(t, '"', open) < |t|
  {
    t[..open] + put + t[Find(t, '"', open) + 1..]
  }

  lemma ReplaceUnfolds(t: string, id: string, secret: string)
    requires FirstSecret(t, 0, id).Some?
    ensures var put := InsertedText(t, id, secret);
      ReplaceText(t, id, secret)
        == if put.None? then BadTemplate else Replaced(Exchanged(t, FirstSecret(t, 0, id).value, put.value))
  {
    hide FirstSecret, InsertedText;
  }

  lemma WordHasNoBrace(secret: string)
    requires IsWord(secret)
    ensures '{' !in secret + "\""
  {
  }

  lemma InsertsItself(t: string, id: string, secret: string)
    requires FirstSecret(t, 0, id).Some? && IsWord(secret)
    ensures InsertedText(t, id, secret) == Some(secret + "\"") <==> Verbatim(secret)
  {
    hide FirstSecret, MatchedGroup, MatchedText, Expand, Literal, IsWord;
    GroupHoldsBrace(t, id);
    WordHasNoBrace(secret);
    ExpandsToItself(secret + "\"", MatchedGroup(t, id), MatchedText(t, id));
  }

  lemma ReplaceAtBlock(f: File, k: nat, secret: string)
    requires ValidFile(f) && k < |f.blocks| && IsWord(secret)
    requires Silent(f.header, For(f.blocks[k].id, Opening))
    ensures ReplaceText(Render(f), f.blocks[k].id, secret) == Replaced(Render(WithSecret(f, k, secret))) <==> Verbatim(secret)
  {
    hide InsertedText, Verbatim, ReplaceText;
    var b := f.blocks[k];
    var t, before, after := Render(f), Head(f, k) + b.gap, Foot(f, k);
    var open := SecretPos(before, b.id);
    OpenAtBlock(f, k);
    RenderWithSecret(f, k, secret);
    ReplaceUnfolds(t, b.id, secret);
    InsertsItself(t, b.id, secret);
    hide Render, Head, Foot, Join, Silent, FirstSecret, ValidFile, Find, Exchanged;
    ExchangedSecret(f, k, secret);
    var put := InsertedText(t, b.id, secret);
    if put.Some? {
      ExchangeOnly(t, open, put.value, secret + "\"");
    }
  }

  lemma ExchangeOnly(t: string, open: nat, put: string, other: string)
    requires open <= |t| && Find(t, '"', open) < |t|
    ensures Exchanged(t, open, put) == Exchanged(t, open, other) <==> put == other
  {
    OnlyMiddle(t[..open], put, other, t[Find(t, '"', open) + 1..]);
  }

  /** Where the replace pattern leads to in a file with block `k`. */
  lemma OpenAtBlock(f: File, k: nat)
    requires ValidFile(f) && k < |f.blocks| && Silent(f.header, For(f.blocks[k].id, Opening))
    ensures var b := f.blocks[k];
      var before := Head(f, k) + b.gap;
      FirstSecret(Render(f), 0, b.id) == Some(SecretPos(before, b.id))
  {
    var b := f.blocks[k];
    var t, before, after := Render(f), Head(f, k) + b.gap, Foot(f, k);
    var open := SecretPos(before, b.id);
    RenderSplit(f, k);
    BlockFramed(f, k);
    var i := LineOfBlock(f, k);
    hide Render, Head, Foot, Join, Silent, SecretAt, FirstSecret, ValidFile, SkipSpace, Find, IsLineStart;
    forall j | 0 <= j <= |t| ensures SecretAt(t, j, b.id) in {None, Some(open)} {
      SecretAtBlock(f, k, j);
    }
    SecretAtBlock(f, k, i);
    FirstSecretIs(t, 0, b.id, open, i);
  }

  lemma ExchangedSecret(f: File, k: nat, secret: string)
    requires ValidFile(f) && k < |f.blocks|
    ensures var b := f.blocks[k];
      var before, t := Head(f, k) + b.gap, Render(f);
      var open := SecretPos(before, b.id);
      && open <= |t| && Find(t, '"', open) < |t|
      && Exchanged(t, open, secret + "\"") == Join(before, b.id, secret, Foot(f, k))
  {
    var b := f.blocks[k];
    var t, before, after := Render(f), Head(f, k) + b.gap, Foot(f, k);
    RenderSplit(f, k);
    BlockFramed(f, k);
    QuoteCloses(before, b.id, b.secret, after);
    SpliceSecret(before, b.id, b.secret, after, secret);
    hide Render, Head, Foot, Join, Silent, ValidFile, Find, Exchanged;
    QuoteStays(t, SecretPos(before, b.id), secret);
  }

  lemma QuoteStays(t: string, open: nat, secret: string)
    requires open <= |t| && Find(t, '"', open) < |t|
    ensures Exchanged(t, open, secret + "\"") == t[..open] + secret + t[Find(t, '"', open)..]
  {
    var close := Find(t, '"', open);
    hide Find;
    assert t[close..] == "\"" + t[close + 1..];
    Associates(t[..open] + secret, "\"", t[close + 1..]);
    Associates(t[..open], secret, "\"");
  }

  lemma RenderWithSecret(f: File, k: nat, secret: string)
    requires k < |f.blocks|
    ensures Render(WithSecret(f, k, secret)) == Join(Head(f, k) + f.blocks[k].gap, f.blocks[k].id, secret, Foot(f, k))
  {
    var g := WithSecret(f, k, secret);
    assert g.blocks[..k] == f.blocks[..k] && g.blocks[k + 1..] == f.blocks[k + 1..];
    RenderSplit(g, k);
  }

  lemma SpliceSecret(before: string, id: string, secret: string, after: string, new': string)
    requires Framed(before, id, secret, after)
    ensures var t := Join(before, id, secret, after);
      && QuotePos(before, id, secret) <= |t|
      && t[..SecretPos(before, id)] + new' + t[QuotePos(before, id, secret)..] == Join(before, id, new', after)
  {
    var t := Join(before, id, secret, after);
    var start := before + BlockName(id) + ID_PART + id + SECRET_PART;
    var end := "\"" + END_PART + after;
    JoinEnds(before, id, secret, after);
    JoinEnds(before, id, new', after);
    assert |start| == SecretPos(before, id);
    hide Join, BlockName;
    assert t[..|start|] == start && t[|start| + |secret|..] == end;
  }

  lemma JoinEnds(before: string, id: string, secret: string, after: string)
    ensures Join(before, id, secret, after)
         == (before + BlockName(id) + ID_PART + id + SECRET_PART) + secret + ("\"" + END_PART + after)
  {
    JoinParts(before, id, secret, after);
    assert Rest(id, secret) == ID_PART + id + SECRET_PART + (secret + "\"") + END_PART;
    hide *;
    assert before + BlockName(id) + (ID_PART + id + SECRET_PART + (secret + "\"") + END_PART + after)
        == (before + BlockName(id) + ID_PART + id + SECRET_PART) + secret + ("\"" + END_PART + after);
  }
}
