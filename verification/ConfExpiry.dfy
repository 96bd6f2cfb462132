/** The monitor's expiry, the portal's append and create_client's compensation on the whole file. */
module ConfExpiry {
  import opened Chars
  import opened ConfText
  import opened ConfLayout
  import opened ConfEdits
  import opened ConfStore
  import opened ConfRemoval
  import opened Options

  // ---------- remove_customer_eap_blocks ----------

  /** The expiry search for `id` can answer only in the names of blocks. */
  ghost predicate Expirable(f: File, id: string) {
    && ValidFile(f) && IsWord(id) && Silent(f.header, For(id, Any))
    && forall i :: 0 <= i < |f.blocks| ==> Discreet(f.blocks[i].secret, id, Any)
  }

  /** The credentials that no expiry of `id` touches: it takes every identity that `id` begins. */
  ghost function Surviving(m: map<string, string>, id: string): map<string, string> {
    map x | x in m && !IsPrefix(id, x) :: m[x]
  }

  ghost function SurvivingAll(m: map<string, string>, ids: seq<string>): map<string, string> {
    if ids == [] then m else SurvivingAll(Surviving(m, ids[0]), ids[1..])
  }

  lemma HitAtPrefixed(f: File, k: nat, id: string)
    requires Expirable(f, id) && k < |f.blocks| && IsPrefix(id, f.blocks[k].id)
    requires forall i :: 0 <= i < k ==> !IsPrefix(id, f.blocks[i].id)
    ensures FirstHit(Render(f), For(id, Any), 0) == |Head(f, k) + f.blocks[k].gap| < |Render(f)|
  {
    var b := f.blocks[k];
    var t, before, nd := Render(f), Head(f, k) + b.gap, For(id, Any);
    NameIsWord(id, Any);
    HeadSilent(f, k, id, Any);
    assert ValidBlock(b);
    SilentGap(Head(f, k), b.gap, id, Any);
    RenderSplit(f, k);
    BlockFramed(f, k);
    HitAtName(before, b.id, b.secret, Foot(f, k), id, Any);
    hide Render, Head, Foot, Silent, ValidFile, Join, Hit, Framed;
    NameNotAtEnd(t, |before|, nd);
    forall i | 0 <= i < |before| ensures !Hit(t, i, nd) {
      NoHitBefore(before, b.id, b.secret, Foot(f, k), i, nd);
    }
    FirstHitIs(t, nd, 0, |before|);
  }

  lemma ExpireOneUnfolds(t: string, id: string, idx: nat, brace: nat, end: nat)
    requires idx < |t| && FirstHit(t, For(id, Any), 0) == idx
    requires Find(t, '{', idx) == brace < |t| && CloseFrom(t, brace + 1, 1) == end
    ensures var r := ExpireOne(t[..idx] + t[PastNewline(t, end)..], id);
      ExpireOne(t, id) == Expiry(r.text, r.removed + 1)
  {
    hide FirstHit, Find, CloseFrom, PastNewline;
  }

  /** One turn of the expiry loop takes out one block, keeping the whitespace before it. */
  lemma ExpireTurn(f: File, k: nat, id: string)
    requires Expirable(f, id) && k < |f.blocks| && IsPrefix(id, f.blocks[k].id)
    requires forall i :: 0 <= i < k ==> !IsPrefix(id, f.blocks[i].id)
    ensures var r := ExpireOne(Render(Splice(f, k, f.blocks[k].gap)), id);
      ExpireOne(Render(f), id) == Expiry(r.text, r.removed + 1)
  {
    hide Render, Head, Foot, Silent, Splice, Find, CloseFrom, Join, BlockText, BlockName, Framed;
    hide ExpireOne, PastNewline, DropNewline, FirstHit;
    var b := f.blocks[k];
    var after, before := Foot(f, k), Head(f, k) + b.gap;
    RenderSplit(f, k);
    BlockFramed(f, k);
    HitAtPrefixed(f, k, id);
    BraceAfterName(before, b.id, b.secret, after);
    ScanClosesBlock(before, b.id, b.secret, after);
    ExpireOneUnfolds(Render(f), id, |before|, IdLine(before, b.id) + 1, BlockEnd(before, b.id, b.secret));
    CutText(Head(f, k), b.gap, b.id, b.secret, after, |b.gap|);
    assert b.gap[..|b.gap|] == b.gap;
    RenderSplice(f, k, b.gap);
  }

  lemma SpliceExpirable(f: File, k: nat, id: string)
    requires Expirable(f, id) && k < |f.blocks|
    ensures Expirable(Splice(f, k, f.blocks[k].gap), id)
  {
    var g := Splice(f, k, f.blocks[k].gap);
    assert ValidBlock(f.blocks[k]);
    SpliceValid(f, k, f.blocks[k].gap);
    forall i | 0 <= i < |g.blocks| ensures Discreet(g.blocks[i].secret, id, Any) {
      assert g.blocks[i].secret == f.blocks[if i < k then i else i + 1].secret;
    }
  }

  lemma ExpireNothing(f: File, id: string)
    requires Expirable(f, id) && forall i :: 0 <= i < |f.blocks| ==> !IsPrefix(id, f.blocks[i].id)
    ensures ExpireOne(Render(f), id) == Expiry(Render(f), 0)
    ensures Surviving(Secrets(f.blocks), id) == Secrets(f.blocks)
  {
    var t := Render(f);
    RenderSilent(f, id, Any);
    NameIsWord(id, Any);
    forall i: nat | i < |t| ensures !Hit(t, i, For(id, Any)) {
      SilentNoHit(t, For(id, Any), i);
    }
    NoFirstHit(t, For(id, Any), 0);
    forall x | x in Secrets(f.blocks) ensures !IsPrefix(id, x) {
      SecretsKeys(f.blocks, x);
    }
  }

  lemma FirstPrefixed(bs: seq<Block>, id: string) returns (k: nat)
    requires exists i :: 0 <= i < |bs| && IsPrefix(id, bs[i].id)
    ensures k < |bs| && IsPrefix(id, bs[k].id) && forall i :: 0 <= i < k ==> !IsPrefix(id, bs[i].id)
  {
    k := 0;
    while !IsPrefix(id, bs[k].id)
      invariant k < |bs| && forall i :: 0 <= i < k ==> !IsPrefix(id, bs[i].id)
      decreases |bs| - k
    {
      k := k + 1;
    }
  }

  lemma {:induction false} ExpireOneIs(f: File, id: string) returns (g: File)
    requires Expirable(f, id)
    ensures ValidFile(g) && g.header == f.header && |g.blocks| <= |f.blocks|
    ensures ExpireOne(Render(f), id) == Expiry(Render(g), |f.blocks| - |g.blocks|)
    ensures Secrets(g.blocks) == Surviving(Secrets(f.blocks), id)
    ensures forall other :: Expirable(f, other) ==> Expirable(g, other)
    decreases |f.blocks|
  {
    hide Render, ExpireOne, Secrets, Silent, Expirable, Surviving, Splice;
    if exists i :: 0 <= i < |f.blocks| && IsPrefix(id, f.blocks[i].id) {
      var k := FirstPrefixed(f.blocks, id);
      var b := f.blocks[k];
      var h := Splice(f, k, b.gap);
      ExpirableIsValid(f, id);
      SpliceShrinks(f, k, b.gap);
      SpliceExpirable(f, k, id);
      SpliceDeletes(f, k, b.gap);
      ExpireTurn(f, k, id);
      g := ExpireOneIs(h, id);
      forall other | Expirable(f, other) ensures Expirable(g, other) {
        SpliceExpirable(f, k, other);
      }
      SurvivingSkips(Secrets(f.blocks), b.id, id);
    } else {
      g := f;
      ExpirableIsValid(f, id);
      ExpireNothing(f, id);
    }
  }

  lemma ExpirableIsValid(f: File, id: string)
    requires Expirable(f, id)
    ensures ValidFile(f)
  {
  }

  lemma SpliceShrinks(f: File, k: nat, kept: string)
    requires k < |f.blocks|
    ensures |Splice(f, k, kept).blocks| == |f.blocks| - 1 && Splice(f, k, kept).header == f.header
  {
  }

  lemma SurvivingSkips(m: map<string, string>, x: string, id: string)
    requires IsPrefix(id, x)
    ensures Surviving(m - {x}, id) == Surviving(m, id)
  {
  }

  /**
   Expiring a list of identities, exactly: the blocks of the identities that
   some listed one begins are gone, all others keep their secrets, and the
   count returned is the number of blocks removed.
   */
  lemma {:induction false} ExpiryIsDelete(f: File, ids: seq<string>) returns (g: File)
    requires forall i :: 0 <= i < |ids| ==> Expirable(f, ids[i])
    requires ValidFile(f)
    ensures ValidFile(g) && g.header == f.header && |g.blocks| <= |f.blocks|
    ensures ExpireAll(Render(f), ids) == Expiry(Render(g), |f.blocks| - |g.blocks|)
    ensures Secrets(g.blocks) == SurvivingAll(Secrets(f.blocks), ids)
    decreases |ids|
  {
    hide Render, ExpireOne, Secrets, Silent, Surviving, Expirable;
    if ids == [] {
      g := f;
    } else {
      var h := ExpireOneIs(f, ids[0]);
      forall i | 0 <= i < |ids[1..]| ensures Expirable(h, ids[1..][i]) {
        assert Expirable(f, ids[i + 1]);
      }
      g := ExpiryIsDelete(h, ids[1..]);
    }
  }

  ghost predicate BegunBy(ids: seq<string>, x: string) {
    exists i :: 0 <= i < |ids| && IsPrefix(ids[i], x)
  }

  lemma {:induction false} SurvivingAllIs(m: map<string, string>, ids: seq<string>, x: string)
    ensures Get(SurvivingAll(m, ids), x) == if BegunBy(ids, x) then None else Get(m, x)
    decreases |ids|
  {
    if ids != [] {
      SurvivingAllIs(Surviving(m, ids[0]), ids[1..], x);
      if BegunBy(ids[1..], x) {
        var i :| 0 <= i < |ids[1..]| && IsPrefix(ids[1..][i], x);
        assert IsPrefix(ids[i + 1], x);
      }
      if BegunBy(ids, x) && !IsPrefix(ids[0], x) {
        var i :| 0 <= i < |ids| && IsPrefix(ids[i], x);
        assert IsPrefix(ids[1..][i - 1], x);
      }
    }
  }

  /** What an expiry does to the lookup of any identity: nothing, unless a listed
      identity begins it; then it is gone. */
  lemma ExpiryKeepsOthers(f: File, ids: seq<string>, x: string)
    requires forall i :: 0 <= i < |ids| ==> Expirable(f, ids[i])
    requires ValidFile(f) && IsWord(x) && Silent(f.header, For(x, Opening))
    ensures LookupText(ExpireAll(Render(f), ids).text, x)
         == if BegunBy(ids, x) then None else LookupText(Render(f), x)
  {
    hide Render, ExpireAll, Secrets, Silent, Surviving, LookupText, SurvivingAll, BegunBy;
    var g := ExpiryIsDelete(f, ids);
    LookupIsGet(f, x);
    LookupIsGet(g, x);
    SurvivingAllIs(Secrets(f.blocks), ids, x);
  }

  // ---------- append_eap_block ----------

  /** A line starts a block for `id` exactly when the map holds `id`. */
  lemma HasBlockIsMember(f: File, id: string)
    requires ValidFile(f) && IsWord(id) && Silent(f.header, For(id, Opening))
    ensures HasBlock(Render(f), id) <==> id in Secrets(f.blocks)
  {
    hide Render, Secrets, Silent, HeaderAt, IsLineStart, SkipSpace, ValidFile, Hit;
    var t := Render(f);
    SecretsKeys(f.blocks, id);
    if HasId(f.blocks, id) {
      var k :| 0 <= k < |f.blocks| && f.blocks[k].id == id;
      var i := LineOfBlock(f, k);
      HeaderOfBlock(f, k, i);
    } else {
      RenderQuiet(f, id);
      RenderSilent(f, id, Opening);
      NameIsWord(id, Opening);
      forall j | 0 <= j <= |t| ensures HeaderAt(t, j, id) == None {
        SilentNoHit(t, For(id, Opening), SkipSpace(t, j));
        HeaderNeedsHit(t, j, id);
      }
    }
  }

  lemma RenderQuiet(f: File, id: string)
    requires ValidFile(f) && IsWord(id) && Silent(f.header, For(id, Opening)) && !HasId(f.blocks, id)
    ensures Quiet(f, f.blocks, id, Opening)
  {
  }

  /** `f` with one more block in the layout an append writes. */
  function WithBlock(f: File, id: string, secret: string): File {
    File(f.header, f.blocks + [Block("\n  ", id, secret)], "\n", "\n")
  }

  ghost predicate Complete(f: File) {
    Within("connections {", f.header) && Within("secrets {", f.header)
  }

  lemma HeaderContains(f: File, word: string)
    requires Within(word, f.header)
    ensures Contains(Render(f), word)
  {
    var i: nat :| i < |f.header| && At(f.header, i, word);
    assert Render(f) == f.header + (RenderBlocks(f.blocks) + Closing(f));
    hide RenderBlocks, Closing;
    assert At(Render(f), i, word);
    assert Stands(Render(f), i, word);
  }

  lemma AppendShape(f: File, id: string, secret: string)
    requires ValidFile(f)
    ensures var core := RStrip(Render(f));
      && core != [] && core[|core| - 1] == '}'
      && RStrip(core[..|core| - 1]) + "\n  " + BlockText(id, secret) + "\n" + "}\n" == Render(WithBlock(f, id, secret))
  {
    var body := f.header + RenderBlocks(f.blocks);
    BlocksEnd(f.blocks);
    assert body != [] && !IsSpace(body[|body| - 1]);
    assert Render(f) == body + f.tail + "}" + f.ending;
    RenderCat(f.blocks, [Block("\n  ", id, secret)]);
    RenderCons(Block("\n  ", id, secret), []);
    assert RenderBlocks([Block("\n  ", id, secret)]) == "\n  " + BlockText(id, secret);
    assert Closing(WithBlock(f, id, secret)) == "\n" + "}\n";
    var g := WithBlock(f, id, secret);
    assert Render(g) == f.header + (RenderBlocks(f.blocks) + ("\n  " + BlockText(id, secret))) + ("\n" + "}\n");
    hide RenderBlocks, BlockText, Closing, Render;
    RStripsTo(body + f.tail + "}", f.ending);
    assert (body + f.tail + "}")[..|body + f.tail + "}"| - 1] == body + f.tail;
    RStripsTo(body, f.tail);
    AppendRegroup(f.header, RenderBlocks(f.blocks), "\n  ", BlockText(id, secret), "\n", "}\n");
  }

  lemma AppendRegroup(h: string, r: string, g: string, t: string, n: string, c: string)
    ensures h + r + g + t + n + c == h + (r + (g + t)) + (n + c)
  {
  }

  /** Appending to the text is inserting into the map; a present identity is a conflict. */
  lemma AppendIsInsert(f: File, id: string, secret: string) returns (g: File)
    requires ValidFile(f) && Complete(f) && ValidId(id) && IsWord(secret) && Silent(f.header, For(id, Opening))
    ensures if id in Secrets(f.blocks) then AppendText(Render(f), id, secret) == Conflict && g == f
            else AppendText(Render(f), id, secret) == Appended(Render(g)) && g == WithBlock(f, id, secret)
    ensures ValidFile(g) && g.header == f.header && (Canonical(f) ==> Canonical(g))
    ensures Secrets(g.blocks) == if id in Secrets(f.blocks) then Secrets(f.blocks) else Secrets(f.blocks)[id := secret]
  {
    hide Render, Secrets, HasBlock, Contains, Silent, RStrip, BlockText;
    HasBlockIsMember(f, id);
    SecretsKeys(f.blocks, id);
    g := f;
    if id !in Secrets(f.blocks) {
      g := WithBlock(f, id, secret);
      HeaderContains(f, "connections {");
      HeaderContains(f, "secrets {");
      AppendShape(f, id, secret);
      WithBlockValid(f, id, secret);
      WithBlockInserts(f.blocks, id, secret);
    }
  }

  lemma WithBlockValid(f: File, id: string, secret: string)
    requires ValidFile(f) && ValidId(id) && IsWord(secret) && !HasId(f.blocks, id)
    ensures ValidFile(WithBlock(f, id, secret))
    ensures Canonical(f) ==> Canonical(WithBlock(f, id, secret))
  {
    var b := Block("\n  ", id, secret);
    assert b.gap[0] == '\n';
    assert ValidBlock(b);
  }

  lemma WithBlockInserts(bs: seq<Block>, id: string, secret: string)
    requires !HasId(bs, id)
    ensures Secrets(bs + [Block("\n  ", id, secret)]) == Secrets(bs)[id := secret]
  {
    var b := Block("\n  ", id, secret);
    SecretsCat(bs, [b]);
    SecretsKeys(bs, id);
    assert Secrets([b]) == map[id := secret];
  }

  // ---------- create_client's compensation ----------

  lemma {:induction false} CompensateReaches(text: string, i: nat, id: string, pos: nat, end: nat)
    requires i <= pos <= |text| && WholeBlockAt(text, pos, id) == Some(end)
    requires forall j :: i <= j < pos ==> WholeBlockAt(text, j, id) == None
    ensures end <= |text| && CompensateFrom(text, i, id) == text[..pos] + text[end..]
    decreases pos - i
  {
    hide WholeBlockAt;
    if i < pos {
      CompensateReaches(text, i + 1, id, pos, end);
    } else {
      WholeBlockInside(text, pos, id);
    }
  }

  lemma WholeBlockInside(text: string, i: nat, id: string)
    requires i <= |text|
    ensures WholeBlockAt(text, i, id).Some? ==> WholeBlockAt(text, i, id).value <= |text|
  {
  }

  lemma WholeBlockIs(text: string, i: nat, id: string, k: nat, close: nat)
    requires i <= |text| && HeaderAt(text, i, id) == Some(k) && k <= close < |text| && text[close] == '}'
    requires forall j :: k <= j < close ==> text[j] != '{' && text[j] != '}'
    ensures WholeBlockAt(text, i, id) == Some(PastNewline(text, close + 1))
  {
    hide HeaderAt;
    FindIs(text, '}', k, close);
  }

  lemma WholeNeedsHeader(text: string, i: nat, id: string)
    requires i <= |text| && HeaderAt(text, i, id) == None
    ensures WholeBlockAt(text, i, id) == None
  {
  }

  /** The compensation takes block `k` with all the whitespace before it and one newline after. */
  lemma CompensateIsSplice(f: File, k: nat)
    requires ValidFile(f) && k < |f.blocks| && Silent(f.header, For(f.blocks[k].id, Opening))
    ensures CompensateText(Render(f), f.blocks[k].id) == Render(Splice(f, k, ""))
  {
    hide Render, Head, Foot, Silent, ValidFile, Splice, Join, BlockText, BlockName, Framed;
    hide HeaderAt, WholeBlockAt, CompensateFrom, PastNewline, DropNewline, SkipSpace, CloseFrom;
    var b := f.blocks[k];
    var t, head, after, before := Render(f), Head(f, k), Foot(f, k), Head(f, k) + b.gap;
    var close := BlockEnd(before, b.id, b.secret) - 1;
    RenderSplit(f, k);
    BlockFramed(f, k);
    BeforeBlock(f, k);
    HeaderOfBlock(f, k, |head|);
    ScanClosesBlock(before, b.id, b.secret, after);
    forall j | IdLine(before, b.id) + 2 <= j < close ensures t[j] != '{' && t[j] != '}' {
      NoBraceInBlock(before, b.id, b.secret, after, j);
    }
    WholeBlockIs(t, |head|, b.id, IdLine(before, b.id) + 2, close);
    forall j | 0 <= j < |head| ensures WholeBlockAt(t, j, b.id) == None {
      HeaderOfBlock(f, k, j);
      WholeNeedsHeader(t, j, b.id);
    }
    CompensateReaches(t, 0, b.id, |head|, PastNewline(t, close + 1));
    CutText(head, b.gap, b.id, b.secret, after, 0);
    RenderSplice(f, k, "");
    assert b.gap[..0] == "";
  }

  /** Skipping whitespace from the end of the head leads to the block, from earlier it does not. */
  lemma BeforeBlock(f: File, k: nat)
    requires ValidFile(f) && k < |f.blocks|
    ensures var t, head, before := Render(f), Head(f, k), Head(f, k) + f.blocks[k].gap;
      && |head| <= |before| <= |t|
      && SkipSpace(t, |head|) == |before|
      && forall j :: 0 <= j < |head| ==> SkipSpace(t, j) < |before|
  {
    hide Render, Head, Foot, Join, BlockText;
    var b := f.blocks[k];
    var t, head, before := Render(f), Head(f, k), Head(f, k) + b.gap;
    assert ValidBlock(b);
    RenderSplit(f, k);
    HeadEnds(f, k);
    Pieces(before, b.id, b.secret, Foot(f, k));
    assert t[|before|] == BlockName(b.id)[0] == 'e';
    JoinTail(before, b.id, b.secret, Foot(f, k));
    hide ValidFile, BlockName, At;
    assert t[|head| - 1] == head[|head| - 1];
    forall j | |head| <= j < |before| ensures IsSpace(t[j]) {
      assert t[j] == b.gap[j - |head|];
    }
    SkipSpaceRun(t, |head|, |before|);
    forall j | 0 <= j < |head| ensures SkipSpace(t, j) < |before| {
      assert SkipSpace(t, j) <= |head| - 1;
    }
  }

  /** A block appended and then compensated leaves every lookup as it was. */
  lemma AppendThenCompensate(f: File, id: string, secret: string) returns (g: File)
    requires ValidFile(f) && ValidId(id) && IsWord(secret)
    requires Silent(f.header, For(id, Opening)) && !HasId(f.blocks, id)
    ensures CompensateText(Render(WithBlock(f, id, secret)), id) == Render(g)
    ensures ValidFile(g) && g.header == f.header && Secrets(g.blocks) == Secrets(f.blocks)
  {
    hide Render, Secrets, Silent;
    var w := WithBlock(f, id, secret);
    var k := |f.blocks|;
    WithBlockValid(f, id, secret);
    g := Splice(w, k, "");
    CompensateIsSplice(w, k);
    SpliceValid(w, k, "");
    assert g.blocks == f.blocks;
  }
}
