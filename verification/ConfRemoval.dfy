/** Removing blocks: the portal's delete, the monitor's expiry and create_client's compensation. */
module ConfRemoval {
  import opened Chars
  import opened ConfText
  import opened ConfLayout
  import opened ConfEdits
  import opened ConfStore
  import opened Options

  function DropNewline(s: string): string {
    if s != [] && s[0] == '\n' then s[1..] else s
  }

  /** `f` without block `k`, with `kept` of the whitespace before it: the newline
      after the block goes, the rest of the next gap stays. */
  function Splice(f: File, k: nat, kept: string): File
    requires k < |f.blocks|
  {
    if k + 1 < |f.blocks| then
      var next := f.blocks[k + 1];
      f.(blocks := f.blocks[..k] + [next.(gap := kept + DropNewline(next.gap))] + f.blocks[k + 2..])
    else
      f.(blocks := f.blocks[..k], tail := kept + DropNewline(f.tail))
  }

  lemma DropNewlineJoin(a: string, b: string)
    requires a != [] || (b != [] && b[0] != '\n')
    ensures DropNewline(a + b) == DropNewline(a) + b
  {
  }

  lemma FootCons(f: File, k: nat)
    requires k + 1 < |f.blocks|
    ensures var next := f.blocks[k + 1];
      Foot(f, k) == next.gap + (BlockText(next.id, next.secret) + (RenderBlocks(f.blocks[k + 2..]) + Closing(f)))
  {
    var next := f.blocks[k + 1];
    assert f.blocks[k + 1..] == [next] + f.blocks[k + 2..];
    RenderCons(next, f.blocks[k + 2..]);
    assert RenderBlock(next) == next.gap + BlockText(next.id, next.secret);
    hide RenderBlock, RenderBlocks, BlockText, Closing;
    Regroup4(next.gap, BlockText(next.id, next.secret), RenderBlocks(f.blocks[k + 2..]), Closing(f));
  }

  lemma Regroup4(a: string, b: string, c: string, d: string)
    ensures a + b + c + d == a + (b + (c + d))
  {
  }

  lemma RenderSplice(f: File, k: nat, kept: string)
    requires ValidFile(f) && k < |f.blocks|
    ensures Render(Splice(f, k, kept)) == Head(f, k) + kept + DropNewline(Foot(f, k))
  {
    var g := Splice(f, k, kept);
    var a := f.blocks[..k];
    if k + 1 < |f.blocks| {
      var next := f.blocks[k + 1];
      var b := next.(gap := kept + DropNewline(next.gap));
      var c := f.blocks[k + 2..];
      assert ValidBlock(next) && next.gap != [];
      assert g.blocks == a + ([b] + c);
      RenderCat(a, [b] + c);
      RenderCons(b, c);
      FootCons(f, k);
      var text := BlockText(next.id, next.secret);
      var y, z := RenderBlocks(c), Closing(f);
      assert RenderBlock(b) == kept + DropNewline(next.gap) + text;
      assert Closing(g) == z;
      DropNewlineJoin(next.gap, text + (y + z));
      hide RenderBlock, RenderBlocks, BlockText, Closing, DropNewline;
      Regroup6(f.header, RenderBlocks(a), kept, DropNewline(next.gap), text, y, z);
    } else {
      assert f.blocks[k + 1..] == [];
      assert Foot(f, k) == f.tail + ("}" + f.ending);
      DropNewlineJoin(f.tail, "}" + f.ending);
      assert Closing(g) == kept + DropNewline(f.tail) + "}" + f.ending;
    }
  }

  lemma Regroup6(h: string, a: string, k: string, n: string, t: string, y: string, z: string)
    ensures h + (a + (k + n + t + y)) + z == h + a + k + (n + (t + (y + z)))
  {
    calc {
      h + (a + (k + n + t + y)) + z;
      h + a + k + (n + t + y + z);
      { Regroup4(n, t, y, z); }
      h + a + k + (n + (t + (y + z)));
    }
  }

  lemma SpliceValid(f: File, k: nat, kept: string)
    requires ValidFile(f) && k < |f.blocks| && AllSpace(kept)
    requires '\n' in kept || k + 1 == |f.blocks|
    ensures ValidFile(Splice(f, k, kept))
  {
    var bs, cs := f.blocks, Splice(f, k, kept).blocks;
    if k + 1 < |bs| {
      assert ValidBlock(bs[k + 1]);
    }
    forall i | 0 <= i < |cs| ensures ValidBlock(cs[i]) && cs[i].id == bs[if i < k then i else i + 1].id {
      assert ValidBlock(bs[if i < k then i else i + 1]);
    }
  }

  lemma SpliceHeader(f: File, k: nat, kept: string)
    requires k < |f.blocks|
    ensures Splice(f, k, kept).header == f.header
  {
  }

  lemma SpliceCanonical(f: File, k: nat)
    requires ValidFile(f) && Canonical(f) && k < |f.blocks|
    ensures var gap := f.blocks[k].gap; Canonical(Splice(f, k, gap[..Unblanked(gap)]))
  {
    BackOverIs("\n  ", 3, 1);
    assert "\n  "[..1] == "\n";
    assert DropNewline("\n  ") == "  " && "\n" + "  " == "\n  ";
    assert DropNewline("\n") == "" && "\n" + "" == "\n";
  }

  lemma {:induction false} SecretsCat(a: seq<Block>, b: seq<Block>)
    ensures Secrets(a + b) == Secrets(b) + Secrets(a)
  {
    if a == [] {
      assert a + b == b;
    } else {
      SecretsCat(a[1..], b);
      assert (a + b)[1..] == a[1..] + b;
    }
  }

  /** The whitespace of a block does not matter to what the file means. */
  lemma SecretsOfSplice(f: File, k: nat, kept: string)
    requires ValidFile(f) && k < |f.blocks|
    ensures Secrets(Splice(f, k, kept).blocks) == Secrets(f.blocks[..k] + f.blocks[k + 1..])
  {
    if k + 1 < |f.blocks| {
      var next := f.blocks[k + 1];
      var b := next.(gap := kept + DropNewline(next.gap));
      var c := f.blocks[k + 2..];
      assert f.blocks[k + 1..] == [next] + c;
      assert ([next] + c)[1..] == c && ([b] + c)[1..] == c;
      assert f.blocks[..k] + [b] + c == f.blocks[..k] + ([b] + c);
      SecretsCat(f.blocks[..k], [next] + c);
      SecretsCat(f.blocks[..k], [b] + c);
    } else {
      assert f.blocks[..k] + f.blocks[k + 1..] == f.blocks[..k];
    }
  }

  lemma MapDrop(a: map<string, string>, c: map<string, string>, k: string, v: string)
    requires k !in a && k !in c
    ensures c[k := v] + a - {k} == c + a
  {
  }

  lemma AbsentAround(bs: seq<Block>, k: nat)
    requires ValidBlocks(bs) && k < |bs|
    ensures bs[k].id !in Secrets(bs[..k]) && bs[k].id !in Secrets(bs[k + 1..])
  {
    hide Secrets;
    var c := bs[k + 1..];
    forall i | 0 <= i < |c| ensures c[i].id != bs[k].id {
      assert c[i] == bs[k + 1 + i];
    }
    SecretsKeys(bs[..k], bs[k].id);
    SecretsKeys(c, bs[k].id);
  }

  lemma SecretsCons(b: Block, c: seq<Block>)
    ensures Secrets([b] + c) == Secrets(c)[b.id := b.secret]
  {
    assert ([b] + c)[1..] == c;
  }

  lemma SecretsDrop(bs: seq<Block>, k: nat)
    requires ValidBlocks(bs) && k < |bs|
    ensures Secrets(bs[..k] + bs[k + 1..]) == Secrets(bs) - {bs[k].id}
  {
    hide Secrets, ValidBlocks;
    var a, b, c := bs[..k], bs[k], bs[k + 1..];
    AbsentAround(bs, k);
    SecretsCat(a, [b] + c);
    SecretsCat(a, c);
    SecretsCons(b, c);
    MapDrop(Secrets(a), Secrets(c), b.id, b.secret);
    assert a + ([b] + c) == bs;
  }

  lemma SpliceDeletes(f: File, k: nat, kept: string)
    requires ValidFile(f) && k < |f.blocks|
    ensures Secrets(Splice(f, k, kept).blocks) == Secrets(f.blocks) - {f.blocks[k].id}
  {
    hide Secrets, Splice;
    SecretsOfSplice(f, k, kept);
    SecretsDrop(f.blocks, k);
  }

  // ---------- Cutting the text ----------

  /** Cutting from inside the gap to just past the block and its newline. */
  lemma CutText(head: string, gap: string, id: string, secret: string, after: string, m: nat)
    requires m <= |gap|
    ensures var t := Join(head + gap, id, secret, after);
      var end := BlockEnd(head + gap, id, secret);
      && end <= |t|
      && t[..|head| + m] + t[PastNewline(t, end)..] == head + gap[..m] + DropNewline(after)
  {
    var t := Join(head + gap, id, secret, after);
    var text := BlockText(id, secret);
    assert t[..|head| + m] == head + gap[..m];
    assert t[|head + gap + text|..] == after;
  }

  /** The blanks that `_remove_eap_block` takes back from the gap before a block. */
  function Unblanked(gap: string): (r: nat)
    ensures r <= |gap|
  {
    BackOverBlanks(gap, |gap|)
  }

  lemma {:induction false} BackOverIs(text: string, i: nat, start: nat)
    requires start <= i <= |text|
    requires forall k :: start <= k < i ==> text[k] == ' ' || text[k] == '\t'
    requires start > 0 ==> text[start - 1] != ' ' && text[start - 1] != '\t'
    ensures BackOverBlanks(text, i) == start
    decreases i - start
  {
    if start < i {
      BackOverIs(text, i - 1, start);
    }
  }

  lemma BackOverGap(head: string, gap: string, rest: string)
    requires head != [] && !IsSpace(head[|head| - 1])
    ensures BackOverBlanks(head + gap + rest, |head + gap|) == |head| + Unblanked(gap)
  {
    var t, m := head + gap + rest, Unblanked(gap);
    if m > 0 {
      assert t[|head| + m - 1] == gap[m - 1];
    } else {
      assert t[|head| - 1] == head[|head| - 1];
    }
    forall k | |head| + m <= k < |head + gap| ensures t[k] == ' ' || t[k] == '\t' {
      assert t[k] == gap[k - |head|];
    }
    BackOverIs(t, |head + gap|, |head| + m);
  }

  lemma UnblankedKeepsLine(gap: string)
    requires AllSpace(gap) && '\n' in gap
    ensures '\n' in gap[..Unblanked(gap)] && AllSpace(gap[..Unblanked(gap)])
  {
    var m := Unblanked(gap);
    var i :| 0 <= i < |gap| && gap[i] == '\n';
    assert i < m;
    assert gap[..m][i] == '\n';
  }

  /** Where the head of a file ends, whatever its blocks are called. */
  lemma HeadEnds(f: File, k: nat)
    requires ValidFile(f) && k <= |f.blocks|
    ensures Head(f, k) != [] && !IsSpace(Head(f, k)[|Head(f, k)| - 1])
  {
    BlocksEnd(f.blocks[..k]);
  }

  lemma {:induction false} BlocksEnd(bs: seq<Block>)
    requires forall i :: 0 <= i < |bs| ==> ValidBlock(bs[i])
    ensures bs != [] ==> RenderBlocks(bs) != [] && RenderBlocks(bs)[|RenderBlocks(bs)| - 1] == '}'
  {
    if bs != [] {
      BlockEnds(bs[0]);
      BlocksEnd(bs[1..]);
    }
  }

  // ---------- _remove_eap_block ----------

  lemma RemoveTextIs(t: string, id: string, idx: nat, brace: nat, end: nat)
    requires idx < |t| && FirstHit(t, For(id, Space), 0) == idx
    requires Find(t, '{', idx) == brace < |t| && CloseFrom(t, brace + 1, 1) == end
    ensures RemoveText(t, id) == Some(t[..BackOverBlanks(t, idx)] + t[PastNewline(t, end)..])
  {
    hide FirstHit, Find, CloseFrom, BackOverBlanks, PastNewline;
  }

  lemma FirstHitAtBlock(f: File, k: nat)
    requires ValidFile(f) && k < |f.blocks| && Silent(f.header, For(f.blocks[k].id, Space))
    ensures FirstHit(Render(f), For(f.blocks[k].id, Space), 0) == |Head(f, k) + f.blocks[k].gap| < |Render(f)|
  {
    hide Render, Head, Silent, ValidFile, Hit;
    var t, pos, nd := Render(f), |Head(f, k) + f.blocks[k].gap|, For(f.blocks[k].id, Space);
    RenderSplit(f, k);
    OneHit(f, k, Space, pos);
    NameNotAtEnd(t, pos, nd);
    forall i | 0 <= i < pos ensures !Hit(t, i, nd) {
      OneHit(f, k, Space, i);
    }
    FirstHitIs(t, nd, 0, pos);
  }

  lemma NameNotAtEnd(t: string, pos: nat, nd: Needle)
    requires Hit(t, pos, nd) && nd.word != []
    ensures pos < |t|
  {
  }

  lemma RemoveAtBlock(f: File, k: nat)
    requires ValidFile(f) && k < |f.blocks| && Silent(f.header, For(f.blocks[k].id, Space))
    ensures var b := f.blocks[k];
      RemoveText(Render(f), b.id) == Some(Render(Splice(f, k, b.gap[..Unblanked(b.gap)])))
  {
    hide Render, Head, Foot, Silent, ValidFile, Splice, Find, CloseFrom, BackOverBlanks, Join, BlockText, BlockName, Framed;
    hide RemoveText, PastNewline, DropNewline, FirstHit;
    var b := f.blocks[k];
    var head, after, before := Head(f, k), Foot(f, k), Head(f, k) + b.gap;
    RenderSplit(f, k);
    BlockFramed(f, k);
    HeadEnds(f, k);
    FirstHitAtBlock(f, k);
    BraceAfterName(before, b.id, b.secret, after);
    ScanClosesBlock(before, b.id, b.secret, after);
    RemoveTextIs(Render(f), b.id, |before|, IdLine(before, b.id) + 1, BlockEnd(before, b.id, b.secret));
    JoinTail(before, b.id, b.secret, after);
    BackOverGap(head, b.gap, BlockText(b.id, b.secret) + after);
    CutText(head, b.gap, b.id, b.secret, after, Unblanked(b.gap));
    RenderSplice(f, k, b.gap[..Unblanked(b.gap)]);
  }

  lemma JoinTail(before: string, id: string, secret: string, after: string)
    ensures Join(before, id, secret, after) == before + (BlockText(id, secret) + after)
  {
    hide BlockText;
  }

  /** Removing a block from the text is deleting its identity from the map, exactly. */
  lemma RemoveIsDelete(f: File, id: string) returns (g: File)
    requires ValidFile(f) && IsWord(id) && Silent(f.header, For(id, Space))
    ensures if id in Secrets(f.blocks) then RemoveText(Render(f), id) == Some(Render(g))
            else RemoveText(Render(f), id) == None && g == f
    ensures ValidFile(g) && g.header == f.header && (Canonical(f) ==> Canonical(g))
    ensures Secrets(g.blocks) == Secrets(f.blocks) - {id}
  {
    hide Render, Secrets, RemoveText, Silent, Canonical, Splice;
    SecretsKeys(f.blocks, id);
    g := f;
    if HasId(f.blocks, id) {
      var k :| 0 <= k < |f.blocks| && f.blocks[k].id == id;
      var b := f.blocks[k];
      assert ValidBlock(b);
      SpliceHeader(f, k, b.gap[..Unblanked(b.gap)]);
      var kept := b.gap[..Unblanked(b.gap)];
      g := Splice(f, k, kept);
      UnblankedKeepsLine(b.gap);
      RemoveAtBlock(f, k);
      SpliceValid(f, k, kept);
      SpliceDeletes(f, k, kept);
      if Canonical(f) {
        SpliceCanonical(f, k);
      }
    } else {
      RenderSilent(f, id, Space);
      RemoveNothing(Render(f), id);
    }
  }

  lemma RemoveNothing(text: string, id: string)
    requires IsWord(id) && Silent(text, For(id, Space))
    ensures RemoveText(text, id) == None
  {
    NameIsWord(id, Space);
    forall i: nat | i < |text| ensures !Hit(text, i, For(id, Space)) {
      SilentNoHit(text, For(id, Space), i);
    }
    NoFirstHit(text, For(id, Space), 0);
  }
}
