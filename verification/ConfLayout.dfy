/** The layout of rw-eap.conf, and where a searched block name can occur in it. */
module ConfLayout {
  import opened Chars
  import opened ConfText

  /** One credential block with the whitespace before it. */
  datatype Block = Block(gap: string, id: string, secret: string)

  /** Everything up to the opening of `secrets`, the blocks, the whitespace before the closing
      brace and the whitespace after it. */
  datatype File = File(header: string, blocks: seq<Block>, tail: string, ending: string)

  function RenderBlock(b: Block): string {
    b.gap + BlockText(b.id, b.secret)
  }

  function RenderBlocks(bs: seq<Block>): string {
    if bs == [] then "" else RenderBlock(bs[0]) + RenderBlocks(bs[1..])
  }

  function Closing(f: File): string {
    f.tail + "}" + f.ending
  }

  function Render(f: File): string {
    f.header + RenderBlocks(f.blocks) + Closing(f)
  }

  /** What the file means: the secret of each identity. */
  function Secrets(bs: seq<Block>): map<string, string> {
    if bs == [] then map[] else Secrets(bs[1..])[bs[0].id := bs[0].secret]
  }

  predicate HasId(bs: seq<Block>, id: string) {
    exists i :: 0 <= i < |bs| && bs[i].id == id
  }

  ghost predicate Within(word: string, s: string) {
    exists i: nat :: i < |s| && At(s, i, word)
  }

  /** An identity: a word in which the block prefix does not occur. */
  ghost predicate ValidId(id: string) {
    IsWord(id) && !Within("eap-", id)
  }

  ghost predicate ValidBlock(b: Block) {
    && AllSpace(b.gap) && '\n' in b.gap
    && ValidId(b.id) && IsWord(b.secret)
  }

  ghost predicate ValidBlocks(bs: seq<Block>) {
    && (forall i :: 0 <= i < |bs| ==> ValidBlock(bs[i]))
    && (forall i, j :: 0 <= i < j < |bs| ==> bs[i].id != bs[j].id)
  }

  ghost predicate ValidFile(f: File) {
    && f.header != [] && !IsSpace(f.header[|f.header| - 1])
    && ValidBlocks(f.blocks) && AllSpace(f.tail) && AllSpace(f.ending)
  }

  // ---------- Silence: no hit starts in a stretch of text ----------

  /** The needle stands in `s` at `i`, or would if the right character followed `s`. */
  ghost predicate Speaks(s: string, i: nat, nd: Needle) {
    && At(s, i, nd.word)
    && (nd.term.Any? || i + |nd.word| == |s| || TermOk(nd.term, s[i + |nd.word|]))
  }

  ghost predicate Silent(s: string, nd: Needle) {
    forall i: nat :: i < |s| ==> !Speaks(s, i, nd)
  }

  /** The two texts cannot share a word across their border. */
  predicate Parted(a: string, b: string) {
    a == [] || b == [] || !IsWordChar(a[|a| - 1]) || !IsWordChar(b[0])
  }

  lemma SilentJoin(a: string, b: string, nd: Needle)
    requires IsWord(nd.word) && Parted(a, b) && Silent(a, nd) && Silent(b, nd)
    ensures Silent(a + b, nd)
  {
    var t := a + b;
    var n := |nd.word|;
    forall i: nat | i < |t| ensures !Speaks(t, i, nd) {
      if i >= |a| {
        assert At(t, i, nd.word) ==> At(b, i - |a|, nd.word);
        assert !Speaks(b, i - |a|, nd);
      } else if i + n <= |a| || b == [] {
        assert At(t, i, nd.word) ==> At(a, i, nd.word);
        assert !Speaks(a, i, nd);
      } else {
        assert t[|a| - 1] == a[|a| - 1] && IsWordChar(nd.word[|a| - 1 - i]);
        assert t[|a|] == b[0] && IsWordChar(nd.word[|a| - i]);
      }
    }
  }

  lemma SilentWithout(s: string, nd: Needle)
    requires IsWord(nd.word) && (forall i :: 0 <= i < |s| ==> s[i] != nd.word[0])
    ensures Silent(s, nd)
  {
    forall i: nat | i < |s| ensures !Speaks(s, i, nd) {
      assert s[i] != nd.word[0];
    }
  }

  /** The needle searched for the block of `id`. */
  function For(id: string, term: Term): Needle {
    Needle(BlockName(id), term)
  }

  ghost predicate IsPrefix(p: string, s: string) {
    At(s, 0, p)
  }

  /** The needle for `id` is not answered by a block of `other`. */
  ghost predicate Apart(id: string, other: string, term: Term) {
    if term.Any? then !IsPrefix(id, other) else id != other
  }

  lemma NameIsWord(id: string, term: Term)
    requires IsWord(id)
    ensures IsWord(For(id, term).word) && For(id, term).word[0] == 'e'
    ensures At(For(id, term).word, 0, "eap-") && At(For(id, term).word, 4, id)
  {
    var w := "eap-" + id;
    assert w[0] == 'e' && w[1] == 'a' && w[2] == 'p' && w[3] == '-';
  }

  /** Inside a block's name only its start can answer. */
  lemma NameSpeaksOnce(other: string, i: nat, id: string, term: Term)
    requires IsWord(id) && ValidId(other) && 0 < i < |BlockName(other)|
    ensures !Speaks(BlockName(other), i, For(id, term))
  {
    var s := BlockName(other);
    var w := BlockName(id);
    NameIsWord(id, term);
    if i >= 4 {
      var j: nat := i - 4;
      PrefixOfName(s, i, id);
      assert At(s, i, "eap-") ==> At(other, j, "eap-");
      assert !At(other, j, "eap-");
    } else {
      assert s[i] == "eap-"[i] != w[0];
    }
  }

  lemma PrefixOfName(s: string, i: nat, id: string)
    ensures At(s, i, BlockName(id)) ==> At(s, i, "eap-") && At(s, i + 4, id)
  {
    if At(s, i, BlockName(id)) {
      AtSplit(s, i, "eap-", id);
    }
  }

  /** It answers only to a name that is its own or, without a terminator, a prefix of it. */
  lemma NameSpeaksOwn(other: string, id: string, term: Term)
    requires IsWord(id) && ValidId(other) && Apart(id, other, term)
    ensures !Speaks(BlockName(other), 0, For(id, term))
  {
    var s := BlockName(other);
    var w := BlockName(id);
    PrefixOfName(s, 0, id);
    assert At(s, 4, id) ==> At(other, 0, id);
    if |id| < |other| {
      assert s[|w|] == other[|id|];
    } else if |id| == |other| {
      assert At(other, 0, id) ==> id == other;
    }
  }

  lemma NameSilent(other: string, id: string, term: Term)
    requires IsWord(id) && ValidId(other) && Apart(id, other, term)
    ensures Silent(BlockName(other), For(id, term))
  {
    forall i: nat | i < |BlockName(other)| ensures !Speaks(BlockName(other), i, For(id, term)) {
      if i > 0 {
        NameSpeaksOnce(other, i, id, term);
      } else {
        NameSpeaksOwn(other, id, term);
      }
    }
  }

  lemma IdSilent(other: string, id: string, term: Term)
    requires IsWord(id) && ValidId(other)
    ensures Silent(other, For(id, term))
  {
    var w := BlockName(id);
    NameIsWord(id, term);
    forall i: nat | i < |other| ensures !Speaks(other, i, For(id, term)) {
      PrefixOfName(other, i, id);
      assert !At(other, i, "eap-");
    }
  }

  /** A secret answers only the search that asks for no terminator, and only by containing the name. */
  ghost predicate Discreet(secret: string, id: string, term: Term) {
    term.Any? ==> !Within(BlockName(id), secret)
  }

  lemma SecretSilent(secret: string, id: string, term: Term)
    requires IsWord(id) && IsWord(secret) && Discreet(secret, id, term)
    ensures Silent(secret + "\"", For(id, term))
  {
    var s := secret + "\"";
    var w := BlockName(id);
    NameIsWord(id, term);
    forall i: nat | i < |s| ensures !Speaks(s, i, For(id, term)) {
      if i + |w| == |s| {
        assert s[|s| - 1] == '"' && IsWordChar(w[|w| - 1]);
      } else if i + |w| < |s| {
        assert At(s, i, w) ==> At(secret, i, w);
        assert s[i + |w|] == '"' || IsWordChar(s[i + |w|]);
      }
    }
  }

  const ID_PART: string := " {\n    id     = "
  const SECRET_PART: string := "\n    secret = \""
  const END_PART: string := "\n  }"

  lemma LiteralsSilent(id: string, term: Term)
    requires IsWord(id)
    ensures Silent(ID_PART, For(id, term)) && Silent(SECRET_PART, For(id, term)) && Silent(END_PART, For(id, term))
  {
    NameIsWord(id, term);
    SilentWithout(ID_PART, For(id, term));
    SilentWithout(END_PART, For(id, term));
    var w := BlockName(id);
    assert w[1] == 'a';
    forall i: nat | i < |SECRET_PART| ensures !Speaks(SECRET_PART, i, For(id, term)) {
      assert SECRET_PART[i] == 'e' ==> SECRET_PART[i + 1] != w[1];
    }
  }

  /** A block after its name. */
  function Rest(id: string, secret: string): string {
    ID_PART + id + SECRET_PART + (secret + "\"") + END_PART
  }

  lemma BlockTextParts(id: string, secret: string)
    ensures BlockText(id, secret) == BlockName(id) + Rest(id, secret)
  {
    calc {
      BlockName(id) + Rest(id, secret);
      BlockName(id) + (ID_PART + id + SECRET_PART + (secret + "\"") + END_PART);
      BlockName(id) + ID_PART + id + SECRET_PART + secret + "\"" + END_PART;
    }
    assert "\"" + END_PART == "\"\n  }";
  }

  lemma RestSilent(other: string, secret: string, id: string, term: Term)
    requires IsWord(id) && ValidId(other) && IsWord(secret) && Discreet(secret, id, term)
    ensures Silent(Rest(other, secret), For(id, term))
  {
    var nd := For(id, term);
    NameIsWord(id, term);
    LiteralsSilent(id, term);
    IdSilent(other, id, term);
    SecretSilent(secret, id, term);
    hide Silent, For, ValidId, IsWord;
    SilentJoin(ID_PART, other, nd);
    SilentJoin(ID_PART + other, SECRET_PART, nd);
    SilentJoin(ID_PART + other + SECRET_PART, secret + "\"", nd);
    SilentJoin(ID_PART + other + SECRET_PART + (secret + "\""), END_PART, nd);
  }

  // ---------- Whole blocks and files ----------

  lemma BlockSilent(b: Block, id: string, term: Term)
    requires IsWord(id) && ValidBlock(b) && Apart(id, b.id, term) && Discreet(b.secret, id, term)
    ensures Silent(RenderBlock(b), For(id, term))
  {
    var nd := For(id, term);
    NameIsWord(id, term);
    SilentWithout(b.gap, nd);
    NameSilent(b.id, id, term);
    RestSilent(b.id, b.secret, id, term);
    BlockTextParts(b.id, b.secret);
    assert Rest(b.id, b.secret)[0] == ' ';
    hide Silent, ValidBlock, Rest;
    SilentJoin(BlockName(b.id), Rest(b.id, b.secret), nd);
    SilentJoin(b.gap, BlockText(b.id, b.secret), nd);
  }

  lemma BlockEnds(b: Block)
    requires ValidBlock(b)
    ensures var r := RenderBlock(b); r != [] && IsSpace(r[0]) && r[|r| - 1] == '}'
  {
    BlockTextParts(b.id, b.secret);
    assert b.gap != [];
  }

  /** Every block is apart from the identity and keeps its secret from the search. */
  ghost predicate AllApart(bs: seq<Block>, id: string, term: Term) {
    forall i :: 0 <= i < |bs| ==> Apart(id, bs[i].id, term) && Discreet(bs[i].secret, id, term)
  }

  lemma {:induction false} BlocksSilent(bs: seq<Block>, id: string, term: Term)
    requires IsWord(id) && (forall i :: 0 <= i < |bs| ==> ValidBlock(bs[i]))
    requires AllApart(bs, id, term)
    ensures Silent(RenderBlocks(bs), For(id, term))
    ensures bs != [] ==> RenderBlocks(bs) != [] && IsSpace(RenderBlocks(bs)[0])
    ensures bs != [] ==> RenderBlocks(bs)[|RenderBlocks(bs)| - 1] == '}'
  {
    if bs != [] {
      var nd := For(id, term);
      BlockSilent(bs[0], id, term);
      BlockEnds(bs[0]);
      BlocksSilent(bs[1..], id, term);
      NameIsWord(id, term);
      hide Silent, ValidBlock;
      SilentJoin(RenderBlock(bs[0]), RenderBlocks(bs[1..]), nd);
    }
  }

  /** A stretch of text that stays silent where it stands. */
  lemma NoHitIn(a: string, s: string, b: string, i: nat, nd: Needle)
    requires IsWord(nd.word) && (b == [] || !IsWordChar(b[0]))
    requires |a| <= i < |a| + |s| && !Speaks(s, i - |a|, nd)
    ensures !Hit(a + s + b, i, nd)
  {
    var t := a + s + b;
    var n := |nd.word|;
    if i + n <= |a| + |s| {
      assert At(t, i, nd.word) ==> At(s, i - |a|, nd.word);
      assert i + n < |a| + |s| ==> t[i + n] == s[i + n - |a|];
    } else if b != [] {
      assert t[|a| + |s|] == b[0] && IsWordChar(nd.word[|a| + |s| - i]);
    }
  }

  /** A file cut at the name of one of its blocks. */
  ghost predicate Framed(before: string, id: string, secret: string, after: string) {
    && ValidId(id) && IsWord(secret)
    && (before == [] || !IsWordChar(before[|before| - 1]))
    && after != [] && !IsWordChar(after[0])
  }

  function Join(before: string, id: string, secret: string, after: string): string {
    before + BlockText(id, secret) + after
  }

  lemma JoinParts(before: string, id: string, secret: string, after: string)
    ensures Join(before, id, secret, after) == before + BlockName(id) + (Rest(id, secret) + after)
  {
    BlockTextParts(id, secret);
    assert Join(before, id, secret, after) == before + (BlockName(id) + Rest(id, secret)) + after;
    hide *;
    assert before + (BlockName(id) + Rest(id, secret)) + after == before + BlockName(id) + (Rest(id, secret) + after);
  }

  lemma NoHitBefore(before: string, id: string, secret: string, after: string, i: nat, nd: Needle)
    requires IsWord(nd.word) && Framed(before, id, secret, after)
    requires Silent(before, nd) && i < |before|
    ensures !Hit(Join(before, id, secret, after), i, nd)
  {
    assert Parted(before, BlockText(id, secret) + after);
    var t := before + (BlockText(id, secret) + after);
    assert t == Join(before, id, secret, after);
    var n := |nd.word|;
    assert !Speaks(before, i, nd);
    if i + n <= |before| {
      assert At(t, i, nd.word) ==> At(before, i, nd.word);
      assert i + n < |before| ==> t[i + n] == before[i + n];
    } else {
      assert t[|before| - 1] == before[|before| - 1] && IsWordChar(nd.word[|before| - 1 - i]);
    }
  }

  lemma HitAtName(before: string, id: string, secret: string, after: string, asked: string, term: Term)
    requires IsWord(asked) && Framed(before, id, secret, after)
    requires !Apart(asked, id, term)
    ensures Hit(Join(before, id, secret, after), |before|, For(asked, term))
  {
    var t := Join(before, id, secret, after);
    var w := BlockName(asked);
    JoinParts(before, id, secret, after);
    forall k | 0 <= k < |w| ensures t[|before| + k] == w[k] {
      assert t[|before| + k] == BlockName(id)[k];
      if k >= 4 {
        assert w[k] == asked[k - 4] && BlockName(id)[k] == id[k - 4];
      }
    }
    if !term.Any? {
      assert t[|before| + |w|] == Rest(id, secret)[0] == ' ';
    }
  }

  lemma NoHitAfter(before: string, id: string, secret: string, after: string, i: nat, asked: string, term: Term)
    requires IsWord(asked) && Framed(before, id, secret, after)
    requires Discreet(secret, asked, term) && Silent(after, For(asked, term))
    requires |before| < i < |Join(before, id, secret, after)|
    ensures !Hit(Join(before, id, secret, after), i, For(asked, term))
  {
    var nd := For(asked, term);
    var rest := Rest(id, secret) + after;
    NameIsWord(asked, term);
    JoinParts(before, id, secret, after);
    RestSilent(id, secret, asked, term);
    assert Rest(id, secret)[0] == ' ';
    SilentJoin(Rest(id, secret), after, nd);
    if i < |before| + |BlockName(id)| {
      NameSpeaksOnce(id, i - |before|, asked, term);
      NoHitIn(before, BlockName(id), rest, i, nd);
    } else {
      assert before + BlockName(id) + rest == (before + BlockName(id)) + rest + [];
      NoHitIn(before + BlockName(id), rest, [], i, nd);
    }
  }
}
