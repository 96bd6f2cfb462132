/** What each search and edit of module ConfText does around one block of the file. */
module ConfEdits {
  import opened Chars
  import opened ConfText
  import opened ConfLayout
  import opened Options

  lemma {:induction false} FirstHitIs(text: string, nd: Needle, from: nat, pos: nat)
    requires from <= pos < |text| && Hit(text, pos, nd)
    requires forall i :: from <= i < pos ==> !Hit(text, i, nd)
    ensures FirstHit(text, nd, from) == pos
    decreases pos - from
  {
    if from < pos {
      FirstHitIs(text, nd, from + 1, pos);
    }
  }

  lemma {:induction false} NoFirstHit(text: string, nd: Needle, from: nat)
    requires from <= |text|
    requires forall i: nat :: from <= i < |text| ==> !Hit(text, i, nd)
    ensures FirstHit(text, nd, from) == |text|
    decreases |text| - from
  {
    if from < |text| {
      NoFirstHit(text, nd, from + 1);
    }
  }

  lemma {:induction false} CloseOver(text: string, i: nat, end: nat, depth: nat)
    requires i <= end < |text| && depth > 0 && text[end] == '}'
    requires forall k :: i <= k < end ==> text[k] != '{' && text[k] != '}'
    ensures CloseFrom(text, i, depth) == CloseFrom(text, end + 1, depth - 1)
    decreases end - i
  {
    if i < end {
      CloseOver(text, i + 1, end, depth);
    }
  }

  /** Position of the pieces of the block that stands between `before` and `after`. */
  function IdLine(before: string, id: string): nat { |before| + |BlockName(id)| }
  function IdPos(before: string, id: string): nat { IdLine(before, id) + |ID_PART| }
  function SecretLine(before: string, id: string): nat { IdPos(before, id) + |id| }
  function SecretPos(before: string, id: string): nat { SecretLine(before, id) + |SECRET_PART| }
  function QuotePos(before: string, id: string, secret: string): nat { SecretPos(before, id) + |secret| }
  function BlockEnd(before: string, id: string, secret: string): nat { |before| + |BlockText(id, secret)| }

  lemma PieceLengths(before: string, id: string, secret: string, after: string)
    ensures |Rest(id, secret)| == |ID_PART| + |id| + |SECRET_PART| + |secret| + 1 + |END_PART|
    ensures |BlockText(id, secret)| == |BlockName(id)| + |Rest(id, secret)|
    ensures BlockEnd(before, id, secret) == QuotePos(before, id, secret) + 1 + |END_PART|
    ensures |Join(before, id, secret, after)| == BlockEnd(before, id, secret) + |after|
  {
    BlockTextParts(id, secret);
  }

  lemma Pieces(before: string, id: string, secret: string, after: string)
    ensures var t := Join(before, id, secret, after);
      && At(t, |before|, BlockName(id))
      && At(t, IdLine(before, id), ID_PART)
      && At(t, IdPos(before, id), id)
      && At(t, SecretLine(before, id), SECRET_PART)
      && At(t, SecretPos(before, id), secret)
      && At(t, QuotePos(before, id, secret), "\"")
      && At(t, QuotePos(before, id, secret) + 1, END_PART)
      && At(t, BlockEnd(before, id, secret), after)
  {
    BlockTextParts(id, secret);
    PieceLengths(before, id, secret, after);
    AtWhole(before, BlockText(id, secret), after);
    hide At, BlockText, BlockName;
    AtSplit(Join(before, id, secret, after), |before|, BlockName(id), Rest(id, secret));
    RestPieces(Join(before, id, secret, after), IdLine(before, id), id, secret);
  }

  lemma RestPieces(t: string, p: nat, id: string, secret: string)
    requires At(t, p, Rest(id, secret))
    ensures At(t, p, ID_PART) && At(t, p + |ID_PART|, id)
    ensures At(t, p + |ID_PART| + |id|, SECRET_PART) && At(t, p + |ID_PART| + |id| + |SECRET_PART|, secret)
    ensures var q := p + |ID_PART| + |id| + |SECRET_PART| + |secret|; At(t, q, "\"") && At(t, q + 1, END_PART)
  {
    hide At;
    AtSplit3(t, p, ID_PART + id + SECRET_PART, secret + "\"", END_PART);
    AtSplit3(t, p, ID_PART, id, SECRET_PART);
    AtSplit(t, p + |ID_PART| + |id| + |SECRET_PART|, secret, "\"");
  }

  lemma AtWhole(a: string, b: string, c: string)
    ensures At(a + b + c, |a|, b) && At(a + b + c, |a| + |b|, c)
  {
    assert At(a + b + c, 0, a + b + c);
    AtSplit3(a + b + c, 0, a, b, c);
  }

  lemma NameHasNoBrace(id: string, k: nat)
    requires IsWord(id) && k < |BlockName(id)|
    ensures BlockName(id)[k] != '{'
  {
    if k >= 4 {
      assert BlockName(id)[k] == id[k - 4];
    }
  }

  lemma BraceAfterName(before: string, id: string, secret: string, after: string)
    requires Framed(before, id, secret, after)
    ensures var t := Join(before, id, secret, after);
      && IdLine(before, id) + 2 <= |t|
      && t[IdLine(before, id)] == ' ' && t[IdLine(before, id) + 1] == '{'
      && Find(t, '{', |before|) == IdLine(before, id) + 1
  {
    var t := Join(before, id, secret, after);
    var p := IdLine(before, id);
    Pieces(before, id, secret, after);
    PieceLengths(before, id, secret, after);
    assert IsWord(id);
    hide Join, BlockText, BlockName, Framed, IsWord;
    assert t[p] == ID_PART[0] && t[p + 1] == ID_PART[1];
    forall i | |before| <= i < p ensures t[i] != '{' {
      assert t[i] == BlockName(id)[i - |before|];
      NameHasNoBrace(id, i - |before|);
    }
    FindIs(t, '{', |before|, p + 1);
  }

  /** Between its braces a block holds no brace. */
  lemma NoBraceInBlock(before: string, id: string, secret: string, after: string, k: nat)
    requires Framed(before, id, secret, after)
    requires IdLine(before, id) + 2 <= k < BlockEnd(before, id, secret) - 1
    ensures var t := Join(before, id, secret, after);
      k < |t| && t[k] != '{' && t[k] != '}'
  {
    var t := Join(before, id, secret, after);
    Pieces(before, id, secret, after);
    PieceLengths(before, id, secret, after);
    hide BlockText, BlockName, Join;
    if k < IdPos(before, id) {
      assert t[k] == ID_PART[k - IdLine(before, id)];
    } else if k < SecretLine(before, id) {
      assert t[k] == id[k - IdPos(before, id)];
    } else if k < SecretPos(before, id) {
      assert t[k] == SECRET_PART[k - SecretLine(before, id)];
    } else if k < QuotePos(before, id, secret) {
      assert t[k] == secret[k - SecretPos(before, id)];
    } else if k == QuotePos(before, id, secret) {
      assert t[k] == "\""[0];
    } else {
      assert t[k] == END_PART[k - QuotePos(before, id, secret) - 1];
    }
  }

  /** The depth count started at the block's brace stops right after the block. */
  lemma ScanClosesBlock(before: string, id: string, secret: string, after: string)
    requires Framed(before, id, secret, after)
    ensures var t := Join(before, id, secret, after);
      && IdLine(before, id) + 2 < BlockEnd(before, id, secret) <= |t|
      && t[BlockEnd(before, id, secret) - 1] == '}'
      && CloseFrom(t, IdLine(before, id) + 2, 1) == BlockEnd(before, id, secret)
  {
    var t := Join(before, id, secret, after);
    Pieces(before, id, secret, after);
    PieceLengths(before, id, secret, after);
    hide BlockText, BlockName, Join, Framed;
    var p, end := IdLine(before, id) + 2, BlockEnd(before, id, secret) - 1;
    assert t[end] == END_PART[3];
    forall k | p <= k < end ensures t[k] != '{' && t[k] != '}' {
      NoBraceInBlock(before, id, secret, after, k);
    }
    CloseOver(t, p, end, 1);
  }

  // ---------- The patterns on a block ----------

  lemma NameReads(before: string, id: string, secret: string, after: string)
    requires Framed(before, id, secret, after)
    ensures NameAt(Join(before, id, secret, after), |before|, id) == Some(IdLine(before, id) + 2)
  {
    var t := Join(before, id, secret, after);
    BraceAfterName(before, id, secret, after);
    Pieces(before, id, secret, after);
    hide Join, BlockText, BlockName, Framed, Find, NameAt, At;
    NameAtIs(t, |before|, id);
  }

  lemma NameAtIs(t: string, j: nat, id: string)
    requires At(t, j, BlockName(id))
    requires var k := j + |BlockName(id)|; k + 2 <= |t| && t[k] == ' ' && t[k + 1] == '{'
    ensures NameAt(t, j, id) == Some(j + |BlockName(id)| + 2)
  {
    hide BlockName, At;
    SkipSpaceRun(t, j + |BlockName(id)|, j + |BlockName(id)| + 1);
  }

  /** Whitespace and a word, read by `After`. */
  lemma AfterIs(text: string, i: nat, gap: string, word: string)
    requires AllSpace(gap) && word != [] && !IsSpace(word[0])
    requires At(text, i, gap) && At(text, i + |gap|, word)
    ensures After(text, i, word) == Some(i + |gap| + |word|)
  {
    assert text[i + |gap|] == word[0];
    forall k | i <= k < i + |gap| ensures IsSpace(text[k]) {
      assert text[k] == gap[k - i];
    }
    SkipSpaceRun(text, i, i + |gap|);
  }

  lemma IdLineReads(text: string, p: nat, id: string)
    requires IsWord(id) && At(text, p, ID_PART) && At(text, p + |ID_PART|, id)
    ensures After(text, p + 2, "id") == Some(p + 9) && After(text, p + 9, "=") == Some(p + 15)
    ensures After(text, p + 15, id) == Some(p + |ID_PART| + |id|)
  {
    hide After, At;
    assert At(text, p, " {" + "\n    " + "id" + "     " + "= ") by {
      assert ID_PART == " {" + "\n    " + "id" + "     " + "= ";
    }
    AtSplit(text, p, " {" + "\n    " + "id" + "     ", "= ");
    AtSplit4(text, p, " {", "\n    ", "id", "     ");
    assert "= " == "=" + " ";
    AtSplit(text, p + 14, "=", " ");
    AfterIs(text, p + 2, "\n    ", "id");
    AfterIs(text, p + 9, "     ", "=");
    AfterIs(text, p + 15, " ", id);
  }

  lemma AssignedIs(text: string, p: nat)
    requires At(text, p, " = \"")
    ensures Assigned(text, p) == Some(p + 4)
  {
    hide After, At;
    assert " = \"" == " " + "=" + " " + "\"";
    AtSplit4(text, p, " ", "=", " ", "\"");
    AfterIs(text, p, " ", "=");
    AfterIs(text, p + 2, " ", "\"");
  }

  lemma SecretLineReads(text: string, p: nat)
    requires At(text, p, SECRET_PART)
    ensures After(text, p, "secret") == Some(p + 11) && Stands(text, p + 5, "secret")
    ensures Assigned(text, p + 11) == Some(p + |SECRET_PART|)
  {
    hide After, At, Assigned;
    assert At(text, p, "\n    " + "secret" + " = \"") by {
      assert SECRET_PART == "\n    " + "secret" + " = \"";
    }
    AtSplit3(text, p, "\n    ", "secret", " = \"");
    AfterIs(text, p, "\n    ", "secret");
    AssignedIs(text, p + 11);
  }

  lemma QuoteCloses(before: string, id: string, secret: string, after: string)
    requires Framed(before, id, secret, after)
    ensures var t := Join(before, id, secret, after);
      && QuotePos(before, id, secret) < |t|
      && Find(t, '"', SecretPos(before, id)) == QuotePos(before, id, secret)
      && t[SecretPos(before, id)..QuotePos(before, id, secret)] == secret
  {
    var t := Join(before, id, secret, after);
    var from := SecretPos(before, id);
    Pieces(before, id, secret, after);
    hide Join, BlockText, BlockName;
    assert t[QuotePos(before, id, secret)] == "\""[0];
    forall k | from <= k < QuotePos(before, id, secret) ensures t[k] != '"' {
      assert t[k] == secret[k - from];
    }
    FindIs(t, '"', from, QuotePos(before, id, secret));
    AtSlice(t, from, secret);
  }

  lemma SecretOfChain(text: string, i: nat, id: string, a: nat, b: nat, c: nat, d: nat, e: nat, open: nat)
    requires i <= |text| && NameAt(text, i, id) == Some(a)
    requires After(text, a, "id") == Some(b)
    requires b <= |text| && After(text, b, "=") == Some(c)
    requires c <= |text| && After(text, c, id) == Some(d)
    requires d <= |text| && After(text, d, "secret") == Some(e)
    requires e <= |text| && Assigned(text, e) == Some(open)
    ensures open <= |text|
    ensures var close := Find(text, '"', open);
      (open < close < |text| ==> SecretOf(text, i, id) == Some(text[open..close]))
  {
    hide NameAt, After, Assigned, Find;
  }

  lemma SecretOfParts(t: string, i: nat, id: string, secret: string, p: nat, q: nat, s: nat)
    requires i <= |t| && NameAt(t, i, id) == Some(p + 2) && IsWord(id) && secret != []
    requires At(t, p, ID_PART) && At(t, p + |ID_PART|, id)
    requires q == p + |ID_PART| + |id| && At(t, q, SECRET_PART) && s == q + |SECRET_PART|
    requires s + |secret| < |t| && Find(t, '"', s) == s + |secret| && t[s..s + |secret|] == secret
    ensures SecretOf(t, i, id) == Some(secret)
  {
    hide NameAt, After, Assigned, Find, At, SecretOf, IsWord;
    IdLineReads(t, p, id);
    SecretLineReads(t, q);
    SecretOfChain(t, i, id, p + 2, p + 9, p + 15, q, q + 11, s);
  }

  /** The lookup pattern reads the block's own secret. */
  lemma SecretOfBlock(before: string, id: string, secret: string, after: string)
    requires Framed(before, id, secret, after)
    ensures SecretOf(Join(before, id, secret, after), |before|, id) == Some(secret)
  {
    hide Join, NameAt, Find, At, BlockName, BlockText, SecretOf;
    var t := Join(before, id, secret, after);
    Pieces(before, id, secret, after);
    NameReads(before, id, secret, after);
    QuoteCloses(before, id, secret, after);
    SecretOfParts(t, |before|, id, secret, IdLine(before, id), SecretLine(before, id), SecretPos(before, id));
  }

  lemma NotStands(text: string, i: nat, word: string)
    requires i < |text| && word != [] && text[i] != word[0]
    ensures !Stands(text, i, word)
  {
  }

  /** An assignment cannot be read across a character that is no part of one. */
  lemma AssignedStops(text: string, i: nat, stop: nat)
    requires i <= stop < |text| && !IsSpace(text[stop]) && text[stop] != '='
    requires forall k :: i <= k <= stop ==> text[k] != '"'
    ensures Assigned(text, i) == None
  {
    var j := SkipSpace(text, i);
    assert j <= stop;
    if text[j] != '=' {
      NotStands(text, j, "=");
    } else {
      var k := SkipSpace(text, j + 1);
      assert k <= stop;
      NotStands(text, k, "\"");
    }
  }

  lemma SecretFromSkips(text: string, i: nat)
    requires i < |text| && text[i] != '}'
    requires Stands(text, i, "secret") ==> Assigned(text, i + 6) == None
    ensures SecretFrom(text, i) == SecretFrom(text, i + 1)
  {
    hide Assigned, Find;
  }

  lemma SecretFromStops(text: string, i: nat, open: nat)
    requires i < |text| && Stands(text, i, "secret") && Assigned(text, i + 6) == Some(open)
    requires Find(text, '"', open) < |text|
    ensures SecretFrom(text, i) == Some(open)
  {
    hide Assigned, Find;
  }

  /** The replace pattern goes to the block's secret whatever its identity spells. */
  lemma {:induction false} SecretFromBlock(before: string, id: string, secret: string, after: string, i: nat)
    requires Framed(before, id, secret, after)
    requires IdLine(before, id) + 2 <= i <= SecretLine(before, id) + 5
    ensures i <= |Join(before, id, secret, after)|
    ensures SecretFrom(Join(before, id, secret, after), i) == Some(SecretPos(before, id))
    decreases SecretLine(before, id) + 5 - i
  {
    hide Join, BlockText, BlockName, Framed, Assigned, Stands, SecretFrom, Find;
    var t := Join(before, id, secret, after);
    var line := SecretLine(before, id);
    PieceLengths(before, id, secret, after);
    if i < line + 5 {
      NoBraceInBlock(before, id, secret, after, i);
      SecretFromBlock(before, id, secret, after, i + 1);
      NoSecretBefore(before, id, secret, after, i);
      SecretFromSkips(t, i);
    } else {
      Pieces(before, id, secret, after);
      QuoteCloses(before, id, secret, after);
      SecretLineReads(t, line);
      SecretFromStops(t, i, SecretPos(before, id));
    }
  }

  lemma NoSecretBefore(before: string, id: string, secret: string, after: string, i: nat)
    requires Framed(before, id, secret, after)
    requires IdLine(before, id) + 2 <= i < SecretLine(before, id) + 5
    ensures var t := Join(before, id, secret, after);
      Stands(t, i, "secret") ==> Assigned(t, i + 6) == None
  {
    var t := Join(before, id, secret, after);
    var line := SecretLine(before, id);
    Pieces(before, id, secret, after);
    PieceLengths(before, id, secret, after);
    hide Join, BlockText, BlockName, Framed, Assigned;
    assert t[line + 5] == SECRET_PART[5];
    if i + 6 <= line + 5 {
      forall k | i + 6 <= k <= line + 5 ensures t[k] != '"' {
        QuoteFree(before, id, secret, after, k);
      }
      AssignedStops(t, i + 6, line + 5);
    } else {
      assert t[i] == SECRET_PART[i - line];
      NotStands(t, i, "secret");
    }
  }

  lemma QuoteFree(before: string, id: string, secret: string, after: string, k: nat)
    requires Framed(before, id, secret, after)
    requires IdLine(before, id) <= k <= SecretLine(before, id) + 5
    ensures k < |Join(before, id, secret, after)| && Join(before, id, secret, after)[k] != '"'
  {
    var t := Join(before, id, secret, after);
    Pieces(before, id, secret, after);
    hide Join, BlockText, BlockName;
    if k < IdPos(before, id) {
      assert t[k] == ID_PART[k - IdLine(before, id)];
    } else if k < SecretLine(before, id) {
      assert t[k] == id[k - IdPos(before, id)];
    } else {
      assert t[k] == SECRET_PART[k - SecretLine(before, id)];
    }
  }
}
