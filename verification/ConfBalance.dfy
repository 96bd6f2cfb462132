/** Brace balance of rw-eap.conf in its own layout, through any run of edits. */
module ConfBalance {
  import opened Chars
  import opened ConfText
  import opened ConfLayout
  import opened ConfEdits
  import opened ConfExpiry
  import opened ConfFile
  import opened ConfBraces
  import opened Options

  lemma WordIsBraceless(s: string)
    requires IsWord(s)
    ensures Braceless(s)
  {
  }

  lemma {:induction false} BlocksLevel(bs: seq<Block>, d: nat)
    requires forall i :: 0 <= i < |bs| ==> ValidBlock(bs[i])
    ensures Level(RenderBlocks(bs), d) == Some(d)
  {
    hide Level, BlockText;
    if bs == [] {
      BracelessLevel("", d);
    } else {
      var b := bs[0];
      assert ValidBlock(b);
      WordIsBraceless(b.id);
      WordIsBraceless(b.secret);
      SpaceIsBraceless(b.gap);
      BracelessLevel(b.gap, d);
      BlockLevel(b.id, b.secret, d);
      LevelJoin(b.gap, BlockText(b.id, b.secret), d);
      LevelJoin(RenderBlock(b), RenderBlocks(bs[1..]), d);
      BlocksLevel(bs[1..], d);
    }
  }

  lemma ClosingLevel(f: File, d: nat)
    requires AllSpace(f.tail) && AllSpace(f.ending)
    ensures Level(Closing(f), d) == if d == 0 then None else Some(d - 1)
  {
    hide Level;
    SpaceIsBraceless(f.tail);
    SpaceIsBraceless(f.ending);
    BracelessLevel(f.tail, d);
    LevelJoin(f.tail, "}", d);
    LevelJoin(f.tail + "}", f.ending, d);
    OneClose(d);
    if d > 0 {
      BracelessLevel(f.ending, d - 1);
    }
  }

  lemma OneClose(d: nat)
    ensures Level("}", d) == if d == 0 then None else Some(d - 1)
  {
    assert "}"[1..] == "";
  }

  /** A file in the layout is balanced exactly when its header leaves one brace open, the one of `secrets`. */
  lemma LayoutBalance(f: File)
    requires ValidFile(f)
    ensures Balanced(Render(f)) <==> Level(f.header, 0) == Some(1)
  {
    hide Level, RenderBlocks, Closing;
    LevelJoin(f.header + RenderBlocks(f.blocks), Closing(f), 0);
    LevelJoin(f.header, RenderBlocks(f.blocks), 0);
    if Level(f.header, 0).Some? {
      var d := Level(f.header, 0).value;
      BlocksLevel(f.blocks, d);
      ClosingLevel(f, d);
    }
  }

  /**
   Any sequence of edits that refines edits of the map keeps the file's brace
   balance, both ways: the final text is balanced exactly when the first one was.
   */
  lemma RunKeepsBalance(f: File, es: seq<Edit>)
    requires ValidFile(f) && Complete(f) && PlainSecrets(Secrets(f.blocks))
    requires forall i :: 0 <= i < |es| ==> FitEdit(f.header, es[i])
    ensures Balanced(RunText(Render(f), es)) <==> Balanced(Render(f))
  {
    hide Render, Secrets, RunText, RunMap, FitEdit, Balanced, Complete, PlainSecrets, Level;
    var g := RunRefines(f, es);
    LayoutBalance(f);
    LayoutBalance(g);
  }

  /** So does an append that is compensated. */
  lemma CompensationKeepsBalance(f: File, id: string, secret: string)
    requires ValidFile(f) && ValidId(id) && IsWord(secret)
    requires Silent(f.header, For(id, Opening)) && !HasId(f.blocks, id)
    ensures Balanced(CompensateText(Render(WithBlock(f, id, secret)), id)) <==> Balanced(Render(f))
  {
    hide Render, Secrets, Silent, Balanced, CompensateText, WithBlock, Level;
    var g := AppendThenCompensate(f, id, secret);
    LayoutBalance(f);
    LayoutBalance(g);
  }

  // ---------- Lists of identities on arbitrary texts ----------

  /** Every turn for every identity of the list is clean. */
  ghost predicate CleanList(t: string, ids: seq<string>)
    decreases |ids|
  {
    ids != [] ==> CleanTurns(t, ids[0]) && CleanList(ExpireOne(t, ids[0]).text, ids[1..])
  }

  /** Balanced after every identity of the list. */
  ghost predicate BalancedThroughout(t: string, ids: seq<string>) {
    forall n :: 0 <= n <= |ids| ==> Balanced(ExpireAll(t, ids[..n]).text)
  }

  lemma ThroughoutUnfolds(t: string, ids: seq<string>)
    requires ids != []
    ensures BalancedThroughout(t, ids) <==> Balanced(t) && BalancedThroughout(ExpireOne(t, ids[0]).text, ids[1..])
  {
    hide ExpireOne, Balanced;
    var u := ExpireOne(t, ids[0]).text;
    assert ids[..0] == [];
    forall n | 1 <= n <= |ids| ensures ExpireAll(t, ids[..n]).text == ExpireAll(u, ids[1..][..n - 1]).text {
      assert ids[..n][1..] == ids[1..][..n - 1];
    }
    if BalancedThroughout(t, ids) {
      forall n | 0 <= n <= |ids[1..]| ensures Balanced(ExpireAll(u, ids[1..][..n]).text) {
        assert Balanced(ExpireAll(t, ids[..n + 1]).text);
      }
    }
  }

  /** Expiring a list keeps a balanced text balanced after each identity exactly when all its turns are clean. */
  lemma {:induction false} ExpireListBalance(t: string, ids: seq<string>)
    requires Balanced(t) && forall i :: 0 <= i < |ids| ==> Braceless(ids[i])
    ensures CleanList(t, ids) <==> BalancedThroughout(t, ids)
    ensures CleanList(t, ids) ==> Balanced(ExpireAll(t, ids).text)
    decreases |ids|
  {
    hide ExpireOne, CleanTurns, Balanced, BalancedThroughout;
    if ids == [] {
      NothingExpired(t);
    } else {
      ThroughoutUnfolds(t, ids);
      ExpireBalance(t, ids[0]);
      var u := ExpireOne(t, ids[0]).text;
      if Balanced(u) {
        ExpireListBalance(u, ids[1..]);
      } else {
        ThroughoutStarts(u, ids[1..]);
      }
    }
  }

  lemma NothingExpired(t: string)
    ensures ExpireAll(t, []).text == t && (BalancedThroughout(t, []) <==> Balanced(t))
  {
    var none: seq<string> := [];
    assert none[..0] == none;
  }

  lemma ThroughoutStarts(t: string, ids: seq<string>)
    ensures BalancedThroughout(t, ids) ==> Balanced(t)
  {
    hide Balanced;
    assert ids[..0] == [];
    NothingExpired(t);
  }

  lemma TurnIs(t: string, id: string, idx: nat, brace: nat, close: nat)
    requires FirstHit(t, Needle(BlockName(id), Any), 0) == idx && Find(t, '{', idx) == brace
    requires idx <= brace < |t| && CloseFrom(t, brace + 1, 1) == close == |t|
    ensures ExpireOne(t, id).text == ExpireOne(t[..idx], id).text
  {
    hide FirstHit, Find, CloseFrom, ExpireOne, BlockName;
    TurnUnfolds(t, id);
    assert t[|t|..] == [] && t[..idx] + [] == t[..idx];
  }

  /**
   For a list the converse fails: the first identity's turn can unbalance the
   text and a later one, cutting to the end, balance it again.
   */
  lemma LaterIdentityCanRebalance()
    ensures var t := "eap-b{eap-a}{}";
      && Balanced(t) && !Balanced(ExpireOne(t, "a").text)
      && Balanced(ExpireAll(t, ["a", "b"]).text) && !CleanList(t, ["a", "b"])
  {
    hide ExpireOne, CleanTurns, Balanced;
    var t, u := "eap-b{eap-a}{}", "eap-b{";
    SampleBalance();
    FirstSampleTurn();
    SecondSampleTurn();
    ExpireBalance(t, "a");
    TwoIdentities(t, "a", "b");
  }

  lemma TwoIdentities(t: string, a: string, b: string)
    ensures ExpireAll(t, [a, b]).text == ExpireOne(ExpireOne(t, a).text, b).text
  {
    hide ExpireOne;
    var u := ExpireOne(t, a).text;
    assert [a, b][1..] == [b] && [b][1..] == [];
    assert ExpireAll(u, [b]).text == ExpireAll(ExpireOne(u, b).text, []).text;
    assert ExpireAll(t, [a, b]).text == ExpireAll(u, [b]).text;
  }

  lemma SampleBalance()
    ensures Balanced("eap-b{eap-a}{}") && !Balanced("eap-b{") && Balanced("")
  {
    var a, b := "eap-b", "eap-a";
    BracelessLevel(a, 0);
    BracelessLevel(b, 1);
    OneBrace(0);
    assert "eap-b{eap-a}{}" == a + "{" + b + "}" + "{" + "}";
    LevelJoin(a, "{", 0);
    LevelJoin(a + "{", b, 0);
    LevelJoin(a + "{" + b, "}", 0);
    LevelJoin(a + "{" + b + "}", "{", 0);
    LevelJoin(a + "{" + b + "}" + "{", "}", 0);
    assert "eap-b{" == a + "{";
  }

  lemma Mismatch(t: string, i: nat, w: string, k: nat)
    requires k < |w| && i + k < |t| && t[i + k] != w[k]
    ensures !Stands(t, i, w)
  {
  }

  /** The word stands nowhere in the first six places. */
  lemma NotAtFirst(t: string, w: string)
    requires |t| >= 6 && |w| == 5 && w[4] != t[4] && forall i :: 1 <= i < 6 ==> t[i] != w[0]
    ensures forall i :: 0 <= i < 6 ==> !Stands(t, i, w)
  {
    forall i | 0 <= i < 6 ensures !Stands(t, i, w) {
      Mismatch(t, i, w, if i == 0 then 4 else 0);
    }
  }

  lemma SampleHit()
    ensures var t, nd := "eap-b{eap-a}{}", Needle(BlockName("a"), Any);
      FirstHit(t, nd, 0) == 6 && FirstHit("eap-b{", nd, 0) == 6
  {
    hide FirstHit, Stands;
    var t, u, w := "eap-b{eap-a}{}", "eap-b{", "eap-a";
    assert BlockName("a") == w;
    NotAtFirst(t, w);
    NotAtFirst(u, w);
    SampleStands(t, w);
    FirstHitIs(t, Needle(w, Any), 0, 6);
    NoFirstHit(u, Needle(w, Any), 0);
  }

  lemma SampleStands(t: string, w: string)
    requires |t| >= 11 && |w| == 5 && forall k :: 0 <= k < 5 ==> t[6 + k] == w[k]
    ensures Stands(t, 6, w)
  {
    assert t[6..11] == w;
  }

  lemma SampleScan(t: string)
    requires |t| == 14 && t[12] == '{' && t[13] == '}' && forall i :: 6 <= i < 12 ==> t[i] != '{'
    ensures Find(t, '{', 6) == 12 && CloseFrom(t, 13, 1) == 14
  {
    FindIs(t, '{', 6, 12);
    assert CloseFrom(t, 14, 0) == 14;
  }

  lemma FirstSampleTurn()
    ensures ExpireOne("eap-b{eap-a}{}", "a").text == "eap-b{"
  {
    hide ExpireOne, FirstHit, Find, CloseFrom, BlockName;
    var t, u := "eap-b{eap-a}{}", "eap-b{";
    SampleHit();
    SampleScan(t);
    TurnIs(t, "a", 6, 12, 14);
    assert t[..6] == u;
    TurnUnfolds(u, "a");
  }

  lemma SecondSampleTurn()
    ensures ExpireOne("eap-b{", "b").text == ""
  {
    hide ExpireOne;
    var u, w := "eap-b{", "eap-b";
    assert BlockName("b") == w;
    assert Stands(u, 0, w) by { assert u[0..5] == w; }
    FirstHitIs(u, Needle(w, Any), 0, 0);
    FindIs(u, '{', 0, 5);
    assert CloseFrom(u, 6, 1) == 6;
    TurnIs(u, "b", 0, 5, 6);
    assert u[..0] == "";
    NoFirstHit("", Needle(w, Any), 0);
    TurnUnfolds("", "b");
  }
}
