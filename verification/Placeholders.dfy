/**
 `_qmark_to_named` (host/vpn-portal/portal_auth.py): positional `?` parameters
 rewritten to `:p1`, `:p2`, ... and what a reader of named parameters finds.
 */
module Placeholders {
  import opened Chars

  // ---------- The rewriter ----------

  /** No parameters, a list of them, or already named ones. */
  datatype Params<T> = Absent | Listed(values: seq<T>) | ByName(named: map<string, T>)

  datatype Rewritten<T> = Statement(sql: string, named: map<string, T>) | CountMismatch(marks: nat, params: nat)

  function Name(i: nat): string {
    "p" + Decimal(i)
  }

  /** The join over `parts[i..]`. */
  function JoinFrom(parts: seq<string>, i: nat, params: nat): string
    requires i <= |parts|
    decreases |parts| - i
  {
    if i == |parts| then ""
    else (if i < params then parts[i] + ":" + Name(i + 1) else parts[i]) + JoinFrom(parts, i + 1, params)
  }

  function Dict<T>(values: seq<T>): map<string, T> {
    if values == [] then map[]
    else Dict(values[..|values| - 1])[Name(|values|) := values[|values| - 1]]
  }

  function QmarkToNamed<T>(sql: string, params: Params<T>): Rewritten<T> {
    match params
    case Absent => Statement(sql, map[])
    case ByName(named) => Statement(sql, named)
    case Listed(values) =>
      var parts := Split(sql, '?');
      if |parts| - 1 != |values| then CountMismatch(|parts| - 1, |values|)
      else Statement(JoinFrom(parts, 0, |values|), Dict(values))
  }

  // ---------- The reader ----------

  predicate IsNameChar(c: char) {
    '0' <= c <= '9' || 'a' <= c <= 'z' || 'A' <= c <= 'Z' || c == '_'
  }

  function NameRun(s: string): (n: nat)
    ensures n <= |s|
    ensures forall i :: 0 <= i < n ==> IsNameChar(s[i])
  {
    if s != [] && IsNameChar(s[0]) then 1 + NameRun(s[1..]) else 0
  }

  datatype Token = Plain(c: char) | Bind(name: string)

  /** A colon and the longest run of name characters after it is a parameter. */
  function Tokens(s: string): seq<Token>
    decreases |s|
  {
    if s == [] then []
    else if s[0] == ':' && |s| > 1 && IsNameChar(s[1]) then
      var n := NameRun(s[1..]);
      [Bind(s[1..1 + n])] + Tokens(s[1 + n..])
    else [Plain(s[0])] + Tokens(s[1..])
  }

  /** The statement as meant: the `?`s are the parameters from number `k` on, all else is text. */
  function Meant(sql: string, k: nat): seq<Token> {
    if sql == [] then []
    else if sql[0] == '?' then [Bind(Name(k))] + Meant(sql[1..], k + 1)
    else [Plain(sql[0])] + Meant(sql[1..], k)
  }

  function Marks(sql: string): nat {
    if sql == [] then 0 else (if sql[0] == '?' then 1 else 0) + Marks(sql[1..])
  }

  /** The parameter names of a token list, in order. */
  function Binds(ts: seq<Token>): seq<string> {
    if ts == [] then [] else (if ts[0].Bind? then [ts[0].name] else []) + Binds(ts[1..])
  }

  /** Every parameter turned back into `?`. */
  function Restored(ts: seq<Token>): string {
    if ts == [] then [] else [if ts[0].Bind? then '?' else ts[0].c] + Restored(ts[1..])
  }

  // ---------- Split and join ----------

  /** The rewritten text, mark by mark. */
  function Marked(sql: string, k: nat): string {
    if sql == [] then []
    else if sql[0] == '?' then ":" + Name(k) + Marked(sql[1..], k + 1)
    else [sql[0]] + Marked(sql[1..], k)
  }

  lemma {:induction false} SplitCounts(sql: string)
    ensures |Split(sql, '?')| == Marks(sql) + 1
  {
    if sql != [] {
      SplitCounts(sql[1..]);
    }
  }

  /** The join of `parts` numbered from `k + 1`, the last one unmarked. */
  function Stitched(parts: seq<string>, k: nat): string
    requires |parts| > 0
  {
    if |parts| == 1 then parts[0] else parts[0] + ":" + Name(k + 1) + Stitched(parts[1..], k + 1)
  }

  lemma StitchedAtMark(sql: string, k: nat)
    requires sql != [] && sql[0] == '?'
    ensures Stitched(Split(sql, '?'), k) == ":" + Name(k + 1) + Stitched(Split(sql[1..], '?'), k + 1)
  {
    hide Name;
    var parts := Split(sql, '?');
    assert parts[0] == "" && parts[1..] == Split(sql[1..], '?');
    assert parts[0] + ":" == ":";
  }

  lemma StitchedAtText(sql: string, k: nat)
    requires sql != [] && sql[0] != '?'
    ensures Stitched(Split(sql, '?'), k) == [sql[0]] + Stitched(Split(sql[1..], '?'), k)
  {
    hide Name;
    var parts, rest := Split(sql, '?'), Split(sql[1..], '?');
    assert parts[0] == [sql[0]] + rest[0] && parts[1..] == rest[1..];
  }

  lemma {:induction false} StitchedIsMarked(sql: string, k: nat)
    ensures Stitched(Split(sql, '?'), k) == Marked(sql, k + 1)
    decreases |sql|
  {
    hide Name;
    if sql != [] {
      if sql[0] == '?' {
        StitchedAtMark(sql, k);
        StitchedIsMarked(sql[1..], k + 1);
      } else {
        StitchedAtText(sql, k);
        StitchedIsMarked(sql[1..], k);
      }
    }
  }

  lemma {:induction false} JoinIsStitched(parts: seq<string>, i: nat)
    requires i < |parts|
    ensures JoinFrom(parts, i, |parts| - 1) == Stitched(parts[i..], i)
    decreases |parts| - i
  {
    if i + 1 < |parts| {
      JoinIsStitched(parts, i + 1);
      assert parts[i..][1..] == parts[i + 1..];
    } else {
      assert JoinFrom(parts, i + 1, |parts| - 1) == "";
      assert parts[i] + "" == parts[i];
    }
  }

  /** What `_qmark_to_named` returns for a parameter list: an error exactly when
      the counts differ, else the text with every mark numbered in order. */
  lemma RewritesInOrder<T>(sql: string, values: seq<T>)
    ensures QmarkToNamed(sql, Listed(values))
         == if Marks(sql) == |values| then Statement(Marked(sql, 1), Dict(values))
            else CountMismatch(Marks(sql), |values|)
  {
    SplitCounts(sql);
    var parts := Split(sql, '?');
    JoinIsStitched(parts, 0);
    StitchedIsMarked(sql, 0);
    assert parts[0..] == parts;
  }

  // ---------- Reading the rewritten text ----------

  /** No colon and no mark is directly followed by a name character. */
  predicate Clean(sql: string) {
    forall i :: 0 <= i < |sql| - 1 ==> sql[i] == ':' || sql[i] == '?' ==> !IsNameChar(sql[i + 1])
  }

  lemma CleanSteps(sql: string)
    requires sql != []
    ensures Clean(sql) <==>
      Clean(sql[1..]) && ((sql[0] == ':' || sql[0] == '?') && |sql| > 1 ==> !IsNameChar(sql[1]))
  {
    var rest := sql[1..];
    assert forall i :: 0 <= i < |rest| ==> rest[i] == sql[i + 1];
    if Clean(rest) && ((sql[0] == ':' || sql[0] == '?') && |sql| > 1 ==> !IsNameChar(sql[1])) {
      forall i | 0 <= i < |sql| - 1 && (sql[i] == ':' || sql[i] == '?') ensures !IsNameChar(sql[i + 1]) {
        if i > 0 {
          var j := i - 1;
          assert rest[j] == sql[i] && rest[j + 1] == sql[i + 1];
        }
      }
    }
    if Clean(sql) {
      forall j | 0 <= j < |rest| - 1 && (rest[j] == ':' || rest[j] == '?') ensures !IsNameChar(rest[j + 1]) {
        assert sql[j + 1] == rest[j] && sql[j + 1 + 1] == rest[j + 1];
      }
    }
  }

  lemma {:induction false} NameRunOver(name: string, rest: string)
    requires forall i :: 0 <= i < |name| ==> IsNameChar(name[i])
    ensures NameRun(name + rest) == |name| + NameRun(rest)
  {
    if name == [] {
      assert name + rest == rest;
    } else {
      assert (name + rest)[1..] == name[1..] + rest;
      NameRunOver(name[1..], rest);
    }
  }

  lemma MarkedStarts(sql: string, k: nat)
    ensures sql == [] ==> Marked(sql, k) == []
    ensures sql != [] ==> Marked(sql, k) != [] && Marked(sql, k)[0] == if sql[0] == '?' then ':' else sql[0]
  {
  }

  lemma TokensAtName(s: string)
    requires |s| > 1 && s[0] == ':' && IsNameChar(s[1])
    ensures var n := NameRun(s[1..]); Tokens(s) == [Bind(s[1..1 + n])] + Tokens(s[1 + n..])
  {
  }

  lemma NameReads(t: string, name: string, rest: string)
    requires name != [] && forall i :: 0 <= i < |name| ==> IsNameChar(name[i])
    requires t != [] && t[0] == ':' && t[1..] == name + rest
    ensures var n := NameRun(rest);
      Tokens(t) == [Bind(name + rest[..n])] + Tokens(rest[n..])
  {
    hide Tokens, NameRun;
    var n := NameRun(rest);
    assert t[1] == t[1..][0] == name[0];
    TokensAtName(t);
    NameRunOver(name, rest);
    var u := t[1..];
    assert t[1..1 + |name| + n] == u[..|name| + n] == name + rest[..n];
    assert t[1 + |name| + n..] == u[|name| + n..] == rest[n..];
  }

  /** A mark's name is read whole, with the name characters that follow it. */
  lemma BindReads(k: nat, rest: string)
    ensures var n := NameRun(rest);
      Tokens(":" + Name(k) + rest) == [Bind(Name(k) + rest[..n])] + Tokens(rest[n..])
  {
    hide Tokens;
    assert forall i :: 0 <= i < |Name(k)| ==> IsNameChar(Name(k)[i]);
    var t := ":" + Name(k) + rest;
    assert t[1..] == Name(k) + rest;
    NameReads(t, Name(k), rest);
  }

  /**
   A longest-match reader finds exactly the marks, numbered in order, and the
   text between them untouched, if and only if no colon and no mark of the
   original text is directly followed by a name character.
   */
  lemma {:induction false} ReadsAsMeant(sql: string, k: nat)
    ensures Tokens(Marked(sql, k)) == Meant(sql, k) <==> Clean(sql)
    decreases |sql|
  {
    hide Name, Clean, Tokens;
    if sql == [] {
      NothingRead();
    } else {
      var rest := sql[1..];
      CleanSteps(sql);
      MarkedStarts(rest, k);
      MarkedStarts(rest, k + 1);
      if sql[0] == '?' {
        ReadsAsMeant(rest, k + 1);
        BindReads(k, Marked(rest, k + 1));
        MarkReads(rest, k);
      } else {
        ReadsAsMeant(rest, k);
        TextReads(sql[0], Marked(rest, k), Meant(rest, k));
      }
    }
  }

  lemma NothingRead()
    ensures Tokens([]) == [] && Clean([])
  {
  }

  lemma MarkReads(rest: string, k: nat)
    requires Tokens(Marked(rest, k + 1)) == Meant(rest, k + 1) <==> Clean(rest)
    ensures Tokens(":" + Name(k) + Marked(rest, k + 1)) == [Bind(Name(k))] + Meant(rest, k + 1)
      <==> Clean(rest) && (rest != [] ==> !IsNameChar(rest[0]))
  {
    hide Name, Clean, Tokens;
    var more := Marked(rest, k + 1);
    MarkedStarts(rest, k + 1);
    BindReads(k, more);
    var n := NameRun(more);
    var read, meant := [Bind(Name(k) + more[..n])] + Tokens(more[n..]), [Bind(Name(k))] + Meant(rest, k + 1);
    assert n == 0 <==> (rest != [] ==> !IsNameChar(rest[0]));
    if n == 0 {
      assert more[..n] == [] && more[n..] == more && Name(k) + [] == Name(k);
      assert read[1..] == Tokens(more) && meant[1..] == Meant(rest, k + 1);
    } else {
      assert |Name(k) + more[..n]| > |Name(k)|;
      assert read[0] != meant[0];
    }
  }

  lemma TextReads(c: char, more: string, meant: seq<Token>)
    ensures Tokens([c] + more) == [Plain(c)] + meant
      <==> Tokens(more) == meant && !(c == ':' && more != [] && IsNameChar(more[0]))
  {
    var t := [c] + more;
    assert t[1..] == more;
    if c == ':' && more != [] && IsNameChar(more[0]) {
      assert Tokens(t)[0].Bind?;
    } else {
      assert Tokens(t) == [Plain(c)] + Tokens(more);
      assert Tokens(t)[1..] == Tokens(more) && ([Plain(c)] + meant)[1..] == meant;
    }
  }

  /** Turning the parameters of the statement as meant back into marks gives the original text. */
  lemma {:induction false} MeantRestores(sql: string, k: nat)
    ensures Restored(Meant(sql, k)) == sql
    decreases |sql|
  {
    if sql != [] {
      var k' := if sql[0] == '?' then k + 1 else k;
      MeantRestores(sql[1..], k');
      assert Meant(sql, k)[1..] == Meant(sql[1..], k');
      assert sql == [sql[0]] + sql[1..];
    }
  }

  lemma {:induction false} MeantBinds(sql: string, k: nat)
    ensures |Binds(Meant(sql, k))| == Marks(sql)
    ensures forall i :: 0 <= i < Marks(sql) ==> Binds(Meant(sql, k))[i] == Name(k + i)
    decreases |sql|
  {
    if sql != [] {
      var k' := if sql[0] == '?' then k + 1 else k;
      MeantBinds(sql[1..], k');
      assert Meant(sql, k)[1..] == Meant(sql[1..], k');
      if sql[0] == '?' {
        var rest := Binds(Meant(sql[1..], k'));
        assert Binds(Meant(sql, k)) == [Name(k)] + rest;
        forall i | 0 < i < Marks(sql) ensures Binds(Meant(sql, k))[i] == Name(k + i) {
          var j := i - 1;
          assert rest[j] == Name(k' + j);
        }
      }
    }
  }

  lemma {:induction false} DictIsList<T>(values: seq<T>, i: nat)
    requires i < |values|
    ensures Name(i + 1) in Dict(values) && Dict(values)[Name(i + 1)] == values[i]
    decreases |values|
  {
    if i < |values| - 1 {
      DictIsList(values[..|values| - 1], i);
      NameInjective(i + 1, |values|);
    }
  }

  lemma NameInjective(i: nat, j: nat)
    ensures Name(i) == Name(j) ==> i == j
  {
    if Name(i) == Name(j) {
      assert Decimal(i) == Name(i)[1..] && Decimal(j) == Name(j)[1..];
      DecimalInjective(i, j);
    }
  }

  /**
   For a clean statement with as many parameters as marks, the reader finds one
   parameter a mark, the i-th is bound to the i-th value, and putting marks back
   gives the original text.
   */
  lemma BindsInOrder<T>(sql: string, values: seq<T>)
    requires Clean(sql) && Marks(sql) == |values|
    ensures var r := QmarkToNamed(sql, Listed(values));
      && r.Statement?
      && var ts := Tokens(r.sql);
      && Restored(ts) == sql
      && |Binds(ts)| == |values|
      && forall i :: 0 <= i < |values| ==> Binds(ts)[i] in r.named && r.named[Binds(ts)[i]] == values[i]
  {
    hide Name, Tokens, Marked, Meant, Binds, Restored, Clean, Dict, QmarkToNamed;
    RewritesInOrder(sql, values);
    ReadsAsMeant(sql, 1);
    MeantRestores(sql, 1);
    MeantBinds(sql, 1);
    forall i | 0 <= i < |values|
      ensures Binds(Meant(sql, 1))[i] in Dict(values) && Dict(values)[Binds(Meant(sql, 1))[i]] == values[i]
    {
      DictIsList(values, i);
      assert Binds(Meant(sql, 1))[i] == Name(1 + i);
    }
  }

  /** Without a list of values nothing is rewritten: the text stays, question marks and all, and
      what is bound is nothing, or the values already named. */
  lemma NamedIsLeftAlone<T>(sql: string, named: map<string, T>)
    ensures QmarkToNamed<T>(sql, Absent) == Statement(sql, map[])
    ensures QmarkToNamed(sql, ByName(named)) == Statement(sql, named)
  {
  }

  /** The characters that continue a parameter's name, by their codes: digits, letters and the underscore. */
  lemma NameCharsAreThese(c: char)
    ensures IsNameChar(c) <==> var n := c as int; 48 <= n <= 57 || 65 <= n <= 90 || n == 95 || 97 <= n <= 122
  {
  }

  /** Two marks in a statement as it is written. */
  lemma TwoMarks<T>(a: T, b: T)
    ensures QmarkToNamed("a=? b=?", Listed([a, b])) == Statement("a=:p1 b=:p2", map["p1" := a, "p2" := b])
  {
    hide Decimal, Split, JoinFrom, Dict;
    OneAndTwo();
    var parts := ["a=", " b=", ""];
    SplitTwo();
    JoinOfThree(parts);
    DictOfTwo(a, b);
    assert "a=" + ":" + "p1" + (" b=" + ":" + "p2" + "") == "a=:p1 b=:p2";
  }

  lemma OneAndTwo()
    ensures Name(1) == "p1" && Name(2) == "p2"
  {
  }

  lemma SplitTwo()
    ensures Split("a=? b=?", '?') == ["a=", " b=", ""]
  {
    hide Split;
    SplitAt("a=", " b=?");
    SplitAt(" b=", "");
    SplitTexts();
    assert Split("", '?') == [""] by {
      SplitNothing();
    }
  }

  lemma SplitTexts()
    ensures "a=" + "?" + " b=?" == "a=? b=?" && " b=" + "?" + "" == " b=?"
  {
  }

  lemma SplitNothing()
    ensures Split("", '?') == [""]
  {
  }

  lemma {:induction false} SplitAt(a: string, rest: string)
    requires '?' !in a
    ensures Split(a + "?" + rest, '?') == [a] + Split(rest, '?')
  {
    var t := a + "?" + rest;
    if a == [] {
      assert t == "?" + rest && t[1..] == rest;
    } else {
      assert t[1..] == a[1..] + "?" + rest;
      SplitAt(a[1..], rest);
      assert [a[0]] + a[1..] == a;
    }
  }

  lemma JoinOfThree(parts: seq<string>)
    requires |parts| == 3
    ensures JoinFrom(parts, 0, 2) == parts[0] + ":" + Name(1) + (parts[1] + ":" + Name(2) + parts[2])
  {
    hide Name;
    assert JoinFrom(parts, 3, 2) == "";
    assert JoinFrom(parts, 2, 2) == parts[2] + "";
    assert JoinFrom(parts, 1, 2) == parts[1] + ":" + Name(2) + JoinFrom(parts, 2, 2);
  }

  lemma DictOfTwo<T>(a: T, b: T)
    ensures Dict([a, b]) == map[Name(1) := a, Name(2) := b]
  {
    hide Name;
    assert [a, b][..1] == [a] && [a][..0] == [];
    assert Dict([a]) == map[Name(1) := a];
  }
}
