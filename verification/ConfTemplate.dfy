/** How Python reads the replacement template that a new secret is put into (host/vpn-portal/app.py). */
module ConfTemplate {
  import opened Chars
  import opened Options

  predicate IsLetter(c: char) {
    'a' <= c <= 'z' || 'A' <= c <= 'Z'
  }

  predicate IsOctal(c: char) {
    '0' <= c <= '7'
  }

  function Octal(s: string): nat
    requires forall i :: 0 <= i < |s| ==> IsOctal(s[i])
  {
    if s == [] then 0
    else
      assert IsOctal(s[|s| - 1]);
      8 * Octal(s[..|s| - 1]) + (s[|s| - 1] - '0') as nat
  }

  /** What a backslash and this letter stand for, if anything. */
  function Escape(c: char): Option<char> {
    if c == 'a' then Some(7 as char)
    else if c == 'b' then Some(8 as char)
    else if c == 'f' then Some(12 as char)
    else if c == 'n' then Some('\n')
    else if c == 'r' then Some('\r')
    else if c == 't' then Some('\t')
    else if c == 'v' then Some(11 as char)
    else if c == '\\' then Some('\\')
    else None
  }

  function Prepend(p: string, r: Option<string>): Option<string> {
    if r.Some? then Some(p + r.value) else None
  }

  /** First `>` at or after `i`. */
  function GroupEnd(s: string, i: nat): (r: nat)
    requires i <= |s|
    ensures i <= r <= |s|
    ensures r < |s| ==> s[r] == '>'
    decreases |s| - i
  {
    if i == |s| || s[i] == '>' then i else GroupEnd(s, i + 1)
  }

  /** The text of group `n` of a pattern with one group; others raise. */
  function Group(n: nat, group: string, whole: string): Option<string> {
    if n == 0 then Some(whole) else if n == 1 then Some(group) else None
  }

  /** How many characters the octal escape at the start of `s`, a backslash and a `0`, takes. */
  function ZeroRun(s: string): (n: nat)
    requires |s| >= 2 && s[1] == '0'
    ensures 2 <= n <= |s| && forall i :: 1 <= i < n ==> IsOctal(s[i])
  {
    if |s| > 2 && IsOctal(s[2]) then (if |s| > 3 && IsOctal(s[3]) then 4 else 3) else 2
  }

  /** One escape: the text it stands for and how many characters it takes; None raises. */
  function ReadEscape(s: string, group: string, whole: string): (r: Option<(string, nat)>)
    requires s != [] && s[0] == '\\'
    ensures r.Some? ==> 2 <= r.value.1 <= |s|
  {
    if |s| == 1 then None
    else if s[1] == 'g' then
      if |s| == 2 || s[2] != '<' then None
      else
        var end := GroupEnd(s, 3);
        if end == |s| || end == 3 || !AllDigits(s[3..end]) then None
        else
          var text := Group(Number(s[3..end]), group, whole);
          if text.None? then None else Some((text.value, end + 1))
    else if s[1] == '0' then Some(([(Octal(s[1..ZeroRun(s)]) % 256) as char], ZeroRun(s)))
    else if IsDigit(s[1]) then
      if |s| > 2 && IsDigit(s[2]) then
        if |s| > 3 && IsOctal(s[1]) && IsOctal(s[2]) && IsOctal(s[3]) && Octal(s[1..4]) < 256
        then Some(([Octal(s[1..4]) as char], 4)) else None
      else
        var text := Group((s[1] - '0') as nat, group, whole);
        if text.None? then None else Some((text.value, 2))
    else if Escape(s[1]).Some? then Some(([Escape(s[1]).value], 2))
    else if IsLetter(s[1]) then None
    else Some((s[..2], 2))
  }

  /** The template's text with its escapes replaced; None is the error Python raises. */
  function Expand(s: string, group: string, whole: string): Option<string>
    decreases |s|
  {
    if s == [] then Some("")
    else if s[0] != '\\' then Prepend([s[0]], Expand(s[1..], group, whole))
    else
      var e := ReadEscape(s, group, whole);
      if e.None? then None else Prepend(e.value.0, Expand(s[e.value.1..], group, whole))
  }

  // ---------- Templates that stand for themselves ----------

  /** A backslash before this character is kept with it. */
  predicate Inert(c: char) {
    !IsLetter(c) && !IsDigit(c) && c != '\\'
  }

  predicate Literal(s: string) {
    forall i :: 0 <= i < |s| && s[i] == '\\' ==> i + 1 < |s| && Inert(s[i + 1])
  }

  lemma LiteralRest(s: string, k: nat)
    requires Literal(s) && k <= |s|
    ensures Literal(s[k..])
  {
    var rest := s[k..];
    forall i | 0 <= i < |rest| && rest[i] == '\\' ensures i + 1 < |rest| && Inert(rest[i + 1]) {
      assert s[k + i] == '\\';
    }
  }

  lemma {:induction false} LiteralExpands(s: string, group: string, whole: string)
    requires Literal(s)
    ensures Expand(s, group, whole) == Some(s)
    decreases |s|
  {
    if s != [] {
      var n := if s[0] == '\\' then 2 else 1;
      LiteralRest(s, n);
      LiteralExpands(s[n..], group, whole);
      assert s[..1] == [s[0]];
      if s[0] == '\\' {
        assert ReadEscape(s, group, whole) == Some((s[..2], 2));
      }
      assert s == s[..n] + s[n..];
    }
  }

  lemma EscapeShrinks(s: string, group: string, whole: string)
    requires s != [] && s[0] == '\\' && '{' in group && '{' in whole
    ensures var e := ReadEscape(s, group, whole);
      || e.None?
      || '{' in e.value.0
      || |e.value.0| < e.value.1
      || (e.value == (s[..2], 2) && |s| > 1 && Inert(s[1]))
  {
  }

  /** When the groups hold a brace and the result does not, every escape but the
      inert ones shrinks the text. */
  lemma {:induction false} ExpansionShrinks(s: string, group: string, whole: string)
    requires '{' in group && '{' in whole
    ensures var t := Expand(s, group, whole);
      t.Some? && '{' !in t.value ==> |t.value| <= |s| && (|t.value| == |s| ==> Literal(s))
    decreases |s|
  {
    hide ReadEscape;
    var t := Expand(s, group, whole);
    if s != [] && t.Some? {
      var n, head := 1, [s[0]];
      if s[0] == '\\' {
        EscapeShrinks(s, group, whole);
        n, head := ReadEscape(s, group, whole).value.1, ReadEscape(s, group, whole).value.0;
      }
      var more := Expand(s[n..], group, whole).value;
      assert t.value == head + more;
      ExpansionShrinks(s[n..], group, whole);
      if '{' !in t.value && |t.value| == |s| {
        assert forall c :: c in more ==> c in t.value;
        assert forall c :: c in head ==> c in t.value;
        LiteralFrom(s, n);
      }
    }
  }

  lemma LiteralFrom(s: string, n: nat)
    requires s != [] && 1 <= n <= |s| && Literal(s[n..])
    requires if s[0] == '\\' then n == 2 && Inert(s[1]) else n == 1
    ensures Literal(s)
  {
    forall i | 0 <= i < |s| && s[i] == '\\' ensures i + 1 < |s| && Inert(s[i + 1]) {
      if i >= n {
        assert s[n..][i - n] == '\\';
      }
    }
  }

  /** A template whose groups hold a brace and that holds none stands for itself
      exactly when every backslash in it is inert. */
  lemma ExpandsToItself(s: string, group: string, whole: string)
    requires '{' in group && '{' in whole && '{' !in s
    ensures Expand(s, group, whole) == Some(s) <==> Literal(s)
  {
    ExpansionShrinks(s, group, whole);
    if Literal(s) {
      LiteralExpands(s, group, whole);
    }
  }

  // ---------- The escapes, one by one ----------

  /** A backslash and a letter: seven stand for a control character, `g` starts a group's
      name, all others raise; two backslashes are one. */
  lemma LetterEscapes(c: char, more: string, group: string, whole: string)
    ensures var r := ReadEscape("\\" + [c] + more, group, whole);
      && (c == 'a' ==> r == Some(("\U{07}", 2))) && (c == 'b' ==> r == Some(("\U{08}", 2)))
      && (c == 't' ==> r == Some(("\t", 2))) && (c == 'n' ==> r == Some(("\n", 2)))
      && (c == 'v' ==> r == Some(("\U{0B}", 2))) && (c == 'f' ==> r == Some(("\U{0C}", 2)))
      && (c == 'r' ==> r == Some(("\r", 2))) && (c == '\\' ==> r == Some(("\\", 2)))
      && ((65 <= c as int <= 90 || 97 <= c as int <= 122) && c !in "abtnvfrg" ==> r == None)
  {
    hide Group, Octal, ZeroRun;
    var s := "\\" + [c] + more;
    assert s[0] == '\\' && s[1] == c;
  }

  /** A backslash and a digit: the group or the whole match, or a character by its octal code. */
  lemma DigitEscapes(group: string, whole: string)
    ensures ReadEscape("\\1\"", group, whole) == Some((group, 2))
    ensures ReadEscape("\\2\"", group, whole) == None
    ensures ReadEscape("\\101\"", group, whole) == Some(("A", 4))
    ensures ReadEscape("\\12\"", group, whole) == None
    ensures ReadEscape("\\g<1>", group, whole) == Some((group, 5))
    ensures ReadEscape("\\g<0>", group, whole) == Some((whole, 5))
    ensures ReadEscape("\\g<2>", group, whole) == None
    ensures ReadEscape("\\012\"", group, whole) == Some(("\n", 4))
    ensures ReadEscape("\\08\"", group, whole) == Some(("\U{00}", 2))
  {
    OctalThree('1', '0', '1');
    OctalThree('0', '1', '2');
    OctalOne('0');
    NumberOne('0');
    NumberOne('1');
    NumberOne('2');
    assert "\\101\""[1..4] == ['1', '0', '1'];
    assert "\\012\""[1..4] == ['0', '1', '2'];
    assert "\\08\""[1..2] == ['0'];
    GroupEndIs("\\g<0>");
    GroupEndIs("\\g<1>");
    GroupEndIs("\\g<2>");
    assert "\\g<0>"[3..4] == ['0'] && "\\g<1>"[3..4] == ['1'] && "\\g<2>"[3..4] == ['2'];
  }

  lemma OctalOne(a: char)
    requires '0' <= a <= '7'
    ensures Octal([a]) == (a - '0') as nat
  {
    assert [a][..0] == [];
  }

  lemma OctalThree(a: char, b: char, c: char)
    requires '0' <= a <= '7' && '0' <= b <= '7' && '0' <= c <= '7'
    ensures Octal([a, b, c]) == 64 * (a - '0') as nat + 8 * (b - '0') as nat + (c - '0') as nat
  {
    assert [a, b, c][..2] == [a, b] && [a, b][..1] == [a] && [a][..0] == [];
    OctalOne(a);
    assert Octal([a, b]) == 8 * (a - '0') as nat + (b - '0') as nat;
  }

  lemma NumberOne(a: char)
    requires IsDigit(a)
    ensures Number([a]) == (a - '0') as nat
  {
    assert [a][..0] == [];
  }

  lemma GroupEndIs(s: string)
    requires |s| == 5 && s[3] != '>' && s[4] == '>'
    ensures GroupEnd(s, 3) == 4
  {
  }
}
