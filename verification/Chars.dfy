/** Character classes and "text at a position" facts shared by the text modules. */
module Chars {

  /** The characters Python's `str.strip` removes and `\s` matches on `str`. */
  predicate IsSpace(c: char) {
    var n := c as int;
    || 9 <= n <= 13 || 28 <= n <= 32 || n == 0x85 || n == 0xA0 || n == 0x1680
    || 0x2000 <= n <= 0x200A || n == 0x2028 || n == 0x2029 || n == 0x202F
    || n == 0x205F || n == 0x3000
  }

  /** All of them: Unicode's whitespace and the four separators of ASCII. */
  const WHITESPACE: string :=
    "\t\n\U{0B}\U{0C}\r\U{1C}\U{1D}\U{1E}\U{1F} \U{85}\U{A0}\U{1680}"
    + "\U{2000}\U{2001}\U{2002}\U{2003}\U{2004}\U{2005}\U{2006}\U{2007}\U{2008}\U{2009}\U{200A}"
    + "\U{2028}\U{2029}\U{202F}\U{205F}\U{3000}"

  lemma SpacesAreThese(c: char)
    ensures IsSpace(c) <==> c in WHITESPACE
  {
  }

  /** Letters, digits, `_`, `.` and `-`. */
  predicate IsPlain(c: char) {
    'a' <= c <= 'z' || 'A' <= c <= 'Z' || '0' <= c <= '9' || c == '_' || c == '.' || c == '-'
  }

  lemma PlainIsNoSpace(c: char)
    requires IsPlain(c)
    ensures !IsSpace(c)
  {
  }

  predicate AllSpace(s: string) {
    forall i :: 0 <= i < |s| ==> IsSpace(s[i])
  }

  /** First position at or after `pos` that does not hold whitespace. */
  function SkipSpace(text: string, pos: nat): (r: nat)
    requires pos <= |text|
    ensures pos <= r <= |text|
    ensures forall i :: pos <= i < r ==> IsSpace(text[i])
    ensures r < |text| ==> !IsSpace(text[r])
    decreases |text| - pos
  {
    if pos < |text| && IsSpace(text[pos]) then SkipSpace(text, pos + 1) else pos
  }

  /** `text` with trailing whitespace removed: Python's `rstrip`. */
  function RStrip(text: string): (r: string)
    ensures r <= text
    ensures AllSpace(text[|r|..])
    ensures r != [] ==> !IsSpace(r[|r| - 1])
  {
    if text != [] && IsSpace(text[|text| - 1]) then RStrip(text[..|text| - 1]) else text
  }

  /** `text` with whitespace removed at both ends: Python's `strip`. */
  function Strip(text: string): (r: string)
    ensures r != [] ==> !IsSpace(r[0]) && !IsSpace(r[|r| - 1])
  {
    RStrip(text[SkipSpace(text, 0)..])
  }

  /** `word` stands in `text` at `pos`. */
  ghost predicate At(text: string, pos: nat, word: string) {
    pos + |word| <= |text| && forall k :: 0 <= k < |word| ==> text[pos + k] == word[k]
  }

  lemma AtSlice(text: string, pos: nat, word: string)
    requires At(text, pos, word)
    ensures text[pos..pos + |word|] == word
  {
  }

  lemma AtSplit(text: string, pos: nat, a: string, b: string)
    requires At(text, pos, a + b)
    ensures At(text, pos, a) && At(text, pos + |a|, b)
  {
    forall k | 0 <= k < |a| ensures text[pos + k] == a[k] {
      assert (a + b)[k] == a[k];
    }
    forall k | 0 <= k < |b| ensures text[pos + |a| + k] == b[k] {
      assert (a + b)[|a| + k] == b[k];
    }
  }

  lemma AtSplit3(text: string, pos: nat, a: string, b: string, c: string)
    requires At(text, pos, a + b + c)
    ensures At(text, pos, a) && At(text, pos + |a|, b) && At(text, pos + |a| + |b|, c)
  {
    AtSplit(text, pos, a + b, c);
    AtSplit(text, pos, a, b);
  }

  lemma AtSplit4(text: string, pos: nat, a: string, b: string, c: string, d: string)
    requires At(text, pos, a + b + c + d)
    ensures At(text, pos, a) && At(text, pos + |a|, b) && At(text, pos + |a| + |b|, c)
    ensures At(text, pos + |a| + |b| + |c|, d)
  {
    AtSplit(text, pos, a + b + c, d);
    AtSplit3(text, pos, a, b, c);
  }

  lemma {:induction false} SkipSpaceRun(text: string, pos: nat, end: nat)
    requires pos <= end <= |text|
    requires forall i :: pos <= i < end ==> IsSpace(text[i])
    requires end == |text| || !IsSpace(text[end])
    ensures SkipSpace(text, pos) == end
    decreases end - pos
  {
    if pos < end {
      SkipSpaceRun(text, pos + 1, end);
    }
  }

  /** A text that is a core between whitespace runs strips to the core. */
  lemma StripsTo(pre: string, core: string, post: string)
    requires AllSpace(pre) && AllSpace(post)
    requires core != [] && !IsSpace(core[0]) && !IsSpace(core[|core| - 1])
    ensures Strip(pre + core + post) == core
  {
    var t := pre + core + post;
    assert t[|pre|] == core[0];
    SkipSpaceRun(t, 0, |pre|);
    assert t[|pre|..] == core + post;
    RStripsTo(core, post);
  }

  lemma {:induction false} RStripsTo(core: string, post: string)
    requires AllSpace(post)
    requires core != [] ==> !IsSpace(core[|core| - 1])
    ensures RStrip(core + post) == core
  {
    if post == [] {
      assert core + post == core;
    } else {
      var shorter := post[..|post| - 1];
      assert (core + post)[..|core + post| - 1] == core + shorter;
      RStripsTo(core, shorter);
    }
  }

  // ---------- Decimal numerals ----------

  function Digit(d: nat): char
    requires d < 10
  {
    "0123456789"[d]
  }

  function Decimal(n: nat): (s: string)
    ensures s != []
    ensures forall i :: 0 <= i < |s| ==> '0' <= s[i] <= '9'
  {
    if n < 10 then [Digit(n)] else Decimal(n / 10) + [Digit(n % 10)]
  }

  lemma {:induction false} DecimalInjective(a: nat, b: nat)
    requires Decimal(a) == Decimal(b)
    ensures a == b
    decreases a
  {
    var s, t := Decimal(a), Decimal(b);
    assert s[|s| - 1] == t[|t| - 1];
    if a >= 10 && b >= 10 {
      assert s[..|s| - 1] == Decimal(a / 10) && t[..|t| - 1] == Decimal(b / 10);
      DecimalInjective(a / 10, b / 10);
    }
  }

  predicate IsDigit(c: char) {
    '0' <= c <= '9'
  }

  predicate AllDigits(s: string) {
    forall i :: 0 <= i < |s| ==> IsDigit(s[i])
  }

  /** Python's `int` of a string of digits. */
  function Number(s: string): nat
    requires AllDigits(s)
  {
    if s == [] then 0 else 10 * Number(s[..|s| - 1]) + (s[|s| - 1] - '0') as nat
  }

  lemma NumberOfDigit(d: nat)
    requires d < 10
    ensures IsDigit(Digit(d)) && (Digit(d) - '0') as nat == d && Number([Digit(d)]) == d
  {
    assert [Digit(d)][..0] == [];
  }

  lemma {:induction false} NumberOfDecimal(n: nat)
    ensures Number(Decimal(n)) == n
    decreases n
  {
    hide Digit;
    var s := Decimal(n);
    NumberOfDigit(n % 10);
    if n >= 10 {
      assert s[..|s| - 1] == Decimal(n / 10) && s[|s| - 1] == Digit(n % 10);
      NumberOfDecimal(n / 10);
    }
  }

  // ---------- Splitting ----------

  /** Python's `str.split` at one character. */
  function Split(s: string, c: char): (parts: seq<string>)
    ensures |parts| > 0
  {
    if s == [] then [""]
    else
      var rest := Split(s[1..], c);
      if s[0] == c then [""] + rest else [[s[0]] + rest[0]] + rest[1..]
  }
}
