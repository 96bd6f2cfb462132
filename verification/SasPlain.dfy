/** The listing round trip with its fields spelled out by their characters. */
module SasPlain {
  import opened Chars
  import opened Fingerprints
  import opened SasParser
  import opened SasRoundTrip
  import opened Options

  predicate IsToken(s: string) {
    s != [] && forall i :: 0 <= i < |s| ==> IsPlain(s[i])
  }

  predicate IsDigits(s: string) {
    s != [] && forall i :: 0 <= i < |s| ==> '0' <= s[i] <= '9'
  }

  predicate IsLowerHex(s: string) {
    s != [] && forall i :: 0 <= i < |s| ==> '0' <= s[i] <= '9' || 'a' <= s[i] <= 'f'
  }

  /** Four runs of digits with dots between them. */
  ghost predicate IsDotted(s: string) {
    exists a, b, c, d ::
      && IsDigits(a) && IsDigits(b) && IsDigits(c) && IsDigits(d)
      && s == a + ['.'] + (b + ['.'] + (c + ['.'] + d))
  }

  /** Upper-case letters, digits, `_` and `-`, with at least one slash. */
  predicate IsProposal(s: string) {
    && (forall i :: 0 <= i < |s| ==> 'A' <= s[i] <= 'Z' || '0' <= s[i] <= '9' || s[i] == '_' || s[i] == '-' || s[i] == '/')
    && exists i :: 0 <= i < |s| && s[i] == '/'
  }

  /** The line has no quote and does not hold the word `established`. */
  predicate IsPlainLine(line: string) {
    '\'' !in line && forall i :: 0 <= i <= |line| ==> !("established" <= line[i..])
  }

  const CHILD_WORDS := ["installed", "local", "remote"]

  /** One of a child's other lines: its age or a traffic selector. */
  ghost predicate IsChildText(line: string) {
    IsPlainLine(line)
    && exists k, more :: 0 <= k < |CHILD_WORDS| && line == "      " + (CHILD_WORDS[k] + (" " + more))
  }

  ghost predicate PlainShown(x: Shown) {
    && IsToken(x.conn) && IsToken(x.state) && IsToken(x.version)
    && IsLowerHex(x.spiI) && IsLowerHex(x.spiR)
    && IsToken(x.localId) && IsToken(x.localIp) && IsToken(x.remoteId) && IsToken(x.remoteIp)
    && (x.eap.Some? ==> x.eap.value == "" || IsToken(x.eap.value))
    && (x.vip.Some? ==> IsDotted(x.vip.value))
    && IsProposal(x.algo)
    && '\'' !in x.timers
    && IsPlainLine(ChildLine(x))
    && IsLowerHex(x.inbound.spi) && IsPlainLine(FlowLine("in", x.inbound))
    && IsLowerHex(x.outbound.spi) && IsPlainLine(FlowLine("out", x.outbound))
    && (forall i :: 0 <= i < |x.early| ==> IsChildText(x.early[i]))
    && (forall i :: 0 <= i < |x.late| ==> IsChildText(x.late[i]))
  }

  lemma TokenIsHost(s: string)
    requires IsToken(s)
    ensures Host(s) && Named(s) && Word(s)
  {
    hide IsSpace;
    forall i | 0 <= i < |s| ensures !IsSpace(s[i]) && s[i] != '\'' && s[i] != '[' {
      PlainIsNoSpace(s[i]);
    }
  }

  lemma LowerHexIsHex(s: string)
    requires IsLowerHex(s)
    ensures s != [] && IsHex(s)
  {
  }

  lemma {:induction false} SplitOver(a: string, rest: string)
    requires '.' !in a
    ensures Split(a + ['.'] + rest, '.') == [a] + Split(rest, '.')
  {
    var t := a + ['.'] + rest;
    if a == [] {
      assert t == ['.'] + rest && t[1..] == rest;
    } else {
      assert t[1..] == a[1..] + ['.'] + rest;
      SplitOver(a[1..], rest);
      assert [a[0]] + a[1..] == a;
    }
  }

  lemma {:induction false} SplitNone(a: string)
    requires '.' !in a
    ensures Split(a, '.') == [a]
  {
    if a != [] {
      SplitNone(a[1..]);
      assert [a[0]] + a[1..] == a;
    }
  }

  lemma DottedIsQuad(s: string)
    requires IsDotted(s)
    ensures IsQuad(s)
  {
    hide Split;
    var a, b, c, d :| IsDigits(a) && IsDigits(b) && IsDigits(c) && IsDigits(d)
      && s == a + ['.'] + (b + ['.'] + (c + ['.'] + d));
    SplitOver(a, b + ['.'] + (c + ['.'] + d));
    SplitOver(b, c + ['.'] + d);
    SplitOver(c, d);
    SplitNone(d);
    assert Split(s, '.') == [a, b, c, d];
  }

  lemma ProposalIsAlgorithm(s: string)
    requires IsProposal(s)
    ensures IsAlgorithm(s) && NoSpace(s) && NoQuote(s)
  {
    hide IsSpace;
    forall i | 0 <= i < |s| ensures !IsSpace(s[i]) && s[i] != '\'' && s[i] != ' ' {
      ProposalCharIsNoSpace(s[i]);
    }
    forall k | 0 <= k < |LABELS| ensures !(LABELS[k] <= s) {
      assert 'a' <= LABELS[k][0] <= 'z';
    }
  }

  lemma ProposalCharIsNoSpace(c: char)
    requires 'A' <= c <= 'Z' || '0' <= c <= '9' || c == '_' || c == '-' || c == '/'
    ensures !IsSpace(c)
  {
  }

  lemma {:induction false} NotEstablished(line: string)
    requires forall i :: 0 <= i <= |line| ==> !("established" <= line[i..])
    ensures EstablishedOf(line).None?
  {
    assert line[0..] == line;
    if line != [] {
      forall i | 0 <= i <= |line[1..]| ensures !("established" <= line[1..][i..]) {
        assert line[1..][i..] == line[i + 1..];
      }
      NotEstablished(line[1..]);
    }
  }

  lemma PlainLineIsQuiet(line: string)
    requires IsPlainLine(line)
    ensures Quiet(line)
  {
    NotEstablished(line);
  }

  lemma ChildWordIsWord(k: nat)
    requires k < |CHILD_WORDS|
    ensures var w := CHILD_WORDS[k];
      Word(w) && !("net:" <= w) && |w| >= 4 && w != "in" && w != "out"
  {
    assert CHILD_WORDS[0][0] == 'i' && CHILD_WORDS[1][0] == 'l' && CHILD_WORDS[2][0] == 'r';
  }

  lemma PadIsSpace()
    ensures AllSpace("      ") && IsSpace(' ')
  {
  }

  lemma FirstWordIs(line: string, w: string, more: string)
    requires Word(w) && line == "      " + (w + (" " + more))
    ensures Words(line) != [] && Words(line)[0] == w && line[0] == ' ' && w <= Strip(line)
  {
    hide IsSpace, Strip;
    PadIsSpace();
    var rest := w + (" " + more);
    DropsSpace("      ", rest);
    WordRunOver(w, " " + more);
    assert rest[..|w|] == w;
    StripStarts("      ", w, " " + more);
  }

  lemma ChildTextIsIdle(line: string)
    requires IsChildText(line)
    ensures Idle(line)
  {
    hide Words, Strip, IsSpace, EstablishedOf, Word;
    var k, more :| 0 <= k < |CHILD_WORDS| && line == "      " + (CHILD_WORDS[k] + (" " + more));
    var w := CHILD_WORDS[k];
    PlainLineIsQuiet(line);
    ChildWordIsWord(k);
    FirstWordIs(line, w, more);
    PadIsSpace();
    NoNet(w, Strip(line));
  }

  lemma NoNet(w: string, s: string)
    requires w <= s && |w| >= 4 && !("net:" <= w)
    ensures !("net:" <= s)
  {
    assert w[0] == s[0] && w[1] == s[1] && w[2] == s[2] && w[3] == s[3];
    assert exists i :: 0 <= i < 4 && w[i] != "net:"[i];
  }

  lemma PlainIsValid(x: Shown)
    requires PlainShown(x)
    ensures Valid(x)
  {
    hide IsToken, Host, Named, Word, IsLowerHex, IsHex, IsDotted, IsQuad, IsProposal, IsAlgorithm, NoSpace, NoQuote;
    hide IsPlainLine, Quiet, IsChildText, Idle, ChildLine, FlowLine;
    TokenIsHost(x.conn);
    TokenIsHost(x.state);
    TokenIsHost(x.version);
    TokenIsHost(x.localId);
    TokenIsHost(x.localIp);
    TokenIsHost(x.remoteId);
    TokenIsHost(x.remoteIp);
    NamedIsUnquoted(x.localId);
    NothingIsNamed();
    Unquoted(x.timers);
    LowerHexIsHex(x.spiI);
    LowerHexIsHex(x.spiR);
    LowerHexIsHex(x.inbound.spi);
    LowerHexIsHex(x.outbound.spi);
    ProposalIsAlgorithm(x.algo);
    PlainLineIsQuiet(ChildLine(x));
    PlainLineIsQuiet(FlowLine("in", x.inbound));
    PlainLineIsQuiet(FlowLine("out", x.outbound));
    if x.eap.Some? && x.eap.value != "" {
      TokenIsHost(x.eap.value);
    }
    if x.vip.Some? {
      DottedIsQuad(x.vip.value);
    }
    forall i | 0 <= i < |x.early| ensures Idle(x.early[i]) {
      ChildTextIsIdle(x.early[i]);
    }
    forall i | 0 <= i < |x.late| ensures Idle(x.late[i]) {
      ChildTextIsIdle(x.late[i]);
    }
  }

  lemma NamedIsUnquoted(s: string)
    requires Named(s)
    ensures NoQuote(s)
  {
  }

  lemma NothingIsNamed()
    ensures Named("")
  {
  }

  lemma Unquoted(s: string)
    requires '\'' !in s
    ensures NoQuote(s)
  {
  }

  /**
   A rendered listing whose fields are tokens of letters, digits, `_`, `.` and `-`, whose
   addresses are dotted quads and whose proposals are upper-case names with slashes, with
   ages and traffic selectors as the children's other lines, parses back to exactly what was shown.
   */
  lemma PlainListingReadsBack(xs: seq<Shown>)
    requires forall i :: 0 <= i < |xs| ==> PlainShown(xs[i])
    ensures Parsed(Listing(xs)) == seq(|xs|, i requires 0 <= i < |xs| => Meant(xs[i]))
  {
    hide PlainShown, Valid, Listing, Parsed, Meant;
    forall i | 0 <= i < |xs| ensures Valid(xs[i]) {
      PlainIsValid(xs[i]);
    }
    ListingReadsBack(xs);
  }
}
