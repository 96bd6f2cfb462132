/** A rendered list of SAs with one child each parses back to exactly those SAs. */
module SasRoundTrip {
  import opened Chars
  import opened Fingerprints
  import opened SasParser
  import opened Options

  // ---------- Rendering ----------

  /** One direction of a child's traffic, with what charon prints after the packet count. */
  datatype Flow = Flow(spi: string, bytes: nat, packets: nat, tail: string)

  /** What `swanctl --list-sas` shows of an SA with one child. `timers` follows the
      age; `early` and `late` are the child's other lines before and after its traffic. */
  datatype Shown = Shown(
    id: nat, conn: string, state: string, version: string, spiI: string, spiR: string,
    localId: string, localIp: string, localPort: nat,
    remoteId: string, remoteIp: string, remotePort: nat, eap: Option<string>, vip: Option<string>,
    algo: string, age: nat, timers: string,
    child: string, early: seq<string>, inbound: Flow, outbound: Flow, late: seq<string>)

  /** Words with a blank after each, then the rest. */
  function Spaced(words: seq<string>, rest: string): string {
    if words == [] then rest else words[0] + (" " + Spaced(words[1..], rest))
  }

  function HeaderWords(x: Shown): seq<string> {
    [x.conn + ":", "#" + Decimal(x.id) + ",", x.state + ",", x.version + ",", x.spiI + "_i"]
  }

  function HeaderLine(x: Shown): string {
    Spaced(HeaderWords(x), x.spiR + "_r*")
  }

  function PeerText(id: string, ip: string, port: nat, rest: string): string {
    "'" + (id + "'" + (" " + ("@" + (" " + (ip + ("[" + (Decimal(port) + ("]" + rest))))))))
  }

  function LocalLine(x: Shown): string {
    "  " + ("local" + ("  " + PeerText(x.localId, x.localIp, x.localPort, "")))
  }

  function EapText(eap: Option<string>, rest: string): string {
    if eap.None? then rest else " " + ("EAP:" + (" " + ("'" + (eap.value + "'" + rest))))
  }

  function VipText(vip: Option<string>): string {
    if vip.None? then "" else " " + ("[" + (vip.value + "]"))
  }

  function RemoteLine(x: Shown): string {
    "  " + ("remote" + (" " + PeerText(x.remoteId, x.remoteIp, x.remotePort, EapText(x.eap, VipText(x.vip)))))
  }

  function AgeLine(x: Shown): string {
    "  " + ("established" + (" " + (Decimal(x.age) + ("s" + x.timers))))
  }

  function ChildLine(x: Shown): string {
    "  " + ("net:" + x.child)
  }

  function FlowWords(f: Flow): seq<string> {
    [f.spi + ",", Decimal(f.bytes), "bytes,", Decimal(f.packets)]
  }

  function FlowLine(direction: string, f: Flow): string {
    "    " + (direction + ("  " + Spaced(FlowWords(f), "packets" + f.tail)))
  }

  function Lines(x: Shown): seq<string> {
    [HeaderLine(x), LocalLine(x), RemoteLine(x), "  " + x.algo, AgeLine(x), ChildLine(x)]
      + (x.early + ([FlowLine("in", x.inbound), FlowLine("out", x.outbound)] + x.late))
  }

  function Listing(xs: seq<Shown>): seq<string> {
    if xs == [] then [] else Lines(xs[0]) + Listing(xs[1..])
  }

  // ---------- What is assumed of the fields ----------

  predicate NoQuote(s: string) {
    '\'' !in s
  }

  predicate NoSpace(s: string) {
    forall i :: 0 <= i < |s| ==> !IsSpace(s[i])
  }

  predicate Word(s: string) {
    s != [] && NoSpace(s)
  }

  predicate Host(s: string) {
    Word(s) && NoQuote(s) && '[' !in s
  }

  /** An identity: no quotes and no blanks at its end. */
  predicate Named(s: string) {
    NoQuote(s) && (s != [] ==> !IsSpace(s[|s| - 1]))
  }

  /** A line that says nothing of peers or age. */
  predicate Quiet(line: string) {
    NoQuote(line) && EstablishedOf(line).None?
  }

  /** An indented line that nothing reads. */
  predicate Idle(line: string) {
    Quiet(line) && line != [] && IsSpace(line[0]) && !IsChild(line) && TrafficOf(line).None?
  }

  predicate Valid(x: Shown) {
    && Word(x.conn) && Word(x.state) && Word(x.version)
    && x.spiI != [] && IsHex(x.spiI) && x.spiR != [] && IsHex(x.spiR)
    && NoQuote(x.localId) && Host(x.localIp)
    && Named(x.remoteId) && Host(x.remoteIp)
    && (x.eap.Some? ==> Named(x.eap.value)) && (x.vip.Some? ==> IsQuad(x.vip.value))
    && IsAlgorithm(x.algo) && NoSpace(x.algo) && NoQuote(x.algo)
    && NoQuote(x.timers)
    && Quiet(ChildLine(x))
    && x.inbound.spi != [] && IsHex(x.inbound.spi) && Quiet(FlowLine("in", x.inbound))
    && x.outbound.spi != [] && IsHex(x.outbound.spi) && Quiet(FlowLine("out", x.outbound))
    && (forall i :: 0 <= i < |x.early| ==> Idle(x.early[i]))
    && (forall i :: 0 <= i < |x.late| ==> Idle(x.late[i]))
  }

  /** The SA a reader should get: the EAP identity, when there is one, is shown as the remote one. */
  function Meant(x: Shown): Sa {
    Sa(x.id, x.conn, x.state, x.version, Some(x.localId), Some(x.localIp), Some(x.localPort),
       Some(if x.eap.Some? && x.eap.value != "" then x.eap.value else x.remoteId), x.eap,
       Some(x.remoteIp), Some(x.remotePort), x.vip, Some(x.algo), Some(DeviceOf(x.algo)), Some(x.age),
       x.inbound.bytes, x.outbound.bytes, x.inbound.packets, x.outbound.packets)
  }

  // ---------- Matching printed pieces ----------

  lemma {:induction false} DropsSpace(pre: string, s: string)
    requires AllSpace(pre) && (s == [] || !IsSpace(s[0]))
    ensures DropSpace(pre + s) == s
  {
    if pre == [] {
      assert pre + s == s;
    } else {
      assert (pre + s)[1..] == pre[1..] + s;
      DropsSpace(pre[1..], s);
    }
  }

  lemma GapOver(pre: string, s: string)
    requires pre != [] && AllSpace(pre) && (s == [] || !IsSpace(s[0]))
    ensures Gap(pre + s) == Some(s)
  {
    DropsSpace(pre, s);
  }

  lemma LitOver(word: string, s: string)
    ensures Lit(word, word + s) == Some(s)
  {
    assert (word + s)[|word|..] == s;
  }

  lemma {:induction false} ToQuoteOver(id: string, rest: string)
    requires NoQuote(id)
    ensures ToQuote(id + "'" + rest) == Some((id, rest))
  {
    var t := id + "'" + rest;
    if id == [] {
      assert t[0] == '\'' && t[1..] == rest;
    } else {
      assert t[1..] == id[1..] + "'" + rest;
      ToQuoteOver(id[1..], rest);
      assert id == [id[0]] + id[1..];
    }
  }

  lemma {:induction false} DigitRunOver(d: string, rest: string)
    requires AllDigits(d) && (rest == [] || !IsDigit(rest[0]))
    ensures DigitRun(d + rest) == |d|
  {
    if d == [] {
      assert d + rest == rest;
    } else {
      assert (d + rest)[1..] == d[1..] + rest;
      DigitRunOver(d[1..], rest);
    }
  }

  lemma DigitsOver(n: nat, rest: string)
    requires rest == [] || !IsDigit(rest[0])
    ensures Digits(Decimal(n) + rest) == Some((n, rest))
  {
    hide Decimal, Number;
    var d := Decimal(n);
    DigitRunOver(d, rest);
    NumberOfDecimal(n);
    assert (d + rest)[..|d|] == d && (d + rest)[|d|..] == rest;
  }

  lemma PortOver(port: nat, rest: string)
    ensures Port("[" + (Decimal(port) + ("]" + rest))) == Some((port, rest))
  {
    hide Digits, Decimal;
    var t := "[" + (Decimal(port) + ("]" + rest));
    assert t[0] == '[' && t[1..] == Decimal(port) + ("]" + rest);
    DigitsOver(port, "]" + rest);
    assert ("]" + rest)[1..] == rest;
  }

  lemma {:induction false} AddressOver(ip: string, host: string, port: nat, rest: string)
    requires NoSpace(host) && '[' !in host && ip + host != []
    ensures AddressFrom(ip, host + ("[" + (Decimal(port) + ("]" + rest)))) == Some(Address(ip + host, port, rest))
    decreases |host|
  {
    hide Decimal;
    var tail := "[" + (Decimal(port) + ("]" + rest));
    var t := host + tail;
    if host == [] {
      assert t == tail && ip + host == ip;
      PortOver(port, rest);
    } else {
      assert t[0] == host[0] && t[1..] == host[1..] + tail;
      AddressOver(ip + [host[0]], host[1..], port, rest);
      assert ip + [host[0]] + host[1..] == ip + host;
    }
  }

  /** A printed peer is read where it stands. */
  lemma PeerReads(side: string, gap: string, id: string, ip: string, port: nat, rest: string)
    requires gap != [] && AllSpace(gap) && NoQuote(id) && Host(ip)
    ensures PeerHere(side, side + (gap + PeerText(id, ip, port, rest))) == Some(Peer(id, ip, port, rest))
  {
    hide Gap, ToQuote, AddressFrom, Decimal, Lit;
    var address := ip + ("[" + (Decimal(port) + ("]" + rest)));
    var text := PeerText(id, ip, port, rest);
    LitOver(side, gap + text);
    GapOver(gap, text);
    var at := "@" + (" " + address);
    assert text[0] == '\'' && text[1..] == id + "'" + (" " + at);
    ToQuoteOver(id, " " + at);
    GapOver(" ", at);
    assert at[0] == '@' && at[1..] == " " + address;
    assert address[0] == ip[0];
    GapOver(" ", address);
    AddressOver("", ip, port, rest);
    assert "" + ip == ip;
  }

  /** Indentation does not matter to a search. */
  lemma {:induction false} SearchSkips(pre: string, side: string, s: string)
    requires AllSpace(pre) && side != [] && !IsSpace(side[0]) && s != []
    ensures PeerOf(side, pre + s) == PeerOf(side, s)
  {
    if pre == [] {
      assert pre + s == s;
    } else {
      assert (pre + s)[1..] == pre[1..] + s;
      assert !(side <= pre + s);
      SearchSkips(pre[1..], side, s);
    }
  }

  lemma {:induction false} NoQuoteNoPeer(side: string, s: string)
    requires NoQuote(s)
    ensures PeerOf(side, s).None?
  {
    QuoteNeeded(side, s);
    if s != [] {
      NoQuoteNoPeer(side, s[1..]);
    }
  }

  lemma {:induction false} DropKeeps(s: string, c: char)
    ensures c in DropSpace(s) ==> c in s
  {
    if s != [] && IsSpace(s[0]) {
      DropKeeps(s[1..], c);
    }
  }

  lemma QuoteNeeded(side: string, s: string)
    requires NoQuote(s)
    ensures PeerHere(side, s).None?
  {
    hide ToQuote, AddressFrom, DropSpace;
    if side <= s {
      DropKeeps(s[|side|..], '\'');
    }
  }

  // ---------- No local peer in a remote line ----------

  /** A blank and then a quote come next. */
  predicate QuoteAfterGap(s: string) {
    s != [] && IsSpace(s[0]) && DropSpace(s) != [] && DropSpace(s)[0] == '\''
  }

  /** Nowhere do a blank and then a quote follow the letter that ends `local`. */
  predicate Shut(s: string) {
    s == [] || ((s[0] == 'l' ==> !QuoteAfterGap(s[1..])) && Shut(s[1..]))
  }

  lemma {:induction false} ShutAt(s: string, i: nat)
    requires Shut(s) && i < |s| && s[i] == 'l'
    ensures !QuoteAfterGap(s[i + 1..])
  {
    if i > 0 {
      ShutAt(s[1..], i - 1);
      assert s[1..][i..] == s[i + 1..];
    }
  }

  lemma ShutNoPeerHere(s: string)
    requires Shut(s)
    ensures PeerHere("local", s).None?
  {
    hide ToQuote, AddressFrom, DropSpace, Shut;
    if "local" <= s {
      assert s[4] == "local"[4];
      ShutAt(s, 4);
    }
  }

  lemma {:induction false} ShutNoPeer(s: string)
    requires Shut(s)
    ensures PeerOf("local", s).None?
  {
    ShutNoPeerHere(s);
    if s != [] {
      ShutNoPeer(s[1..]);
    }
  }

  lemma {:induction false} PieceHasNoGapQuote(piece: string, rest: string)
    requires NoQuote(piece) && piece != [] && !IsSpace(piece[|piece| - 1])
    ensures !QuoteAfterGap(piece + rest)
    decreases |piece|
  {
    var t := piece + rest;
    if IsSpace(piece[0]) {
      assert t[1..] == piece[1..] + rest && t[1..][0] == piece[1];
      assert piece[1] in piece;
      PieceHasNoGapQuote(piece[1..], rest);
      assert DropSpace(t) == DropSpace(t[1..]);
    }
  }

  lemma {:induction false} ShutPiece(piece: string, rest: string)
    requires NoQuote(piece) && Shut(rest)
    requires piece != [] ==> !IsSpace(piece[|piece| - 1]) && (piece[|piece| - 1] == 'l' ==> !QuoteAfterGap(rest))
    ensures Shut(piece + rest)
    decreases |piece|
  {
    hide QuoteAfterGap;
    if piece == [] {
      assert piece + rest == rest;
    } else {
      var more := piece[1..];
      assert (piece + rest)[1..] == more + rest;
      ShutPiece(more, rest);
      if more == [] {
        assert more + rest == rest;
      } else {
        PieceHasNoGapQuote(more, rest);
      }
    }
  }

  lemma ShutChar(c: string, rest: string)
    requires |c| == 1 && c[0] != 'l' && Shut(rest)
    ensures Shut(c + rest)
  {
    assert (c + rest)[1..] == rest;
  }

  /** A name in quotes, after a gap. */
  lemma ShutNamed(id: string, rest: string)
    requires Named(id) && Shut(rest)
    ensures Shut(" " + ("'" + (id + ("'" + rest))))
  {
    hide Shut;
    ShutChar("'", rest);
    assert !QuoteAfterGap("'" + rest);
    ShutPiece(id, "'" + rest);
    ShutChar("'", id + ("'" + rest));
    ShutChar(" ", "'" + (id + ("'" + rest)));
  }

  lemma ShutVip(vip: Option<string>)
    requires vip.Some? ==> IsQuad(vip.value)
    ensures Shut(VipText(vip))
  {
    hide Shut, IsQuad;
    var nothing := "";
    assert Shut(nothing) by { ShutEmpty(); }
    if vip.Some? {
      var piece := VipText(vip);
      QuadChars(vip.value);
      assert piece == " [" + vip.value + "]";
      ShutPiece(piece, nothing);
      assert piece + nothing == piece;
    }
  }

  lemma ShutEmpty()
    ensures Shut("")
  {
  }

  lemma {:induction false} SplitChars(s: string)
    requires forall i :: 0 <= i < |Split(s, '.')| ==> AllDigits(Split(s, '.')[i])
    ensures forall i :: 0 <= i < |s| ==> IsDigit(s[i]) || s[i] == '.'
  {
    if s != [] {
      var parts, rest := Split(s, '.'), Split(s[1..], '.');
      if s[0] == '.' {
        assert rest == parts[1..];
      } else {
        assert parts[0] == [s[0]] + rest[0] && parts[1..] == rest[1..];
        assert parts[0][0] == s[0] && parts[0][1..] == rest[0];
        forall i | 0 <= i < |rest| ensures AllDigits(rest[i]) {
          if i == 0 {
            assert forall k :: 0 <= k < |rest[0]| ==> rest[0][k] == parts[0][k + 1];
          } else {
            assert rest[i] == rest[1..][i - 1] == parts[1..][i - 1] == parts[i];
          }
        }
      }
      SplitChars(s[1..]);
    }
  }

  lemma QuadChars(s: string)
    requires IsQuad(s)
    ensures forall i :: 0 <= i < |s| ==> IsDigit(s[i]) || s[i] == '.'
    ensures NoQuote(s)
  {
    SplitChars(s);
  }

  /** Where a peer is, in one piece. */
  function Place(ip: string, port: nat): string {
    " @ " + ip + "[" + Decimal(port) + "]"
  }

  lemma PlaceText(ip: string, port: nat, rest: string)
    ensures " " + ("@" + (" " + (ip + ("[" + (Decimal(port) + ("]" + rest)))))) == Place(ip, port) + rest
  {
    hide Decimal;
  }

  lemma Glue(a: string, b: string, c: string)
    ensures a + (b + c) == (a + b) + c
  {
  }

  lemma ShutEap(eap: Option<string>, rest: string)
    requires Shut(rest) && (eap.Some? ==> Named(eap.value))
    ensures Shut(EapText(eap, rest))
  {
    hide Shut, QuoteAfterGap;
    if eap.Some? {
      ShutNamed(eap.value, rest);
      var name := " " + ("'" + (eap.value + ("'" + rest)));
      ShutPiece(" EAP:", name);
      Glue(" ", "EAP:", name);
      Glue(eap.value, "'", rest);
      assert " " + "EAP:" == " EAP:";
    }
  }

  lemma ShutPeer(id: string, ip: string, port: nat, rest: string)
    requires Named(id) && Host(ip) && Shut(rest)
    ensures Shut(" " + PeerText(id, ip, port, rest))
  {
    hide Shut, QuoteAfterGap, Decimal;
    var place := Place(ip, port);
    assert NoQuote(Decimal(port));
    ShutPiece(place, rest);
    ShutNamed(id, place + rest);
    PlaceText(ip, port, rest);
    Glue(id, "'", place + rest);
  }

  lemma ShutRemote(x: Shown)
    requires Named(x.remoteId) && Host(x.remoteIp)
    requires (x.eap.Some? ==> Named(x.eap.value)) && (x.vip.Some? ==> IsQuad(x.vip.value))
    ensures Shut(RemoteLine(x))
  {
    hide Shut, IsQuad, QuoteAfterGap, PeerText, EapText, VipText;
    ShutVip(x.vip);
    var eap := EapText(x.eap, VipText(x.vip));
    ShutEap(x.eap, VipText(x.vip));
    ShutPeer(x.remoteId, x.remoteIp, x.remotePort, eap);
    var rest := " " + PeerText(x.remoteId, x.remoteIp, x.remotePort, eap);
    ShutPiece("  remote", rest);
    Glue("  ", "remote", rest);
    assert "  " + "remote" == "  remote";
  }

  // ---------- Words ----------

  lemma {:induction false} WordRunOver(w: string, rest: string)
    requires NoSpace(w) && (rest == [] || IsSpace(rest[0]))
    ensures WordRun(w + rest) == |w|
  {
    if w == [] {
      assert w + rest == rest;
    } else {
      assert (w + rest)[1..] == w[1..] + rest;
      WordRunOver(w[1..], rest);
    }
  }

  lemma WordsOver(w: string, rest: string)
    requires Word(w) && (rest == [] || IsSpace(rest[0]))
    ensures Words(w + rest) == [w] + Words(rest)
  {
    var t := w + rest;
    WordRunOver(w, rest);
    assert t[0] == w[0] && DropSpace(t) == t;
    assert t[..|w|] == w && t[|w|..] == rest;
  }

  lemma WordsAfterGap(gap: string, s: string)
    requires AllSpace(gap)
    ensures Words(gap + s) == Words(s)
  {
    DropsGap(gap, s);
  }

  lemma {:induction false} DropsGap(gap: string, s: string)
    requires AllSpace(gap)
    ensures DropSpace(gap + s) == DropSpace(s)
  {
    if gap == [] {
      assert gap + s == s;
    } else {
      assert (gap + s)[1..] == gap[1..] + s;
      DropsGap(gap[1..], s);
    }
  }

  lemma {:induction false} WordsOfSpaced(words: seq<string>, rest: string)
    requires forall i :: 0 <= i < |words| ==> Word(words[i])
    ensures Words(Spaced(words, rest)) == words + Words(rest)
  {
    hide Words, Word;
    if words == [] {
      assert words + Words(rest) == Words(rest);
    } else {
      var more := Spaced(words[1..], rest);
      WordsOver(words[0], " " + more);
      WordsAfterGap(" ", more);
      WordsOfSpaced(words[1..], rest);
      assert [words[0]] + (words[1..] + Words(rest)) == words + Words(rest);
    }
  }

  /** A word that is followed by anything is a prefix of the first word read. */
  lemma FirstWord(w: string, tail: string)
    requires Word(w)
    ensures Words(w + tail) != [] && w <= Words(w + tail)[0]
  {
    var t := w + tail;
    assert t[0] == w[0] && DropSpace(t) == t;
    RunCovers(w, tail);
    assert t[..WordRun(t)][..|w|] == w;
  }

  lemma {:induction false} RunCovers(w: string, tail: string)
    requires NoSpace(w)
    ensures WordRun(w + tail) >= |w|
  {
    if w != [] {
      assert (w + tail)[1..] == w[1..] + tail;
      RunCovers(w[1..], tail);
    }
  }

  lemma DecimalIsWord(n: nat)
    ensures Word(Decimal(n)) && AllDigits(Decimal(n)) && Number(Decimal(n)) == n && NoQuote(Decimal(n))
  {
    NumberOfDecimal(n);
  }

  lemma HexIsWord(s: string)
    requires s != [] && IsHex(s)
    ensures Word(s)
  {
  }

  lemma Suffixed(w: string, mark: string)
    requires Word(w) && NoSpace(mark)
    ensures Word(w + mark) && EndsWith(w + mark, mark) && (w + mark)[..|w + mark| - |mark|] == w
  {
  }

  // ---------- Line by line ----------

  lemma HeaderReads(x: Shown)
    requires Valid(x)
    ensures IsHeader(HeaderLine(x))
    ensures NewSa(HeaderLine(x)) == Sa(x.id, x.conn, x.state, x.version,
      None, None, None, None, None, None, None, None, None, None, None, 0, 0, 0, 0)
  {
    hide Words, Decimal, Number;
    var last, words := x.spiR + "_r*", HeaderWords(x);
    DecimalIsWord(x.id);
    HexIsWord(x.spiI);
    HexIsWord(x.spiR);
    Suffixed(x.conn, ":");
    Suffixed("#" + Decimal(x.id), ",");
    Suffixed(x.state, ",");
    Suffixed(x.version, ",");
    Suffixed(x.spiI, "_i");
    Suffixed(x.spiR, "_r*");
    assert forall i :: 0 <= i < |words| ==> Word(words[i]);
    WordsOfSpaced(words, last);
    assert last + "" == last;
    WordsOver(last, "");
    WordsOfNothing();
    var w := Words(HeaderLine(x));
    assert w == words + [last];
    assert w[1][1..|w[1]| - 1] == Decimal(x.id);
    assert HeaderLine(x)[0] == x.conn[0];
  }

  lemma WordsOfNothing()
    ensures Words("") == []
  {
  }

  lemma IndentedIsNoHeader(line: string)
    requires line != [] && IsSpace(line[0])
    ensures !IsHeader(line)
  {
  }

  lemma LocalReads(sa: Sa, c: bool, x: Shown)
    requires NoQuote(x.localId) && Host(x.localIp)
    ensures Read(sa, c, LocalLine(x))
      == (sa.(localId := Some(x.localId), localIp := Some(x.localIp), localPort := Some(x.localPort)), c)
  {
    hide PeerHere, PeerText, IsAlgorithm, EstablishedOf, TrafficOf, IsChild;
    var t := "local" + ("  " + PeerText(x.localId, x.localIp, x.localPort, ""));
    PeerReads("local", "  ", x.localId, x.localIp, x.localPort, "");
    SearchSkips("  ", "local", t);
  }

  lemma EapReads(eap: Option<string>, rest: string)
    requires eap.Some? ==> NoQuote(eap.value)
    requires eap.None? ==> rest == [] || (|rest| > 1 && IsSpace(rest[0]) && rest[1] == '[')
    ensures EapOf(EapText(eap, rest)) == if eap.Some? then Some((eap.value, rest)) else None
  {
    if eap.Some? {
      hide Gap, ToQuote;
      var d := "'" + (eap.value + "'" + rest);
      var b := "EAP:" + (" " + d);
      GapOver(" ", b);
      assert b[..4] == "EAP:" && b[4..] == " " + d;
      GapOver(" ", d);
      assert d[0] == '\'' && d[1..] == eap.value + "'" + rest;
      ToQuoteOver(eap.value, rest);
    } else if rest != [] {
      assert DropSpace(rest) == rest[1..];
      assert rest[1..][0] == '[';
    }
  }

  lemma {:induction false} QuadRunOver(v: string, rest: string)
    requires forall i :: 0 <= i < |v| ==> IsDigit(v[i]) || v[i] == '.'
    requires rest != [] && rest[0] == ']'
    ensures QuadRun(v + rest) == |v|
  {
    if v == [] {
      assert v + rest == rest;
    } else {
      assert (v + rest)[1..] == v[1..] + rest;
      QuadRunOver(v[1..], rest);
    }
  }

  lemma VipReads(vip: Option<string>)
    requires vip.Some? ==> IsQuad(vip.value)
    ensures VipOf(VipText(vip)) == vip
  {
    hide Gap, IsQuad, QuadRun;
    if vip.Some? {
      var a := "[" + (vip.value + "]");
      GapOver(" ", a);
      assert a[0] == '[' && a[1..] == vip.value + "]";
      QuadChars(vip.value);
      QuadRunOver(vip.value, "]");
      assert (vip.value + "]")[..|vip.value|] == vip.value;
    } else {
      NoGap();
    }
  }

  lemma NoGap()
    ensures Gap("").None?
  {
  }

  lemma RemoteReads(sa: Sa, c: bool, x: Shown)
    requires Valid(x) && sa.vip.None?
    ensures Read(sa, c, RemoteLine(x)) == (sa.(
      remoteId := Some(if x.eap.Some? && x.eap.value != "" then x.eap.value else x.remoteId), eapId := x.eap,
      remoteIp := Some(x.remoteIp), remotePort := Some(x.remotePort), vip := x.vip), c)
  {
    hide PeerHere, PeerText, IsAlgorithm, EstablishedOf, TrafficOf, IsChild, EapOf, VipOf, EapText, IsQuad, Shut, Quiet;
    var rest := EapText(x.eap, VipText(x.vip));
    var t := "remote" + (" " + PeerText(x.remoteId, x.remoteIp, x.remotePort, rest));
    ShutRemote(x);
    ShutNoPeer(RemoteLine(x));
    PeerReads("remote", " ", x.remoteId, x.remoteIp, x.remotePort, rest);
    SearchSkips("  ", "remote", t);
    EapReads(x.eap, VipText(x.vip));
    VipReads(x.vip);
    if x.eap.None? {
      EapNone(x);
    }
  }

  lemma EapNone(x: Shown)
    requires x.eap.None?
    ensures EapText(x.eap, VipText(x.vip)) == VipText(x.vip)
  {
  }

  lemma AlgorithmReads(sa: Sa, x: Shown)
    requires Valid(x)
    ensures Read(sa, false, "  " + x.algo) == (WithAlgorithm(sa, x.algo), false)
  {
    hide WithAlgorithm, EstablishedOf, TrafficOf, IsChild, Quiet, IsQuad, Strip, IsAlgorithm;
    var line := "  " + x.algo;
    AlgorithmIsThere(x.algo);
    StripsTo("  ", x.algo, "");
    assert "  " + x.algo + "" == line;
    assert NoQuote(line);
    NoQuoteNoPeer("local", line);
    NoQuoteNoPeer("remote", line);
  }

  lemma AlgorithmIsThere(s: string)
    requires IsAlgorithm(s)
    ensures s != []
  {
  }

  /** A word after indentation starts the stripped line. */
  lemma StripStarts(pre: string, word: string, rest: string)
    requires AllSpace(pre) && word != [] && !IsSpace(word[0]) && !IsSpace(word[|word| - 1])
    ensures word <= Strip(pre + (word + rest))
  {
    var t := pre + (word + rest);
    assert t[|pre|] == word[0];
    SkipSpaceRun(t, 0, |pre|);
    var core := t[|pre|..];
    assert core == word + rest;
    assert core[|word| - 1] == word[|word| - 1];
    RStripCovers(core, |word| - 1);
    assert RStrip(core) == core[..|RStrip(core)|];
  }

  lemma RStripCovers(s: string, k: nat)
    requires k < |s| && !IsSpace(s[k])
    ensures |RStrip(s)| > k
  {
    var r := RStrip(s);
    forall i | |r| <= i < |s| ensures IsSpace(s[i]) {
      assert s[|r|..][i - |r|] == s[i];
    }
  }

  lemma AgeReads(sa: Sa, x: Shown)
    requires Valid(x)
    ensures Read(sa, false, AgeLine(x)) == (sa.(established := Some(x.age)), false)
  {
    hide TrafficOf, IsChild, Quiet, IsQuad, Strip, EstablishedOf, Decimal;
    var line := AgeLine(x);
    var rest := " " + (Decimal(x.age) + ("s" + x.timers));
    DecimalIsWord(x.age);
    assert NoQuote(line);
    NoQuoteNoPeer("local", line);
    NoQuoteNoPeer("remote", line);
    StripStarts("  ", "established", rest);
    assert LABELS[6] == "established";
    AgeIsRead(x.age, x.timers);
  }

  lemma AgeIsRead(age: nat, timers: string)
    ensures EstablishedOf("  " + ("established" + (" " + (Decimal(age) + ("s" + timers))))) == Some(age)
  {
    hide Gap, Digits, Decimal;
    var d := Decimal(age) + ("s" + timers);
    var t := "established" + (" " + d);
    DecimalIsWord(age);
    LitOver("established", " " + d);
    assert d[0] == Decimal(age)[0];
    GapOver(" ", d);
    DigitsOver(age, "s" + timers);
    assert EstablishedHere(t) == Some(age);
    assert EstablishedOf(t) == Some(age);
    AgeSkips(t);
    AgeSkips(" " + t);
    assert " " + (" " + t) == "  " + t;
  }

  lemma AgeSkips(s: string)
    ensures EstablishedOf(" " + s) == EstablishedOf(s)
  {
    var t := " " + s;
    assert t[0] == ' ' && t[1..] == s;
    assert !("established" <= t);
  }

  lemma ChildReads(sa: Sa, x: Shown)
    requires Valid(x)
    ensures Read(sa, false, ChildLine(x)) == (sa, true)
  {
    hide TrafficOf, IsQuad, Strip, EstablishedOf;
    var line := ChildLine(x);
    NoQuoteNoPeer("local", line);
    NoQuoteNoPeer("remote", line);
    StripStarts("  ", "net:", x.child);
    assert LABELS[0] == "net:";
  }

  lemma IdleReads(sa: Sa, line: string)
    requires Idle(line)
    ensures Read(sa, true, line) == (sa, true)
  {
    hide TrafficOf, IsChild, EstablishedOf;
    NoQuoteNoPeer("local", line);
    NoQuoteNoPeer("remote", line);
  }

  lemma FlowReads(sa: Sa, direction: string, f: Flow)
    requires direction == "in" || direction == "out"
    requires f.spi != [] && IsHex(f.spi) && Quiet(FlowLine(direction, f))
    ensures Read(sa, true, FlowLine(direction, f))
      == (WithTraffic(sa, Traffic(direction == "in", f.bytes, f.packets)), true)
  {
    hide TrafficOf, Strip, EstablishedOf, Spaced, FlowWords;
    var line := FlowLine(direction, f);
    NoQuoteNoPeer("local", line);
    NoQuoteNoPeer("remote", line);
    StripStarts("    ", direction, "  " + Spaced(FlowWords(f), "packets" + f.tail));
    FlowIsRead(direction, f);
  }

  lemma FlowIsRead(direction: string, f: Flow)
    requires direction == "in" || direction == "out"
    requires f.spi != [] && IsHex(f.spi)
    ensures TrafficOf(FlowLine(direction, f)) == Some(Traffic(direction == "in", f.bytes, f.packets))
  {
    hide Words, Decimal, Number, Spaced;
    var last, words, line := "packets" + f.tail, FlowWords(f), FlowLine(direction, f);
    DecimalIsWord(f.bytes);
    DecimalIsWord(f.packets);
    HexIsWord(f.spi);
    Suffixed(f.spi, ",");
    var more := Spaced(words, last);
    WordsAfterGap("    ", direction + ("  " + more));
    WordsOver(direction, "  " + more);
    WordsAfterGap("  ", more);
    WordsOfSpaced(words, last);
    FirstWord("packets", f.tail);
    assert Words(line) == [direction] + (words + Words(last));
    assert Words(line)[5] == Words(last)[0];
  }

  // ---------- All of it ----------

  lemma {:induction false} IdleSteps(sa: Sa, lines: seq<string>)
    requires forall i :: 0 <= i < |lines| ==> Idle(lines[i])
    ensures Steps(Reader([sa], true), lines) == Reader([sa], true)
  {
    hide Read, IsHeader, Idle;
    if lines != [] {
      IdleStep(sa, lines[0]);
      IdleSteps(sa, lines[1..]);
    }
  }

  lemma IdleStep(sa: Sa, line: string)
    requires Idle(line)
    ensures Step(Reader([sa], true), line) == Reader([sa], true)
  {
    hide Read, IsHeader, IsChild, TrafficOf, Quiet;
    IdleReads(sa, line);
    IndentedIsNoHeader(line);
  }

  lemma OneStep(sa: Sa, inChild: bool, line: string)
    requires line != [] && IsSpace(line[0])
    ensures var (after, child) := Read(sa, inChild, line);
      Steps(Reader([sa], inChild), [line]) == Reader([after], child)
  {
    hide Read, IsHeader;
    IndentedIsNoHeader(line);
    assert [line][1..] == [];
  }

  lemma {:induction false} StepsTwo(r: Reader, line: string, lines: seq<string>)
    ensures Steps(r, [line] + lines) == Steps(Steps(r, [line]), lines)
  {
    StepsJoin(r, [line], lines);
  }

  /** The SA as its header leaves it. */
  function Blank(x: Shown): Sa {
    Sa(x.id, x.conn, x.state, x.version, None, None, None, None, None, None, None, None, None, None, None, 0, 0, 0, 0)
  }

  lemma HeaderSteps(x: Shown, r: Reader)
    requires Valid(x)
    ensures Steps(r, [HeaderLine(x)]) == Reader(r.sas + [Blank(x)], false)
  {
    hide IsHeader, NewSa, HeaderLine, Valid, Read;
    HeaderReads(x);
    assert [HeaderLine(x)][1..] == [];
  }

  function Front(x: Shown): seq<string> {
    [HeaderLine(x), LocalLine(x), RemoteLine(x), "  " + x.algo, AgeLine(x), ChildLine(x)]
  }

  /** The lines up to the child's own. */
  lemma FrontReads(x: Shown)
    requires Valid(x)
    ensures Steps(Reader([], false), Front(x))
      == Reader([Meant(x).(bytesIn := 0, bytesOut := 0, pktsIn := 0, pktsOut := 0)], true)
  {
    hide Read, IsHeader, NewSa, HeaderLine, LocalLine, RemoteLine, AgeLine, ChildLine, Steps, IsAlgorithm, IsQuad, Quiet, DeviceOf;
    var s0 := Blank(x);
    var s1 := s0.(localId := Some(x.localId), localIp := Some(x.localIp), localPort := Some(x.localPort));
    var s2 := s1.(remoteId := Some(if x.eap.Some? && x.eap.value != "" then x.eap.value else x.remoteId),
      eapId := x.eap, remoteIp := Some(x.remoteIp), remotePort := Some(x.remotePort), vip := x.vip);
    var s3 := WithAlgorithm(s2, x.algo);
    var s4 := s3.(established := Some(x.age));
    Indented(x);
    HeaderSteps(x, Reader([], false));
    LocalReads(s0, false, x);
    OneStep(s0, false, LocalLine(x));
    RemoteReads(s1, false, x);
    OneStep(s1, false, RemoteLine(x));
    AlgorithmReads(s2, x);
    OneStep(s2, false, "  " + x.algo);
    AgeReads(s3, x);
    OneStep(s3, false, AgeLine(x));
    ChildReads(s4, x);
    OneStep(s4, false, ChildLine(x));
    var r := Reader([], false);
    var l4 := [AgeLine(x)] + [ChildLine(x)];
    var l3 := ["  " + x.algo] + l4;
    var l2 := [RemoteLine(x)] + l3;
    var l1 := [LocalLine(x)] + l2;
    assert Front(x) == [HeaderLine(x)] + l1;
    assert [] + [s0] == [s0];
    StepsTwo(r, HeaderLine(x), l1);
    StepsTwo(Reader([s0], false), LocalLine(x), l2);
    StepsTwo(Reader([s1], false), RemoteLine(x), l3);
    StepsTwo(Reader([s2], false), "  " + x.algo, l4);
    StepsTwo(Reader([s3], false), AgeLine(x), [ChildLine(x)]);
  }

  lemma Indented(x: Shown)
    ensures LocalLine(x) != [] && IsSpace(LocalLine(x)[0])
    ensures RemoteLine(x) != [] && IsSpace(RemoteLine(x)[0])
    ensures AgeLine(x) != [] && IsSpace(AgeLine(x)[0])
    ensures ChildLine(x) != [] && IsSpace(ChildLine(x)[0])
    ensures FlowLine("in", x.inbound) != [] && IsSpace(FlowLine("in", x.inbound)[0])
    ensures FlowLine("out", x.outbound) != [] && IsSpace(FlowLine("out", x.outbound)[0])
  {
  }

  /** One SA's lines give that SA. */
  lemma OneReads(x: Shown)
    requires Valid(x)
    ensures Parsed(Lines(x)) == [Meant(x)]
  {
    hide Read, DeviceOf, HeaderLine, FlowLine, Steps, IsAlgorithm, IsQuad, Quiet, Idle, Front;
    var s4 := Meant(x).(bytesIn := 0, bytesOut := 0, pktsIn := 0, pktsOut := 0);
    var s5 := s4.(bytesIn := x.inbound.bytes, pktsIn := x.inbound.packets);
    var flows := [FlowLine("in", x.inbound)] + ([FlowLine("out", x.outbound)] + x.late);
    var r := Reader([], false);
    Indented(x);
    FrontReads(x);
    LinesAre(x);
    StepsJoin(r, Front(x), x.early + flows);
    IdleSteps(s4, x.early);
    StepsJoin(Reader([s4], true), x.early, flows);
    FlowReads(s4, "in", x.inbound);
    OneStep(s4, true, FlowLine("in", x.inbound));
    StepsTwo(Reader([s4], true), FlowLine("in", x.inbound), [FlowLine("out", x.outbound)] + x.late);
    FlowReads(s5, "out", x.outbound);
    OneStep(s5, true, FlowLine("out", x.outbound));
    StepsTwo(Reader([s5], true), FlowLine("out", x.outbound), x.late);
    IdleSteps(Meant(x), x.late);
  }

  lemma LinesAre(x: Shown)
    ensures Lines(x) == Front(x) + (x.early + ([FlowLine("in", x.inbound)] + ([FlowLine("out", x.outbound)] + x.late)))
    ensures Lines(x)[0] == HeaderLine(x)
  {
    hide FlowLine, HeaderLine, LocalLine, RemoteLine, AgeLine, ChildLine;
  }

  /**
   A rendered list of SAs, each with one child, parses back to exactly those
   SAs, in order, with the EAP identity shown as the remote one when it is there
   and not empty.
   */
  lemma {:induction false} ListingReadsBack(xs: seq<Shown>)
    requires forall i :: 0 <= i < |xs| ==> Valid(xs[i])
    ensures Parsed(Listing(xs)) == seq(|xs|, i requires 0 <= i < |xs| => Meant(xs[i]))
    decreases |xs|
  {
    hide Valid, Lines, Meant, Steps, IsHeader, HeaderLine;
    if xs == [] {
      NothingParsed();
    } else {
      OneReads(xs[0]);
      ListingReadsBack(xs[1..]);
      if |xs| == 1 {
        assert Listing(xs) == Lines(xs[0]);
      } else {
        LinesAre(xs[1]);
        HeaderReads(xs[1]);
        assert Listing(xs[1..])[0] == Lines(xs[1])[0];
        ParsesByParts(Lines(xs[0]), Listing(xs[1..]));
      }
    }
  }

  lemma NothingParsed()
    ensures Parsed([]) == []
  {
  }
}
