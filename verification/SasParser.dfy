/** `_parse_sas_text` (host/vpn-portal/app.py): the reader of `swanctl --list-sas` lines. */
module SasParser {
  import opened Chars
  import opened Fingerprints
  import opened Options

  // ---------- Matchers for the regular expressions ----------

  function DropSpace(s: string): (r: string)
    ensures |r| <= |s| && (r != [] ==> !IsSpace(r[0]))
  {
    if s != [] && IsSpace(s[0]) then DropSpace(s[1..]) else s
  }

  /** `\s+` */
  function Gap(s: string): (r: Option<string>)
    ensures r.Some? ==> |r.value| < |s|
  {
    if s != [] && IsSpace(s[0]) then Some(DropSpace(s)) else None
  }

  function Lit(word: string, s: string): (r: Option<string>)
    ensures r.Some? ==> |r.value| == |s| - |word|
  {
    if word <= s then Some(s[|word|..]) else None
  }

  function DigitRun(s: string): (n: nat)
    ensures n <= |s| && AllDigits(s[..n])
  {
    if s != [] && IsDigit(s[0]) then 1 + DigitRun(s[1..]) else 0
  }

  /** `(\d+)` and what follows it. */
  function Digits(s: string): (r: Option<(nat, string)>)
    ensures r.Some? ==> |r.value.1| < |s|
  {
    var n := DigitRun(s);
    if n == 0 then None else Some((Number(s[..n]), s[n..]))
  }

  /** The text up to the next quote, and what follows the quote: `([^']*)'`. */
  function ToQuote(s: string): (r: Option<(string, string)>)
    ensures r.Some? ==> |r.value.1| < |s|
  {
    if s == [] then None
    else if s[0] == '\'' then Some(("", s[1..]))
    else
      var r := ToQuote(s[1..]);
      if r.None? then None else Some(([s[0]] + r.value.0, r.value.1))
  }

  /** `\[(\d+)\]` */
  function Port(s: string): (r: Option<(nat, string)>) {
    if s == [] || s[0] != '[' then None
    else
      var d := Digits(s[1..]);
      if d.None? || d.value.1 == [] || d.value.1[0] != ']' then None else Some((d.value.0, d.value.1[1..]))
  }

  datatype Address = Address(ip: string, port: nat, rest: string)

  /** `(\S+?)\[(\d+)\]`, with `ip` taken so far. */
  function AddressFrom(ip: string, s: string): Option<Address>
    decreases |s|
  {
    var p := Port(s);
    if ip != [] && p.Some? then Some(Address(ip, p.value.0, p.value.1))
    else if s == [] || IsSpace(s[0]) then None
    else AddressFrom(ip + [s[0]], s[1..])
  }

  datatype Peer = Peer(id: string, ip: string, port: nat, rest: string)

  /** `side\s+'([^']*)'\s+@\s+(\S+?)\[(\d+)\]` at the start of `s`. */
  function PeerHere(side: string, s: string): Option<Peer> {
    var a := Lit(side, s);
    if a.None? then None else
    var b := Gap(a.value);
    if b.None? || b.value == [] || b.value[0] != '\'' then None else
    var q := ToQuote(b.value[1..]);
    if q.None? then None else
    var c := Gap(q.value.1);
    if c.None? || c.value == [] || c.value[0] != '@' then None else
    var d := Gap(c.value[1..]);
    if d.None? then None else
    var e := AddressFrom("", d.value);
    if e.None? then None else Some(Peer(q.value.0, e.value.ip, e.value.port, e.value.rest))
  }

  /** The first such match in the line. */
  function PeerOf(side: string, s: string): Option<Peer> {
    if PeerHere(side, s).Some? then PeerHere(side, s)
    else if s == [] then None
    else PeerOf(side, s[1..])
  }

  /** `(?:\s+EAP:\s+'([^']*)')?` */
  function EapOf(s: string): Option<(string, string)> {
    var a := Gap(s);
    if a.None? || !("EAP:" <= a.value) then None else
    var b := Gap(a.value[4..]);
    if b.None? || b.value == [] || b.value[0] != '\'' then None else
    ToQuote(b.value[1..])
  }

  predicate IsQuad(s: string) {
    var parts := Split(s, '.');
    |parts| == 4 && forall i :: 0 <= i < 4 ==> parts[i] != [] && AllDigits(parts[i])
  }

  function QuadRun(s: string): (n: nat)
    ensures n <= |s|
  {
    if s != [] && (IsDigit(s[0]) || s[0] == '.') then 1 + QuadRun(s[1..]) else 0
  }

  /** `(?:\s+\[(\d+\.\d+\.\d+\.\d+)\])?` */
  function VipOf(s: string): Option<string> {
    var a := Gap(s);
    if a.None? || a.value == [] || a.value[0] != '[' then None else
    var t := a.value[1..];
    var n := QuadRun(t);
    if IsQuad(t[..n]) && n < |t| && t[n] == ']' then Some(t[..n]) else None
  }

  /** Python's `split()`. */
  function Words(s: string): seq<string>
    decreases |s|
  {
    var t := DropSpace(s);
    if t == [] then [] else
    var n := WordRun(t);
    [t[..n]] + Words(t[n..])
  }

  function WordRun(s: string): (n: nat)
    ensures n <= |s| && (s != [] && !IsSpace(s[0]) ==> n > 0)
  {
    if s != [] && !IsSpace(s[0]) then 1 + WordRun(s[1..]) else 0
  }

  predicate EndsWith(s: string, suffix: string) {
    |suffix| < |s| && s[|s| - |suffix|..] == suffix
  }

  predicate IsHex(s: string) {
    forall i :: 0 <= i < |s| ==> IsDigit(s[i]) || 'a' <= s[i] <= 'f'
  }

  predicate IsSpi(word: string, mark: string) {
    EndsWith(word, mark) && IsHex(word[..|word| - |mark|])
  }

  /** The six words of a header line; its blanks are where the expression has them. */
  predicate IsHeader(line: string) {
    && line != [] && !IsSpace(line[0])
    && var w := Words(line);
    && |w| == 6
    && EndsWith(w[0], ":")
    && |w[1]| > 2 && w[1][0] == '#' && EndsWith(w[1], ",") && AllDigits(w[1][1..|w[1]| - 1])
    && EndsWith(w[2], ",") && EndsWith(w[3], ",")
    && IsSpi(w[4], "_i")
    && (IsSpi(w[5], "_r") || IsSpi(w[5], "_r*"))
  }

  /** `established\s+(\d+)s`, anywhere in the line. */
  function EstablishedOf(s: string): Option<nat> {
    if EstablishedHere(s).Some? then EstablishedHere(s) else if s == [] then None else EstablishedOf(s[1..])
  }

  function EstablishedHere(s: string): Option<nat> {
    var a := Lit("established", s);
    if a.None? then None else
    var b := Gap(a.value);
    if b.None? then None else
    var d := Digits(b.value);
    if d.Some? && d.value.1 != [] && d.value.1[0] == 's' then Some(d.value.0) else None
  }

  const LABELS: seq<string> :=
    ["net:", "local", "remote", "in ", "out ", "installed", "established", "rekeying", "reauth", "expires"]

  /** The proposal on a line of its own. */
  predicate IsAlgorithm(stripped: string) {
    && stripped != []
    && (forall k :: 0 <= k < |LABELS| ==> !(LABELS[k] <= stripped))
    && '/' in stripped && ' ' !in stripped
  }

  datatype Traffic = Traffic(inbound: bool, bytes: nat, packets: nat)

  /** `^\s+(in|out)\s+([0-9a-f]+),\s+(\d+)\s+bytes,\s+(\d+)\s+packets` */
  function TrafficOf(line: string): Option<Traffic> {
    var w := Words(line);
    if line == [] || !IsSpace(line[0]) || |w| < 6 then None
    else if w[0] != "in" && w[0] != "out" then None
    else if !IsSpi(w[1], ",") || !AllDigits(w[2]) || w[3] != "bytes," || !AllDigits(w[4]) || !("packets" <= w[5]) then None
    else Some(Traffic(w[0] == "in", Number(w[2]), Number(w[4])))
  }

  // ---------- The parser ----------

  datatype Sa = Sa(
    id: nat, conn: string, state: string, version: string,
    localId: Option<string>, localIp: Option<string>, localPort: Option<nat>,
    remoteId: Option<string>, eapId: Option<string>, remoteIp: Option<string>, remotePort: Option<nat>,
    vip: Option<string>, algo: Option<string>, fingerprint: Option<Device>, established: Option<nat>,
    bytesIn: nat, bytesOut: nat, pktsIn: nat, pktsOut: nat)

  function NewSa(line: string): Sa
    requires IsHeader(line)
  {
    var w := Words(line);
    Sa(Number(w[1][1..|w[1]| - 1]), w[0][..|w[0]| - 1], w[2][..|w[2]| - 1], w[3][..|w[3]| - 1],
       None, None, None, None, None, None, None, None, None, None, None, 0, 0, 0, 0)
  }

  function WithRemote(sa: Sa, p: Peer): Sa {
    var eap := EapOf(p.rest);
    var vip := VipOf(if eap.Some? then eap.value.1 else p.rest);
    var shown := if eap.Some? && eap.value.0 != "" then eap.value.0 else p.id;
    sa.(remoteId := Some(shown), eapId := if eap.Some? then Some(eap.value.0) else None,
        remoteIp := Some(p.ip), remotePort := Some(p.port), vip := if vip.Some? then vip else sa.vip)
  }

  function WithAlgorithm(sa: Sa, algo: string): Sa {
    sa.(algo := Some(algo), fingerprint := Some(DeviceOf(algo)))
  }

  function WithTraffic(sa: Sa, t: Traffic): Sa {
    if t.inbound then sa.(bytesIn := t.bytes, pktsIn := t.packets) else sa.(bytesOut := t.bytes, pktsOut := t.packets)
  }

  predicate IsChild(line: string) {
    "net:" <= Strip(line)
  }

  /** What a line that is no header does to the SA it belongs to. */
  function Read(sa: Sa, inChild: bool, line: string): (Sa, bool) {
    var local := PeerOf("local", line);
    var remote := PeerOf("remote", line);
    if local.Some? then
      (sa.(localId := Some(local.value.id), localIp := Some(local.value.ip), localPort := Some(local.value.port)), inChild)
    else if remote.Some? then (WithRemote(sa, remote.value), inChild)
    else if !inChild && IsAlgorithm(Strip(line)) then (WithAlgorithm(sa, Strip(line)), inChild)
    else if EstablishedOf(line).Some? then (sa.(established := EstablishedOf(line)), inChild)
    else if IsChild(line) then (sa, true)
    else if TrafficOf(line).Some? then (WithTraffic(sa, TrafficOf(line).value), inChild)
    else (sa, inChild)
  }

  /** The list so far, whose last element is being filled, and whether its child section has begun. */
  datatype Reader = Reader(sas: seq<Sa>, inChild: bool)

  function Step(r: Reader, line: string): Reader {
    if IsHeader(line) then Reader(r.sas + [NewSa(line)], false)
    else if r.sas == [] then r
    else
      var n := |r.sas| - 1;
      var (sa, inChild) := Read(r.sas[n], r.inChild, line);
      Reader(r.sas[..n] + [sa], inChild)
  }

  function Steps(r: Reader, lines: seq<string>): Reader
    decreases |lines|
  {
    if lines == [] then r else Steps(Step(r, lines[0]), lines[1..])
  }

  function Parsed(lines: seq<string>): seq<Sa> {
    Steps(Reader([], false), lines).sas
  }

  lemma {:induction false} StepsJoin(r: Reader, a: seq<string>, b: seq<string>)
    ensures Steps(r, a + b) == Steps(Steps(r, a), b)
    decreases |a|
  {
    hide Step;
    if a == [] {
      assert a + b == b;
    } else {
      assert (a + b)[1..] == a[1..] + b;
      StepsJoin(Step(r, a[0]), a[1..], b);
    }
  }

  /** `_parse_sas_text` over the lines of its text. */
  method ParseSas(lines: seq<string>) returns (sas: seq<Sa>)
    ensures sas == Parsed(lines)
  {
    hide Read, IsHeader, NewSa, IsAlgorithm, TrafficOf, EstablishedOf, PeerOf, WithRemote, WithAlgorithm, WithTraffic, IsChild;
    sas := [];
    var inChild := false;
    for i := 0 to |lines|
      invariant Steps(Reader([], false), lines[..i]) == Reader(sas, inChild)
    {
      var line := lines[i];
      StepsJoin(Reader([], false), lines[..i], [line]);
      assert lines[..i] + [line] == lines[..i + 1];
      assert [line][1..] == [];
      assert Steps(Reader([], false), lines[..i + 1]) == Step(Reader(sas, inChild), line);
      if IsHeader(line) {
        sas, inChild := sas + [NewSa(line)], false;
        continue;
      }
      if sas == [] {
        continue;
      }
      var cur, child := ReadLine(sas[|sas| - 1], inChild, line);
      sas, inChild := sas[..|sas| - 1] + [cur], child;
    }
    assert lines[..|lines|] == lines;
  }

  /** The branches for one line of the current SA, which the source updates in place. */
  method ReadLine(sa: Sa, inChild: bool, line: string) returns (cur: Sa, child: bool)
    ensures (cur, child) == Read(sa, inChild, line)
  {
    hide PeerOf, EapOf, VipOf, EstablishedOf, TrafficOf, Strip, IsAlgorithm, DeviceOf;
    cur, child := sa, inChild;
    var m := PeerOf("local", line);
    if m.Some? {
      cur := cur.(localId := Some(m.value.id), localIp := Some(m.value.ip), localPort := Some(m.value.port));
      return;
    }
    m := PeerOf("remote", line);
    if m.Some? {
      var eap := EapOf(m.value.rest);
      var vip := VipOf(if eap.Some? then eap.value.1 else m.value.rest);
      cur := cur.(remoteId := Some(m.value.id), eapId := if eap.Some? then Some(eap.value.0) else None,
                  remoteIp := Some(m.value.ip), remotePort := Some(m.value.port));
      if vip.Some? {
        cur := cur.(vip := vip);
      }
      if eap.Some? && eap.value.0 != "" {
        cur := cur.(remoteId := cur.eapId);
      }
      return;
    }
    if !inChild && IsAlgorithm(Strip(line)) {
      var device := Fingerprint(Strip(line));
      cur := cur.(algo := Some(Strip(line)), fingerprint := Some(device));
      return;
    }
    var e := EstablishedOf(line);
    if e.Some? {
      cur := cur.(established := e);
      return;
    }
    if "net:" <= Strip(line) {
      child := true;
      return;
    }
    var t := TrafficOf(line);
    if t.Some? {
      if t.value.inbound {
        cur := cur.(bytesIn := t.value.bytes, pktsIn := t.value.packets);
      } else {
        cur := cur.(bytesOut := t.value.bytes, pktsOut := t.value.packets);
      }
    }
  }

  // ---------- Composition ----------

  /** Earlier SAs do not matter to a line: it changes the last one only. */
  lemma StepFrames(before: seq<Sa>, r: Reader, line: string)
    requires r.sas != [] || IsHeader(line)
    ensures Step(Reader(before + r.sas, r.inChild), line)
      == Reader(before + Step(r, line).sas, Step(r, line).inChild)
    ensures Step(r, line).sas != []
  {
    hide Read, IsHeader, NewSa;
    if IsHeader(line) {
      assert before + r.sas + [NewSa(line)] == before + (r.sas + [NewSa(line)]);
    } else {
      var n := |r.sas| - 1;
      var sa := Read(r.sas[n], r.inChild, line).0;
      var all := before + r.sas;
      assert all[..|all| - 1] == before + r.sas[..n] && all[|all| - 1] == r.sas[n];
      assert before + r.sas[..n] + [sa] == before + (r.sas[..n] + [sa]);
    }
  }

  lemma {:induction false} StepsFrame(before: seq<Sa>, r: Reader, lines: seq<string>)
    requires r.sas != [] || (lines != [] && IsHeader(lines[0]))
    ensures Steps(Reader(before + r.sas, r.inChild), lines)
      == Reader(before + Steps(r, lines).sas, Steps(r, lines).inChild)
    decreases |lines|
  {
    hide Step, IsHeader;
    if lines != [] {
      StepFrames(before, r, lines[0]);
      StepsFrame(before, Step(r, lines[0]), lines[1..]);
    }
  }

  /** Text that starts with a header parses by itself, whatever came before. */
  lemma ParsesByParts(a: seq<string>, b: seq<string>)
    requires b != [] && IsHeader(b[0])
    ensures Parsed(a + b) == Parsed(a) + Parsed(b)
  {
    hide Step, IsHeader;
    var r := Steps(Reader([], false), a);
    StepsJoin(Reader([], false), a, b);
    HeaderForgets(r, Reader(r.sas, false), b);
    StepsFrame(r.sas, Reader([], false), b);
    assert r.sas + [] == r.sas;
  }

  lemma HeaderForgets(r: Reader, q: Reader, lines: seq<string>)
    requires lines != [] && IsHeader(lines[0]) && r.sas == q.sas
    ensures Steps(r, lines) == Steps(q, lines)
  {
    hide IsHeader, NewSa, Read;
  }

  // ---------- What is no proposal, and what is no header ----------

  /** A line that starts with one of the other words is no proposal, whatever follows. */
  lemma LabelledIsNoAlgorithm(rest: string)
    ensures !IsAlgorithm("net:" + rest) && !IsAlgorithm("local" + rest) && !IsAlgorithm("remote" + rest)
    ensures !IsAlgorithm("in " + rest) && !IsAlgorithm("out " + rest) && !IsAlgorithm("installed" + rest)
    ensures !IsAlgorithm("established" + rest) && !IsAlgorithm("rekeying" + rest)
    ensures !IsAlgorithm("reauth" + rest) && !IsAlgorithm("expires" + rest)
  {
    forall k | 0 <= k < |LABELS| ensures !IsAlgorithm(LABELS[k] + rest) {
      assert LABELS[k] <= LABELS[k] + rest;
    }
    assert LABELS[0] == "net:" && LABELS[1] == "local" && LABELS[2] == "remote" && LABELS[3] == "in ";
    assert LABELS[4] == "out " && LABELS[5] == "installed" && LABELS[6] == "established";
    assert LABELS[7] == "rekeying" && LABELS[8] == "reauth" && LABELS[9] == "expires";
  }

  /** Nor is a text with a blank in it, or without a slash, or no text. */
  lemma BlankOrSlashlessIsNoAlgorithm(s: string)
    ensures s == "" || (exists i :: 0 <= i < |s| && s[i] == ' ') || (forall i :: 0 <= i < |s| ==> s[i] != '/') ==> !IsAlgorithm(s)
  {
  }

  /** Digits and the letters from `a` to `f`. */
  predicate IsHexText(s: string) {
    s != "" && forall i :: 0 <= i < |s| ==> var n := s[i] as int; 48 <= n <= 57 || 97 <= n <= 102
  }

  /** A header's words, spelled out: a name and a colon, a number between `#` and a comma, two
      words that end in commas, and two runs of lower-case hex digits with their marks. */
  lemma HeaderIsSpelled(line: string)
    requires IsHeader(line)
    ensures var w := Words(line);
      && |w| == 6
      && |w[0]| > 1 && w[0][|w[0]| - 1] == ':'
      && |w[1]| > 2 && w[1][0] == '#' && w[1][|w[1]| - 1] == ',' && AllDigits(w[1][1..|w[1]| - 1])
      && |w[2]| > 1 && w[2][|w[2]| - 1] == ',' && |w[3]| > 1 && w[3][|w[3]| - 1] == ','
      && |w[4]| > 2 && w[4][|w[4]| - 2..] == "_i" && IsHexText(w[4][..|w[4]| - 2])
      && ((|w[5]| > 2 && w[5][|w[5]| - 2..] == "_r" && IsHexText(w[5][..|w[5]| - 2]))
          || (|w[5]| > 3 && w[5][|w[5]| - 3..] == "_r*" && IsHexText(w[5][..|w[5]| - 3])))
  {
    hide Words;
    var w := Words(line);
    assert w[0][|w[0]| - 1..][0] == ':' && w[1][|w[1]| - 1..][0] == ',';
    assert w[2][|w[2]| - 1..][0] == ',' && w[3][|w[3]| - 1..][0] == ',';
  }
}
