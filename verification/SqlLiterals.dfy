/**
 The INSERT statements of the SQLite to MariaDB migration
 (host/vpn-portal/scripts/migrate_sqlite_to_mariadb.py) and how MariaDB reads
 their VALUES lists.
 */
module SqlLiterals {
  import opened Chars
  import opened Options

  type Byte = b: nat | b < 256

  type Digits = s: string | s != [] && AllDigits(s) witness "0"

  /** A float by the digits of Python's `repr`; SQLite keeps NaN as NULL. */
  datatype Double =
    | Plain(negative: bool, whole: Digits, fraction: Digits)
    | Scientific(negative: bool, whole: Digits, decimals: Option<Digits>, down: bool, exponent: Digits)
    | Infinite(negative: bool)

  /** What SQLite hands out. */
  datatype Value = Null | Integer(n: int) | Float(x: Double) | Blob(bytes: seq<Byte>) | Text(s: string)

  /** An element of a fetched row; the loop raises on any other type. */
  datatype Cell = Cell(value: Value) | Unhandled

  // ---------- Printing ----------

  /** Python's `str.replace` of one character. */
  function Replace(s: string, c: char, put: string): string {
    if s == [] then [] else (if s[0] == c then put else [s[0]]) + Replace(s[1..], c, put)
  }

  function Escaped(s: string): string {
    Replace(Replace(s, '\\', "\\\\"), '\'', "\\'")
  }

  function HexDigit(d: nat): char
    requires d < 16
  {
    "0123456789abcdef"[d]
  }

  function Hex(bytes: seq<Byte>): string {
    if bytes == [] then [] else [HexDigit(bytes[0] / 16), HexDigit(bytes[0] % 16)] + Hex(bytes[1..])
  }

  /** Python's `str` of a float without its sign. */
  function Numeral(x: Double): string {
    match x
    case Plain(_, whole, fraction) => whole + ("." + fraction)
    case Scientific(_, whole, decimals, down, exponent) =>
      whole + ((if decimals.Some? then "." + decimals.value else "") + ((if down then "e-" else "e+") + exponent))
    case Infinite(_) => "inf"
  }

  function Literal(v: Value): string {
    match v
    case Null => "NULL"
    case Integer(n) => if n < 0 then "-" + Decimal(-n) else Decimal(n)
    case Float(x) => if x.negative then "-" + Numeral(x) else Numeral(x)
    case Blob(bytes) => "0x" + Hex(bytes)
    case Text(s) => "'" + Escaped(s) + "'"
  }

  /** Python's `', '.join`. */
  function Joined(parts: seq<string>): string {
    if parts == [] then [] else if |parts| == 1 then parts[0] else parts[0] + ", " + Joined(parts[1..])
  }

  function Literals(row: seq<Value>): seq<string> {
    seq(|row|, i requires 0 <= i < |row| => Literal(row[i]))
  }

  function Quoted(cols: seq<string>): seq<string> {
    seq(|cols|, i requires 0 <= i < |cols| => "`" + cols[i] + "`")
  }

  /** The statement up to its opening parenthesis of values. */
  function Header(table: string, cols: seq<string>): string {
    "INSERT INTO " + table + " (" + Joined(Quoted(cols)) + ") VALUES ("
  }

  function Insert(table: string, cols: seq<string>, row: seq<Value>): string {
    Header(table, cols) + Joined(Literals(row)) + ")"
  }

  /** The values of a row without unhandled elements. */
  function Values(row: seq<Cell>): Option<seq<Value>> {
    if forall i :: 0 <= i < |row| ==> row[i].Cell? then Some(seq(|row|, i requires 0 <= i < |row| => row[i].value))
    else None
  }

  /** The loop over one row; `None` is the exception. */
  method RowLiterals(row: seq<Cell>) returns (literals: Option<seq<string>>)
    ensures literals.Some? <==> Values(row).Some?
    ensures literals.Some? ==> literals.value == Literals(Values(row).value)
  {
    hide Replace, Hex, Decimal, Numeral;
    var values: seq<string> := [];
    for i := 0 to |row|
      invariant |values| == i && forall j :: 0 <= j < i ==> row[j].Cell? && values[j] == Literal(row[j].value)
    {
      if row[i].Unhandled? {
        return None;
      }
      match row[i].value
      case Null => values := values + ["NULL"];
      case Integer(n) => values := values + [if n < 0 then "-" + Decimal(-n) else Decimal(n)];
      case Float(x) => values := values + [if x.negative then "-" + Numeral(x) else Numeral(x)];
      case Blob(bytes) => values := values + ["0x" + Hex(bytes)];
      case Text(s) =>
        var escaped := Replace(Replace(s, '\\', "\\\\"), '\'', "\\'");
        values := values + ["'" + escaped + "'"];
    }
    return Some(values);
  }

  /** The row's INSERT statement, if it has one. */
  function Inserting(table: string, cols: seq<string>, row: seq<Cell>): Option<string> {
    var values := Values(row);
    if values.Some? then Some(Insert(table, cols, values.value)) else None
  }

  /** A row has a statement exactly when none of its elements is unhandled, whatever else they
      are, and then the statement is of their values in order. */
  lemma StatementExactlyWhenHandled(table: string, cols: seq<string>, row: seq<Cell>)
    ensures Inserting(table, cols, row).Some? <==> forall i :: 0 <= i < |row| ==> row[i] != Unhandled
    ensures Values(row).Some? ==>
      && |Values(row).value| == |row| && forall i :: 0 <= i < |row| ==> Cell(Values(row).value[i]) == row[i]
  {
    if Values(row).Some? {
      forall i | 0 <= i < |row| ensures row[i] != Unhandled {
        assert row[i].Cell?;
      }
    } else {
      var i :| 0 <= i < |row| && !row[i].Cell?;
      assert row[i] == Unhandled;
    }
  }

  /**
   `migrate_table`: one statement a row up to the first row with an unhandled
   element. Without such a row they are committed and counted, otherwise the
   exception comes before the commit.
   */
  method MigrateTable(table: string, cols: seq<string>, rows: seq<seq<Cell>>)
    returns (executed: seq<string>, migrated: Option<nat>)
    ensures cols == [] ==> executed == [] && migrated == Some(0)
    ensures |executed| <= |rows| && forall i :: 0 <= i < |executed| ==> Inserting(table, cols, rows[i]) == Some(executed[i])
    ensures cols != [] ==>
      if |executed| == |rows| then migrated == Some(|rows|)
      else migrated == None && Inserting(table, cols, rows[|executed|]).None?
  {
    hide Header, Joined, Literals, Values;
    if cols == [] || rows == [] {
      return [], Some(0);
    }
    executed := [];
    for r := 0 to |rows|
      invariant |executed| == r
      invariant forall i :: 0 <= i < r ==> Inserting(table, cols, rows[i]) == Some(executed[i])
    {
      var values := RowLiterals(rows[r]);
      if values.None? {
        return executed, None;
      }
      executed := executed + [Header(table, cols) + Joined(values.value) + ")"];
    }
    migrated := Some(|rows|);
  }

  // ---------- Reading ----------

  datatype Read<T> = Read(value: T, rest: string) | Unread

  predicate IsHex(c: char) {
    IsDigit(c) || 'a' <= c <= 'f' || 'A' <= c <= 'F'
  }

  /** A character that continues an identifier. */
  predicate IsWord(c: char) {
    IsDigit(c) || 'a' <= c <= 'z' || 'A' <= c <= 'Z' || c == '_' || c == '$' || c >= 0x80 as char
  }

  function HexValue(c: char): nat
    requires IsHex(c)
    ensures HexValue(c) < 16
  {
    if IsDigit(c) then c as int - '0' as int
    else if 'a' <= c <= 'f' then c as int - 'a' as int + 10
    else c as int - 'A' as int + 10
  }

  /** The bytes of an even run of hex digits. */
  function Bytes(s: string): seq<Byte>
    requires |s| % 2 == 0 && forall i :: 0 <= i < |s| ==> IsHex(s[i])
  {
    if s == [] then [] else [16 * HexValue(s[0]) + HexValue(s[1])] + Bytes(s[2..])
  }

  /** Length of the longest prefix of digits, or of hex digits. */
  function Run(s: string, hex: bool): (n: nat)
    ensures n <= |s|
    ensures forall i :: 0 <= i < n ==> if hex then IsHex(s[i]) else IsDigit(s[i])
  {
    if s != [] && (if hex then IsHex(s[0]) else IsDigit(s[0])) then 1 + Run(s[1..], hex) else 0
  }

  /** What follows a token may not continue it. */
  predicate Ends(s: string) {
    s == [] || !IsWord(s[0])
  }

  datatype Exponent = Exponent(down: bool, digits: Digits)

  /** The exponent of a numeral after its `e`: whether it is negative, and its digits. */
  function ReadExponent(s: string): (r: Read<Exponent>)
    ensures r.Read? ==> |r.rest| < |s|
  {
    var t := if s != [] && (s[0] == '-' || s[0] == '+') then s[1..] else s;
    var n := Run(t, false);
    if n > 0 && Ends(t[n..]) then Read(Exponent("-" <= s, t[..n]), t[n..]) else Unread
  }

  function Signed(negative: bool, n: nat): int {
    if negative then -(n as int) else n
  }

  /** What follows the digits of a numeral decides what it is. */
  function ReadTail(negative: bool, whole: Digits, decimals: Option<Digits>, s: string): (r: Read<Value>)
    ensures r.Read? ==> |r.rest| <= |s|
  {
    if s != [] && (s[0] == 'e' || s[0] == 'E') then
      var e := ReadExponent(s[1..]);
      if e.Read? then Read(Float(Scientific(negative, whole, decimals, e.value.down, e.value.digits)), e.rest) else Unread
    else if !Ends(s) then Unread
    else if decimals.Some? then Read(Float(Plain(negative, whole, decimals.value)), s)
    else Read(Integer(Signed(negative, Number(whole))), s)
  }

  /** A numeral; one that ends in its point is never printed and not read here. */
  function ReadNumber(negative: bool, s: string): (r: Read<Value>)
    ensures r.Read? ==> |r.rest| < |s|
  {
    var n := Run(s, false);
    if n == 0 then Unread
    else if n < |s| && s[n] == '.' then
      var t := s[n + 1..];
      var f := Run(t, false);
      if f == 0 then Unread else ReadTail(negative, s[..n], Some(t[..f]), t[f..])
    else ReadTail(negative, s[..n], None, s[n..])
  }

  /** A 0x literal; an odd run of digits gets a leading zero. `0x` alone is an identifier, not a literal. */
  function ReadHex(s: string): Read<seq<Byte>> {
    var n := Run(s, true);
    if n == 0 || !Ends(s[n..]) then Unread
    else if n % 2 == 0 then Read(Bytes(s[..n]), s[n..])
    else
      assert forall i :: 0 <= i < n + 1 ==> IsHex(("0" + s[..n])[i]);
      Read(Bytes("0" + s[..n]), s[n..])
  }

  /** What a backslash and this character stand for. */
  function Unescaped(c: char): string {
    if c == '0' then "\0"
    else if c == 'b' then [8 as char]
    else if c == 'n' then "\n"
    else if c == 'r' then "\r"
    else if c == 't' then "\t"
    else if c == 'Z' then [26 as char]
    else if c == '%' || c == '_' then ['\\', c]
    else [c]
  }

  /** The rest of a string literal after its opening quote. */
  function ReadString(s: string): (r: Read<string>)
    ensures r.Read? ==> |r.rest| < |s|
  {
    if s == [] then Unread
    else if s[0] == '\'' then
      if |s| > 1 && s[1] == '\'' then Prefixed("'", ReadString(s[2..])) else Read([], s[1..])
    else if s[0] == '\\' then
      if |s| > 1 then Prefixed(Unescaped(s[1]), ReadString(s[2..])) else Unread
    else Prefixed([s[0]], ReadString(s[1..]))
  }

  function Prefixed(p: string, r: Read<string>): Read<string> {
    if r.Read? then Read(p + r.value, r.rest) else Unread
  }

  function ReadValue(s: string): (r: Read<Value>) {
    if "'" <= s then
      var r := ReadString(s[1..]);
      if r.Read? then Read(Text(r.value), r.rest) else Unread
    else if "NULL" <= s && Ends(s[4..]) then Read(Null, s[4..])
    else if "0x" <= s then
      var r := ReadHex(s[2..]);
      if r.Read? then Read(Blob(r.value), r.rest) else Unread
    else if "-" <= s then ReadNumber(true, s[1..])
    else ReadNumber(false, s)
  }

  lemma ReadValueShrinks(s: string)
    ensures ReadValue(s).Read? ==> |ReadValue(s).rest| < |s|
  {
  }

  function SkipBlanks(s: string): (r: string)
    ensures |r| <= |s|
  {
    if s != [] && s[0] == ' ' then SkipBlanks(s[1..]) else s
  }

  /** Values up to the closing parenthesis. */
  function ReadValues(s: string): Read<seq<Value>>
    decreases |s|
  {
    var v := ReadValue(s);
    if v.Unread? then Unread
    else
      var rest := SkipBlanks(v.rest);
      if rest == [] then Unread
      else if rest[0] == ')' then Read([v.value], rest[1..])
      else if rest[0] == ',' then
        ReadValueShrinks(s);
        var more := ReadValues(SkipBlanks(rest[1..]));
        if more.Read? then Read([v.value] + more.value, more.rest) else Unread
      else Unread
  }

  /** What MariaDB reads after `VALUES (`. */
  function ReadRow(s: string): Read<seq<Value>> {
    if s != [] && s[0] == ')' then Read([], s[1..]) else ReadValues(s)
  }

  /** The text before the first `c`, and what follows that `c`. */
  function Before(s: string, c: char): (r: Read<string>)
    ensures r.Read? ==> |r.rest| < |s|
  {
    if s == [] then Unread else if s[0] == c then Read([], s[1..]) else Prefixed([s[0]], Before(s[1..], c))
  }

  /** Backquoted column names up to the opening parenthesis of the values. */
  function ReadColumns(s: string): Read<seq<string>>
    decreases |s|
  {
    if s == [] || s[0] != '`' then Unread else
    var col := Before(s[1..], '`');
    if col.Unread? then Unread
    else if ") VALUES (" <= col.rest then Read([col.value], col.rest[10..])
    else if ", " <= col.rest then
      var more := ReadColumns(col.rest[2..]);
      if more.Read? then Read([col.value] + more.value, more.rest) else Unread
    else Unread
  }

  datatype Statement = Statement(table: string, cols: seq<string>, row: seq<Value>)

  /** A whole INSERT statement. */
  function ReadInsert(s: string): Read<Statement> {
    if !("INSERT INTO " <= s) then Unread else
    var table := Before(s[12..], ' ');
    if table.Unread? || table.rest == [] || table.rest[0] != '(' then Unread else
    var cols := ReadColumns(table.rest[1..]);
    if cols.Unread? then Unread else
    var row := ReadRow(cols.rest);
    if row.Unread? then Unread else Read(Statement(table.value, cols.value, row.value), row.rest)
  }

  // ---------- Reading back what is printed ----------

  /** The two replacements in a row escape each character once. */
  function Escape(c: char): string {
    if c == '\\' then "\\\\" else if c == '\'' then "\\'" else [c]
  }

  lemma {:induction false} ReplaceJoin(a: string, b: string, c: char, put: string)
    ensures Replace(a + b, c, put) == Replace(a, c, put) + Replace(b, c, put)
  {
    if a == [] {
      assert a + b == b;
    } else {
      assert (a + b)[1..] == a[1..] + b;
      ReplaceJoin(a[1..], b, c, put);
    }
  }

  lemma EscapedSteps(s: string)
    requires s != []
    ensures Escaped(s) == Escape(s[0]) + Escaped(s[1..])
  {
    var first := if s[0] == '\\' then "\\\\" else [s[0]];
    var rest := Replace(s[1..], '\\', "\\\\");
    assert Replace(s, '\\', "\\\\") == first + rest;
    ReplaceJoin(first, rest, '\'', "\\'");
    assert Replace(first, '\'', "\\'") == Escape(s[0]) by {
      if s[0] == '\\' {
        assert first[1..] == "\\" && first[1..][1..] == "";
      } else {
        assert first[1..] == "";
      }
    }
  }

  lemma EscapeReads(c: char, more: string)
    ensures ReadString(Escape(c) + more) == Prefixed([c], ReadString(more))
  {
    var t := Escape(c) + more;
    assert t[|Escape(c)|..] == more;
  }

  lemma QuoteReads(t: string, rest: string)
    requires t != [] && t[0] == '\'' && t[1..] == rest
    requires rest == [] || rest[0] != '\''
    ensures ReadString(t) == Read([], rest)
  {
    if rest != [] {
      assert t[1] == rest[0];
    }
  }

  lemma {:induction false} StringReadsBack(s: string, rest: string)
    requires rest == [] || rest[0] != '\''
    ensures ReadString(Escaped(s) + "'" + rest) == Read(s, rest)
  {
    hide ReadString, Escape;
    var t := Escaped(s) + "'" + rest;
    if s == [] {
      assert t[0] == '\'' && t[1..] == rest;
      QuoteReads(t, rest);
    } else {
      EscapedSteps(s);
      StringReadsBack(s[1..], rest);
      var more := Escaped(s[1..]) + "'" + rest;
      assert t == Escape(s[0]) + more;
      EscapeReads(s[0], more);
      assert s == [s[0]] + s[1..];
    }
  }

  lemma {:induction false} RunOf(s: string, rest: string, hex: bool)
    requires forall i :: 0 <= i < |s| ==> if hex then IsHex(s[i]) else IsDigit(s[i])
    requires rest == [] || if hex then !IsHex(rest[0]) else !IsDigit(rest[0])
    ensures Run(s + rest, hex) == |s|
  {
    if s == [] {
      assert s + rest == rest;
    } else {
      assert (s + rest)[1..] == s[1..] + rest;
      RunOf(s[1..], rest, hex);
    }
  }

  lemma RunSplits(s: Digits, rest: string)
    requires rest == [] || !IsDigit(rest[0])
    ensures var t := s + rest;
      Run(t, false) == |s| && t[..|s|] == s && t[|s|..] == rest
  {
    RunOf(s, rest, false);
  }

  lemma DecimalReadsBack(negative: bool, n: nat, rest: string)
    requires rest != [] && (rest[0] == ',' || rest[0] == ')')
    ensures ReadNumber(negative, Decimal(n) + rest) == Read(Integer(Signed(negative, n)), rest)
  {
    hide ReadTail, ReadNumber, Number;
    PointlessReads(negative, Decimal(n), rest);
    NumberOfDecimal(n);
    IntegerTail(negative, Decimal(n), rest);
  }

  lemma IntegerTail(negative: bool, whole: Digits, rest: string)
    requires rest != [] && (rest[0] == ',' || rest[0] == ')')
    ensures ReadTail(negative, whole, None, rest) == Read(Integer(Signed(negative, Number(whole))), rest)
  {
    hide Number;
  }

  /** A numeral with a point. */
  lemma PointReads(negative: bool, whole: Digits, decimals: Digits, tail: string)
    requires tail != [] && !IsDigit(tail[0])
    ensures ReadNumber(negative, whole + ("." + decimals + tail)) == ReadTail(negative, whole, Some(decimals), tail)
  {
    hide ReadTail, Run;
    var more := "." + decimals + tail;
    RunSplits(whole, more);
    RunSplits(decimals, tail);
    var s := whole + more;
    assert s[|whole|] == '.' && s[|whole| + 1..] == decimals + tail;
  }

  /** A numeral without one. */
  lemma PointlessReads(negative: bool, whole: Digits, tail: string)
    requires tail != [] && !IsDigit(tail[0]) && tail[0] != '.'
    ensures ReadNumber(negative, whole + tail) == ReadTail(negative, whole, None, tail)
  {
    hide ReadTail, Run;
    RunSplits(whole, tail);
    assert (whole + tail)[|whole|] == tail[0];
  }

  lemma ExponentReadsBack(down: bool, exponent: Digits, rest: string)
    requires rest != [] && (rest[0] == ',' || rest[0] == ')')
    ensures var s := (if down then "-" else "+") + (exponent + rest);
      ReadExponent(s) == Read(Exponent(down, exponent), rest)
  {
    var s := (if down then "-" else "+") + (exponent + rest);
    RunSplits(exponent, rest);
    assert s[1..] == exponent + rest;
    assert "-" <= s <==> s[0] == '-';
  }

  lemma TailReadsBack(negative: bool, whole: Digits, decimals: Option<Digits>, down: bool, exponent: Digits, rest: string)
    requires rest != [] && (rest[0] == ',' || rest[0] == ')')
    ensures var s := (if down then "e-" else "e+") + exponent + rest;
      ReadTail(negative, whole, decimals, s) == Read(Float(Scientific(negative, whole, decimals, down, exponent)), rest)
  {
    hide ReadExponent;
    var s := (if down then "e-" else "e+") + exponent + rest;
    ExponentReadsBack(down, exponent, rest);
    assert s[1..] == (if down then "-" else "+") + (exponent + rest);
  }

  lemma NumeralReadsBack(x: Double, rest: string)
    requires rest != [] && (rest[0] == ',' || rest[0] == ')')
    ensures ReadNumber(x.negative, Numeral(x) + rest) == if x.Infinite? then Unread else Read(Float(x), rest)
  {
    hide ReadTail, ReadNumber;
    match x
    case Plain(negative, whole, fraction) =>
      assert Numeral(x) + rest == whole + ("." + fraction + rest);
      PointReads(negative, whole, fraction, rest);
      PlainTail(negative, whole, fraction, rest);
    case Scientific(negative, whole, decimals, down, exponent) =>
      var tail := (if down then "e-" else "e+") + exponent + rest;
      assert tail[0] == 'e';
      TailReadsBack(negative, whole, decimals, down, exponent, rest);
      if decimals.None? {
        assert Numeral(x) + rest == whole + tail;
        PointlessReads(negative, whole, tail);
      } else {
        assert Numeral(x) + rest == whole + ("." + decimals.value + tail);
        PointReads(negative, whole, decimals.value, tail);
      }
    case Infinite(negative) =>
      InfinityUnread(negative, rest);
  }

  lemma InfinityUnread(negative: bool, rest: string)
    ensures ReadNumber(negative, "inf" + rest).Unread?
  {
    assert ("inf" + rest)[0] == 'i';
  }

  lemma PlainTail(negative: bool, whole: Digits, fraction: Digits, rest: string)
    requires rest != [] && (rest[0] == ',' || rest[0] == ')')
    ensures ReadTail(negative, whole, Some(fraction), rest) == Read(Float(Plain(negative, whole, fraction)), rest)
  {
  }

  lemma {:induction false} HexIsHex(bytes: seq<Byte>)
    ensures |Hex(bytes)| == 2 * |bytes| && forall i :: 0 <= i < |Hex(bytes)| ==> IsHex(Hex(bytes)[i])
    ensures Bytes(Hex(bytes)) == bytes
  {
    hide HexDigit, HexValue;
    if bytes != [] {
      HexIsHex(bytes[1..]);
      HexDigitValue(bytes[0] / 16);
      HexDigitValue(bytes[0] % 16);
      BytesOfTwo(HexDigit(bytes[0] / 16), HexDigit(bytes[0] % 16), Hex(bytes[1..]));
      assert bytes[0] == 16 * (bytes[0] / 16) + bytes[0] % 16;
      assert bytes == [bytes[0]] + bytes[1..];
    }
  }

  lemma BytesOfTwo(a: char, b: char, s: string)
    requires IsHex(a) && IsHex(b) && |s| % 2 == 0 && forall i :: 0 <= i < |s| ==> IsHex(s[i])
    ensures var t := [a, b] + s;
      && (forall i :: 0 <= i < |t| ==> IsHex(t[i]))
      && Bytes(t) == [16 * HexValue(a) + HexValue(b)] + Bytes(s)
  {
    hide IsHex, HexValue;
    assert ([a, b] + s)[2..] == s;
  }

  lemma HexDigitValue(d: nat)
    requires d < 16
    ensures IsHex(HexDigit(d)) && HexValue(HexDigit(d)) == d
  {
  }

  lemma EndsHex(s: string)
    requires Ends(s)
    ensures s == [] || !IsHex(s[0])
  {
  }

  lemma HexReadsBack(bytes: seq<Byte>, rest: string)
    requires Ends(rest)
    ensures ReadHex(Hex(bytes) + rest) == if bytes == [] then Unread else Read(bytes, rest)
  {
    hide Hex, Bytes, Run, Ends;
    HexIsHex(bytes);
    EndsHex(rest);
    RunOf(Hex(bytes), rest, true);
    assert (Hex(bytes) + rest)[..|Hex(bytes)|] == Hex(bytes);
  }

  /** Neither the literal of no bytes nor that of an infinity is one. */
  predicate Readable(v: Value) {
    (v.Blob? ==> v.bytes != []) && (v.Float? ==> !v.x.Infinite?)
  }

  lemma TextReadsBack(s: string, rest: string)
    requires rest == [] || rest[0] != '\''
    ensures ReadValue(Literal(Text(s)) + rest) == Read(Text(s), rest)
  {
    hide ReadString, ReadHex, ReadNumber, Escaped;
    var t := Literal(Text(s)) + rest;
    assert t[..1] == "'" && t[1..] == Escaped(s) + "'" + rest;
    StringReadsBack(s, rest);
  }

  lemma BlobReadsBack(bytes: seq<Byte>, rest: string)
    requires Ends(rest)
    ensures ReadValue(Literal(Blob(bytes)) + rest) == if bytes == [] then Unread else Read(Blob(bytes), rest)
  {
    hide ReadString, ReadHex, ReadNumber, Hex;
    var t := Literal(Blob(bytes)) + rest;
    assert t[..2] == "0x" && t[2..] == Hex(bytes) + rest;
    assert t[0] == '0';
    HexReadsBack(bytes, rest);
  }

  lemma IntegerReadsBack(n: int, rest: string)
    requires rest != [] && (rest[0] == ',' || rest[0] == ')')
    ensures ReadValue(Literal(Integer(n)) + rest) == Read(Integer(n), rest)
  {
    hide ReadString, ReadHex, ReadNumber, Decimal;
    var t := Literal(Integer(n)) + rest;
    if n < 0 {
      assert t[0] == '-' && t[1..] == Decimal(-n) + rest;
      DecimalReadsBack(true, -n, rest);
    } else {
      assert t[0] == Decimal(n)[0] && IsDigit(t[0]);
      DecimalReadsBack(false, n, rest);
      DecimalStarts(Decimal(n), rest);
    }
  }

  lemma FloatReadsBack(x: Double, rest: string)
    requires rest != [] && (rest[0] == ',' || rest[0] == ')')
    ensures ReadValue(Literal(Float(x)) + rest) == if x.Infinite? then Unread else Read(Float(x), rest)
  {
    hide ReadString, ReadHex, ReadNumber, Numeral;
    var t := Literal(Float(x)) + rest;
    NumeralReadsBack(x, rest);
    NumeralStarts(x, rest);
    if x.negative {
      assert t[0] == '-' && t[1..] == Numeral(x) + rest;
    } else {
      assert t == Numeral(x) + rest;
    }
  }

  lemma NumeralStarts(x: Double, rest: string)
    requires rest != []
    ensures var t := Numeral(x) + rest;
      !("0x" <= t) && (t[0] == 'i' || IsDigit(t[0])) && !("NULL" <= t) && !("-" <= t) && !("'" <= t)
  {
    var t := Numeral(x) + rest;
    match x
    case Plain(_, whole, fraction) =>
      assert t == whole + ("." + fraction + rest);
      DecimalStarts(whole, "." + fraction + rest);
    case Scientific(_, whole, decimals, down, exponent) =>
      var more := (if decimals.Some? then "." + decimals.value else "") + ((if down then "e-" else "e+") + exponent) + rest;
      assert t == whole + more;
      assert more[0] == '.' || more[0] == 'e';
      DecimalStarts(whole, more);
    case Infinite(_) =>
      assert t[0] == 'i';
  }

  /** A literal before a comma or a parenthesis reads back as its value, unless it is that of no bytes or of an infinity. */
  lemma ValueReadsBack(v: Value, rest: string)
    requires rest != [] && (rest[0] == ',' || rest[0] == ')')
    ensures ReadValue(Literal(v) + rest) == if Readable(v) then Read(v, rest) else Unread
  {
    match v
    case Null =>
      hide ReadString, ReadHex, ReadNumber;
      var t := Literal(v) + rest;
      assert t[0] == 'N' && t[..4] == "NULL" && t[4..] == rest;
    case Integer(n) => IntegerReadsBack(n, rest);
    case Float(x) => FloatReadsBack(x, rest);
    case Blob(bytes) => BlobReadsBack(bytes, rest);
    case Text(s) => TextReadsBack(s, rest);
  }

  lemma DecimalStarts(d: Digits, rest: string)
    requires rest != [] && rest[0] != 'x'
    ensures IsDigit((d + rest)[0]) && !("0x" <= d + rest)
  {
    var t := d + rest;
    assert t[0] == d[0];
    if |d| > 1 {
      assert t[1] == d[1] && IsDigit(d[1]);
    } else {
      assert t[1] == rest[0];
    }
    assert t[1] != "0x"[1];
  }

  lemma LiteralStarts(v: Value)
    ensures Literal(v) != [] && Literal(v)[0] != ')' && Literal(v)[0] != ' '
  {
    if v.Integer? && v.n >= 0 {
      assert IsDigit(Decimal(v.n)[0]);
    } else if v.Integer? {
      assert Literal(v)[0] == '-';
    } else if v.Float? && v.x.negative {
      assert Literal(v)[0] == '-';
    } else if v.Float? {
      NumeralStarts(v.x, ")");
      assert Literal(v) == Numeral(v.x) && (Numeral(v.x) + ")")[0] == Numeral(v.x)[0];
    }
  }

  lemma {:induction false} ValuesReadBack(row: seq<Value>, rest: string)
    requires row != []
    ensures ReadValues(Joined(Literals(row)) + ")" + rest)
      == if forall i :: 0 <= i < |row| ==> Readable(row[i]) then Read(row, rest) else Unread
    decreases |row|
  {
    hide ReadValue, Literal;
    var t := Joined(Literals(row)) + ")" + rest;
    var l := Literal(row[0]);
    assert Literals(row)[0] == l;
    if |row| == 1 {
      assert t == l + (")" + rest);
      ValueReadsBack(row[0], ")" + rest);
      assert SkipBlanks(")" + rest) == ")" + rest && (")" + rest)[1..] == rest;
      assert row == [row[0]];
    } else {
      assert Literals(row)[1..] == Literals(row[1..]);
      var after := Joined(Literals(row[1..])) + ")" + rest;
      assert t == l + (", " + after);
      ValueReadsBack(row[0], ", " + after);
      assert SkipBlanks(", " + after) == ", " + after && (", " + after)[1..] == " " + after;
      NextStarts(row[1..], rest);
      assert (" " + after)[1..] == after;
      assert SkipBlanks(" " + after) == after;
      ValuesReadBack(row[1..], rest);
      assert row == [row[0]] + row[1..];
      assert (forall i :: 0 <= i < |row| ==> Readable(row[i]))
        <==> Readable(row[0]) && forall i :: 0 <= i < |row[1..]| ==> Readable(row[1..][i]);
    }
  }

  lemma NextStarts(row: seq<Value>, rest: string)
    requires row != []
    ensures var t := Joined(Literals(row)) + ")" + rest;
      t[0] == Literal(row[0])[0] && t[0] != ' ' && t[0] != ')' && SkipBlanks(t) == t
  {
    hide Literal;
    LiteralStarts(row[0]);
    assert Literals(row)[0] == Literal(row[0]);
  }

  /**
   The values of a printed statement read back as exactly the row, whatever
   quotes, backslashes, commas and parentheses its strings hold, and the
   statement ends there, exactly when no value is an empty byte string or an infinity.
   */
  lemma StatementReadsBack(table: string, cols: seq<string>, row: seq<Value>)
    ensures var header := Header(table, cols);
      var sql := Insert(table, cols, row);
      && header <= sql
      && (ReadRow(sql[|header|..]) == Read(row, "") <==> forall i :: 0 <= i < |row| ==> Readable(row[i]))
  {
    hide Literal, ReadValue, Header;
    var header, sql := Header(table, cols), Insert(table, cols, row);
    assert sql[|header|..] == Joined(Literals(row)) + ")" + "";
    if row == [] {
      assert sql[|header|..] == ")";
    } else {
      NextStarts(row, "");
      ValuesReadBack(row, "");
    }
  }

  // ---------- The whole statement ----------

  lemma {:induction false} BeforeReads(name: string, c: char, rest: string)
    requires c !in name
    ensures Before(name + [c] + rest, c) == Read(name, rest)
  {
    var t := name + [c] + rest;
    if name == [] {
      assert t[1..] == rest;
    } else {
      assert t[1..] == name[1..] + [c] + rest;
      BeforeReads(name[1..], c, rest);
      assert name == [name[0]] + name[1..];
    }
  }

  lemma ColumnReads(t: string, col: string, rest: string)
    requires '`' !in col && t == "`" + col + "`" + rest
    ensures t != [] && t[0] == '`' && Before(t[1..], '`') == Read(col, rest)
  {
    assert t[1..] == col + ['`'] + rest;
    BeforeReads(col, '`', rest);
  }

  lemma {:induction false} ColumnsReadBack(cols: seq<string>, rest: string)
    requires cols != [] && forall i :: 0 <= i < |cols| ==> '`' !in cols[i]
    ensures ReadColumns(Joined(Quoted(cols)) + ") VALUES (" + rest) == Read(cols, rest)
    decreases |cols|
  {
    hide Before;
    var t := Joined(Quoted(cols)) + ") VALUES (" + rest;
    assert Quoted(cols)[0] == "`" + cols[0] + "`";
    if |cols| == 1 {
      var after := ") VALUES (" + rest;
      assert t == "`" + cols[0] + "`" + after;
      ColumnReads(t, cols[0], after);
      assert after[10..] == rest && cols == [cols[0]];
    } else {
      assert Quoted(cols)[1..] == Quoted(cols[1..]);
      var more := Joined(Quoted(cols[1..])) + ") VALUES (" + rest;
      var after := ", " + more;
      assert t == "`" + cols[0] + "`" + after;
      ColumnReads(t, cols[0], after);
      assert after[2..] == more && after[0] == ',';
      ColumnsReadBack(cols[1..], rest);
      assert cols == [cols[0]] + cols[1..];
    }
  }

  /**
   A whole printed statement reads back as its table, its columns in order and
   exactly the row, with nothing left over, exactly when no value is an empty
   byte string or an infinity; for a table name without blanks and columns without backquotes.
   */
  lemma InsertReadsBack(table: string, cols: seq<string>, row: seq<Value>)
    requires ' ' !in table && cols != [] && forall i :: 0 <= i < |cols| ==> '`' !in cols[i]
    ensures ReadInsert(Insert(table, cols, row)) == Read(Statement(table, cols, row), "")
      <==> forall i :: 0 <= i < |row| ==> Readable(row[i])
  {
    hide Literal, ReadValue, ReadColumns, Before, Joined, ReadRow;
    var sql := Insert(table, cols, row);
    var values := sql[|Header(table, cols)|..];
    var columns := Joined(Quoted(cols)) + ") VALUES (" + values;
    assert sql == Header(table, cols) + values;
    assert sql[12..] == table + [' '] + ("(" + columns);
    assert "INSERT INTO " <= sql by {
      assert sql[..12] == "INSERT INTO ";
    }
    BeforeReads(table, ' ', "(" + columns);
    assert ("(" + columns)[1..] == columns;
    ColumnsReadBack(cols, values);
    StatementReadsBack(table, cols, row);
  }

  // ---------- The reader's own rules ----------

  /** Hex digits, and the characters that continue an identifier and so may not follow a
      literal, by their codes. */
  lemma ReaderCharacters(c: char)
    ensures IsHex(c) <==> var n := c as int; 48 <= n <= 57 || 65 <= n <= 70 || 97 <= n <= 102
    ensures IsWord(c) <==> var n := c as int; 48 <= n <= 57 || 65 <= n <= 90 || 97 <= n <= 122 || n == 95 || n == 36 || n >= 128
  {
  }

  /** Inside a string a backslash and one of these letters stand for a control character; a
      percent sign and an underscore keep their backslash, any other character loses it. */
  lemma BackslashReads(c: char, more: string)
    ensures var put :=
        match c
        case '0' => "\U{00}" case 'b' => "\U{08}" case 't' => "\t" case 'n' => "\n" case 'r' => "\r" case 'Z' => "\U{1A}"
        case '%' => "\\%" case '_' => "\\_" case _ => [c];
      ReadString("\\" + [c] + more) == Prefixed(put, ReadString(more))
  {
    var s := "\\" + [c] + more;
    assert s[0] == '\\' && s[1] == c && s[2..] == more;
  }

  /** Two quotes in a row are one, everywhere in a string. */
  lemma DoubledQuoteReads(more: string)
    ensures ReadString("''" + more) == Prefixed("'", ReadString(more))
  {
    assert ("''" + more)[2..] == more;
  }
}
