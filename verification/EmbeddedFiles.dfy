/** The generator that turns a binary file into the C++ text of a string constant, and the part of
    the C++ lexical grammar needed to read that text back. */
module EmbeddedFiles {

  type byte = x: int | 0 <= x < 256

  datatype Option<T> = None | Some(value: T)

  const HEX_DIGITS := "0123456789abcdef"

  /** The `%02x` conversion behind a backslash and an x. */
  function Escape(b: byte): (r: string)
    ensures |r| == 4
  {
    "\\x" + [HEX_DIGITS[b / 16], HEX_DIGITS[b % 16]]
  }

  /** What the loop prints before byte j. */
  function Break(j: nat): string {
    if j % 16 != 0 then "" else (if j > 0 then "\"" else "") + "\n  \""
  }

  function Literals(bytes: seq<byte>): string {
    if bytes == [] then ""
    else Literals(bytes[..|bytes| - 1]) + Break(|bytes| - 1) + Escape(bytes[|bytes| - 1])
  }

  /** The `%d` conversion of a natural number. */
  function Decimal(n: nat): (r: string)
    ensures r != [] && forall i :: 0 <= i < |r| ==> '0' <= r[i] <= '9'
  {
    if n < 10 then [HEX_DIGITS[n]] else Decimal(n / 10) + [HEX_DIGITS[n % 10]]
  }

  /** The arguments of the string constructor as printed for one file. */
  function Printed(bytes: seq<byte>): string {
    Literals(bytes) + "\"" + ",\n  " + Decimal(|bytes|) + ");\n\n"
  }

  method PrintFile(bytes: seq<byte>) returns (out: string)
    ensures out == Printed(bytes)
  {
    out := "";
    var j := 0;
    while j < |bytes|
      invariant 0 <= j <= |bytes|
      invariant out == Literals(bytes[..j])
    {
      assert bytes[..j + 1][..j] == bytes[..j];
      ghost var before := out;
      if j % 16 == 0 {
        if j > 0 {
          out := out + "\"";
        }
        out := out + "\n  \"";
      }
      assert out == before + Break(j);
      out := out + Escape(bytes[j]);
      j := j + 1;
    }
    assert bytes[..j] == bytes;
    out := out + "\"";
    out := out + ",\n  " + Decimal(j) + ");\n\n";
  }

  // ---- Reading ----

  predicate IsHex(ch: char) {
    '0' <= ch <= '9' || 'a' <= ch <= 'f' || 'A' <= ch <= 'F'
  }

  function HexValue(ch: char): (v: nat)
    requires IsHex(ch)
    ensures v < 16
  {
    if '0' <= ch <= '9' then ch as int - '0' as int
    else if 'a' <= ch <= 'f' then ch as int - 'a' as int + 10
    else ch as int - 'A' as int + 10
  }

  /** A hexadecimal escape takes the longest run of hexadecimal digits (C++11, section 2.14.3). */
  function HexRun(s: string): (n: nat)
    ensures n <= |s| && forall i :: 0 <= i < n ==> IsHex(s[i])
    ensures n < |s| ==> !IsHex(s[n])
  {
    if s == [] || !IsHex(s[0]) then 0 else 1 + HexRun(s[1..])
  }

  function HexNumber(s: string): nat
    requires forall i :: 0 <= i < |s| ==> IsHex(s[i])
  {
    if s == [] then 0 else 16 * HexNumber(s[..|s| - 1]) + HexValue(s[|s| - 1])
  }

  /** Characters up to the closing quote of a literal, and the text behind it. */
  function LexBody(s: string): (r: Option<(seq<byte>, string)>)
    ensures r.Some? ==> |r.value.1| < |s|
    decreases |s|
  {
    if s == [] || s[0] == '\n' then None
    else if s[0] == '"' then Some(([], s[1..]))
    else if s[0] == '\\' then
      if |s| < 2 || s[1] != 'x' then None
      else
        var n := HexRun(s[2..]);
        if n == 0 || HexNumber(s[2..2 + n]) > 255 then None
        else Prepend(HexNumber(s[2..2 + n]), LexBody(s[2 + n..]))
    else if s[0] as int > 255 then None
    else Prepend(s[0] as int, LexBody(s[1..]))
  }

  function Prepend(b: byte, r: Option<(seq<byte>, string)>): Option<(seq<byte>, string)> {
    if r.None? then None else Some(([b] + r.value.0, r.value.1))
  }

  function SkipSpace(s: string): (r: string)
    ensures |r| <= |s|
  {
    if s != [] && (s[0] == ' ' || s[0] == '\n') then SkipSpace(s[1..]) else s
  }

  /** Adjacent literals are concatenated, and each keeps its own characters (section 2.14.5). */
  function LexLiterals(s: string): Option<(seq<byte>, string)>
    decreases |s|, 0
  {
    var t := SkipSpace(s);
    if t == [] || t[0] != '"' then Some(([], t)) else FromBody(t[1..])
  }

  function FromBody(s: string): Option<(seq<byte>, string)>
    decreases |s|, 1
  {
    var r := LexBody(s);
    if r.None? then None
    else
      var more := LexLiterals(r.value.1);
      if more.None? then None else Some((r.value.0 + more.value.0, more.value.1))
  }

  function DigitRun(s: string): (n: nat)
    ensures n <= |s| && forall i :: 0 <= i < n ==> '0' <= s[i] <= '9'
  {
    if s == [] || !('0' <= s[0] <= '9') then 0 else 1 + DigitRun(s[1..])
  }

  function Number(s: string): nat
    requires forall i :: 0 <= i < |s| ==> '0' <= s[i] <= '9'
  {
    if s == [] then 0 else 10 * Number(s[..|s| - 1]) + (s[|s| - 1] as int - '0' as int)
  }

  /** The two arguments: a string literal and a length. */
  function Read(s: string): Option<(seq<byte>, nat)> {
    var t := SkipSpace(s);
    if t == [] || t[0] != '"' then None
    else
      var r := FromBody(t[1..]);
      if r.None? || r.value.1 == [] || r.value.1[0] != ',' then None
      else
        var u := SkipSpace(r.value.1[1..]);
        var n := DigitRun(u);
        if n == 0 || n == |u| || u[n] != ')' then None else Some((r.value.0, Number(u[..n])))
  }

  // ---- The text seen from the front ----

  /** What is printed from byte j on, followed by the closing quote and the rest. */
  function Tail(bytes: seq<byte>, j: nat, rest: string): string
    requires j <= |bytes|
    decreases |bytes| - j
  {
    if j == |bytes| then "\"" + rest else Break(j) + Escape(bytes[j]) + Tail(bytes, j + 1, rest)
  }

  lemma {:induction false} LiteralsAndTail(bytes: seq<byte>, j: nat, rest: string)
    requires j <= |bytes|
    ensures Literals(bytes[..j]) + Tail(bytes, j, rest) == Literals(bytes) + "\"" + rest
    decreases |bytes| - j
  {
    hide Break, Escape;
    if j == |bytes| {
      assert bytes[..j] == bytes;
    } else {
      LiteralsAndTail(bytes, j + 1, rest);
      assert bytes[..j + 1][..j] == bytes[..j];
      Regroup(Literals(bytes[..j]), Break(j), Escape(bytes[j]), Tail(bytes, j + 1, rest));
    }
  }

  lemma Regroup(a: string, b: string, c: string, d: string)
    ensures a + (b + c + d) == (a + b + c) + d
  {
  }

  lemma TailStartsPlain(bytes: seq<byte>, j: nat, rest: string)
    requires 0 < j <= |bytes|
    ensures Tail(bytes, j, rest) != [] && !IsHex(Tail(bytes, j, rest)[0])
  {
  }

  lemma EscapeValue(b: byte, tail: string)
    requires tail != [] && !IsHex(tail[0])
    ensures var s := Escape(b) + tail;
            && s[0] == '\\' && s[1] == 'x' && HexRun(s[2..]) == 2 && s[2..4] == Escape(b)[2..] && s[4..] == tail
            && HexNumber(s[2..4]) == b
  {
    var s := Escape(b) + tail;
    var hi, lo := HEX_DIGITS[b / 16], HEX_DIGITS[b % 16];
    assert s[2..] == [hi, lo] + tail;
    assert s[2..][1..] == [lo] + tail && s[2..][1..][1..] == tail;
    DigitValue(b / 16);
    DigitValue(b % 16);
    assert s[2..4] == [hi, lo] && [hi, lo][..1] == [hi] && [hi][..0] == [];
    assert HexNumber([hi]) == b / 16;
  }

  lemma DigitValue(d: nat)
    requires d < 16
    ensures IsHex(HEX_DIGITS[d]) && HexValue(HEX_DIGITS[d]) == d
  {
  }

  lemma SkipBreak(t: string)
    requires t != [] && t[0] != ' ' && t[0] != '\n'
    ensures SkipSpace("\n  " + t) == t
  {
    var s1 := " " + t;
    var s2 := " " + s1;
    var s3 := "\n" + s2;
    assert "\n  " + t == s3;
    assert s3[1..] == s2 && s2[1..] == s1 && s1[1..] == t;
    assert SkipSpace(s1) == t;
  }

  lemma LexEscape(b: byte, tail: string)
    requires tail != [] && !IsHex(tail[0])
    ensures LexBody(Escape(b) + tail) == Prepend(b, LexBody(tail))
  {
    hide Escape, HexRun, HexNumber;
    EscapeValue(b, tail);
  }

  /** Reading one escaped byte inside a literal. */
  lemma ReadEscape(b: byte, tail: string)
    requires tail != [] && !IsHex(tail[0]) && FromBody(tail).Some?
    ensures FromBody(Escape(b) + tail) == Some(([b] + FromBody(tail).value.0, FromBody(tail).value.1))
  {
    hide Escape, LexBody, LexLiterals;
    LexEscape(b, tail);
    var r := LexBody(tail).value;
    Cons(b, r.0, LexLiterals(r.1).value.0);
  }

  lemma Cons(b: byte, x: seq<byte>, y: seq<byte>)
    ensures ([b] + x) + y == [b] + (x + y)
  {
  }

  lemma ReadClose(rest: string)
    requires rest != [] && rest[0] == ','
    ensures FromBody("\"" + rest) == Some(([], rest))
  {
    var s := "\"" + rest;
    assert s[1..] == rest;
    assert LexBody(s) == Some(([], rest));
    assert LexLiterals(rest) == Some(([], rest));
    var none: seq<byte> := [];
    assert none + none == none;
  }

  /** Closing a literal and opening the next one on a new line continues the string. */
  lemma ReadBreak(body: string)
    requires FromBody(body).Some?
    ensures FromBody("\"" + ("\n  " + ("\"" + body))) == FromBody(body)
  {
    var line := "\n  " + ("\"" + body);
    var s := "\"" + line;
    SkipBreak("\"" + body);
    assert ("\"" + body)[1..] == body;
    assert LexLiterals(line) == FromBody(body);
    assert s[1..] == line;
    assert LexBody(s) == Some(([], line));
    var none: seq<byte> := [];
    assert none + FromBody(body).value.0 == FromBody(body).value.0;
  }

  lemma LaterBreak(j: nat, e: string, t: string)
    requires j > 0
    ensures Break(j) + e + t == if j % 16 == 0 then "\"" + ("\n  " + ("\"" + (e + t))) else e + t
  {
  }

  /** Inside a literal, the text from byte j on reads as the bytes from j on, across every break. */
  lemma {:induction false} ReadTail(bytes: seq<byte>, j: nat, rest: string)
    requires 0 < j <= |bytes|
    requires rest != [] && rest[0] == ','
    ensures FromBody(Tail(bytes, j, rest)) == Some((bytes[j..], rest))
    decreases |bytes| - j
  {
    hide FromBody, LexBody, LexLiterals, Escape, Break;
    if j == |bytes| {
      ReadClose(rest);
    } else {
      var next := Tail(bytes, j + 1, rest);
      ReadTail(bytes, j + 1, rest);
      TailStartsPlain(bytes, j + 1, rest);
      ReadEscape(bytes[j], next);
      assert bytes[j..] == [bytes[j]] + bytes[j + 1..];
      LaterBreak(j, Escape(bytes[j]), next);
      if j % 16 == 0 {
        ReadBreak(Escape(bytes[j]) + next);
      }
    }
  }

  // ---- Numbers ----

  lemma {:induction false} DecimalValue(n: nat)
    ensures Number(Decimal(n)) == n
  {
    if n < 10 {
      assert Decimal(n)[..0] == [];
    } else {
      DecimalValue(n / 10);
      var d := Decimal(n);
      assert d[..|d| - 1] == Decimal(n / 10);
    }
  }

  lemma {:induction false} DigitRunOf(d: string, rest: string)
    requires forall i :: 0 <= i < |d| ==> '0' <= d[i] <= '9'
    requires rest != [] && !('0' <= rest[0] <= '9')
    ensures DigitRun(d + rest) == |d|
  {
    if d == [] {
      assert d + rest == rest;
    } else {
      assert (d + rest)[1..] == d[1..] + rest;
      DigitRunOf(d[1..], rest);
    }
  }

  lemma ReadLength(n: nat)
    ensures var u := SkipSpace("\n  " + Decimal(n) + ");\n\n");
            && u == Decimal(n) + ");\n\n" && DigitRun(u) == |Decimal(n)|
            && Number(u[..|Decimal(n)|]) == n && u[|Decimal(n)|] == ')'
  {
    var d := Decimal(n);
    assert "\n  " + d + ");\n\n" == "\n  " + (d + ");\n\n");
    SkipBreak(d + ");\n\n");
    DigitRunOf(d, ");\n\n");
    DecimalValue(n);
    assert (d + ");\n\n")[..|d|] == d;
  }

  // ---- Round trip ----

  function Rest(n: nat): string {
    ",\n  " + Decimal(n) + ");\n\n"
  }

  /** The printed text opens a literal and goes on with the first byte. */
  lemma PrintedOpens(bytes: seq<byte>)
    requires bytes != []
    ensures Printed(bytes) == "\n  " + ("\"" + (Escape(bytes[0]) + Tail(bytes, 1, Rest(|bytes|))))
  {
    hide Escape, Decimal, Break, Rest, Literals, Printed;
    var rest := Rest(|bytes|);
    LiteralsAndTail(bytes, 0, rest);
    assert bytes[..0] == [];
    PrintedParts(bytes);
    FirstBreak(Escape(bytes[0]), Tail(bytes, 1, rest));
    NothingFirst(Tail(bytes, 0, rest));
  }

  lemma PrintedParts(bytes: seq<byte>)
    ensures Printed(bytes) == Literals(bytes) + "\"" + Rest(|bytes|)
  {
    hide Decimal, Literals;
  }

  lemma FirstBreak(e: string, t: string)
    ensures Break(0) + e + t == "\n  " + ("\"" + (e + t))
  {
  }

  lemma NothingFirst(t: string)
    ensures Literals([]) + t == t
  {
  }

  lemma ReadNonEmpty(bytes: seq<byte>)
    requires bytes != []
    ensures Read(Printed(bytes)) == Some((bytes, |bytes|))
  {
    hide Escape, Tail, Decimal, Printed, FromBody, Number;
    var rest := Rest(|bytes|);
    var next := Tail(bytes, 1, rest);
    var body := Escape(bytes[0]) + next;
    PrintedOpens(bytes);
    SkipBreak("\"" + body);
    assert ("\"" + body)[1..] == body;
    ReadTail(bytes, 1, rest);
    TailStartsPlain(bytes, 1, rest);
    ReadEscape(bytes[0], next);
    assert bytes == [bytes[0]] + bytes[1..];
    assert rest[1..] == "\n  " + Decimal(|bytes|) + ");\n\n";
    ReadLength(|bytes|);
  }

  /** Print and read round trip: the printed text of a file reads back as its bytes together with
      their number, across every line break, exactly when the file is not empty. */
  lemma RoundTripIff(bytes: seq<byte>)
    ensures Read(Printed(bytes)) == Some((bytes, |bytes|)) <==> bytes != []
  {
    if bytes != [] {
      ReadNonEmpty(bytes);
    } else {
      var s := Printed(bytes);
      assert s[0] == '"' && s[1..][0] == ',' && s[1..][1..][0] == '\n';
      assert LexBody(s[1..][1..]) == None;
      assert LexBody(s[1..]) == None;
    }
  }

  // ---- Layout ----

  /** The characters printed before byte n, apart from the four of each earlier byte. */
  function Breaks(n: nat): nat {
    if n == 0 then 0 else 4 + 5 * ((n - 1) / 16)
  }

  lemma BreakLength(n: nat)
    ensures Breaks(n) + |Break(n)| == Breaks(n + 1) == 4 + 5 * (n / 16)
  {
  }

  lemma {:induction false} LiteralsLength(bytes: seq<byte>)
    ensures |Literals(bytes)| == 4 * |bytes| + Breaks(|bytes|)
  {
    hide Escape, Break, Breaks;
    if bytes == [] {
      assert Breaks(0) == 0 by { NoBreaks(); }
    } else {
      LiteralsLength(bytes[..|bytes| - 1]);
      BreakLength(|bytes| - 1);
    }
  }

  lemma NoBreaks()
    ensures Breaks(0) == 0
  {
  }

  lemma {:induction false} LiteralsPrefix(bytes: seq<byte>, j: nat)
    requires j <= |bytes|
    ensures Literals(bytes[..j]) <= Literals(bytes)
    decreases |bytes|
  {
    hide Escape, Break;
    if j == |bytes| {
      assert bytes[..j] == bytes;
    } else {
      LiteralsPrefix(bytes[..|bytes| - 1], j);
      assert bytes[..|bytes| - 1][..j] == bytes[..j];
    }
  }

  lemma EscapeIs(b: byte)
    ensures var e := Escape(b);
            && e[0] == '\\' && e[1] == 'x' && IsHex(e[2]) && IsHex(e[3])
            && 16 * HexValue(e[2]) + HexValue(e[3]) == b
  {
    DigitValue(b as int / 16);
    DigitValue(b as int % 16);
  }

  lemma BreakIs(j: nat)
    requires j % 16 == 0
    ensures var b := Break(j);
            |b| >= 4 && b[|b| - 4..] == "\n  \"" && (j > 0 ==> |b| == 5 && b[0] == '"')
  {
  }

  lemma PrintedSplits(bytes: seq<byte>, j: nat)
    requires j < |bytes|
    ensures Literals(bytes[..j]) + Break(j) + Escape(bytes[j]) <= Printed(bytes)
    ensures |Literals(bytes[..j])| + |Break(j)| == 4 * j + 4 + 5 * (j / 16)
  {
    hide Escape, Break, Decimal;
    assert bytes[..j + 1][..j] == bytes[..j];
    LiteralsPrefix(bytes, j + 1);
    LiteralsLength(bytes[..j]);
    BreakLength(j);
  }

  lemma Middle(a: string, b: string, e: string, s: string)
    requires a + b + e <= s
    ensures var p := |a| + |b|; p + |e| <= |s| && s[|a|..p] == b && s[p..p + |e|] == e
  {
  }

  /** Where byte j stands in the printed text and how it is written: four characters a byte, a backslash,
      an x and two hexadecimal digits, and a new line of four or, behind a closing quote, five characters
      before every sixteenth byte. */
  lemma PrintedAt(bytes: seq<byte>, j: nat)
    requires j < |bytes|
    ensures var s, p := Printed(bytes), 4 * j + 4 + 5 * (j / 16);
            && p + 4 <= |s| && s[p] == '\\' && s[p + 1] == 'x'
            && IsHex(s[p + 2]) && IsHex(s[p + 3]) && 16 * HexValue(s[p + 2]) + HexValue(s[p + 3]) == bytes[j]
            && (j % 16 == 0 ==> s[p - 4..p] == "\n  \"" && (j > 0 ==> s[p - 5] == '"'))
  {
    hide Literals, Printed, IsHex, HexValue, Escape, Break;
    PrintedSplits(bytes, j);
    var s, a, b, e := Printed(bytes), Literals(bytes[..j]), Break(j), Escape(bytes[j]);
    Middle(a, b, e, s);
    EscapeIs(bytes[j]);
    var p := |a| + |b|;
    assert s[p..p + 4][0] == s[p] && s[p..p + 4][1] == s[p + 1];
    assert s[p..p + 4][2] == s[p + 2] && s[p..p + 4][3] == s[p + 3];
    if j % 16 == 0 {
      BreakIs(j);
      assert s[p - 4..p] == b[|b| - 4..];
    }
  }
}
