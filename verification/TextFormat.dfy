/** The part of printf and scanf that the exec state text uses: %d, %x and %lx, each followed by a
    delimiter. */
module TextFormat {
  import opened HexDigits
  import opened Sequences

  datatype Item = Dec | Hex | LongHex

  /** Conversions, each with the character that follows it. */
  type Format = seq<(Item, char)>

  predicate Int32(v: int) {
    -0x8000_0000 <= v < 0x8000_0000
  }

  /** A value the conversion prints and reads without loss. */
  predicate InRange(item: Item, v: int) {
    match item
    case Dec => Int32(v)
    case Hex => 0 <= v < 0x1_0000_0000
    case LongHex => 0 <= v < 0x1_0000_0000_0000_0000
  }

  // ---- digits ------------------------------------------------------------------------------------

  function Digits(n: nat, b: nat): (r: string)
    requires 2 <= b <= 16
    ensures |r| > 0
  {
    if n < b then [DigitChar(n)] else Digits(n / b, b) + [DigitChar(n % b)]
  }

  // ---- printing ----------------------------------------------------------------------------------

  function PrintNumber(item: Item, v: int): string
    requires InRange(item, v)
  {
    if item.Dec? then if v < 0 then "-" + Digits(-v, 10) else Digits(v, 10) else Digits(v, 16)
  }

  /** The values fit the conversions of the format. */
  predicate Fits(fmt: Format, vals: seq<int>) {
    |fmt| == |vals| && forall k :: 0 <= k < |fmt| ==> InRange(fmt[k].0, vals[k])
  }

  function Printf(fmt: Format, vals: seq<int>): string
    requires Fits(fmt, vals)
  {
    if fmt == [] then "" else PrintNumber(fmt[0].0, vals[0]) + [fmt[0].1] + Printf(fmt[1..], vals[1..])
  }

  // ---- scanning ----------------------------------------------------------------------------------

  datatype Scanned = NoNumber | Number(value: int, next: nat)

  function CharAt(s: string, i: nat): char {
    if i < |s| then s[i] else '\0'
  }

  function SkipBlanks(s: string, i: nat): (j: nat)
    ensures i <= j && (i <= |s| ==> j <= |s|)
    decreases |s| - i
  {
    if CharAt(s, i) in {' ', '\t', '\n', '\r'} && i < |s| then SkipBlanks(s, i + 1) else i
  }

  /** Digits from `i` on, after `acc`. */
  function ScanDigits(s: string, i: nat, b: nat, acc: int): (int, nat)
    decreases |s| - i
  {
    if i < |s| && 0 <= DigitOf(s[i]) < b then ScanDigits(s, i + 1, b, acc * b + DigitOf(s[i])) else (acc, i)
  }

  /** What a C long conversion keeps of a number that is too large. */
  function Clamp(v: int, lo: int, hi: int): int {
    if v < lo then lo else if v > hi then hi else v
  }

  function Convert(item: Item, negative: bool, v: int): int {
    match item
    case Dec =>
      var w := Clamp(if negative then -v else v, -0x8000_0000_0000_0000, 0x7fff_ffff_ffff_ffff) % 0x1_0000_0000;
      if w >= 0x8000_0000 then w - 0x1_0000_0000 else w
    case Hex =>
      var w := Clamp(v, 0, 0xffff_ffff_ffff_ffff); (if negative then -w else w) % 0x1_0000_0000
    case LongHex =>
      var w := Clamp(v, 0, 0xffff_ffff_ffff_ffff); (if negative then -w else w) % 0x1_0000_0000_0000_0000
  }

  function ScanNumber(s: string, i: nat, item: Item): Scanned {
    var j := SkipBlanks(s, i);
    var negative := CharAt(s, j) == '-';
    var k := if negative || CharAt(s, j) == '+' then j + 1 else j;
    var b := if item.Dec? then 10 else 16;
    var m := if b == 16 && CharAt(s, k) == '0' && CharAt(s, k + 1) in {'x', 'X'} then k + 2 else k;
    var (v, next) := ScanDigits(s, m, b, 0);
    if next == m then NoNumber else Number(Convert(item, negative, v), next)
  }

  /** The values sscanf converts from `s` at `i`, up to the first mismatch; what follows the last
      conversion of a format makes no difference. */
  function Sscanf(s: string, i: nat, fmt: Format): seq<int>
    decreases |fmt|
  {
    if fmt == [] then []
    else
      match ScanNumber(s, i, fmt[0].0)
      case NoNumber => []
      case Number(v, next) => [v] + if CharAt(s, next) == fmt[0].1 then Sscanf(s, next + 1, fmt[1..]) else []
  }

  // ---- scanning what was printed -------------------------------------------------------------------

  lemma ScanStep(s: string, i: nat, b: nat, acc: int, d: int)
    requires 0 <= d < b <= 16 && At(s, i, [DigitChar(d)])
    ensures ScanDigits(s, i, b, acc) == ScanDigits(s, i + 1, b, acc * b + d)
  {
    AtHead(s, i, [DigitChar(d)]);
    DigitIs(d);
  }

  lemma LastDigit(n: nat, b: nat)
    requires b > 0
    ensures n / b * b + n % b == n
  {
  }

  lemma {:induction false} ScanDigitsIs(s: string, i: nat, n: nat, b: nat)
    requires 2 <= b <= 16 && At(s, i, Digits(n, b))
    ensures ScanDigits(s, i, b, 0) == ScanDigits(s, i + |Digits(n, b)|, b, n)
    decreases n
  {
    hide ScanDigits, At, DigitChar;
    if n < b {
      ScanStep(s, i, b, 0, n);
    } else {
      var w, c := Digits(n / b, b), DigitChar(n % b);
      AtJoin(s, i, w, [c]);
      ScanDigitsIs(s, i, n / b, b);
      LastDigit(n, b);
      ScanStep(s, i + |w|, b, n / b, n % b);
    }
  }

  /** Printed digits are digits: the first is neither blank nor sign, and "0x" does not occur. */
  lemma {:induction false} DigitsChars(n: nat, b: nat)
    requires 2 <= b <= 16
    ensures forall k :: 0 <= k < |Digits(n, b)| ==> 0 <= DigitOf(Digits(n, b)[k]) < b
  {
    if n < b {
      DigitIs(n);
    } else {
      DigitsChars(n / b, b);
      DigitIs(n % b);
    }
  }

  lemma DigitNotSpecial(c: char)
    ensures DigitOf(c) >= 0 ==> c !in {',', '{', '}', '-', '+', ' ', '\t', '\n', '\r', 'x', 'X', '\0'}
  {
  }

  lemma ConvertIs(item: Item, v: int)
    requires InRange(item, v)
    ensures Convert(item, v < 0, if v < 0 then -v else v) == v
  {
  }

  /** The digits of a number, once blanks and sign are skipped. */
  lemma DigitsRead(s: string, k: nat, n: nat, b: nat)
    requires (b == 10 || b == 16) && At(s, k, Digits(n, b))
    requires var c := CharAt(s, k + |Digits(n, b)|); DigitOf(c) < 0 && c !in {'x', 'X'}
    ensures ScanDigits(s, k, b, 0) == (n, k + |Digits(n, b)|) && CharAt(s, k + 1) !in {'x', 'X'}
    ensures CharAt(s, k) !in {' ', '\t', '\n', '\r', '-', '+'}
  {
    NextChar(s, k, n, b);
    ScanDigitsIs(s, k, n, b);
    DigitsChars(n, b);
    AtHead(s, k, Digits(n, b));
    DigitNotSpecial(s[k]);
    hide Digits, At, DigitOf;
  }

  /** A printed number that no digit or 'x' follows reads back. */
  lemma NumberIs(s: string, i: nat, item: Item, v: int)
    requires InRange(item, v) && At(s, i, PrintNumber(item, v))
    requires var c := CharAt(s, i + |PrintNumber(item, v)|); DigitOf(c) < 0 && c !in {'x', 'X'}
    ensures ScanNumber(s, i, item) == Number(v, i + |PrintNumber(item, v)|)
  {
    hide Digits, At, DigitOf, ScanDigits, Convert;
    ConvertIs(item, v);
    if v < 0 {
      var w := Digits(-v, 10);
      AtJoin(s, i, "-", w);
      AtHead(s, i, "-");
      DigitsRead(s, i + 1, -v, 10);
    } else {
      DigitsRead(s, i, v, if item.Dec? then 10 else 16);
    }
  }

  lemma NextChar(s: string, k: nat, n: nat, b: nat)
    requires 2 <= b <= 16 && At(s, k, Digits(n, b)) && CharAt(s, k + |Digits(n, b)|) !in {'x', 'X'}
    ensures CharAt(s, k + 1) !in {'x', 'X'}
  {
    var w := Digits(n, b);
    if |w| > 1 {
      DigitsChars(n, b);
      assert s[k..k + |w|][1] == s[k + 1];
      DigitNotSpecial(s[k + 1]);
    }
  }

  /** No delimiter can continue a number. */
  predicate Delimited(fmt: Format) {
    forall k :: 0 <= k < |fmt| ==> DigitOf(fmt[k].1) < 0 && fmt[k].1 !in {'x', 'X', '\0'}
  }

  /** A printed conversion followed by its delimiter. */
  lemma DelimitedNumber(s: string, i: nat, fmt: Format, vals: seq<int>)
    requires fmt != [] && Fits(fmt, vals) && Delimited(fmt) && At(s, i, Printf(fmt, vals))
    ensures var next := i + |PrintNumber(fmt[0].0, vals[0])|;
            ScanNumber(s, i, fmt[0].0) == Number(vals[0], next) && CharAt(s, next) == fmt[0].1 &&
            At(s, next + 1, Printf(fmt[1..], vals[1..]))
  {
    hide At, ScanNumber, PrintNumber, InRange, DigitOf;
    var w, d, rest := PrintNumber(fmt[0].0, vals[0]), [fmt[0].1], Printf(fmt[1..], vals[1..]);
    AtJoin(s, i, w + d, rest);
    AtJoin(s, i, w, d);
    AtHead(s, i + |w|, d);
    NumberIs(s, i, fmt[0].0, vals[0]);
  }

  /** sscanf inverts printf, whatever follows. */
  lemma {:induction false} ScanPrinted(s: string, i: nat, fmt: Format, vals: seq<int>)
    requires Fits(fmt, vals) && Delimited(fmt) && At(s, i, Printf(fmt, vals))
    ensures Sscanf(s, i, fmt) == vals
    decreases |fmt|
  {
    hide At, ScanNumber, PrintNumber, InRange, DigitOf, Printf;
    if fmt != [] {
      DelimitedNumber(s, i, fmt, vals);
      ScanPrinted(s, i + |PrintNumber(fmt[0].0, vals[0])| + 1, fmt[1..], vals[1..]);
      assert vals == [vals[0]] + vals[1..];
    }
  }

  /** Text of digits, signs and commas. */
  predicate Plain(w: string) {
    forall k :: 0 <= k < |w| ==> DigitOf(w[k]) >= 0 || w[k] == '-' || w[k] == ','
  }

  lemma PlainNumber(item: Item, v: int)
    requires InRange(item, v)
    ensures Plain(PrintNumber(item, v))
  {
    DigitsChars(if v < 0 then -v else v, if item.Dec? then 10 else 16);
    hide Digits, DigitOf;
  }

  lemma PlainJoin(a: string, b: string)
    ensures Plain(a + b) <==> Plain(a) && Plain(b)
  {
    hide DigitOf;
    if Plain(a + b) {
      assert forall k :: 0 <= k < |a| ==> a[k] == (a + b)[k];
      assert forall k :: 0 <= k < |b| ==> b[k] == (a + b)[|a| + k];
    }
  }

  lemma PlainNoBrace(w: string)
    requires Plain(w)
    ensures '{' !in w && '}' !in w
  {
    forall k | 0 <= k < |w|
      ensures w[k] != '{' && w[k] != '}'
    {
      DigitNotSpecial(w[k]);
    }
  }

  /** Printed numbers are plain up to the last delimiter. */
  lemma {:induction false} PlainPrintf(fmt: Format, vals: seq<int>)
    requires Fits(fmt, vals) && fmt != [] && forall k :: 0 <= k < |fmt| - 1 ==> fmt[k].1 == ','
    ensures var w := Printf(fmt, vals); |w| > 0 && w[|w| - 1] == fmt[|fmt| - 1].1 && Plain(w[..|w| - 1])
    decreases |fmt|
  {
    hide PrintNumber, InRange, Plain;
    var n, rest := PrintNumber(fmt[0].0, vals[0]), Printf(fmt[1..], vals[1..]);
    var w := Printf(fmt, vals);
    PlainNumber(fmt[0].0, vals[0]);
    if |fmt| == 1 {
      assert w == n + [fmt[0].1] && w[..|w| - 1] == n;
    } else {
      PlainPrintf(fmt[1..], vals[1..]);
      var head := rest[..|rest| - 1];
      assert w[..|w| - 1] == (n + ",") + head;
      PlainComma();
      PlainJoin(n, ",");
      PlainJoin(n + ",", head);
    }
  }

  lemma PlainComma()
    ensures Plain(",")
  {
  }

  // ---- searching -----------------------------------------------------------------------------------

  // strchr; the length of the text when there is none
  function Strchr(s: string, i: nat, c: char): (k: nat)
    requires i <= |s|
    ensures i <= k <= |s| && (k < |s| ==> s[k] == c) && forall j :: i <= j < k ==> s[j] != c
    decreases |s| - i
  {
    if i == |s| || s[i] == c then i else Strchr(s, i + 1, c)
  }

  // strpbrk(s, "{}")
  function FindBrace(s: string, i: nat): (k: nat)
    requires i <= |s|
    ensures i <= k <= |s| && (k < |s| ==> s[k] == '{' || s[k] == '}') &&
            forall j :: i <= j < k ==> s[j] != '{' && s[j] != '}'
    decreases |s| - i
  {
    if i == |s| || s[i] == '{' || s[i] == '}' then i else FindBrace(s, i + 1)
  }

  /** The first c after text without it. */
  lemma StrchrIs(s: string, i: nat, w: string, c: char)
    requires i <= |s| && At(s, i, w + [c]) && c !in w
    ensures Strchr(s, i, c) == i + |w|
  {
    AtJoin(s, i, w, [c]);
    AtHead(s, i + |w|, [c]);
    assert forall j :: i <= j < i + |w| ==> s[j] == w[j - i];
  }
}
