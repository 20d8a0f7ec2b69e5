/**
 * DocumentId: a 128-bit id in two 64-bit words, its order and neighbours, and its UUID text. Everywhere else
 * an id is the natural number it stands for.
 */
module DocumentId {
  import opened Wrappers

  const WORD: nat := 0x1_0000_0000_0000_0000
  const HALF: nat := 0x1_0000_0000

  type Word64 = n: nat | n < WORD

  /** An id as a value. */
  datatype Id = Id(low: Word64, high: Word64) {
    /** The number the two words stand for; 0 is the invalid id. */
    function Value(): nat {
      high * WORD + low
    }

    predicate IsValid() {
      low != 0 || high != 0
    }

    predicate Less(other: Id) {
      high < other.high || (high == other.high && low < other.low)
    }

    predicate AtMost(other: Id) {
      high < other.high || (high == other.high && low <= other.low)
    }
  }

  /** The two-word comparisons are the comparisons of the numbers, and equal numbers are equal ids. */
  lemma OrderIsNumeric(a: Id, b: Id)
    ensures a.Less(b) <==> a.Value() < b.Value()
    ensures a.AtMost(b) <==> a.Value() <= b.Value()
    ensures a == b <==> a.Value() == b.Value()
    ensures a.IsValid() <==> a.Value() != 0
    ensures a.Value() < WORD * WORD
  {
  }

  // ----- The UUID text -----------------------------------------------------------------------------------

  /** The 11 numbers of the text: a 32-bit, two 16-bit and eight 8-bit ones. */
  function Width(i: nat): nat {
    if i == 0 then 8 else if i <= 2 then 4 else 2
  }

  function Span(i: nat): (r: nat)
    ensures r > 0
  {
    if i == 0 then HALF else if i <= 2 then 0x1_0000 else 0x100
  }

  predicate Dash(i: nat) {
    i == 1 || i == 2 || i == 3 || i == 5
  }

  /** A number in little-endian bytes. */
  function Bytes(n: nat, count: nat): (r: seq<nat>)
    ensures |r| == count && forall k :: 0 <= k < count ==> r[k] < 0x100
  {
    if count == 0 then [] else [n % 0x100] + Bytes(n / 0x100, count - 1)
  }

  function FromBytes(bytes: seq<nat>): nat {
    if |bytes| == 0 then 0 else bytes[0] + 0x100 * FromBytes(bytes[1..])
  }

  /** The union of words and fields on a little-endian machine. */
  function Split(id: Id): (r: seq<nat>)
    ensures |r| == 11 && forall i :: 0 <= i < 11 ==> r[i] < Span(i)
  {
    [id.low % HALF, id.low / HALF % 0x1_0000, id.low / HALF / 0x1_0000] + Bytes(id.high, 8)
  }

  function Join(fields: seq<nat>): Id
    requires |fields| == 11
  {
    Id((fields[0] + fields[1] * HALF + fields[2] * HALF * 0x1_0000) % WORD, FromBytes(fields[3..]) % WORD)
  }

  function Power(count: nat): nat {
    if count == 0 then 1 else 0x100 * Power(count - 1)
  }

  lemma {:induction false} FromToBytes(n: nat, count: nat)
    requires n < Power(count)
    ensures FromBytes(Bytes(n, count)) == n
  {
    if count > 0 {
      assert n / 0x100 < Power(count - 1);
      FromToBytes(n / 0x100, count - 1);
      assert Bytes(n, count)[1..] == Bytes(n / 0x100, count - 1);
    }
  }

  lemma PowerEight()
    ensures Power(8) == WORD
  {
  }

  lemma JoinSplit(id: Id)
    ensures Join(Split(id)) == id
  {
    PowerEight();
    FromToBytes(id.high, 8);
    assert Split(id)[3..] == Bytes(id.high, 8);
  }

  function HexChar(v: nat): char
    requires v < 16
  {
    "0123456789abcdef"[v]
  }

  function HexDigit(c: char): Option<nat> {
    if '0' <= c <= '9' then Some((c as int - '0' as int) as nat)
    else if 'a' <= c <= 'f' then Some((c as int - 'a' as int + 10) as nat)
    else if 'A' <= c <= 'F' then Some((c as int - 'A' as int + 10) as nat)
    else None
  }

  /** A number in hexadecimal, padded with zeros to exactly `width` digits, as %0*x prints one that fits. */
  function Hex(n: nat, width: nat): (r: string)
    ensures |r| == width
  {
    if width == 0 then [] else Hex(n / 16, width - 1) + [HexChar(n % 16)]
  }

  function HexValue(s: string): nat
    requires forall k :: 0 <= k < |s| ==> HexDigit(s[k]).Some?
  {
    if |s| == 0 then 0 else 16 * HexValue(s[..|s| - 1]) + HexDigit(s[|s| - 1]).value
  }

  /** to_string from field i on. */
  function Print(fields: seq<nat>, i: nat): string
    requires |fields| == 11 && i <= 11
    decreases 11 - i
  {
    if i == 11 then ""
    else (if Dash(i) then "-" else "") + Hex(fields[i], Width(i)) + Print(fields, i + 1)
  }

  function ToText(id: Id): string {
    Print(Split(id), 0)
  }

  // ----- sscanf -----------------------------------------------------------------------------------------

  predicate Space(c: char) {
    c == ' ' || '\t' <= c <= '\r'
  }

  function SkipSpace(s: string): string {
    if |s| > 0 && Space(s[0]) then SkipSpace(s[1..]) else s
  }

  /** How many hexadecimal digits come first, at most `width`. */
  function Digits(s: string, width: nat): (n: nat)
    ensures n <= |s| && n <= width && forall k :: 0 <= k < n ==> HexDigit(s[k]).Some?
  {
    if width == 0 || |s| == 0 || HexDigit(s[0]).None? then 0 else 1 + Digits(s[1..], width - 1)
  }

  /** A scanned number as an unsigned field keeps it. */
  function Stored(v: nat, negative: bool, span: nat): (r: nat)
    requires span > 0
    ensures r < span && (v < span && !negative ==> r == v)
  {
    if negative then (span - v % span) % span else v % span
  }

  predicate Signed(s: string): (r: bool)
    ensures r ==> |s| > 0
  {
    |s| > 0 && (s[0] == '+' || s[0] == '-')
  }

  predicate Prefixed(s: string): (r: bool)
    ensures r ==> |s| >= 2
  {
    |s| >= 2 && s[0] == '0' && (s[1] == 'x' || s[1] == 'X')
  }

  /**
   * One %x conversion of at most `width` characters into a field of `span` values: white space is
   * skipped, a sign and a 0x prefix count toward the width, and at least one digit has to follow.
   */
  function Scan(text: string, width: nat, span: nat): Option<(nat, string)>
    requires span > 0
  {
    var s := SkipSpace(text);
    var sign := if width > 0 && Signed(s) then 1 else 0;
    var t := s[sign..];
    var prefix := if width - sign >= 2 && Prefixed(t) then 2 else 0;
    var u := t[prefix..];
    var n := Digits(u, width - sign - prefix);
    if n == 0 then None
    else
      Some((Stored(HexValue(u[..n]), sign == 1 && s[0] == '-', span), u[n..]))
  }

  /** The fields from number i on, or nothing when one of them does not match. */
  function ParseFields(text: string, i: nat): (r: Option<seq<nat>>)
    requires i <= 11
    ensures r.Some? ==> |r.value| == 11 - i
    decreases 11 - i
  {
    if i == 11 then Some([])
    else if Dash(i) && (|text| == 0 || text[0] != '-') then None
    else
      match Scan(if Dash(i) then text[1..] else text, Width(i), Span(i))
      case None => None
      case Some((v, rest)) =>
        match ParseFields(rest, i + 1)
        case None => None
        case Some(more) => Some([v] + more)
  }

  /** The id of a text; a text that does not match gives the invalid id. */
  function FromText(text: string): Id {
    match ParseFields(text, 0)
    case Some(fields) => Join(fields)
    case None => Id(0, 0)
  }

  function Range(width: nat): nat {
    if width == 0 then 1 else 16 * Range(width - 1)
  }

  lemma HexCharDigit(v: nat)
    requires v < 16
    ensures HexDigit(HexChar(v)) == Some(v)
  {
  }

  lemma {:induction false} HexRoundTrip(n: nat, width: nat)
    requires n < Range(width)
    ensures forall k :: 0 <= k < width ==> HexDigit(Hex(n, width)[k]).Some?
    ensures HexValue(Hex(n, width)) == n
  {
    if width > 0 {
      HexRoundTrip(n / 16, width - 1);
      HexCharDigit(n % 16);
      assert Hex(n, width)[..width - 1] == Hex(n / 16, width - 1);
    }
  }

  lemma {:induction false} DigitsOf(s: string, width: nat, rest: string)
    requires |s| == width && forall k :: 0 <= k < width ==> HexDigit(s[k]).Some?
    ensures Digits(s + rest, width) == width
  {
    if width > 0 {
      assert (s + rest)[1..] == s[1..] + rest;
      DigitsOf(s[1..], width - 1, rest);
    }
  }

  /** A full field of digits has neither a sign nor a prefix. */
  lemma ScanDigits(s: string, width: nat, span: nat, rest: string)
    requires |s| == width >= 2 && forall k :: 0 <= k < width ==> HexDigit(s[k]).Some?
    requires HexValue(s) < span
    ensures Scan(s + rest, width, span) == Some((HexValue(s), rest))
  {
    hide HexValue, Digits, Stored;
    DigitsOf(s, width, rest);
    var text := s + rest;
    assert HexDigit(text[0]).Some? && HexDigit(text[1]).Some?;
    assert SkipSpace(text) == text;
    assert text[0..] == text && text[..width] == s && text[width..] == rest;
  }

  lemma ScanHex(n: nat, width: nat, span: nat, rest: string)
    requires width >= 2 && n < Range(width) && n < span
    ensures Scan(Hex(n, width) + rest, width, span) == Some((n, rest))
  {
    hide Scan, Hex, HexValue, HexDigit, Range;
    HexRoundTrip(n, width);
    ScanDigits(Hex(n, width), width, span, rest);
  }

  lemma Fits(i: nat)
    requires i < 11
    ensures Span(i) == Range(Width(i)) && Width(i) >= 2
  {
    assert Range(2) == 0x100;
    assert Range(4) == 0x1_0000;
    assert Range(6) == 0x100_0000;
  }

  lemma ParseStep(text: string, i: nat, v: nat, rest: string, more: seq<nat>)
    requires i < 11 && (Dash(i) ==> |text| > 0 && text[0] == '-')
    requires Scan(if Dash(i) then text[1..] else text, Width(i), Span(i)) == Some((v, rest))
    requires ParseFields(rest, i + 1) == Some(more)
    ensures ParseFields(text, i) == Some([v] + more)
  {
    hide Scan, Span, Width, Dash;
  }

  lemma FieldText(fields: seq<nat>, i: nat, rest: string)
    requires |fields| == 11 && i < 11
    ensures var text, hex := Print(fields, i) + rest, Hex(fields[i], Width(i));
            && (Dash(i) ==> |text| > 0 && text[0] == '-')
            && (if Dash(i) then text[1..] else text) == hex + (Print(fields, i + 1) + rest)
  {
    hide Hex, Width, Dash;
    var hex, more := Hex(fields[i], Width(i)), Print(fields, i + 1);
    Regroup(if Dash(i) then "-" else "", hex, more, rest);
  }

  lemma Regroup(dash: string, hex: string, more: string, rest: string)
    requires |dash| <= 1
    ensures dash + hex + more + rest == dash + (hex + (more + rest))
    ensures (dash + hex + more + rest)[|dash|..] == hex + (more + rest)
    ensures |dash| == 1 ==> (dash + hex + more + rest)[0] == dash[0]
  {
  }

  lemma FieldRoundTrip(fields: seq<nat>, i: nat, rest: string, after: string)
    requires |fields| == 11 && i < 11 && fields[i] < Span(i)
    requires after == Print(fields, i + 1) + rest && ParseFields(after, i + 1) == Some(fields[i + 1..])
    ensures ParseFields(Print(fields, i) + rest, i) == Some(fields[i..])
  {
    hide Scan, Hex, Span, Width, Dash, Range, ParseFields, Print;
    Fits(i);
    ScanHex(fields[i], Width(i), Span(i), after);
    FieldText(fields, i, rest);
    ParseStep(Print(fields, i) + rest, i, fields[i], after, fields[i + 1..]);
    assert fields[i..] == [fields[i]] + fields[i + 1..];
  }

  lemma {:induction false} FieldsRoundTrip(fields: seq<nat>, i: nat, rest: string)
    requires |fields| == 11 && i <= 11 && forall k :: 0 <= k < 11 ==> fields[k] < Span(k)
    ensures ParseFields(Print(fields, i) + rest, i) == Some(fields[i..])
    decreases 11 - i
  {
    if i == 11 {
      assert fields[i..] == [];
    } else {
      hide Span, ParseFields, Print;
      FieldsRoundTrip(fields, i + 1, rest);
      FieldRoundTrip(fields, i, rest, Print(fields, i + 1) + rest);
    }
  }

  predicate LowerHex(c: char) {
    '0' <= c <= '9' || 'a' <= c <= 'f'
  }

  lemma {:induction false} HexIsLower(n: nat, width: nat)
    ensures forall k :: 0 <= k < width ==> LowerHex(Hex(n, width)[k])
  {
    if width > 0 { HexIsLower(n / 16, width - 1); }
  }

  /** The text has the form of section 3 of RFC 4122: lower-case digits in groups of 8, 4, 4, 4 and 12. */
  lemma TextForm(id: Id)
    ensures |ToText(id)| == 36
    ensures forall k :: 0 <= k < 36 ==>
              if k in {8, 13, 18, 23} then ToText(id)[k] == '-' else LowerHex(ToText(id)[k])
  {
    PrintForm(Split(id), 0, ToText(id));
  }

  /** How many characters come before field i. */
  function Offset(i: nat): nat {
    if i == 0 then 0 else Offset(i - 1) + Width(i - 1) + if Dash(i - 1) then 1 else 0
  }

  lemma {:induction false} PrintForm(fields: seq<nat>, i: nat, text: string)
    requires |fields| == 11 && i <= 11 && text == Print(fields, i)
    ensures |text| + Offset(i) == 36
    ensures forall k :: 0 <= k < |text| ==>
              if k + Offset(i) in {8, 13, 18, 23} then text[k] == '-' else LowerHex(text[k])
    decreases 11 - i
  {
    hide Hex, LowerHex;
    Offsets();
    if i < 11 {
      PrintForm(fields, i + 1, Print(fields, i + 1));
      HexIsLower(fields[i], Width(i));
    }
  }

  lemma Offsets()
    ensures Offset(0) == 0 && Offset(1) == 8 && Offset(2) == 13 && Offset(3) == 18 && Offset(4) == 21 && Offset(5) == 23
    ensures Offset(6) == 26 && Offset(7) == 28 && Offset(8) == 30 && Offset(9) == 32
    ensures Offset(10) == 34 && Offset(11) == 36
  {
  }

  /** Parsing the text of an id gives the id back, whatever follows the text. */
  lemma TextRoundTrip(id: Id, rest: string)
    ensures FromText(ToText(id) + rest) == id
  {
    hide Split, Join, Print, ParseFields;
    var fields := Split(id);
    FieldsRoundTrip(fields, 0, rest);
    assert fields[0..] == fields;
    JoinSplit(id);
  }

  /** Different ids have different texts. */
  lemma TextInjective(a: Id, b: Id)
    ensures ToText(a) == ToText(b) <==> a == b
  {
    TextRoundTrip(a, "");
    TextRoundTrip(b, "");
  }

  /** These characters are digits that write the number v. */
  predicate Writes(s: string, v: nat) {
    (forall k :: 0 <= k < |s| ==> HexDigit(s[k]).Some?) && HexValue(s) == v
  }

  function DashOf(i: nat): string {
    if Dash(i) then "-" else ""
  }

  lemma PrintStep(fields: seq<nat>, i: nat)
    requires |fields| == 11 && i < 11
    ensures Print(fields, i) == DashOf(i) + (Hex(fields[i], Width(i)) + Print(fields, i + 1))
    ensures Offset(i + 1) == Offset(i) + |DashOf(i)| + Width(i)
  {
    hide Hex, Width, Dash;
    Regroup(DashOf(i), Hex(fields[i], Width(i)), Print(fields, i + 1), "");
  }

  /** Field j is printed where Offset says. */
  lemma {:induction false} PrintedFrom(fields: seq<nat>, j: nat)
    requires |fields| == 11 && j <= 11
    ensures Offset(j) <= |Print(fields, 0)| && Print(fields, 0)[Offset(j)..] == Print(fields, j)
  {
    hide Print, Hex, Width, DashOf, Offset;
    if j > 0 {
      PrintedFrom(fields, j - 1);
      PrintStep(fields, j - 1);
      PrintedField(fields, j - 1);
    } else {
      assert Offset(0) == 0 by { Offsets(); }
    }
  }

  lemma PrintedField(fields: seq<nat>, j: nat)
    requires |fields| == 11 && j < 11
    requires Offset(j) <= |Print(fields, 0)| && Print(fields, 0)[Offset(j)..] == Print(fields, j)
    ensures var text, at := Print(fields, 0), Offset(j) + |DashOf(j)|;
            && Offset(j + 1) == at + Width(j) <= |text|
            && text[at..at + Width(j)] == Hex(fields[j], Width(j))
            && text[at + Width(j)..] == Print(fields, j + 1)
  {
    hide Print, Hex, Width, DashOf, Offset;
    var text, hex, more := Print(fields, 0), Hex(fields[j], Width(j)), Print(fields, j + 1);
    PrintStep(fields, j);
    Drop(text, Offset(j), DashOf(j), hex + more);
    Drop(text, Offset(j) + |DashOf(j)|, hex, more);
  }

  lemma Drop(text: string, at: nat, front: string, more: string)
    requires at <= |text| && text[at..] == front + more
    ensures at + |front| <= |text| && text[at..at + |front|] == front && text[at + |front|..] == more
  {
    assert text == text[..at] + (front + more);
  }

  lemma {:induction false} ByteAt(n: nat, count: nat, k: nat)
    requires k < count
    ensures Power(k) > 0 && Bytes(n, count)[k] == n / Power(k) % 0x100
  {
    if k > 0 {
      ByteAt(n / 0x100, count - 1, k - 1);
      DivideTwice(n, Power(k - 1));
    }
  }

  lemma DivideTwice(n: nat, p: nat)
    requires p > 0
    ensures n / 0x100 / p == n / (0x100 * p)
  {
    var q, r := n / 0x100 / p, n / 0x100 % p;
    assert n / 0x100 == q * p + r;
    assert n == 0x100 * (q * p + r) + n % 0x100;
    Quotient(n, 0x100 * p, q, 0x100 * r + n % 0x100);
  }

  lemma Quotient(n: nat, d: nat, q: nat, r: nat)
    requires 0 <= r < d && n == q * d + r
    ensures n / d == q && n % d == r
  {
    var e := n / d - q;
    assert e * d == r - n % d;
    assert e >= 1 ==> e * d >= d;
    assert e <= -1 ==> e * d + d <= 0;
  }

  lemma FieldDigits(id: Id, i: nat)
    requires i < 11
    ensures var text, at := ToText(id), Offset(i) + |DashOf(i)|;
            at + Width(i) <= |text| && Writes(text[at..at + Width(i)], Split(id)[i])
  {
    hide Print, Hex, HexValue, Offset, Split, Width, DashOf, Range;
    Fits(i);
    PrintedFrom(Split(id), i);
    PrintedField(Split(id), i);
    HexRoundTrip(Split(id)[i], Width(i));
  }

  /**
   * Which digits stand for which bits: the first three groups are the low word from its low end in 32, 16 and
   * 16 bits, and the other two groups are the bytes of the high word, the least significant one first.
   */
  lemma TextDigits(id: Id, k: nat)
    requires k < 8
    ensures |ToText(id)| == 36 && Power(k) > 0
    ensures Writes(ToText(id)[0..8], id.low % HALF)
    ensures Writes(ToText(id)[9..13], id.low / HALF % 0x1_0000)
    ensures Writes(ToText(id)[14..18], id.low / HALF / 0x1_0000)
    ensures var at := if k < 2 then 19 + 2 * k else 20 + 2 * k;
            Writes(ToText(id)[at..at + 2], id.high / Power(k) % 0x100)
  {
    hide ToText, Writes, Offset, Bytes, Power;
    TextForm(id);
    Offsets();
    FieldDigits(id, 0);
    FieldDigits(id, 1);
    FieldDigits(id, 2);
    FieldDigits(id, 3 + k);
    ByteAt(id.high, 8, k);
  }

  // ----- What a text may look like ---------------------------------------------------------------------

  /** The digits of the two alphabets, and no other characters. */
  lemma HexDigitIs(c: char, v: nat)
    ensures HexDigit(c) == Some(v) <==> v < 16 && (c == "0123456789abcdef"[v] || c == "0123456789ABCDEF"[v])
  {
  }

  lemma Sixteen(a: nat, r: nat, b: nat, d: nat)
    ensures 16 * (a * r + b) + d == a * (16 * r) + (16 * b + d)
  {
  }

  /** A number is written with its most significant digits first. */
  lemma {:induction false} HexValueJoins(a: string, b: string)
    requires forall k :: 0 <= k < |a| ==> HexDigit(a[k]).Some?
    requires forall k :: 0 <= k < |b| ==> HexDigit(b[k]).Some?
    ensures forall k :: 0 <= k < |a + b| ==> HexDigit((a + b)[k]).Some?
    ensures HexValue(a + b) == HexValue(a) * Range(|b|) + HexValue(b)
  {
    hide HexDigit;
    if |b| == 0 {
      assert a + b == a;
    } else {
      var n := |b| - 1;
      HexValueJoins(a, b[..n]);
      assert (a + b)[..|a + b| - 1] == a + b[..n] && (a + b)[|a + b| - 1] == b[n];
      Sixteen(HexValue(a), Range(n), HexValue(b[..n]), HexDigit(b[n]).value);
    }
  }

  /** A field keeps the number, or its negative, modulo its span. */
  lemma StoredIs(v: nat, negative: bool, span: nat)
    requires span > 0
    ensures var r := Stored(v, negative, span);
            r < span && if negative then (r + v) % span == 0 else r % span == v % span
  {
    var q, m := v / span, v % span;
    assert v == q * span + m;
    if negative && m > 0 {
      Quotient(span - m, span, 0, span - m);
      assert span - m + v == (q + 1) * span;
      Quotient(span - m + v, span, q + 1, 0);
    } else if negative {
      Quotient(span, span, 1, 0);
    } else {
      Quotient(m, span, 0, m);
    }
  }

  predicate Sign(s: string): (r: bool)
    ensures r ==> |s| <= 1
  {
    s == "" || s == "+" || s == "-"
  }

  predicate Prefix(s: string): (r: bool)
    ensures r ==> |s| == 0 || |s| == 2
  {
    s == "" || s == "0x" || s == "0X"
  }

  /** The parts of one number of the text, as a %x conversion of at most `width` characters reads them. */
  ghost predicate Number(blank: string, sign: string, prefix: string, digits: string, rest: string, width: nat) {
    && (forall k :: 0 <= k < |blank| ==> Space(blank[k]))
    && Sign(sign) && Prefix(prefix)
    && |digits| > 0 && (forall k :: 0 <= k < |digits| ==> HexDigit(digits[k]).Some?)
    && |sign| + |prefix| + |digits| <= width
    // As many digits as there are are taken, and a prefix that fits is taken as one.
    && (|sign| + |prefix| + |digits| == width || |rest| == 0 || HexDigit(rest[0]).None?)
    && (|prefix| == 0 && |sign| + 2 <= width ==> !Prefixed(digits + rest))
  }

  lemma {:induction false} Blanks(blank: string, s: string)
    requires forall k :: 0 <= k < |blank| ==> Space(blank[k])
    requires |s| > 0 && !Space(s[0])
    ensures SkipSpace(blank + s) == s
  {
    if |blank| == 0 {
      assert blank + s == s;
    } else {
      assert (blank + s)[1..] == blank[1..] + s;
      Blanks(blank[1..], s);
    }
  }

  lemma {:induction false} DigitsEnd(digits: string, rest: string, width: nat)
    requires |digits| <= width && forall k :: 0 <= k < |digits| ==> HexDigit(digits[k]).Some?
    requires |digits| == width || |rest| == 0 || HexDigit(rest[0]).None?
    ensures Digits(digits + rest, width) == |digits|
  {
    if |digits| == 0 {
      assert digits + rest == rest;
    } else {
      assert (digits + rest)[1..] == digits[1..] + rest;
      DigitsEnd(digits[1..], rest, width - 1);
    }
  }

  /** One conversion, when its parts are known. */
  lemma ScanParts(text: string, width: nat, span: nat, sign: nat, prefix: nat, u: string, n: nat)
    requires span > 0 && sign == (if width > 0 && Signed(SkipSpace(text)) then 1 else 0)
    requires prefix == (if width - sign >= 2 && Prefixed(SkipSpace(text)[sign..]) then 2 else 0)
    requires u == SkipSpace(text)[sign..][prefix..] && n == Digits(u, width - sign - prefix)
    ensures var s := SkipSpace(text);
            Scan(text, width, span) ==
            if n == 0 then None else Some((Stored(HexValue(u[..n]), sign == 1 && s[0] == '-', span), u[n..]))
  {
    hide SkipSpace, Signed, Prefixed, Digits, Stored, HexValue, HexDigit;
  }

  /** Every number of that form is read, and the rest is left. */
  lemma ScanForm(blank: string, sign: string, prefix: string, digits: string, rest: string, width: nat, span: nat)
    requires span > 0 && Number(blank, sign, prefix, digits, rest, width)
    ensures Scan(blank + sign + prefix + digits + rest, width, span)
         == Some((Stored(HexValue(digits), sign == "-", span), rest))
  {
    hide Scan, HexValue, Stored, Digits, HexDigit, Prefixed, Signed, SkipSpace, Space, Sign, Prefix;
    var u := digits + rest;
    var t := prefix + u;
    var s := sign + t;
    var text := blank + sign + prefix + digits + rest;
    Grouped(blank, sign, prefix, digits, rest);
    PrefixOf(prefix, digits, rest);
    SignOf(sign, t);
    Blanks(blank, s);
    DigitsEnd(digits, rest, width - |sign| - |prefix|);
    ScanParts(text, width, span, |sign|, |prefix|, u, |digits|);
    assert u[..|digits|] == digits && u[|digits|..] == rest;
  }

  lemma NotADigit(c: char)
    ensures HexDigit(c).Some? ==> !Space(c) && c != '+' && c != '-' && c != 'x' && c != 'X'
  {
  }

  lemma Grouped(blank: string, sign: string, prefix: string, digits: string, rest: string)
    ensures blank + sign + prefix + digits + rest == blank + (sign + (prefix + (digits + rest)))
  {
  }

  lemma SignOf(sign: string, t: string)
    requires Sign(sign) && |t| > 0 && !Signed(t) && !Space(t[0])
    ensures var s := sign + t;
            && s[|sign|..] == t && !Space(s[0]) && (Signed(s) <==> |sign| == 1)
            && (sign == "-" <==> |sign| == 1 && s[0] == '-')
  {
    assert sign == "" ==> sign + t == t;
  }

  lemma PrefixOf(prefix: string, digits: string, rest: string)
    requires Prefix(prefix) && |digits| > 0 && HexDigit(digits[0]).Some?
    ensures var t := prefix + (digits + rest);
            && t[|prefix|..] == digits + rest && (|prefix| == 2 ==> Prefixed(t)) && !Signed(t) && !Space(t[0])
            && (|prefix| == 0 ==> t == digits + rest)
  {
    NotADigit(digits[0]);
    assert prefix == "" ==> prefix + (digits + rest) == digits + rest;
  }

  lemma {:induction false} SkipsBlanks(text: string) returns (blank: string)
    ensures text == blank + SkipSpace(text)
    ensures forall k :: 0 <= k < |blank| ==> Space(blank[k])
  {
    blank := "";
    if |text| > 0 && Space(text[0]) {
      var more := SkipsBlanks(text[1..]);
      blank := [text[0]] + more;
    }
  }

  lemma {:induction false} DigitsMost(s: string, width: nat)
    ensures var n := Digits(s, width); n == width || n == |s| || HexDigit(s[n]).None?
  {
    if width > 0 && |s| > 0 && HexDigit(s[0]).Some? { DigitsMost(s[1..], width - 1); }
  }

  lemma SignTaken(s: string, k: nat) returns (sign: string)
    requires k == 0 || (k == 1 && Signed(s))
    ensures s == sign + s[k..] && |sign| == k
    ensures Sign(sign) && (sign == "-" <==> k == 1 && s[0] == '-')
  {
    sign := if k == 0 then "" else [s[0]];
  }

  lemma PrefixTaken(t: string, p: nat) returns (prefix: string)
    requires p == 0 || (p == 2 && Prefixed(t))
    ensures t == prefix + t[p..] && |prefix| == p && (p == 0 ==> t[p..] == t)
    ensures Prefix(prefix)
  {
    prefix := if p == 0 then "" else [t[0], t[1]];
  }

  lemma DigitsTaken(u: string, width: nat) returns (digits: string, rest: string)
    ensures u == digits + rest && |digits| == Digits(u, width) <= width
    ensures digits == u[..|digits|] && rest == u[|digits|..]
    ensures forall k :: 0 <= k < |digits| ==> HexDigit(digits[k]).Some?
    ensures |digits| == width || |rest| == 0 || HexDigit(rest[0]).None?
  {
    hide Digits, HexDigit;
    var n := Digits(u, width);
    digits, rest := u[..n], u[n..];
    DigitsMost(u, width);
  }

  /** And nothing else is read: a conversion succeeds on the texts of that form only. */
  lemma ScanReads(text: string, width: nat, span: nat)
    returns (blank: string, sign: string, prefix: string, digits: string, rest: string)
    requires span > 0 && Scan(text, width, span).Some?
    ensures Number(blank, sign, prefix, digits, rest, width)
    ensures text == blank + sign + prefix + digits + rest
    ensures Scan(text, width, span) == Some((Stored(HexValue(digits), sign == "-", span), rest))
  {
    hide Scan, HexValue, Stored, Digits, HexDigit, SkipSpace, Signed, Prefixed, Space, Sign, Prefix;
    var s := SkipSpace(text);
    blank := SkipsBlanks(text);
    var k := if width > 0 && Signed(s) then 1 else 0;
    sign := SignTaken(s, k);
    var t := s[k..];
    var p := if width - k >= 2 && Prefixed(t) then 2 else 0;
    prefix := PrefixTaken(t, p);
    var u := t[p..];
    digits, rest := DigitsTaken(u, width - k - p);
    ScanParts(text, width, span, k, p, u, |digits|);
    Grouped(blank, sign, prefix, digits, rest);
  }

  // ----- Upper and lower case -----------------------------------------------------------------------------

  function Upper(c: char): char {
    if 'a' <= c <= 'z' then (c as int - 'a' as int + 'A' as int) as char else c
  }

  function UpperText(s: string): (r: string)
    ensures |r| == |s| && forall k :: 0 <= k < |s| ==> r[k] == Upper(s[k])
  {
    seq(|s|, k requires 0 <= k < |s| => Upper(s[k]))
  }

  lemma UpperChar(c: char)
    ensures HexDigit(Upper(c)) == HexDigit(c) && Space(Upper(c)) == Space(c)
    ensures forall d :: d in "+-0" ==> (Upper(c) == d <==> c == d)
    ensures Upper(c) == 'x' || Upper(c) == 'X' <==> c == 'x' || c == 'X'
  {
  }

  lemma UpperParts(s: string, k: nat)
    requires k <= |s|
    ensures UpperText(s)[..k] == UpperText(s[..k]) && UpperText(s)[k..] == UpperText(s[k..])
  {
  }

  lemma UpperSigns(s: string)
    ensures Signed(UpperText(s)) == Signed(s) && Prefixed(UpperText(s)) == Prefixed(s)
    ensures |s| > 0 ==> (UpperText(s)[0] == '-' <==> s[0] == '-')
  {
    if |s| > 0 { UpperChar(s[0]); }
    if |s| > 1 { UpperChar(s[1]); }
  }

  lemma {:induction false} UpperSkip(s: string)
    ensures SkipSpace(UpperText(s)) == UpperText(SkipSpace(s))
  {
    hide UpperText;
    if |s| > 0 {
      UpperChar(s[0]);
      UpperParts(s, 1);
      UpperSkip(s[1..]);
    }
  }

  lemma {:induction false} UpperDigits(s: string, width: nat)
    ensures Digits(UpperText(s), width) == Digits(s, width)
  {
    hide UpperText;
    if width > 0 && |s| > 0 {
      UpperChar(s[0]);
      UpperParts(s, 1);
      UpperDigits(s[1..], width - 1);
    }
  }

  lemma {:induction false} UpperValue(s: string)
    requires forall k :: 0 <= k < |s| ==> HexDigit(s[k]).Some?
    ensures forall k :: 0 <= k < |s| ==> HexDigit(UpperText(s)[k]) == HexDigit(s[k])
    ensures HexValue(UpperText(s)) == HexValue(s)
  {
    hide UpperText, HexDigit, Upper;
    if |s| > 0 {
      var n := |s| - 1;
      UpperChar(s[n]);
      UpperParts(s, n);
      UpperValue(s[..n]);
      assert forall k :: 0 <= k < n ==> s[k] == s[..n][k] && UpperText(s)[k] == UpperText(s[..n])[k];
    }
  }

  function UpperRest(r: Option<(nat, string)>): Option<(nat, string)> {
    match r
    case None => None
    case Some((v, rest)) => Some((v, UpperText(rest)))
  }

  lemma UpperScan(text: string, width: nat, span: nat)
    requires span > 0
    ensures Scan(UpperText(text), width, span) == UpperRest(Scan(text, width, span))
  {
    hide Scan, HexValue, Stored, Digits, HexDigit, SkipSpace, Signed, Prefixed, UpperText;
    var s := SkipSpace(text);
    var k := if width > 0 && Signed(s) then 1 else 0;
    UpperSkip(text);
    UpperSigns(s);
    UpperParts(s, k);
    var t := s[k..];
    UpperSigns(t);
    var p := if width - k >= 2 && Prefixed(t) then 2 else 0;
    UpperParts(t, p);
    var u := t[p..];
    UpperDigits(u, width - k - p);
    var n := Digits(u, width - k - p);
    UpperParts(u, n);
    UpperValue(u[..n]);
    ScanParts(text, width, span, k, p, u, n);
    ScanParts(UpperText(text), width, span, k, p, UpperText(u), n);
  }

  lemma {:induction false} UpperFields(text: string, i: nat)
    requires i <= 11
    ensures ParseFields(UpperText(text), i) == ParseFields(text, i)
    decreases 11 - i
  {
    hide Scan, UpperText, Width, Span, Dash;
    if i < 11 {
      if |text| > 0 {
        UpperChar(text[0]);
        UpperParts(text, 1);
      }
      if !Dash(i) || (|text| > 0 && text[0] == '-') {
        var body := if Dash(i) then text[1..] else text;
        UpperScan(body, Width(i), Span(i));
        var r := Scan(body, Width(i), Span(i));
        if r.Some? { UpperFields(r.value.1, i + 1); }
      }
    }
  }

  /** Parsing ignores the case of letters, in every text. */
  lemma CaseIgnored(a: string, b: string)
    requires UpperText(a) == UpperText(b)
    ensures FromText(a) == FromText(b)
  {
    hide ParseFields, Join, UpperText;
    UpperFields(a, 0);
    UpperFields(b, 0);
  }

  /** The text of an id in upper case is read back as the id. */
  lemma UpperRoundTrip(id: Id, rest: string)
    ensures FromText(UpperText(ToText(id)) + rest) == id
  {
    hide FromText, ToText, Upper;
    TextRoundTrip(id, rest);
    var upper := UpperText(ToText(id));
    forall c ensures Upper(Upper(c)) == Upper(c) { UpperTwice(c); }
    assert UpperText(upper + rest) == UpperText(ToText(id) + rest);
    CaseIgnored(upper + rest, ToText(id) + rest);
  }

  lemma UpperTwice(c: char)
    ensures Upper(Upper(c)) == Upper(c)
  {
  }

  // ----- The mutable id ------------------------------------------------------------------------------------

  class DocumentId {
    var low: Word64
    var high: Word64

    function Current(): Id
      reads this
    {
      Id(low, high)
    }

    constructor (low: Word64, high: Word64)
      ensures Current() == Id(low, high)
    {
      this.low, this.high := low, high;
    }

    /** Any text: what the fields say when all 11 match, the invalid id otherwise. */
    constructor Parse(text: string)
      ensures Current() == FromText(text)
    {
      low, high := 0, 0;
      new;
      var fields := ParseFields(text, 0);
      if fields.Some? {
        var id := Join(fields.value);
        low, high := id.low, id.high;
      }
    }

    /** The next id; the greatest one wraps to the invalid id. */
    method Increment()
      modifies this
      ensures Current().Value() == (old(Current().Value()) + 1) % (WORD * WORD)
    {
      low := if low == WORD - 1 then 0 else low + 1;
      if low == 0 {
        high := if high == WORD - 1 then 0 else high + 1;
      }
    }

    /** The id before; exactly the predecessor of every valid id. */
    method Decrement()
      modifies this
      ensures old(Current().IsValid()) ==> Current().Value() == old(Current().Value()) - 1
      ensures !old(Current().IsValid()) ==> Current().Value() == WORD * WORD - 1
    {
      if low == 0 {
        low := WORD - 1;
        high := if high == 0 then WORD - 1 else high - 1;
      } else {
        low := low - 1;
      }
    }
  }
}
