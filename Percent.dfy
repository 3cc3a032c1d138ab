/**
 * Percent-encoding of query keys and values (section 2.1 of RFC 3986), the
 * way the vendored query-string module does it:
 *
 *   encode(v) = encodeURIComponent(v) with every "%20" replaced by "+"
 *   decode(v) = decodeURIComponent(v with every "+" replaced by " "),
 *               or v itself, untouched, when that throws
 *
 * Characters are Unicode scalar values. encodeURIComponent writes each
 * character outside its unescaped set as the UTF-8 bytes of the character,
 * each as `%` and two upper-case hex digits; decodeURIComponent reads escapes
 * back (upper- or lower-case hex) and throws on a malformed escape or an
 * invalid UTF-8 sequence.
 */
module Percent {
  import opened Wrappers
  import opened Text

  type Byte = b: int | 0 <= b < 0x100
  type Nibble = n: int | 0 <= n < 0x10

  // ---------------------------------------------------------------------------
  // hex digits and escapes
  // ---------------------------------------------------------------------------

  function HexDigit(n: Nibble): (c: char)
    ensures c != '%' && c != '+'
  {
    "0123456789ABCDEF"[n]
  }

  /** The value of a hex digit of either case. */
  function HexValue(c: char): (r: Option<Nibble>)
    ensures r.Some? <==> ('0' <= c <= '9' || 'A' <= c <= 'F' || 'a' <= c <= 'f')
  {
    if '0' <= c <= '9' then Some(c as int - '0' as int)
    else if 'A' <= c <= 'F' then Some(c as int - 'A' as int + 10)
    else if 'a' <= c <= 'f' then Some(c as int - 'a' as int + 10)
    else None
  }

  lemma HexValueOfDigit(n: Nibble)
    ensures HexValue(HexDigit(n)) == Some(n)
  {
    var digits := "0123456789ABCDEF";
    assert digits[n] == HexDigit(n);
    if n < 10 {
      assert digits[n] as int == '0' as int + n;
    } else {
      assert digits[n] as int == 'A' as int + n - 10;
    }
  }

  /** `%` and the two hex digits of one byte. */
  function Escape(b: Byte): (e: string)
    ensures |e| == 3 && e[0] == '%' && '+' !in e
  {
    ['%', HexDigit(b / 16), HexDigit(b % 16)]
  }

  function EscapeAll(bs: seq<Byte>): (e: string)
    ensures |e| == 3 * |bs| && '+' !in e
  {
    if |bs| == 0 then "" else Escape(bs[0]) + EscapeAll(bs[1..])
  }

  // ---------------------------------------------------------------------------
  // UTF-8
  // ---------------------------------------------------------------------------

  /** The UTF-8 encoding of a scalar value: one to four bytes. */
  function Utf8(c: char): (bs: seq<Byte>)
    ensures 1 <= |bs| <= 4
  {
    var cp := c as int;
    if cp < 0x80 then [cp]
    else if cp < 0x800 then [0xC0 + cp / 0x40, 0x80 + cp % 0x40]
    else if cp < 0x10000 then [0xE0 + cp / 0x1000, 0x80 + cp / 0x40 % 0x40, 0x80 + cp % 0x40]
    else [0xF0 + cp / 0x40000, 0x80 + cp / 0x1000 % 0x40, 0x80 + cp / 0x40 % 0x40, 0x80 + cp % 0x40]
  }

  /**
   * How many bytes a UTF-8 sequence that starts with `b` has: 1 to 4, or 0
   * when `b` cannot start one (a continuation byte, or a lead of more than
   * four bytes).
   */
  function SequenceLength(b: Byte): nat
  {
    if b < 0x80 then 1
    else if b < 0xC0 then 0
    else if b < 0xE0 then 2
    else if b < 0xF0 then 3
    else if b < 0xF8 then 4
    else 0
  }

  predicate IsContinuation(b: Byte)
  {
    0x80 <= b < 0xC0
  }

  /**
   * The scalar value of a multi-byte sequence, or None when the sequence is not
   * the shortest encoding of a scalar value (an overlong form, a surrogate, or a
   * value above U+10FFFF).
   */
  function ScalarOf(lead: Byte, cont: seq<Byte>): (r: Option<char>)
    requires SequenceLength(lead) >= 2 && |cont| == SequenceLength(lead) - 1
    requires forall i :: 0 <= i < |cont| ==> IsContinuation(cont[i])
  {
    var n := |cont| + 1;
    var x0: int := if n == 2 then lead - 0xC0 else if n == 3 then lead - 0xE0 else lead - 0xF0;
    var cp: int :=
      if n == 2 then x0 * 0x40 + (cont[0] as int - 0x80)
      else if n == 3 then x0 * 0x1000 + (cont[0] as int - 0x80) * 0x40 + (cont[1] as int - 0x80)
      else x0 * 0x40000 + (cont[0] as int - 0x80) * 0x1000 + (cont[1] as int - 0x80) * 0x40 + (cont[2] as int - 0x80);
    var least := if n == 2 then 0x80 else if n == 3 then 0x800 else 0x10000;
    if cp < least || cp > 0x10FFFF || (0xD800 <= cp <= 0xDFFF) then None
    else Some(cp as char)
  }

  /** Splitting a number into six-bit groups and putting them back together. */
  lemma SixBitGroups(x: int)
    requires 0 <= x
    ensures x == x / 0x40 * 0x40 + x % 0x40
    ensures x / 0x1000 == x / 0x40 / 0x40
    ensures x / 0x40000 == x / 0x1000 / 0x40
  {
  }

  lemma Utf8TwoBytes(c: char)
    requires 0x80 <= c as int < 0x800
    ensures var bs := Utf8(c);
            |bs| == 2 && SequenceLength(bs[0]) == 2 && IsContinuation(bs[1])
            && ScalarOf(bs[0], bs[1..]) == Some(c)
  {
    var cp := c as int;
    SixBitGroups(cp);
  }

  lemma Utf8ThreeBytes(c: char)
    requires 0x800 <= c as int < 0x10000
    ensures var bs := Utf8(c);
            |bs| == 3 && SequenceLength(bs[0]) == 3 && IsContinuation(bs[1]) && IsContinuation(bs[2])
            && ScalarOf(bs[0], bs[1..]) == Some(c)
  {
    var cp := c as int;
    SixBitGroups(cp);
    SixBitGroups(cp / 0x40);
    var bs := Utf8(c);
    assert cp == cp / 0x1000 * 0x1000 + cp / 0x40 % 0x40 * 0x40 + cp % 0x40;
    assert bs[1..][0] == bs[1] && bs[1..][1] == bs[2];
  }

  lemma Utf8FourBytes(c: char)
    requires 0x10000 <= c as int
    ensures var bs := Utf8(c);
            |bs| == 4 && SequenceLength(bs[0]) == 4
            && IsContinuation(bs[1]) && IsContinuation(bs[2]) && IsContinuation(bs[3])
            && ScalarOf(bs[0], bs[1..]) == Some(c)
  {
    var cp := c as int;
    SixBitGroups(cp);
    SixBitGroups(cp / 0x40);
    SixBitGroups(cp / 0x1000);
    var bs := Utf8(c);
    assert cp == cp / 0x40000 * 0x40000 + cp / 0x1000 % 0x40 * 0x1000 + cp / 0x40 % 0x40 * 0x40 + cp % 0x40;
    assert bs[1..][0] == bs[1] && bs[1..][1] == bs[2] && bs[1..][2] == bs[3];
  }

  /** Reading the UTF-8 bytes of a character back gives the character. */
  lemma Utf8Decodes(c: char)
    ensures var bs := Utf8(c);
            && SequenceLength(bs[0]) == |bs|
            && (forall i :: 1 <= i < |bs| ==> IsContinuation(bs[i]))
            && (|bs| >= 2 ==> ScalarOf(bs[0], bs[1..]) == Some(c))
  {
    var cp := c as int;
    if cp < 0x80 {
    } else if cp < 0x800 {
      Utf8TwoBytes(c);
    } else if cp < 0x10000 {
      Utf8ThreeBytes(c);
    } else {
      Utf8FourBytes(c);
    }
  }

  // ---------------------------------------------------------------------------
  // encodeURIComponent and encode
  // ---------------------------------------------------------------------------

  /**
   * The characters encodeURIComponent leaves as they are: the unreserved
   * characters of section 2.3 of RFC 3986 and `! * ' ( )`.
   */
  predicate IsUnescaped(c: char)
  {
    ('A' <= c <= 'Z') || ('a' <= c <= 'z') || ('0' <= c <= '9')
    || c == '-' || c == '_' || c == '.' || c == '!' || c == '~' || c == '*'
    || c == '\'' || c == '(' || c == ')'
  }

  function EscapeChar(c: char): string
  {
    if IsUnescaped(c) then [c] else EscapeAll(Utf8(c))
  }

  /** `encodeURIComponent(s)`. */
  function EncodeURIComponent(s: string): string
  {
    if |s| == 0 then "" else EscapeChar(s[0]) + EncodeURIComponent(s[1..])
  }

  /** `s.replace(/%20/g, "+")`: matches are found left to right and do not overlap. */
  function SpacesAsPlus(s: string): string
    decreases |s|
  {
    if |s| >= 3 && s[..3] == "%20" then "+" + SpacesAsPlus(s[3..])
    else if |s| == 0 then ""
    else [s[0]] + SpacesAsPlus(s[1..])
  }

  /** `encode(value)` of the query-string module. */
  function Encode(s: string): string
  {
    SpacesAsPlus(EncodeURIComponent(s))
  }

  /** One character as `encode` writes it: space as `+`, otherwise as encodeURIComponent does. */
  function FormEscape(c: char): (e: string)
    ensures |e| >= 1 && e[0] != '?'
  {
    if c == ' ' then "+" else EscapeChar(c)
  }

  /** `encode` character by character. */
  function FormEncode(s: string): string
  {
    if |s| == 0 then "" else FormEscape(s[0]) + FormEncode(s[1..])
  }

  /** Only the byte 0x20 is escaped as "%20". */
  lemma EscapeOfNonSpace(b: Byte)
    requires b != 0x20
    ensures Escape(b) != "%20"
  {
    HexValueOfDigit(b / 16);
    HexValueOfDigit(b % 16);
  }

  lemma SpacesAsPlusSkipsEscape(b: Byte, more: string)
    requires b != 0x20
    ensures SpacesAsPlus(Escape(b) + more) == Escape(b) + SpacesAsPlus(more)
  {
    var hi, lo := HexDigit(b / 16), HexDigit(b % 16);
    var s := Escape(b) + more;
    EscapeOfNonSpace(b);
    assert s[..3] == Escape(b);
    var s1 := [hi, lo] + more;
    var s2 := [lo] + more;
    assert s[1..] == s1 && s1[1..] == s2 && s2[1..] == more;
    assert SpacesAsPlus(s) == ['%'] + SpacesAsPlus(s1);
    assert SpacesAsPlus(s1) == [hi] + SpacesAsPlus(s2);
    assert SpacesAsPlus(s2) == [lo] + SpacesAsPlus(more);
  }

  lemma {:induction false} SpacesAsPlusSkipsEscapes(bs: seq<Byte>, rest: string)
    requires forall i :: 0 <= i < |bs| ==> bs[i] != 0x20
    ensures SpacesAsPlus(EscapeAll(bs) + rest) == EscapeAll(bs) + SpacesAsPlus(rest)
    decreases |bs|
  {
    if |bs| > 0 {
      var head, tail := Escape(bs[0]), EscapeAll(bs[1..]);
      assert EscapeAll(bs) == head + tail;
      Regroup(head, tail, rest);
      SpacesAsPlusSkipsEscape(bs[0], tail + rest);
      SpacesAsPlusSkipsEscapes(bs[1..], rest);
      Regroup(head, tail, SpacesAsPlus(rest));
    } else {
      assert EscapeAll(bs) + rest == rest;
    }
  }

  lemma Regroup(a: string, b: string, c: string)
    ensures a + b + c == a + (b + c)
  {
  }

  lemma SpacesAsPlusOneChar(c: char, rest: string)
    ensures SpacesAsPlus(EscapeChar(c) + rest) == FormEscape(c) + SpacesAsPlus(rest)
  {
    if IsUnescaped(c) {
      SpacesAsPlusKeepsUnescaped(c, rest);
    } else if c == ' ' {
      assert Utf8(c) == [0x20];
      assert EscapeChar(c) == "%20";
      SpacesAsPlusOfSpace(rest);
    } else {
      SpacesAsPlusSkipsEscapes(Utf8(c), rest);
    }
  }

  lemma SpacesAsPlusKeepsUnescaped(c: char, rest: string)
    requires IsUnescaped(c)
    ensures SpacesAsPlus([c] + rest) == [c] + SpacesAsPlus(rest)
  {
    var s := [c] + rest;
    assert s[0] == c != '%';
    assert |s| >= 3 ==> s[..3] != "%20" by {
      if |s| >= 3 { assert s[..3][0] == c; }
    }
    assert s[1..] == rest;
  }

  lemma SpacesAsPlusOfSpace(rest: string)
    ensures SpacesAsPlus("%20" + rest) == "+" + SpacesAsPlus(rest)
  {
    assert ("%20" + rest)[..3] == "%20" && ("%20" + rest)[3..] == rest;
  }

  /** The two-step `encode` of the source is the character-by-character one. */
  lemma {:induction false} EncodeByCharacter(s: string)
    ensures Encode(s) == FormEncode(s)
    decreases |s|
  {
    if |s| > 0 {
      SpacesAsPlusOneChar(s[0], EncodeURIComponent(s[1..]));
      EncodeByCharacter(s[1..]);
    }
  }

  /**
   * What `encode` never writes: the query-string delimiters `& = , # ?`,
   * and no character of the output is whitespace (a space becomes `+`).
   */
  lemma {:induction false} EncodeAvoidsDelimiters(s: string)
    ensures forall c :: c in Encode(s) ==> c != '&' && c != '=' && c != ',' && c != '#' && c != '?' && c != ' '
    decreases |s|
  {
    EncodeByCharacter(s);
    FormEncodeAvoidsDelimiters(s);
  }

  lemma {:induction false} FormEncodeAvoidsDelimiters(s: string)
    ensures forall c :: c in FormEncode(s) ==> c != '&' && c != '=' && c != ',' && c != '#' && c != '?' && c != ' '
    decreases |s|
  {
    if |s| > 0 {
      FormEncodeAvoidsDelimiters(s[1..]);
      EscapeAllAvoidsDelimiters(Utf8(s[0]));
    }
  }

  lemma {:induction false} EscapeAllAvoidsDelimiters(bs: seq<Byte>)
    ensures forall c :: c in EscapeAll(bs) ==> c != '&' && c != '=' && c != ',' && c != '#' && c != '?' && c != ' '
    decreases |bs|
  {
    if |bs| > 0 {
      EscapeAllAvoidsDelimiters(bs[1..]);
      var digits := "0123456789ABCDEF";
      assert forall k :: 0 <= k < 16 ==> digits[k] != '&' && digits[k] != '=' && digits[k] != ',' && digits[k] != '#' && digits[k] != '?' && digits[k] != ' ';
      assert Escape(bs[0]) == ['%', digits[bs[0] / 16], digits[bs[0] % 16]];
    }
  }

  // ---------------------------------------------------------------------------
  // decodeURIComponent and decode
  // ---------------------------------------------------------------------------

  function Prepend(prefix: string, r: Option<string>): Option<string>
  {
    match r
    case Some(t) => Some(prefix + t)
    case None => None
  }

  /** Reads one escape `%XY` at the front of `s`. */
  function ReadEscape(s: string): (r: Option<Byte>)
    ensures r.Some? ==> |s| >= 3 && s[0] == '%'
  {
    if |s| >= 3 && s[0] == '%' then
      match (HexValue(s[1]), HexValue(s[2]))
      case (Some(hi), Some(lo)) =>
        var b: Byte := hi as int * 16 + lo as int;
        Some(b)
      case _ => None
    else None
  }

  /** Reads `count` escapes at the front of `s`, each of a continuation byte. */
  function ReadContinuations(s: string, count: nat): (r: Option<seq<Byte>>)
    ensures r.Some? ==> |r.value| == count && |s| >= 3 * count
    ensures r.Some? ==> forall i :: 0 <= i < count ==> IsContinuation(r.value[i])
    decreases count
  {
    if count == 0 then Some([])
    else
      match ReadEscape(s)
      case None => None
      case Some(b) =>
        if !IsContinuation(b) then None
        else
          match ReadContinuations(s[3..], count - 1)
          case None => None
          case Some(more) => Some([b] + more)
  }

  /**
   * `decodeURIComponent(s)`, with None for the URIError it throws: every
   * escape is decoded, including those of reserved characters, and the escapes
   * of one UTF-8 sequence must be adjacent.
   */
  function DecodeURIComponent(s: string): (r: Option<string>)
    ensures '%' !in s ==> r == Some(s)
    decreases |s|
  {
    if |s| == 0 then Some("")
    else if s[0] != '%' then
      assert s == [s[0]] + s[1..];
      Prepend([s[0]], DecodeURIComponent(s[1..]))
    else
      match ReadEscape(s)
      case None => None
      case Some(b) =>
        var n := SequenceLength(b);
        if n == 1 then Prepend([b as char], DecodeURIComponent(s[3..]))
        else if n == 0 then None
        else
          match ReadContinuations(s[3..], n - 1)
          case None => None
          case Some(cont) =>
            match ScalarOf(b, cont)
            case None => None
            case Some(c) => Prepend([c], DecodeURIComponent(s[3 * n..]))
  }

  /** `s.replace(/\+/g, " ")`. */
  function PlusAsSpace(s: string): (r: string)
    ensures |r| == |s|
    ensures forall i :: 0 <= i < |s| ==> r[i] == (if s[i] == '+' then ' ' else s[i])
  {
    seq(|s|, i requires 0 <= i < |s| => if s[i] == '+' then ' ' else s[i])
  }

  /** `decode(value)` of the query-string module: on a URIError the raw text is kept, `+` included. */
  function Decode(s: string): string
  {
    match DecodeURIComponent(PlusAsSpace(s))
    case Some(t) => t
    case None => s
  }

  // ---------------------------------------------------------------------------
  // decode inverts encode
  // ---------------------------------------------------------------------------

  lemma ReadEscapeOf(b: Byte, rest: string)
    ensures ReadEscape(Escape(b) + rest) == Some(b)
  {
    HexValueOfDigit(b / 16);
    HexValueOfDigit(b % 16);
  }

  lemma {:induction false} ReadContinuationsOf(bs: seq<Byte>, rest: string)
    requires forall i :: 0 <= i < |bs| ==> IsContinuation(bs[i])
    ensures ReadContinuations(EscapeAll(bs) + rest, |bs|) == Some(bs)
    decreases |bs|
  {
    if |bs| > 0 {
      var s, tail := EscapeAll(bs) + rest, EscapeAll(bs[1..]) + rest;
      EscapeAllSplit(bs, rest);
      ReadEscapeOf(bs[0], tail);
      ReadContinuationsOf(bs[1..], rest);
      ReadContinuationsStep(s, |bs|, bs[0], bs[1..]);
      assert [bs[0]] + bs[1..] == bs;
    }
  }

  lemma ReadContinuationsStep(s: string, count: nat, b: Byte, more: seq<Byte>)
    requires count > 0 && |s| >= 3
    requires ReadEscape(s) == Some(b) && IsContinuation(b)
    requires ReadContinuations(s[3..], count - 1) == Some(more)
    ensures ReadContinuations(s, count) == Some([b] + more)
  {
  }

  /** The escapes of a character's UTF-8 bytes decode to that character. */
  lemma DecodeEscapedChar(c: char, rest: string)
    requires !IsUnescaped(c)
    ensures DecodeURIComponent(EscapeAll(Utf8(c)) + rest) == Prepend([c], DecodeURIComponent(rest))
  {
    var bs := Utf8(c);
    Utf8Decodes(c);
    EscapeAllSplit(bs, rest);
    ReadEscapeOf(bs[0], EscapeAll(bs[1..]) + rest);
    if |bs| == 1 {
      assert bs[0] as char == c;
    } else {
      ReadContinuationsOf(bs[1..], rest);
    }
  }

  /** The first escape of `EscapeAll(bs) + rest`, what follows it, and what follows all of them. */
  lemma EscapeAllSplit(bs: seq<Byte>, rest: string)
    requires |bs| > 0
    ensures var s := EscapeAll(bs) + rest;
            && s == Escape(bs[0]) + (EscapeAll(bs[1..]) + rest)
            && s[3..] == EscapeAll(bs[1..]) + rest
            && s[3 * |bs|..] == rest
  {
    var head, tail := Escape(bs[0]), EscapeAll(bs[1..]);
    Regroup(head, tail, rest);
    assert (head + (tail + rest))[3..] == tail + rest;
  }

  /** What `decode` sees of one encoded character once `+` is read back as a space. */
  lemma DecodeFormEscape(c: char, rest: string)
    ensures DecodeURIComponent(PlusAsSpace(FormEscape(c)) + rest) == Prepend([c], DecodeURIComponent(rest))
  {
    if c == ' ' {
      assert PlusAsSpace("+") == " ";
      assert (" " + rest)[1..] == rest;
    } else if IsUnescaped(c) {
      assert PlusAsSpace([c]) == [c];
      assert ([c] + rest)[1..] == rest;
    } else {
      assert PlusAsSpace(EscapeAll(Utf8(c))) == EscapeAll(Utf8(c));
      DecodeEscapedChar(c, rest);
    }
  }

  lemma PlusAsSpaceAppend(a: string, b: string)
    ensures PlusAsSpace(a + b) == PlusAsSpace(a) + PlusAsSpace(b)
  {
  }

  lemma PrependTwice(a: string, b: string, r: Option<string>)
    ensures Prepend(a, Prepend(b, r)) == Prepend(a + b, r)
  {
    if r.Some? {
      assert a + (b + r.value) == (a + b) + r.value;
    }
  }

  /** Decoding an encoded string followed by more text decodes the string and goes on. */
  lemma {:induction false} DecodeEncodedPrefix(s: string, rest: string)
    ensures DecodeURIComponent(PlusAsSpace(FormEncode(s)) + rest) == Prepend(s, DecodeURIComponent(rest))
    decreases |s|
  {
    if |s| == 0 {
      assert PlusAsSpace(FormEncode(s)) + rest == rest;
      PrependEmpty(DecodeURIComponent(rest));
    } else {
      var tail := PlusAsSpace(FormEncode(s[1..])) + rest;
      PlusAsSpaceAppend(FormEscape(s[0]), FormEncode(s[1..]));
      assert PlusAsSpace(FormEncode(s)) + rest == PlusAsSpace(FormEscape(s[0])) + tail;
      DecodeFormEscape(s[0], tail);
      DecodeEncodedPrefix(s[1..], rest);
      PrependTwice([s[0]], s[1..], DecodeURIComponent(rest));
      assert [s[0]] + s[1..] == s;
    }
  }

  lemma PrependEmpty(r: Option<string>)
    ensures Prepend("", r) == r
  {
    if r.Some? {
      assert "" + r.value == r.value;
    }
  }

  /** `decode(encode(s)) == s` for every string. */
  lemma DecodeEncode(s: string)
    ensures Decode(Encode(s)) == s
  {
    EncodeByCharacter(s);
    DecodeEncodedPrefix(s, "");
    assert PlusAsSpace(FormEncode(s)) + "" == PlusAsSpace(FormEncode(s));
  }

  /** Encoded items joined by literal commas decode to the items joined by commas. */
  lemma {:induction false} DecodeEncodedList(items: seq<string>, rest: string)
    requires |items| >= 1
    ensures DecodeURIComponent(PlusAsSpace(Join(EncodeEach(items), ',')) + rest)
            == Prepend(Join(items, ','), DecodeURIComponent(rest))
    decreases |items|
  {
    EncodeByCharacter(items[0]);
    if |items| == 1 {
      DecodeEncodedPrefix(items[0], rest);
    } else {
      var more := Join(EncodeEach(items[1..]), ',');
      var tail := PlusAsSpace(more) + rest;
      CommaJoinedPlusAsSpace(items, more, rest);
      DecodeEncodedPrefix(items[0], [','] + tail);
      DecodeComma(tail);
      DecodeEncodedList(items[1..], rest);
      PrependTwice([','], Join(items[1..], ','), DecodeURIComponent(rest));
      PrependTwice(items[0], [','] + Join(items[1..], ','), DecodeURIComponent(rest));
      assert items[0] + ([','] + Join(items[1..], ',')) == Join(items, ',');
    }
  }

  lemma CommaJoinedPlusAsSpace(items: seq<string>, more: string, rest: string)
    requires |items| >= 2
    requires Encode(items[0]) == FormEncode(items[0])
    requires more == Join(EncodeEach(items[1..]), ',')
    ensures PlusAsSpace(Join(EncodeEach(items), ',')) + rest
              == PlusAsSpace(FormEncode(items[0])) + ([','] + (PlusAsSpace(more) + rest))
  {
    var head := FormEncode(items[0]);
    JoinEncodedHead(items, more);
    assert Join(EncodeEach(items), ',') == (head + [',']) + more;
    PlusAsSpaceAroundComma(head, more);
    RegroupComma(PlusAsSpace(head), PlusAsSpace(more), rest);
  }

  lemma RegroupComma(x: string, y: string, rest: string)
    ensures x + [','] + y + rest == x + ([','] + (y + rest))
  {
  }

  lemma JoinEncodedHead(items: seq<string>, more: string)
    requires |items| >= 2
    requires more == Join(EncodeEach(items[1..]), ',')
    ensures Join(EncodeEach(items), ',') == (Encode(items[0]) + [',']) + more
  {
    var encoded := EncodeEach(items);
    assert encoded[1..] == EncodeEach(items[1..]);
  }

  lemma PlusAsSpaceAroundComma(head: string, more: string)
    ensures PlusAsSpace((head + [',']) + more) == PlusAsSpace(head) + [','] + PlusAsSpace(more)
  {
    PlusAsSpaceAppend(head + [','], more);
    PlusAsSpaceAppend(head, [',']);
    assert PlusAsSpace([',']) == [','];
  }

  lemma DecodeComma(tail: string)
    ensures DecodeURIComponent([','] + tail) == Prepend([','], DecodeURIComponent(tail))
  {
    assert ([','] + tail)[1..] == tail;
  }

  /** `items.map(encode)`. */
  function EncodeEach(items: seq<string>): (r: seq<string>)
    ensures |r| == |items|
    ensures forall i :: 0 <= i < |items| ==> r[i] == Encode(items[i])
  {
    seq(|items|, i requires 0 <= i < |items| => Encode(items[i]))
  }

  /** Decoding a comma-joined list of encoded items gives the items joined by commas. */
  lemma DecodeJoinedList(items: seq<string>)
    requires |items| >= 1
    ensures Decode(Join(EncodeEach(items), ',')) == Join(items, ',')
  {
    DecodeEncodedList(items, "");
    assert PlusAsSpace(Join(EncodeEach(items), ',')) + "" == PlusAsSpace(Join(EncodeEach(items), ','));
  }
}
