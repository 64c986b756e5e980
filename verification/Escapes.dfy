// Percent-decoding on texts alone: it inverts every writer of bytes, whatever the case
// of the digits, works piece by piece, and drops what is no escape.
module Escapes {
  import opened ParseQs

  // ---- Digits --------------------------------------------------------------------

  /** The sixteen digits in either case, in the order of their values. */
  lemma DigitsOfEitherCase(n: nat)
    requires n < 16
    ensures var lower, upper := "0123456789abcdef"[n], "0123456789ABCDEF"[n];
            && IsHex(lower) && DigitValue(lower) == n && FromHex(lower) as int == n
            && IsHex(upper) && DigitValue(upper) == n && FromHex(upper) as int == n
  {
  }

  lemma HexIsOneOf(c: char)
    ensures IsHex(c) <==> c in "0123456789abcdef" || c in "0123456789ABCDEF"
  {
    hide DigitValue;
    var lower, upper := "0123456789abcdef", "0123456789ABCDEF";
    if '0' <= c <= '9' {
      assert lower[c as int - '0' as int] == c;
    } else if 'a' <= c <= 'f' {
      assert lower[10 + (c as int - 'a' as int)] == c;
    } else if 'A' <= c <= 'F' {
      assert upper[10 + (c as int - 'A' as int)] == c;
    }
  }

  // ---- Writing bytes ---------------------------------------------------------------

  /** How a byte is written: as it is, as a plus sign, or as an escape with each digit in
      either case. */
  datatype Style = AsIs | Plussed | Escaped(upperHigh: bool, upperLow: bool)

  function Digit(n: nat, upper: bool): char
    requires n < 16
  {
    if upper then "0123456789ABCDEF"[n] else "0123456789abcdef"[n]
  }

  predicate Fits(c: char, style: Style) {
    match style
    case AsIs => c != '%' && c != '+'
    case Plussed => c == ' '
    case Escaped(_, _) => c as int < 256
  }

  function Write(c: char, style: Style): string
    requires Fits(c, style)
  {
    match style
    case AsIs => [c]
    case Plussed => "+"
    case Escaped(high, low) => ['%', Digit(c as int / 16, high), Digit(c as int % 16, low)]
  }

  predicate AllFit(s: string, styles: seq<Style>) {
    |styles| == |s| && forall i | 0 <= i < |s| :: Fits(s[i], styles[i])
  }

  function WriteAll(s: string, styles: seq<Style>): string
    requires AllFit(s, styles)
  {
    if s == "" then "" else Write(s[0], styles[0]) + WriteAll(s[1..], styles[1..])
  }

  lemma DigitIsHex(n: nat, upper: bool)
    requires n < 16
    ensures IsHex(Digit(n, upper)) && DigitValue(Digit(n, upper)) == n
  {
    hide IsHex, DigitValue, FromHex;
    DigitsOfEitherCase(n);
  }

  lemma DecodeWritten(c: char, style: Style, rest: string)
    requires Fits(c, style)
    ensures Decode(Write(c, style) + rest) == [c] + Decode(rest)
  {
    match style
    case AsIs => DecodeSym(Raw(c), rest);
    case Plussed => DecodeSym(Plus, rest);
    case Escaped(high, low) =>
      DigitIsHex(c as int / 16, high);
      DigitIsHex(c as int % 16, low);
      hide Digit, IsHex, DigitValue, Decode;
      DecodeSym(Escape(Digit(c as int / 16, high), Digit(c as int % 16, low)), rest);
  }

  /** Decoding inverts every writer of bytes. */
  lemma {:induction false} DecodeInvertsWriting(s: string, styles: seq<Style>)
    requires AllFit(s, styles)
    ensures Decode(WriteAll(s, styles)) == s
  {
    hide Fits, Write, Decode;
    if s == "" {
      DecodeNothing();
    } else {
      DecodeInvertsWriting(s[1..], styles[1..]);
      DecodeWritten(s[0], styles[0], WriteAll(s[1..], styles[1..]));
    }
  }

  // ---- Piece by piece ----------------------------------------------------------------

  /** No percent sign among the last two bytes. */
  predicate Settled(p: string) {
    forall i | 0 <= i < |p| && i + 2 >= |p| :: p[i] != '%'
  }

  lemma SettledRest(p: string, y: Sym)
    requires Settled(p) && p != "" && y == FirstSym(p)
    ensures Settled(p[|y.Text()|..])
    ensures y.Lone? ==> CutShort(p[1..]) && |p| >= 3 && y.Text() == "%"
  {
    var rest := p[|y.Text()|..];
    assert forall i | 0 <= i < |rest| :: rest[i] == p[|y.Text()| + i];
    assert y.Lone? ==> p[0] == '%' && (p[1] == '\0' || p[2] == '\0');
  }

  lemma Regroup(a: string, b: string, c: string)
    ensures a + (b + c) == (a + b) + c
  {
  }

  /** A text may be cut where no percent sign is among the two bytes before. */
  lemma {:induction false} DecodeConcat(p: string, s: string)
    requires Settled(p)
    ensures Decode(p + s) == Decode(p) + Decode(s)
    decreases |p|
  {
    hide Decode, FirstSym, Settled;
    if p == "" {
      assert p + s == s;
      DecodeNothing();
    } else {
      var y := FirstSym(p);
      FirstSymFits(p);
      var rest := p[|y.Text()|..];
      SettledRest(p, y);
      assert p == y.Text() + rest;
      DecodeConcat(rest, s);
      DecodeSym(y, rest);
      DecodeSym(y, rest + s);
      Regroup(y.Text(), rest, s);
      Regroup(y.Meaning(), Decode(rest), Decode(s));
    }
  }

  /** What a percent sign and the bytes after it stand for: one byte with two digits,
      nothing with two other bytes, and with a NUL or too few bytes those bytes. */
  lemma DecodePercent(a: char, b: char)
    ensures IsHex(a) && IsHex(b) ==> Decode(['%', a, b]) == [(16 * DigitValue(a) + DigitValue(b)) as char]
    ensures a != '\0' && b != '\0' && !(IsHex(a) && IsHex(b)) ==> Decode(['%', a, b]) == ""
    ensures a == '\0' || b == '\0' ==> Decode(['%', a, b]) == Decode([a, b])
    ensures Decode(['%', a]) == Decode([a]) && Decode("%") == ""
  {
    var s := ['%', a, b];
    assert s[1..] == [a, b] && s[3..] == [] && ['%', a][1..] == [a] && "%"[1..] == "";
  }

  lemma DecodeByte(c: char)
    ensures c != '%' ==> Decode([c]) == [if c == '+' then ' ' else c]
  {
    assert [c][1..] == "";
  }
}
