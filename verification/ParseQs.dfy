// The application/x-www-form-urlencoded decoder (src/parseqs.cpp), an encoder
// general enough to produce every serialization a client may send, and the
// round trip between the two.
module ParseQs {
  import opened Text

  // ---- Percent-decoding ------------------------------------------------

  predicate IsHex(c: char) {
    || '0' <= c <= '9'
    || 'a' <= c <= 'f'
    || 'A' <= c <= 'F'
  }

  function ToLower(c: char): char {
    if 'A' <= c <= 'Z' then (c as int + 32) as char else c
  }

  /** The value section 2.1 of RFC 3986 gives to a hexadecimal digit. */
  function DigitValue(c: char): (n: int)
    requires IsHex(c)
    ensures 0 <= n < 16
  {
    if c <= '9' then c as int - '0' as int
    else if c <= 'F' then c as int - 'A' as int + 10
    else c as int - 'a' as int + 10
  }

  /** The byte an escape stands for. */
  function EscapedByte(hi: char, lo: char): char
    requires IsHex(hi) && IsHex(lo)
  {
    (16 * DigitValue(hi) + DigitValue(lo)) as char
  }

  function FromHex(c: char): (n: char)
    requires IsHex(c)
    ensures n as int == DigitValue(c)
  {
    if '0' <= c <= '9' then (c as int - '0' as int) as char
    else (ToLower(c) as int - 'a' as int + 10) as char
  }

  function Nibble(n: char): (x: bv8)
    requires n as int < 16
    ensures x < 16 && x as int == n as int
  {
    n as bv8
  }

  /** The shift-and-or that joins two nibbles. */
  method JoinBits(a: bv8, b: bv8) returns (h: bv8)
    requires a < 16 && b < 16
    ensures h as int == 16 * (a as int) + (b as int)
  {
    h := (a << 4) | b;
  }

  method JoinNibbles(a: char, b: char) returns (h: char)
    requires a as int < 16 && b as int < 16
    ensures h as int == 16 * (a as int) + (b as int)
  {
    var x := JoinBits(Nibble(a), Nibble(b));
    h := x as char;
  }

  /** What `unquote` computes, by recursion on the text. */
  function Decode(s: string): (r: string)
    ensures |r| <= |s|
  {
    if s == "" then ""
    else if s[0] == '%' then
      if |s| >= 3 && s[1] != '\0' && s[2] != '\0' then
        (if IsHex(s[1]) && IsHex(s[2]) then [EscapedByte(s[1], s[2])] else "") + Decode(s[3..])
      else
        Decode(s[1..])
    else if s[0] == '+' then " " + Decode(s[1..])
    else [s[0]] + Decode(s[1..])
  }

  lemma DecodeAt(s: string, i: nat)
    requires i < |s|
    ensures s[i] == '%' ==>
              Decode(s[i..]) ==
              if i + 2 < |s| && s[i + 1] != '\0' && s[i + 2] != '\0' then
                (if IsHex(s[i + 1]) && IsHex(s[i + 2]) then [EscapedByte(s[i + 1], s[i + 2])] else "")
                + Decode(s[i + 3..])
              else
                Decode(s[i + 1..])
    ensures s[i] != '%' ==>
              Decode(s[i..]) == [if s[i] == '+' then ' ' else s[i]] + Decode(s[i + 1..])
  {
    var rest := s[i..];
    assert rest[1..] == s[i + 1..];
    if |rest| >= 3 {
      assert rest[3..] == s[i + 3..];
    }
  }

  /** A std::string's storage: its bytes and then the terminator. */
  method CString(s: string) returns (buf: array<char>)
    ensures fresh(buf)
    ensures buf.Length == |s| + 1 && buf[|s|] == '\0'
    ensures buf[..|s|] == s
  {
    buf := new char[|s| + 1](i requires 0 <= i < |s| + 1 => if i < |s| then s[i] else '\0');
  }

  /** The skipping loop of `unquote` over a NUL-terminated buffer. Every index it
      forms is inside the buffer, and the two-byte skip never passes the end. */
  method Unquote(buf: array<char>) returns (unquoted: string)
    requires buf.Length >= 1 && buf[buf.Length - 1] == '\0'
    ensures unquoted == Decode(buf[..buf.Length - 1])
  {
    hide Decode, DigitValue;
    unquoted := "";
    var i, j := 0, buf.Length - 1;
    ghost var text := buf[..j];
    assert text[0..] == text;
    while i != j
      invariant 0 <= i <= j
      invariant Decode(text) == unquoted + Decode(text[i..])
      decreases j - i
    {
      DecodeAt(text, i);
      ghost var before := unquoted;
      ghost var rest := Decode(text[i..]);
      var c := buf[i];
      if c == '%' {
        if buf[i + 1] != '\0' && buf[i + 2] != '\0' {
          if IsHex(buf[i + 1]) && IsHex(buf[i + 2]) {
            var h := JoinNibbles(FromHex(buf[i + 1]), FromHex(buf[i + 2]));
            unquoted := unquoted + [h];
            assert rest == [h] + Decode(text[i + 3..]);
          }
          i := i + 2;
        }
      } else if c == '+' {
        unquoted := unquoted + [' '];
      } else {
        unquoted := unquoted + [c];
      }
      i := i + 1;
      assert before + rest == unquoted + Decode(text[i..]);
    }
    assert text[i..] == "";
  }

  // ---- Splitting a query into a map -------------------------------------

  /** Key and value of one piece; a leading '=' makes the whole piece a value. */
  function SplitByEq(s: string): (string, string) {
    var pos := Find(s, '=');
    if pos == |s| then (s, "")
    else if pos == 0 then ("", s)
    else (s[..pos], s[pos + 1..])
  }

  type QueryMap = map<string, string>

  function AssignPiece(m: QueryMap, piece: string): QueryMap {
    if piece == "" then m
    else var kv := SplitByEq(piece); m[Decode(kv.0) := Decode(kv.1)]
  }

  function AssignAll(pieces: seq<string>): (m: QueryMap)
    ensures |m| <= |pieces|
  {
    if |pieces| == 0 then map[]
    else
      var m := AssignAll(pieces[..|pieces| - 1]);
      var piece := pieces[|pieces| - 1];
      AssignPiece(m, piece)
  }

  /** The map a query denotes, whatever its number of parameters. */
  function Query(qs: string): QueryMap {
    AssignAll(Split(qs, '&'))
  }

  /** The outcome of `parse_qsl`; None is the std::length_error it throws. */
  function Parsed(qs: string, maxparams: nat): Option<QueryMap> {
    if Count(qs, '&') > maxparams then None else Some(Query(qs))
  }

  method ParseQsl(qs: string, maxparams: nat) returns (r: Option<QueryMap>)
    ensures r == Parsed(qs, maxparams)
  {
    if Count(qs, '&') > maxparams {
      return None;
    }
    var qsv := Split(qs, '&');
    var qsm: QueryMap := map[];
    for n := 0 to |qsv|
      invariant qsm == AssignAll(qsv[..n])
    {
      assert qsv[..n + 1][..n] == qsv[..n];
      var kv := qsv[n];
      if kv == "" {
        continue;
      }
      var kvt := SplitByEq(kv);
      var kbuf := CString(kvt.0);
      var k := Unquote(kbuf);
      var vbuf := CString(kvt.1);
      var v := Unquote(vbuf);
      qsm := qsm[k := v];
    }
    assert qsv[..|qsv|] == qsv;
    r := Some(qsm);
  }

  lemma {:induction false} AssignAllConcat(ps: seq<string>, qs: seq<string>)
    ensures AssignAll(ps + qs) == AssignAll(ps) + AssignAll(qs)
  {
    if qs == [] {
      assert ps + qs == ps;
    } else {
      var front := qs[..|qs| - 1];
      assert (ps + qs)[..|ps + qs| - 1] == ps + front;
      AssignAllConcat(ps, front);
    }
  }

  lemma QueryConcat(a: string, b: string)
    ensures Query(a + "&" + b) == Query(a) + Query(b)
  {
    SplitConcat(a, b, '&');
    AssignAllConcat(Split(a, '&'), Split(b, '&'));
  }

  lemma CountConcatAmp(a: string, b: string)
    ensures Count(a + "&" + b, '&') == Count(a, '&') + 1 + Count(b, '&')
  {
    CountConcat(a, "&", '&');
    CountConcat(a + "&", b, '&');
  }

  function Override(a: Option<QueryMap>, b: Option<QueryMap>): Option<QueryMap> {
    if a.Some? && b.Some? then Some(a.value + b.value) else None
  }

  /** Parsing is compositional: later parameters override earlier ones, and the
      whole is accepted exactly when the separators of both halves fit. */
  lemma ParseQslCompositional(a: string, b: string, maxparams: nat)
    ensures Parsed(a + "&" + b, maxparams).Some? <==> Count(a, '&') + Count(b, '&') < maxparams
    ensures Parsed(a + "&" + b, maxparams).Some? ==>
              Parsed(a + "&" + b, maxparams) == Override(Parsed(a, maxparams), Parsed(b, maxparams))
  {
    QueryConcat(a, b);
    CountConcatAmp(a, b);
  }

  lemma QueryOfNothing()
    ensures Query("") == map[]
  {
    assert Split("", '&') == [""];
    assert AssignAll([""][..0]) == map[];
  }

  lemma QueryLeadingAmp(b: string)
    ensures Query("&" + b) == Query(b)
  {
    QueryOfNothing();
    QueryConcat("", b);
    assert "" + "&" + b == "&" + b;
  }

  lemma QueryTrailingAmp(a: string)
    ensures Query(a + "&") == Query(a)
  {
    QueryOfNothing();
    QueryConcat(a, "");
    assert a + "&" + "" == a + "&";
  }

  /** Empty pieces, wherever they stand, contribute nothing. */
  lemma EmptyPieceContributesNothing(a: string, b: string)
    ensures Query(a + "&" + ("&" + b)) == Query(a + "&" + b)
    ensures Query("&" + b) == Query(b)
    ensures Query(a + "&") == Query(a)
  {
    QueryLeadingAmp(b);
    QueryTrailingAmp(a);
    QueryConcat(a, "&" + b);
    QueryConcat(a, b);
  }

  lemma ParsedSizeBound(qs: string, maxparams: nat)
    ensures Parsed(qs, maxparams).Some? ==> |Parsed(qs, maxparams).value| <= maxparams + 1
  {
    SplitCount(qs, '&');
  }

  // ---- Serializations -----------------------------------------------------

  /** Whether too little follows a percent sign for an escape: the code tests both
      next bytes against the terminator. */
  predicate CutShort(following: string) {
    |following| < 2 || following[0] == '\0' || following[1] == '\0'
  }

  /** What a text is made of: bytes and spaces as such, escapes, escapes that are none
      (their digits are not both hexadecimal) and percent signs cut short. The last
      two stand for nothing. */
  datatype Sym = Raw(c: char) | Plus | Escape(hi: char, lo: char) | Junk(a: char, b: char) | Lone {
    predicate Legal() {
      match this
      case Raw(c) => c != '%' && c != '+'
      case Plus => true
      case Escape(hi, lo) => IsHex(hi) && IsHex(lo)
      case Junk(a, b) => a != '\0' && b != '\0' && !(IsHex(a) && IsHex(b))
      case Lone => true
    }

    function Text(): string {
      match this
      case Raw(c) => [c]
      case Plus => "+"
      case Escape(hi, lo) => ['%', hi, lo]
      case Junk(a, b) => ['%', a, b]
      case Lone => "%"
    }

    function Meaning(): string
      requires Legal()
    {
      match this
      case Raw(c) => [c]
      case Plus => " "
      case Escape(hi, lo) => [EscapedByte(hi, lo)]
      case Junk(_, _) => ""
      case Lone => ""
    }
  }

  predicate Legal(ys: seq<Sym>) {
    ys == [] || (ys[0].Legal() && Legal(ys[1..]) && (ys[0].Lone? ==> CutShort(SymText(ys[1..]))))
  }

  function SymText(ys: seq<Sym>): string {
    if ys == [] then "" else ys[0].Text() + SymText(ys[1..])
  }

  function SymMeaning(ys: seq<Sym>): string
    requires Legal(ys)
  {
    if ys == [] then "" else ys[0].Meaning() + SymMeaning(ys[1..])
  }

  lemma DecodeSym(y: Sym, rest: string)
    requires y.Legal() && (y.Lone? ==> CutShort(rest))
    ensures Decode(y.Text() + rest) == y.Meaning() + Decode(rest)
  {
    var s := y.Text() + rest;
    assert s[0..] == s;
    DecodeAt(s, 0);
    assert s[|y.Text()|..] == rest;
  }

  /** Decoding inverts every way of writing a byte string. */
  lemma {:induction false} DecodeInvertsSyms(ys: seq<Sym>)
    requires Legal(ys)
    ensures Decode(SymText(ys)) == SymMeaning(ys)
  {
    hide Decode, CutShort;
    if ys == [] {
      assert Decode(SymText(ys)) == "";
    } else {
      DecodeInvertsSyms(ys[1..]);
      DecodeSym(ys[0], SymText(ys[1..]));
    }
  }

  // ---- Every text is such a writing, in one way ------------------------------------

  function FirstSym(s: string): Sym
    requires s != ""
  {
    if s[0] == '%' then
      if CutShort(s[1..]) then Lone
      else if IsHex(s[1]) && IsHex(s[2]) then Escape(s[1], s[2])
      else Junk(s[1], s[2])
    else if s[0] == '+' then Plus
    else Raw(s[0])
  }

  function Lex(s: string): seq<Sym> {
    if s == "" then [] else [FirstSym(s)] + Lex(s[|FirstSym(s).Text()|..])
  }

  lemma FirstSymFits(s: string)
    requires s != ""
    ensures var y := FirstSym(s);
            && y.Legal() && y.Text() <= s
            && (y.Lone? ==> CutShort(s[|y.Text()|..]))
  {
  }

  lemma FirstSymFound(y: Sym, rest: string)
    requires y.Legal() && (y.Lone? ==> CutShort(rest))
    ensures y.Text() + rest != "" && FirstSym(y.Text() + rest) == y
    ensures (y.Text() + rest)[|y.Text()|..] == rest
  {
    if y.Lone? {
      assert ("%" + rest)[1..] == rest;
    }
  }

  lemma SymCons(y: Sym, ys: seq<Sym>)
    requires y.Legal() && Legal(ys) && (y.Lone? ==> CutShort(SymText(ys)))
    ensures Legal([y] + ys) && SymText([y] + ys) == y.Text() + SymText(ys)
  {
    assert ([y] + ys)[1..] == ys;
  }

  lemma {:induction false} LexCovers(s: string)
    ensures Legal(Lex(s)) && SymText(Lex(s)) == s
  {
    if s != "" {
      var y := FirstSym(s);
      FirstSymFits(s);
      hide FirstSym, CutShort, Legal, SymText;
      LexCovers(s[|y.Text()|..]);
      SymCons(y, Lex(s[|y.Text()|..]));
    }
  }

  /** `unquote` on any text at all: the bytes its symbols stand for. */
  lemma {:induction false} DecodeExact(s: string)
    ensures Legal(Lex(s)) && SymText(Lex(s)) == s
    ensures Decode(s) == SymMeaning(Lex(s))
  {
    hide Decode, Lex, SymText, Legal, SymMeaning;
    LexCovers(s);
    DecodeInvertsSyms(Lex(s));
  }

  /** No text can be read in two ways. */
  lemma {:induction false} LexUnique(ys: seq<Sym>)
    requires Legal(ys)
    ensures Lex(SymText(ys)) == ys
  {
    if ys != [] {
      LexUnique(ys[1..]);
      hide FirstSym, CutShort;
      FirstSymFound(ys[0], SymText(ys[1..]));
      assert [ys[0]] + ys[1..] == ys;
    }
  }

  // ---- Forms ---------------------------------------------------------------------

  /** A form field as written, with or without an equals sign. */
  datatype Field = Field(key: seq<Sym>, value: seq<Sym>) | Bare(key: seq<Sym>) {
    predicate Valid() {
      && Legal(key) && (Field? ==> Legal(value))
      && '=' !in SymText(key)
      && '&' !in Text()
    }

    function Text(): string {
      match this
      case Field(_, _) => SymText(key) + "=" + SymText(value)
      case Bare(_) => SymText(key)
    }

    function Key(): string
      requires Valid()
    {
      SymMeaning(key)
    }

    function Value(): string
      requires Valid()
    {
      if Field? then SymMeaning(value) else ""
    }

    /** What the code takes for the value: with no key, the equals sign too. */
    function Taken(): string
      requires Valid()
    {
      if Field? && key == [] then "=" + Value() else Value()
    }
  }

  predicate ValidForm(fs: seq<Field>) {
    forall i | 0 <= i < |fs| :: fs[i].Valid()
  }

  function FieldTexts(fs: seq<Field>): (ts: seq<string>)
    ensures |ts| == |fs|
    ensures forall i :: 0 <= i < |fs| ==> ts[i] == fs[i].Text()
  {
    seq(|fs|, i requires 0 <= i < |fs| => fs[i].Text())
  }

  function FormText(fs: seq<Field>): string {
    Join(FieldTexts(fs), "&")
  }

  function AssignField(m: QueryMap, f: Field): QueryMap
    requires f.Valid()
  {
    if f == Bare([]) then m else m[f.Key() := f.Taken()]
  }

  /** The last value taken for each key. */
  function LastWins(fs: seq<Field>): (m: QueryMap)
    requires ValidForm(fs)
  {
    if fs == [] then map[] else AssignField(LastWins(fs[..|fs| - 1]), fs[|fs| - 1])
  }

  lemma DecodeNothing()
    ensures Decode("") == "" && SymText([]) == "" && SymMeaning([]) == ""
  {
  }

  lemma SymTextIsSome(ys: seq<Sym>)
    requires ys != []
    ensures SymText(ys) != ""
  {
    assert ys[0].Text() <= SymText(ys);
  }

  lemma FieldSplits(f: Field)
    requires f.Valid()
    ensures f.Text() == "" <==> f == Bare([])
    ensures f.Bare? ==> SplitByEq(f.Text()) == (SymText(f.key), "")
    ensures f.Field? && f.key == [] ==> SplitByEq(f.Text()) == ("", "=" + SymText(f.value))
    ensures f.Field? && f.key != [] ==> SplitByEq(f.Text()) == (SymText(f.key), SymText(f.value))
  {
    var k := SymText(f.key);
    DecodeNothing();
    if f.key != [] {
      SymTextIsSome(f.key);
    }
    hide SymText, Legal, Find;
    FindUnique(f.Text(), '=', |k|);
    if f.Field? {
      assert f.Text()[..|k|] == k && f.Text()[|k| + 1..] == SymText(f.value);
      assert "" + "=" + SymText(f.value) == "=" + SymText(f.value);
    }
  }

  lemma DecodeEquals(s: string)
    ensures Decode("=" + s) == "=" + Decode(s)
  {
    DecodeSym(Raw('='), s);
  }

  lemma FieldAssigns(m: QueryMap, f: Field)
    requires f.Valid()
    ensures AssignPiece(m, f.Text()) == AssignField(m, f)
  {
    FieldSplits(f);
    DecodeNothing();
    DecodeInvertsSyms(f.key);
    if f.Field? {
      DecodeInvertsSyms(f.value);
      DecodeEquals(SymText(f.value));
    }
    hide Decode, SymText, SymMeaning, Legal, SplitByEq;
  }

  lemma {:induction false} AssignAllFields(fs: seq<Field>)
    requires ValidForm(fs)
    ensures AssignAll(FieldTexts(fs)) == LastWins(fs)
  {
    if fs != [] {
      var front, f := fs[..|fs| - 1], fs[|fs| - 1];
      AssignAllFields(front);
      FieldAssigns(LastWins(front), f);
      assert FieldTexts(fs)[..|fs| - 1] == FieldTexts(front);
      hide AssignPiece, AssignField, SymMeaning, SymText;
    }
  }

  lemma FieldTextsHaveNoAmp(fs: seq<Field>)
    requires ValidForm(fs)
    ensures forall t | t in FieldTexts(fs) :: '&' !in t
  {
    forall t | t in FieldTexts(fs) ensures '&' !in t {
      var i :| 0 <= i < |fs| && t == FieldTexts(fs)[i];
      assert fs[i].Valid();
    }
  }

  /** Round trip over every serialization of every form: any hex case, any byte
      optionally escaped, spaces as '+', '%20' or themselves, keys and values empty or
      not, equals signs left out. */
  lemma FormRoundTrip(fs: seq<Field>, maxparams: nat)
    requires ValidForm(fs)
    ensures Query(FormText(fs)) == LastWins(fs)
    ensures Parsed(FormText(fs), maxparams) == if |fs| <= maxparams + 1 then Some(LastWins(fs)) else None
  {
    if fs == [] {
      assert FormText(fs) == "";
      QueryOfNothing();
    } else {
      FieldTextsHaveNoAmp(fs);
      SplitJoin(FieldTexts(fs), '&');
      AssignAllFields(fs);
      SplitCount(FormText(fs), '&');
    }
  }

  // ---- Every text is such a form, in one way -----------------------------------------

  function FieldOf(piece: string): Field {
    var pos := Find(piece, '=');
    if pos == |piece| then Bare(Lex(piece)) else Field(Lex(piece[..pos]), Lex(piece[pos + 1..]))
  }

  function FieldsOf(pieces: seq<string>): (fs: seq<Field>)
    ensures |fs| == |pieces|
    ensures forall i :: 0 <= i < |fs| ==> fs[i] == FieldOf(pieces[i])
  {
    seq(|pieces|, i requires 0 <= i < |pieces| => FieldOf(pieces[i]))
  }

  function FormOf(qs: string): seq<Field> {
    FieldsOf(Split(qs, '&'))
  }

  lemma FieldOfCovers(piece: string)
    requires '&' !in piece
    ensures FieldOf(piece).Valid() && FieldOf(piece).Text() == piece
  {
    hide Lex, Legal, SymText;
    var pos := Find(piece, '=');
    if pos == |piece| {
      LexCovers(piece);
    } else {
      LexCovers(piece[..pos]);
      LexCovers(piece[pos + 1..]);
      assert piece == piece[..pos] + "=" + piece[pos + 1..];
    }
  }

  lemma FieldOfUnique(f: Field)
    requires f.Valid()
    ensures FieldOf(f.Text()) == f
  {
    hide Lex, Legal, SymText;
    var k := SymText(f.key);
    LexUnique(f.key);
    FindUnique(f.Text(), '=', |k|);
    if f.Field? {
      LexUnique(f.value);
      assert f.Text()[..|k|] == k && f.Text()[|k| + 1..] == SymText(f.value);
    }
  }

  /** `parse_qsl` on any query at all: the last value taken for each key of the one
      form it is. */
  lemma QueryExact(qs: string)
    ensures ValidForm(FormOf(qs)) && FormText(FormOf(qs)) == qs
    ensures Query(qs) == LastWins(FormOf(qs))
  {
    hide FieldOf, Field.Valid, Field.Text, Query;
    var pieces := Split(qs, '&');
    forall i | 0 <= i < |pieces| ensures FormOf(qs)[i].Valid() && FormOf(qs)[i].Text() == pieces[i] {
      FieldOfCovers(pieces[i]);
    }
    assert FieldTexts(FormOf(qs)) == pieces;
    JoinSplit(qs, '&');
    FormRoundTrip(FormOf(qs), 0);
  }

  /** No query is two forms; the empty one is written as nothing, like the form of
      one empty piece. */
  lemma FormUnique(fs: seq<Field>)
    requires ValidForm(fs) && fs != []
    ensures FormOf(FormText(fs)) == fs
  {
    hide FieldOf, Field.Text;
    FieldTextsHaveNoAmp(fs);
    SplitJoin(FieldTexts(fs), '&');
    forall i | 0 <= i < |fs| ensures FieldOf(FieldTexts(fs)[i]) == fs[i] {
      FieldOfUnique(fs[i]);
    }
  }

  // ---- The serializer of section 5.2 of the WHATWG URL Standard --------------

  function HexDigit(n: int): (c: char)
    requires 0 <= n < 16
    ensures IsHex(c) && DigitValue(c) == n
  {
    if n < 10 then ('0' as int + n) as char else ('A' as int + n - 10) as char
  }

  predicate FormUnreserved(c: char) {
    || '0' <= c <= '9' || 'a' <= c <= 'z' || 'A' <= c <= 'Z'
    || c == '*' || c == '-' || c == '.' || c == '_'
  }

  predicate IsBytes(s: string) {
    forall i | 0 <= i < |s| :: s[i] as int < 256
  }

  function PercentEncode(s: string): (ys: seq<Sym>)
    requires IsBytes(s)
    ensures |ys| == |s| && Legal(ys)
    ensures '=' !in SymText(ys) && '&' !in SymText(ys)
  {
    if s == "" then []
    else
      var c := s[0];
      [if c == ' ' then Plus
       else if FormUnreserved(c) then Raw(c)
       else Escape(HexDigit(c as int / 16), HexDigit(c as int % 16))] + PercentEncode(s[1..])
  }

  lemma {:induction false} PercentEncodeMeaning(s: string)
    requires IsBytes(s)
    ensures SymMeaning(PercentEncode(s)) == s
  {
    if s != "" {
      var c := s[0];
      PercentEncodeMeaning(s[1..]);
      assert PercentEncode(s)[1..] == PercentEncode(s[1..]);
    }
  }

  datatype Pair = Pair(key: string, value: string) {
    predicate Serializable() {
      IsBytes(key) && IsBytes(value)
    }

    /** What the code takes for the value once the pair is serialized. */
    function Taken(): string {
      if key == "" then "=" + value else value
    }
  }

  predicate Serializable(ps: seq<Pair>) {
    forall i | 0 <= i < |ps| :: ps[i].Serializable()
  }

  function SerializePairs(ps: seq<Pair>): (fs: seq<Field>)
    requires Serializable(ps)
    ensures |fs| == |ps| && ValidForm(fs)
  {
    if ps == [] then []
    else
      var p := ps[|ps| - 1];
      SerializePairs(ps[..|ps| - 1]) + [Field(PercentEncode(p.key), PercentEncode(p.value))]
  }

  function LastPairs(ps: seq<Pair>): QueryMap {
    if ps == [] then map[] else LastPairs(ps[..|ps| - 1])[ps[|ps| - 1].key := ps[|ps| - 1].value]
  }

  function TakenPairs(ps: seq<Pair>): QueryMap {
    if ps == [] then map[] else TakenPairs(ps[..|ps| - 1])[ps[|ps| - 1].key := ps[|ps| - 1].Taken()]
  }

  lemma SerializedField(p: Pair)
    requires p.Serializable()
    ensures var f := Field(PercentEncode(p.key), PercentEncode(p.value));
            f.Valid() && f.Key() == p.key && f.Value() == p.value && f.Taken() == p.Taken()
  {
    PercentEncodeMeaning(p.key);
    PercentEncodeMeaning(p.value);
  }

  lemma {:induction false} SerializedMeaning(ps: seq<Pair>)
    requires Serializable(ps)
    ensures LastWins(SerializePairs(ps)) == TakenPairs(ps)
  {
    if ps != [] {
      var front := ps[..|ps| - 1];
      SerializedMeaning(front);
      SerializedField(ps[|ps| - 1]);
      assert SerializePairs(ps)[..|ps| - 1] == SerializePairs(front);
      hide PercentEncode, SymMeaning, SymText, Legal, Field.Valid, Field.Key, Field.Taken, Pair.Taken;
    }
  }

  lemma {:induction false} TakenLookup(ps: seq<Pair>)
    ensures TakenPairs(ps).Keys == LastPairs(ps).Keys
    ensures "" in LastPairs(ps) <==> exists i | 0 <= i < |ps| :: ps[i].key == ""
    ensures forall k | k in LastPairs(ps) ::
              TakenPairs(ps)[k] == if k == "" then "=" + LastPairs(ps)[k] else LastPairs(ps)[k]
  {
    if ps != [] {
      var front := ps[..|ps| - 1];
      TakenLookup(front);
      assert forall i | 0 <= i < |front| :: front[i] == ps[i];
    }
  }

  lemma TakenAreLastIff(ps: seq<Pair>)
    ensures TakenPairs(ps) == LastPairs(ps) <==> forall i | 0 <= i < |ps| :: ps[i].key != ""
  {
    TakenLookup(ps);
    hide TakenPairs, LastPairs;
    if "" in LastPairs(ps) {
      assert |TakenPairs(ps)[""]| == |LastPairs(ps)[""]| + 1;
    } else {
      assert forall k | k in LastPairs(ps) :: TakenPairs(ps)[k] == LastPairs(ps)[k];
    }
  }

  /** The standard's own serializer followed by `parse_qsl`: last-wins, but a value
      without a name is taken with its equals sign, so that the pairs come back exactly
      when every one of them has a name. */
  lemma StandardFormRoundTrip(ps: seq<Pair>, maxparams: nat)
    requires Serializable(ps)
    ensures Parsed(FormText(SerializePairs(ps)), maxparams)
         == if |ps| <= maxparams + 1 then Some(TakenPairs(ps)) else None
    ensures TakenPairs(ps) == LastPairs(ps) <==> forall i | 0 <= i < |ps| :: ps[i].key != ""
  {
    SerializedMeaning(ps);
    FormRoundTrip(SerializePairs(ps), maxparams);
    TakenAreLastIff(ps);
  }
}
