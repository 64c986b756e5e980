// Where the decoder departs from the parser of section 5.1 of the WHATWG URL
// Standard, on bytes (the standard's last step, UTF-8 decoding, is left out).
module Standard {
  import opened Text
  import opened ParseQs

  /** Percent-decoding there: a percent sign without two digits stands for itself. */
  function StandardDecode(s: string): string {
    if s == "" then ""
    else if s[0] == '%' && |s| >= 3 && IsHex(s[1]) && IsHex(s[2]) then
      [EscapedByte(s[1], s[2])] + StandardDecode(s[3..])
    else
      [if s[0] == '+' then ' ' else s[0]] + StandardDecode(s[1..])
  }

  predicate CompleteAt(s: string, i: nat)
    requires i < |s|
  {
    s[i] == '%' ==> i + 2 < |s| && IsHex(s[i + 1]) && IsHex(s[i + 2])
  }

  /** Every percent sign starts an escape. */
  predicate Complete(s: string) {
    forall i | 0 <= i < |s| :: CompleteAt(s, i)
  }

  lemma CompleteFrom(s: string, n: nat)
    requires n <= |s| && forall i | 0 <= i < n :: CompleteAt(s, i)
    ensures Complete(s) <==> Complete(s[n..])
  {
    var t := s[n..];
    assert forall i | 0 <= i < |t| :: CompleteAt(t, i) <==> CompleteAt(s, n + i);
    assert forall i | n <= i < |s| :: CompleteAt(s, i) <==> CompleteAt(t, i - n);
  }

  // ---- Decoding ------------------------------------------------------------------

  lemma DecodeRaw(s: string)
    requires s != "" && s[0] != '%'
    ensures |Decode(s)| == 1 + |Decode(s[1..])| && |StandardDecode(s)| == 1 + |StandardDecode(s[1..])|
    ensures Decode(s)[0] == StandardDecode(s)[0] == if s[0] == '+' then ' ' else s[0]
    ensures Decode(s)[1..] == Decode(s[1..]) && StandardDecode(s)[1..] == StandardDecode(s[1..])
  {
    hide EscapedByte;
  }

  lemma DecodeEscape(s: string)
    requires |s| >= 3 && s[0] == '%' && IsHex(s[1]) && IsHex(s[2])
    ensures Decode(s) == [EscapedByte(s[1], s[2])] + Decode(s[3..])
    ensures StandardDecode(s) == [EscapedByte(s[1], s[2])] + StandardDecode(s[3..])
    ensures Complete(s) <==> Complete(s[3..])
  {
    CompleteFrom(s, 3);
  }

  /** The digits of an escape, read on their own, are raw bytes. */
  lemma DecodeTwoRaw(s: string)
    requires |s| >= 2 && IsHex(s[0]) && IsHex(s[1])
    ensures |Decode(s)| == 2 + |Decode(s[2..])|
  {
    DecodeRaw(s);
    DecodeRaw(s[1..]);
    assert s[1..][1..] == s[2..];
  }

  lemma StandardByte(s: string)
    requires s != "" && !(s[0] == '%' && |s| >= 3 && IsHex(s[1]) && IsHex(s[2]))
    ensures |StandardDecode(s)| == 1 + |StandardDecode(s[1..])|
  {
  }

  /** The three bytes the code drops for an escape that is none: the standard keeps the
      percent sign, and an escape it finds to straddle their end costs it no more than
      the bytes the code keeps of it. */
  lemma JunkIsLonger(s: string)
    requires |s| >= 3 && s[0] == '%' && !(IsHex(s[1]) && IsHex(s[2]))
    requires |Decode(s[3..])| <= |StandardDecode(s[3..])|
    requires |s| >= 4 ==> |Decode(s[4..])| <= |StandardDecode(s[4..])|
    requires |s| >= 5 ==> |Decode(s[5..])| <= |StandardDecode(s[5..])|
    ensures |Decode(s[3..])| < |StandardDecode(s)|
  {
    hide Decode, StandardDecode, IsHex;
    StandardByte(s);
    var t := s[1..];
    assert t[1..] == s[2..] && s[2..][1..] == s[3..];
    if t[0] == '%' && |t| >= 3 && IsHex(t[1]) && IsHex(t[2]) {
      DecodeEscape(t);
      HexIsRaw(s[3]);
      DecodeRaw(s[3..]);
      assert t[3..] == s[4..] == s[3..][1..];
    } else {
      StandardByte(t);
      var u := s[2..];
      if u[0] == '%' && |u| >= 3 && IsHex(u[1]) && IsHex(u[2]) {
        DecodeEscape(u);
        DecodeTwoRaw(s[3..]);
        assert u[3..] == s[5..] == s[3..][2..];
      } else {
        StandardByte(u);
      }
    }
  }

  lemma HexIsRaw(c: char)
    requires IsHex(c)
    ensures c != '%'
  {
  }

  /** The code never keeps more than the standard, and less as soon as a percent sign
      starts no escape. */
  lemma {:induction false} DecodeIsShorter(s: string)
    ensures |Decode(s)| <= |StandardDecode(s)|
    ensures !Complete(s) ==> |Decode(s)| < |StandardDecode(s)|
    decreases |s|
  {
    hide IsHex;
    if s == "" {
    } else if s[0] != '%' {
      DecodeIsShorter(s[1..]);
      CompleteFrom(s, 1);
      DecodeRaw(s);
    } else if |s| >= 3 && IsHex(s[1]) && IsHex(s[2]) {
      DecodeIsShorter(s[3..]);
      DecodeEscape(s);
    } else if |s| >= 3 && s[1] != '\0' && s[2] != '\0' {
      DecodeIsShorter(s[3..]);
      if |s| >= 4 {
        DecodeIsShorter(s[4..]);
      }
      if |s| >= 5 {
        DecodeIsShorter(s[5..]);
      }
      JunkIsLonger(s);
    } else {
      DecodeIsShorter(s[1..]);
      StandardByte(s);
    }
  }

  lemma {:induction false} CompleteIsStandard(s: string)
    requires Complete(s)
    ensures Decode(s) == StandardDecode(s)
    decreases |s|
  {
    if s != "" {
      assert CompleteAt(s, 0);
      if s[0] == '%' {
        DecodeEscape(s);
        CompleteIsStandard(s[3..]);
      } else {
        CompleteFrom(s, 1);
        CompleteIsStandard(s[1..]);
      }
    }
  }

  /** The code decodes a text as the standard does exactly when every percent sign in it
      starts an escape. */
  lemma DecodeIsStandardIff(s: string)
    ensures Decode(s) == StandardDecode(s) <==> Complete(s)
  {
    hide Complete;
    DecodeIsShorter(s);
    if Complete(s) {
      CompleteIsStandard(s);
    }
  }

  // ---- Pieces of a query ---------------------------------------------------------------

  function ReadPair(piece: string): Pair {
    var kv := SplitByEq(piece);
    Pair(Decode(kv.0), Decode(kv.1))
  }

  function StandardPair(piece: string): Pair {
    var pos := Find(piece, '=');
    if pos == |piece| then Pair(StandardDecode(piece), "")
    else Pair(StandardDecode(piece[..pos]), StandardDecode(piece[pos + 1..]))
  }

  lemma CompleteParts(piece: string, pos: nat)
    requires pos < |piece| && piece[pos] == '='
    ensures Complete(piece) <==> Complete(piece[..pos]) && Complete(piece[pos + 1..])
  {
    var k, v := piece[..pos], piece[pos + 1..];
    assert !IsHex(piece[pos]);
    assert forall i | 0 <= i < pos :: CompleteAt(piece, i) <==> CompleteAt(k, i);
    assert forall i | 0 <= i < |v| :: CompleteAt(v, i) <==> CompleteAt(piece, pos + 1 + i);
    assert forall i | pos < i < |piece| :: CompleteAt(piece, i) <==> CompleteAt(v, i - pos - 1);
  }

  /** Keeping a leading equals sign cannot be made up for by what decoding drops. */
  lemma {:induction false} EqualsIsKept(v: string)
    ensures StandardDecode(v) != "=" + Decode(v)
    decreases |v|
  {
    hide IsHex, EscapedByte;
    if v != "" && StandardDecode(v) == "=" + Decode(v) {
      assert StandardDecode(v)[0] == '=' && StandardDecode(v)[1..] == Decode(v);
      if v[0] == '%' {
        assert |v| >= 3 && IsHex(v[1]) && IsHex(v[2]);
        DecodeEscape(v);
        assert Decode(v) == "=" + Decode(v[3..]);
        EqualsIsKept(v[3..]);
      } else {
        DecodeRaw(v);
        assert Decode(v) == "=" + Decode(v[1..]);
        EqualsIsKept(v[1..]);
      }
    }
  }

  /** One piece is read as by the standard exactly when it does not start with an equals
      sign and every percent sign in it starts an escape. */
  lemma PieceIsStandardIff(piece: string)
    requires piece != ""
    ensures ReadPair(piece) == StandardPair(piece) <==> piece[0] != '=' && Complete(piece)
  {
    hide Complete, Decode, StandardDecode;
    var pos := Find(piece, '=');
    if pos == |piece| {
      DecodeIsStandardIff(piece);
      assert Decode("") == "" by { DecodeNothing(); }
    } else if pos == 0 {
      EqualsIsKept(piece[1..]);
      DecodeEquals(piece[1..]);
      assert piece == "=" + piece[1..];
    } else {
      CompleteParts(piece, pos);
      DecodeIsStandardIff(piece[..pos]);
      DecodeIsStandardIff(piece[pos + 1..]);
    }
  }

  /** The pairs of a query in order; empty pieces are none. */
  function ReadPairs(pieces: seq<string>): seq<Pair> {
    if pieces == [] then []
    else
      var piece := pieces[|pieces| - 1];
      ReadPairs(pieces[..|pieces| - 1]) + if piece == "" then [] else [ReadPair(piece)]
  }

  function StandardPairs(pieces: seq<string>): (ps: seq<Pair>)
    ensures |ps| == |ReadPairs(pieces)|
  {
    if pieces == [] then []
    else
      var piece := pieces[|pieces| - 1];
      StandardPairs(pieces[..|pieces| - 1]) + if piece == "" then [] else [StandardPair(piece)]
  }

  predicate Plain(piece: string) {
    piece == "" || (piece[0] != '=' && Complete(piece))
  }

  lemma SnocEqual(xs: seq<Pair>, ys: seq<Pair>, x: Pair, y: Pair)
    requires |xs| == |ys|
    ensures xs + [x] == ys + [y] <==> xs == ys && x == y
  {
    if xs + [x] == ys + [y] {
      assert (xs + [x])[..|xs|] == xs && (ys + [y])[..|ys|] == ys;
      assert (xs + [x])[|xs|] == x && (ys + [y])[|ys|] == y;
    }
  }

  predicate AllPlain(pieces: seq<string>) {
    forall i | 0 <= i < |pieces| :: Plain(pieces[i])
  }

  lemma AllPlainSnoc(pieces: seq<string>)
    requires pieces != []
    ensures AllPlain(pieces) <==> AllPlain(pieces[..|pieces| - 1]) && Plain(pieces[|pieces| - 1])
  {
    hide Plain;
  }

  lemma {:induction false} PairsAreStandardIff(pieces: seq<string>)
    ensures ReadPairs(pieces) == StandardPairs(pieces) <==> AllPlain(pieces)
  {
    if pieces != [] {
      var front, piece := pieces[..|pieces| - 1], pieces[|pieces| - 1];
      PairsAreStandardIff(front);
      AllPlainSnoc(pieces);
      hide Complete, ReadPair, StandardPair, AllPlain;
      if piece != "" {
        PieceIsStandardIff(piece);
        SnocEqual(ReadPairs(front), StandardPairs(front), ReadPair(piece), StandardPair(piece));
      } else {
        assert ReadPairs(front) + [] == ReadPairs(front) && StandardPairs(front) + [] == StandardPairs(front);
      }
    }
  }

  lemma LastPairsSnoc(ps: seq<Pair>, p: Pair)
    ensures LastPairs(ps + [p]) == LastPairs(ps)[p.key := p.value]
  {
    assert (ps + [p])[..|ps|] == ps;
  }

  lemma {:induction false} ReadPairsAssign(pieces: seq<string>)
    ensures AssignAll(pieces) == LastPairs(ReadPairs(pieces))
  {
    if pieces != [] {
      var front, piece := pieces[..|pieces| - 1], pieces[|pieces| - 1];
      ReadPairsAssign(front);
      LastPairsSnoc(ReadPairs(front), ReadPair(piece));
      hide Decode, SplitByEq, LastPairs;
      assert ReadPairs(front) + [] == ReadPairs(front);
    }
  }

  /** `parse_qsl` takes the last values of the pairs it reads, and these are the pairs of
      the standard's parser exactly when no piece starts with an equals sign and every
      percent sign starts an escape. */
  lemma QueryIsStandardIff(qs: string)
    ensures var pieces := Split(qs, '&');
            && Query(qs) == LastPairs(ReadPairs(pieces))
            && (ReadPairs(pieces) == StandardPairs(pieces) <==> AllPlain(pieces))
  {
    ReadPairsAssign(Split(qs, '&'));
    PairsAreStandardIff(Split(qs, '&'));
  }
}
