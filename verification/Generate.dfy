// The token generator (src/generate.cpp) over an arbitrary random stream, and the
// exact language of its tokens.
module Generate {
  import opened Text

  // ---- The random stream ----------------------------------------------------

  /** What the distributions draw from; every stream is possible. */
  type Stream = nat -> nat

  /** A draw from the distribution over lo..hi. */
  function Pick(st: Stream, pos: nat, lo: nat, hi: nat): (x: nat)
    requires lo <= hi
    ensures lo <= x <= hi
  {
    lo + st(pos) % (hi - lo + 1)
  }

  class Mt19937 {
    const stream: Stream
    var pos: nat

    constructor (stream: Stream)
      ensures this.stream == stream && pos == 0
    {
      this.stream := stream;
      pos := 0;
    }

    method Uniform(lo: nat, hi: nat) returns (x: nat)
      requires lo <= hi
      modifies this
      ensures x == Pick(stream, old(pos), lo, hi)
      ensures pos == old(pos) + 1
    {
      x := Pick(stream, pos, lo, hi);
      pos := pos + 1;
    }
  }

  // ---- Tables -----------------------------------------------------------------

  function Range(a: char, b: char): (r: string)
    requires a <= b < '\U{80}'
    ensures |r| == b as int - a as int + 1
    ensures forall i :: 0 <= i < |r| ==> r[i] as int == a as int + i
  {
    seq(b as int - a as int + 1, i requires 0 <= i <= b as int - a as int => (a as int + i) as char)
  }

  /** The 64 characters of a random component. */
  const CHARLIST: string := Range('a', 'z') + Range('A', 'Z') + Range('0', '9') + "-_"

  const EXT := [
    ".avi", ".bat", ".csv", ".divx", ".doc", ".docx", ".exe", ".gif", ".ini", ".jpg",
    ".m4a", ".mkv", ".mov", ".mp3", ".mp4", ".pdf", ".png", ".ppt", ".txt", ".xls"
  ]

  predicate WordChar(c: char) {
    'a' <= c <= 'z' || '0' <= c <= '9' || c == '-'
  }

  predicate RandomChar(c: char) {
    WordChar(c) || 'A' <= c <= 'Z' || c == '_'
  }

  lemma CharlistIsRandomChars(k: nat)
    requires k < 64
    ensures |CHARLIST| == 64 && RandomChar(CHARLIST[k])
  {
  }

  /** Where a character stands in the list. */
  function CharIndex(c: char): (k: nat)
    requires RandomChar(c)
    ensures k < 64 && CHARLIST[k] == c
  {
    if 'a' <= c <= 'z' then c as int - 'a' as int
    else if 'A' <= c <= 'Z' then 26 + c as int - 'A' as int
    else if '0' <= c <= '9' then 52 + c as int - '0' as int
    else if c == '-' then 62
    else 63
  }

  predicate IsWord(w: string) {
    w != "" && forall k | 0 <= k < |w| :: WordChar(w[k])
  }

  /** Any word table will do that is not empty and holds non-empty lower-case words. */
  predicate ValidWords(words: seq<string>) {
    words != [] && forall i | 0 <= i < |words| :: IsWord(words[i])
  }

  // ---- What the generator computes ----------------------------------------------

  /** A value and the position of the next draw. */
  datatype Drawn<T> = Drawn(value: T, pos: nat)

  /** The loop of `generate_randstr` from its i-th test on; the bound is drawn anew
      at every test. */
  function RandStr(st: Stream, pos: nat, i: nat): (r: Drawn<string>)
    requires i <= 15
    ensures 6 <= i + |r.value| <= 15
    ensures forall k :: 0 <= k < |r.value| ==> RandomChar(r.value[k])
    decreases 15 - i
  {
    if i < Pick(st, pos, 6, 15) then
      var k := Pick(st, pos + 1, 0, 63);
      CharlistIsRandomChars(k);
      var rest := RandStr(st, pos + 2, i + 1);
      Drawn([CHARLIST[k]] + rest.value, rest.pos)
    else
      Drawn("", pos + 1)
  }

  method GenerateRandStr(mt: Mt19937) returns (s: string)
    modifies mt
    ensures var r := RandStr(mt.stream, old(mt.pos), 0); s == r.value && mt.pos == r.pos
  {
    hide RandStr;
    s := "";
    var i := 0;
    ghost var all := RandStr(mt.stream, mt.pos, 0);
    while true
      invariant 0 <= i <= 15
      invariant var rest := RandStr(mt.stream, mt.pos, i); all.value == s + rest.value && all.pos == rest.pos
      decreases 15 - i
    {
      RandStrUnfolds(mt.stream, mt.pos, i);
      var bound := mt.Uniform(6, 15);
      if i >= bound {
        break;
      }
      var k := mt.Uniform(0, 63);
      CharlistIsRandomChars(k);
      s := s + [CHARLIST[k]];
      i := i + 1;
    }
  }

  lemma RandStrUnfolds(st: Stream, pos: nat, i: nat)
    requires i <= 15
    ensures i >= Pick(st, pos, 6, 15) ==> RandStr(st, pos, i) == Drawn("", pos + 1)
    ensures i < Pick(st, pos, 6, 15) ==>
              var k := Pick(st, pos + 1, 0, 63);
              var rest := RandStr(st, pos + 2, i + 1);
              && k < |CHARLIST|
              && RandStr(st, pos, i) == Drawn([CHARLIST[k]] + rest.value, rest.pos)
  {
    CharlistIsRandomChars(Pick(st, pos + 1, 0, 63));
  }

  datatype Component = Random(text: string) | Word(text: string)

  function Texts(cs: seq<Component>): (ts: seq<string>)
    ensures |ts| == |cs|
    ensures forall i :: 0 <= i < |cs| ==> ts[i] == cs[i].text
  {
    seq(|cs|, i requires 0 <= i < |cs| => cs[i].text)
  }

  function Randoms(cs: seq<Component>): (n: nat)
    ensures n <= |cs|
  {
    if cs == [] then 0 else (if cs[0].Random? then 1 else 0) + Randoms(cs[1..])
  }

  /** The next n components, `inserted` random ones having gone before. */
  function Components(words: seq<string>, st: Stream, pos: nat, n: nat, inserted: nat): (r: Drawn<seq<Component>>)
    requires ValidWords(words)
    ensures |r.value| == n
    decreases n
  {
    if n == 0 then Drawn([], pos)
    else if inserted < 3 && Pick(st, pos, 0, 4) == 0 then
      var s := RandStr(st, pos + 1, 0);
      var rest := Components(words, st, s.pos, n - 1, inserted + 1);
      Drawn([Random(s.value)] + rest.value, rest.pos)
    else
      var p := if inserted < 3 then pos + 1 else pos;
      var rest := Components(words, st, p + 1, n - 1, inserted);
      Drawn([Word(words[Pick(st, p, 0, |words| - 1)])] + rest.value, rest.pos)
  }

  function TokenComponents(words: seq<string>, st: Stream): Drawn<seq<Component>>
    requires ValidWords(words)
  {
    var cs := Components(words, st, 1, Pick(st, 0, 5, 8), 0);
    if Randoms(cs.value) > 0 then cs
    else
      var s := RandStr(st, cs.pos, 0);
      Drawn(cs.value + [Random(s.value)], s.pos)
  }

  /** The token a stream gives. */
  function Token(words: seq<string>, st: Stream): string
    requires ValidWords(words)
  {
    var cs := TokenComponents(words, st);
    Join(Texts(cs.value), "-") + EXT[Pick(st, cs.pos, 0, |EXT| - 1)]
  }

  lemma {:induction false} RandomsConcat(xs: seq<Component>, ys: seq<Component>)
    ensures Randoms(xs + ys) == Randoms(xs) + Randoms(ys)
  {
    if xs == [] {
      assert xs + ys == ys;
    } else {
      assert (xs + ys)[1..] == xs[1..] + ys;
      RandomsConcat(xs[1..], ys);
    }
  }

  /** One turn of the loop of `generate_random_filename`, with n turns to go. */
  method DrawComponent(words: seq<string>, mt: Mt19937, inserted: nat, ghost n: nat) returns (c: Component)
    requires ValidWords(words) && n > 0
    modifies mt
    ensures var all := Components(words, mt.stream, old(mt.pos), n, inserted);
            var rest := Components(words, mt.stream, mt.pos, n - 1, inserted + if c.Random? then 1 else 0);
            all.value == [c] + rest.value && all.pos == rest.pos
  {
    hide RandStr, Components, Pick, IsWord;
    ComponentsUnfold(words, mt.stream, mt.pos, n, inserted);
    if inserted < 3 {
      var d := mt.Uniform(0, 4);
      if d == 0 {
        var s := GenerateRandStr(mt);
        return Random(s);
      }
    }
    var w := mt.Uniform(0, |words| - 1);
    c := Word(words[w]);
  }

  /** The loop itself; `done` are its components as marked. */
  method GenerateComponents(words: seq<string>, mt: Mt19937, len: nat)
    returns (out: seq<string>, randomInsertCount: nat, ghost done: seq<Component>)
    requires ValidWords(words)
    modifies mt
    ensures var cs := Components(words, mt.stream, old(mt.pos), len, 0); done == cs.value && mt.pos == cs.pos
    ensures out == Texts(done) && randomInsertCount == Randoms(done)
  {
    hide RandStr, Components, Texts, Randoms, Pick, IsWord;
    out, randomInsertCount, done := [], 0, [];
    ghost var all := Components(words, mt.stream, mt.pos, len, 0);
    ComponentsUnfold(words, mt.stream, mt.pos, len, 0);
    for i := 0 to len
      invariant randomInsertCount == Randoms(done) && out == Texts(done)
      invariant var rest := Components(words, mt.stream, mt.pos, len - i, randomInsertCount);
                all.value == done + rest.value && all.pos == rest.pos
    {
      var c := DrawComponent(words, mt, randomInsertCount, len - i);
      Extend(done, c);
      done := done + [c];
      out := out + [c.text];
      randomInsertCount := randomInsertCount + if c.Random? then 1 else 0;
    }
    ComponentsUnfold(words, mt.stream, mt.pos, 0, randomInsertCount);
  }

  method GenerateRandomFilename(words: seq<string>, stream: Stream) returns (token: string)
    requires ValidWords(words)
    ensures token == Token(words, stream)
  {
    hide RandStr, Components, Texts, Randoms, Pick, IsWord, Join;
    var mt := new Mt19937(stream);
    var len := mt.Uniform(5, 8);
    var out, randomInsertCount, done := GenerateComponents(words, mt, len);
    if randomInsertCount == 0 {
      var s := GenerateRandStr(mt);
      Extend(done, Random(s));
      done := done + [Random(s)];
      out := out + [s];
    }
    assert TokenComponents(words, stream).value == done && TokenComponents(words, stream).pos == mt.pos;
    var e := mt.Uniform(0, |EXT| - 1);
    token := Join(out, "-") + EXT[e];
  }

  lemma Extend(cs: seq<Component>, c: Component)
    ensures Texts(cs + [c]) == Texts(cs) + [c.text]
    ensures Randoms(cs + [c]) == Randoms(cs) + if c.Random? then 1 else 0
    ensures Randoms([]) == 0 && Texts([]) == []
  {
    RandomsConcat(cs, [c]);
    assert [c][1..] == [];
  }

  lemma ComponentsUnfold(words: seq<string>, st: Stream, pos: nat, n: nat, inserted: nat)
    requires ValidWords(words)
    ensures n == 0 ==> Components(words, st, pos, n, inserted) == Drawn([], pos)
    ensures n > 0 && inserted < 3 && Pick(st, pos, 0, 4) == 0 ==>
              var s := RandStr(st, pos + 1, 0);
              var rest := Components(words, st, s.pos, n - 1, inserted + 1);
              Components(words, st, pos, n, inserted) == Drawn([Random(s.value)] + rest.value, rest.pos)
    ensures n > 0 && !(inserted < 3 && Pick(st, pos, 0, 4) == 0) ==>
              var p := if inserted < 3 then pos + 1 else pos;
              var rest := Components(words, st, p + 1, n - 1, inserted);
              Components(words, st, pos, n, inserted)
              == Drawn([Word(words[Pick(st, p, 0, |words| - 1)])] + rest.value, rest.pos)
    ensures Texts([]) == [] && Randoms([]) == 0
  {
  }

  // ---- The language of tokens -----------------------------------------------------

  predicate ValidComponent(words: seq<string>, c: Component) {
    match c
    case Random(s) => 6 <= |s| <= 15 && forall k | 0 <= k < |s| :: RandomChar(s[k])
    case Word(w) => w in words
  }

  /** Five to eight components of which one to three are random, or nine of which
      only the last is. */
  predicate WellFormed(words: seq<string>, cs: seq<Component>) {
    && (forall i | 0 <= i < |cs| :: ValidComponent(words, cs[i]))
    && (|| (5 <= |cs| <= 8 && 1 <= Randoms(cs) <= 3)
        || (|cs| == 9 && Randoms(cs) == 1 && cs[8].Random?))
  }

  ghost predicate IsToken(words: seq<string>, t: string) {
    exists cs, e: nat :: WellFormed(words, cs) && e < |EXT| && t == Join(Texts(cs), "-") + EXT[e]
  }

  lemma ConsShape(words: seq<string>, c: Component, rest: seq<Component>)
    requires ValidComponent(words, c) && forall i | 0 <= i < |rest| :: ValidComponent(words, rest[i])
    ensures forall i | 0 <= i < |[c] + rest| :: ValidComponent(words, ([c] + rest)[i])
    ensures Randoms([c] + rest) == Randoms(rest) + if c.Random? then 1 else 0
  {
    hide ValidComponent;
    assert ([c] + rest)[1..] == rest;
  }

  lemma WordIsValid(words: seq<string>, k: nat)
    requires k < |words|
    ensures ValidComponent(words, Word(words[k]))
  {
  }

  lemma RandomIsValid(words: seq<string>, st: Stream, pos: nat)
    ensures ValidComponent(words, Random(RandStr(st, pos, 0).value))
  {
    hide RandStr;
  }

  lemma {:induction false} ComponentsShape(words: seq<string>, st: Stream, pos: nat, n: nat, inserted: nat)
    requires ValidWords(words) && inserted <= 3
    ensures var cs := Components(words, st, pos, n, inserted).value;
            && (forall i | 0 <= i < |cs| :: ValidComponent(words, cs[i]))
            && inserted + Randoms(cs) <= 3
    decreases n
  {
    hide *;
    ComponentsUnfold(words, st, pos, n, inserted);
    if n > 0 {
      if inserted < 3 && Pick(st, pos, 0, 4) == 0 {
        var s := RandStr(st, pos + 1, 0);
        ComponentsShape(words, st, s.pos, n - 1, inserted + 1);
        RandomIsValid(words, st, pos + 1);
        ConsShape(words, Random(s.value), Components(words, st, s.pos, n - 1, inserted + 1).value);
      } else {
        var p := if inserted < 3 then pos + 1 else pos;
        NoWordMissing(words);
        var k := Pick(st, p, 0, |words| - 1);
        ComponentsShape(words, st, p + 1, n - 1, inserted);
        WordIsValid(words, k);
        ConsShape(words, Word(words[k]), Components(words, st, p + 1, n - 1, inserted).value);
      }
    }
  }

  lemma NoWordMissing(words: seq<string>)
    requires ValidWords(words)
    ensures |words| > 0
  {
  }

  /** Every stream gives a token of the language. */
  lemma TokenIsToken(words: seq<string>, st: Stream)
    requires ValidWords(words)
    ensures IsToken(words, Token(words, st))
  {
    hide RandStr, Components;
    var n := Pick(st, 0, 5, 8);
    ComponentsShape(words, st, 1, n, 0);
    var cs := Components(words, st, 1, n, 0);
    if Randoms(cs.value) == 0 {
      var r := Random(RandStr(st, cs.pos, 0).value);
      Extend(cs.value, r);
      assert ValidComponent(words, r);
    }
    assert WellFormed(words, TokenComponents(words, st).value);
  }

  // ---- Every token of the language has a stream ---------------------------------

  function StreamOf(ds: seq<nat>): Stream {
    (i: nat) => if i < |ds| then ds[i] else 0
  }

  ghost predicate Follows(st: Stream, pos: nat, ds: seq<nat>) {
    forall k | 0 <= k < |ds| :: st(pos + k) == ds[k]
  }

  /** The draws that make `generate_randstr` write s from its i-th test on. */
  function RandStrDraws(s: string): seq<nat>
    requires forall k | 0 <= k < |s| :: RandomChar(s[k])
  {
    if s == "" then [0] else [9, CharIndex(s[0])] + RandStrDraws(s[1..])
  }

  lemma FollowsSplit(st: Stream, pos: nat, xs: seq<nat>, ys: seq<nat>)
    requires Follows(st, pos, xs + ys)
    ensures Follows(st, pos, xs) && Follows(st, pos + |xs|, ys)
  {
    assert forall k | 0 <= k < |xs| :: (xs + ys)[k] == xs[k];
    assert forall k | 0 <= k < |ys| :: (xs + ys)[|xs| + k] == ys[k];
    forall k | 0 <= k < |ys| ensures st(pos + |xs| + k) == ys[k] {
      assert st(pos + (|xs| + k)) == (xs + ys)[|xs| + k];
    }
  }

  lemma PickDrawn(st: Stream, pos: nat, lo: nat, hi: nat)
    requires lo <= hi && st(pos) <= hi - lo
    ensures Pick(st, pos, lo, hi) == lo + st(pos)
  {
  }

  lemma RandStrEnds(st: Stream, pos: nat, i: nat)
    requires 6 <= i <= 15 && Follows(st, pos, [0])
    ensures RandStr(st, pos, i) == Drawn("", pos + 1)
  {
    assert st(pos + 0) == [0][0];
    PickDrawn(st, pos, 6, 15);
    RandStrUnfolds(st, pos, i);
  }

  lemma RandStrGoesOn(st: Stream, pos: nat, i: nat, c: char, ds: seq<nat>)
    requires i < 15 && RandomChar(c) && Follows(st, pos, [9, CharIndex(c)] + ds)
    ensures Follows(st, pos + 2, ds)
    ensures var rest := RandStr(st, pos + 2, i + 1);
            RandStr(st, pos, i) == Drawn([c] + rest.value, rest.pos)
  {
    hide RandStr, RandomChar;
    var two := [9, CharIndex(c)];
    FollowsSplit(st, pos, two, ds);
    assert st(pos + 0) == two[0] && st(pos + 1) == two[1];
    hide Follows;
    PickDrawn(st, pos, 6, 15);
    PickDrawn(st, pos + 1, 0, 63);
    RandStrUnfolds(st, pos, i);
  }

  lemma {:induction false} RandStrReached(st: Stream, pos: nat, i: nat, s: string)
    requires forall k | 0 <= k < |s| :: RandomChar(s[k])
    requires 6 <= i + |s| <= 15
    requires Follows(st, pos, RandStrDraws(s))
    ensures RandStr(st, pos, i) == Drawn(s, pos + |RandStrDraws(s)|)
    decreases |s|
  {
    hide RandStr, RandomChar, CharIndex, Follows;
    if s == "" {
      RandStrEnds(st, pos, i);
    } else {
      RandStrGoesOn(st, pos, i, s[0], RandStrDraws(s[1..]));
      RandStrReached(st, pos + 2, i + 1, s[1..]);
      assert [s[0]] + s[1..] == s;
    }
  }

  function WordIndex(words: seq<string>, w: string): (k: nat)
    requires w in words
    ensures k < |words| && words[k] == w
  {
    if words[0] == w then 0 else 1 + WordIndex(words[1..], w)
  }

  function ComponentDraws(words: seq<string>, c: Component, inserted: nat): seq<nat>
    requires ValidComponent(words, c)
  {
    match c
    case Random(s) => [0] + RandStrDraws(s)
    case Word(w) => (if inserted < 3 then [1] else []) + [WordIndex(words, w)]
  }

  function ComponentsDraws(words: seq<string>, cs: seq<Component>, inserted: nat): seq<nat>
    requires forall i | 0 <= i < |cs| :: ValidComponent(words, cs[i])
  {
    if cs == [] then []
    else
      ComponentDraws(words, cs[0], inserted) +
      ComponentsDraws(words, cs[1..], inserted + if cs[0].Random? then 1 else 0)
  }

  lemma RandomReached(words: seq<string>, st: Stream, pos: nat, s: string, n: nat, inserted: nat)
    requires ValidWords(words) && ValidComponent(words, Random(s))
    requires n > 0 && inserted < 3
    requires Follows(st, pos, [0] + RandStrDraws(s))
    ensures var rest := Components(words, st, pos + 1 + |RandStrDraws(s)|, n - 1, inserted + 1);
            Components(words, st, pos, n, inserted) == Drawn([Random(s)] + rest.value, rest.pos)
  {
    hide RandStr, RandStrDraws, Components, Pick;
    assert st(pos + 0) == ([0] + RandStrDraws(s))[0];
    FollowsSplit(st, pos, [0], RandStrDraws(s));
    PickDrawn(st, pos, 0, 4);
    RandStrReached(st, pos + 1, 0, s);
    ComponentsUnfold(words, st, pos, n, inserted);
  }

  lemma WordReached(words: seq<string>, st: Stream, pos: nat, w: string, n: nat, inserted: nat)
    requires ValidWords(words) && w in words
    requires n > 0
    requires Follows(st, pos, ComponentDraws(words, Word(w), inserted))
    ensures var next := pos + |ComponentDraws(words, Word(w), inserted)|;
            var rest := Components(words, st, next, n - 1, inserted);
            Components(words, st, pos, n, inserted) == Drawn([Word(w)] + rest.value, rest.pos)
  {
    hide Components, Pick, WordIndex;
    var ds := ComponentDraws(words, Word(w), inserted);
    var p := if inserted < 3 then pos + 1 else pos;
    if inserted < 3 {
      assert st(pos + 0) == ds[0] && st(pos + 1) == ds[1];
      PickDrawn(st, pos, 0, 4);
    } else {
      assert st(pos + 0) == ds[0];
    }
    PickDrawn(st, p, 0, |words| - 1);
    ComponentsUnfold(words, st, pos, n, inserted);
  }

  lemma ComponentReached(words: seq<string>, st: Stream, pos: nat, c: Component, n: nat, inserted: nat)
    requires ValidWords(words) && ValidComponent(words, c)
    requires n > 0 && (c.Random? ==> inserted < 3)
    requires Follows(st, pos, ComponentDraws(words, c, inserted))
    ensures var next := pos + |ComponentDraws(words, c, inserted)|;
            var rest := Components(words, st, next, n - 1, inserted + if c.Random? then 1 else 0);
            Components(words, st, pos, n, inserted) == Drawn([c] + rest.value, rest.pos)
  {
    hide Components, Follows, Pick, RandStr, RandStrDraws, WordIndex, IsWord;
    match c
    case Random(s) => RandomReached(words, st, pos, s, n, inserted);
    case Word(w) => WordReached(words, st, pos, w, n, inserted);
  }

  lemma DrawsSplit(words: seq<string>, cs: seq<Component>, inserted: nat)
    requires cs != [] && forall i | 0 <= i < |cs| :: ValidComponent(words, cs[i])
    ensures var one := if cs[0].Random? then 1 else 0;
            && ComponentsDraws(words, cs, inserted)
               == ComponentDraws(words, cs[0], inserted) + ComponentsDraws(words, cs[1..], inserted + one)
            && Randoms(cs) == one + Randoms(cs[1..])
            && forall i | 0 <= i < |cs| - 1 :: ValidComponent(words, cs[1..][i])
  {
    hide ComponentDraws, ValidComponent;
  }

  lemma {:induction false} ComponentsReached(
    words: seq<string>, st: Stream, pos: nat, cs: seq<Component>, inserted: nat)
    requires ValidWords(words)
    requires forall i | 0 <= i < |cs| :: ValidComponent(words, cs[i])
    requires inserted + Randoms(cs) <= 3
    requires Follows(st, pos, ComponentsDraws(words, cs, inserted))
    ensures var r := Components(words, st, pos, |cs|, inserted);
            r.value == cs && r.pos == pos + |ComponentsDraws(words, cs, inserted)|
    decreases |cs|
  {
    hide *;
    if cs == [] {
      NoComponents(words, st, pos, inserted);
    } else {
      var c, rest := cs[0], cs[1..];
      var after := inserted + if c.Random? then 1 else 0;
      var ds := ComponentDraws(words, c, inserted);
      DrawsSplit(words, cs, inserted);
      FollowsSplit(st, pos, ds, ComponentsDraws(words, rest, after));
      ComponentsReached(words, st, pos + |ds|, rest, after);
      ComponentReached(words, st, pos, c, |cs|, inserted);
      assert [c] + rest == cs;
    }
  }

  lemma NoComponents(words: seq<string>, st: Stream, pos: nat, inserted: nat)
    requires ValidWords(words)
    ensures Components(words, st, pos, 0, inserted) == Drawn([], pos) && ComponentsDraws(words, [], inserted) == []
    ensures Randoms([]) == 0
  {
  }

  /** The draws behind the components of a token and those behind its extension. */
  function BodyDraws(words: seq<string>, cs: seq<Component>): seq<nat>
    requires WellFormed(words, cs)
  {
    if |cs| <= 8 then [|cs| - 5] + ComponentsDraws(words, cs, 0)
    else [3] + ComponentsDraws(words, cs[..8], 0) + RandStrDraws(cs[8].text)
  }

  function TokenDraws(words: seq<string>, cs: seq<Component>, e: nat): seq<nat>
    requires WellFormed(words, cs)
  {
    BodyDraws(words, cs) + [e]
  }

  lemma ShortBodyReached(words: seq<string>, st: Stream, cs: seq<Component>)
    requires ValidWords(words) && WellFormed(words, cs) && |cs| <= 8
    requires Follows(st, 0, BodyDraws(words, cs))
    ensures TokenComponents(words, st).value == cs
    ensures TokenComponents(words, st).pos == |BodyDraws(words, cs)|
  {
    hide RandStr, RandStrDraws, Components, ComponentsDraws;
    assert st(0 + 0) == BodyDraws(words, cs)[0];
    FollowsSplit(st, 0, [|cs| - 5], ComponentsDraws(words, cs, 0));
    ComponentsReached(words, st, 1, cs, 0);
  }

  lemma LongBodyReached(words: seq<string>, st: Stream, cs: seq<Component>)
    requires ValidWords(words) && WellFormed(words, cs) && |cs| == 9
    requires Follows(st, 0, BodyDraws(words, cs))
    ensures TokenComponents(words, st).value == cs
    ensures TokenComponents(words, st).pos == |BodyDraws(words, cs)|
  {
    hide RandStr, RandStrDraws, Components, ComponentsDraws, Randoms;
    var front, last := cs[..8], cs[8];
    assert cs == front + [last];
    Extend(front, last);
    assert Randoms(front) == 0;
    var fd, rd := ComponentsDraws(words, front, 0), RandStrDraws(last.text);
    assert st(0 + 0) == BodyDraws(words, cs)[0];
    FollowsSplit(st, 0, [3] + fd, rd);
    FollowsSplit(st, 0, [3], fd);
    ComponentsReached(words, st, 1, front, 0);
    RandStrReached(st, 1 + |fd|, 0, last.text);
  }

  /** Every token of the language is given by some stream. */
  lemma TokenReached(words: seq<string>, cs: seq<Component>, e: nat)
    requires ValidWords(words) && WellFormed(words, cs) && e < |EXT|
    ensures Token(words, StreamOf(TokenDraws(words, cs, e))) == Join(Texts(cs), "-") + EXT[e]
  {
    hide BodyDraws, TokenComponents, Texts, Join;
    var body := BodyDraws(words, cs);
    var ds := body + [e];
    var st := StreamOf(ds);
    assert Follows(st, 0, ds);
    FollowsSplit(st, 0, body, [e]);
    if |cs| <= 8 {
      ShortBodyReached(words, st, cs);
    } else {
      LongBodyReached(words, st, cs);
    }
    assert st(|body| + 0) == e;
    PickDrawn(st, |body|, 0, |EXT| - 1);
  }

  /** The generator's language exactly. */
  lemma TokenLanguageExact(words: seq<string>, t: string)
    requires ValidWords(words)
    ensures IsToken(words, t) <==> exists st: Stream :: Token(words, st) == t
  {
    if IsToken(words, t) {
      var cs, e: nat :| WellFormed(words, cs) && e < |EXT| && t == Join(Texts(cs), "-") + EXT[e];
      TokenReached(words, cs, e);
    }
    if st: Stream :| Token(words, st) == t {
      TokenIsToken(words, st);
    }
  }

  /** The components of a token, spelled out. */
  lemma ComponentsText(words: seq<string>, cs: seq<Component>)
    ensures WellFormed(words, cs) <==>
              && (forall i | 0 <= i < |cs| :: match cs[i]
                  case Word(w) => w in words
                  case Random(s) =>
                    6 <= |s| <= 15 &&
                    forall k | 0 <= k < |s| ::
                      'a' <= s[k] <= 'z' || 'A' <= s[k] <= 'Z' || '0' <= s[k] <= '9' || s[k] == '-' || s[k] == '_')
              && (|| (5 <= |cs| <= 8 && 1 <= Randoms(cs) <= 3)
                  || (|cs| == 9 && Randoms(cs) == 1 && cs[8].Random?))
  {
    hide Randoms;
  }

  lemma ExtensionsText()
    ensures EXT == [".avi", ".bat", ".csv", ".divx", ".doc", ".docx", ".exe", ".gif", ".ini", ".jpg",
                    ".m4a", ".mkv", ".mov", ".mp3", ".mp4", ".pdf", ".png", ".ppt", ".txt", ".xls"]
  {
  }

  // ---- Characters -----------------------------------------------------------------

  lemma {:induction false} JoinedChars(ts: seq<string>)
    requires forall i | 0 <= i < |ts| :: forall k | 0 <= k < |ts[i]| :: RandomChar(ts[i][k])
    ensures forall k | 0 <= k < |Join(ts, "-")| :: RandomChar(Join(ts, "-")[k])
  {
    if |ts| >= 1 {
      JoinedChars(ts[1..]);
    }
  }

  /** The characters section 2.3 of RFC 3986 leaves unreserved. */
  predicate Unreserved(c: char) {
    || 'a' <= c <= 'z' || 'A' <= c <= 'Z' || '0' <= c <= '9'
    || c == '-' || c == '.' || c == '_' || c == '~'
  }

  /** A token is a stem without dots, dashes in it, and one of the extensions. */
  lemma TokenParts(words: seq<string>, t: string) returns (stem: string, e: nat)
    requires ValidWords(words) && IsToken(words, t)
    ensures e < |EXT| && t == stem + EXT[e]
    ensures '-' in stem && forall k | 0 <= k < |stem| :: RandomChar(stem[k])
  {
    var cs: seq<Component>;
    cs, e :| WellFormed(words, cs) && e < |EXT| && t == Join(Texts(cs), "-") + EXT[e];
    var ts := Texts(cs);
    stem := Join(ts, "-");
    forall i | 0 <= i < |ts| ensures forall k | 0 <= k < |ts[i]| :: RandomChar(ts[i][k]) {
      assert ValidComponent(words, cs[i]);
      if cs[i].Word? {
        assert IsWord(words[WordIndex(words, cs[i].text)]);
      }
    }
    JoinedChars(ts);
    assert stem[|ts[0]|] == '-';
  }
}
