// Byte strings and the string-library operations the server is built from.
//
// A `char` stands for one byte throughout, so a `string` is what the C++ code
// calls a std::string or a std::string_view.
module Text {

  datatype Option<+T> = None | Some(value: T) {
    function GetOr(default: T): T {
      if Some? then value else default
    }
  }

  /** Position of the first `c` in `s`; |s| plays the part of npos. */
  function Find(s: string, c: char): (i: nat)
    ensures i <= |s|
    ensures i < |s| ==> s[i] == c
    ensures forall k :: 0 <= k < i ==> s[k] != c
  {
    if s == "" || s[0] == c then 0 else 1 + Find(s[1..], c)
  }

  predicate StartsWith(s: string, p: string) {
    p <= s
  }

  predicate EndsWith(s: string, p: string) {
    |p| <= |s| && s[|s| - |p|..] == p
  }

  /** What a callee sees of `s` when it is handed over as a NUL-terminated pointer. */
  function CStr(s: string): (r: string)
    ensures r <= s && '\0' !in r
    ensures '\0' !in s ==> r == s
    ensures r != s ==> s[|r|] == '\0'
  {
    s[..Find(s, '\0')]
  }

  function Count(s: string, d: char): nat {
    if s == "" then 0 else (if s[0] == d then 1 else 0) + Count(s[1..], d)
  }

  lemma {:induction false} CountConcat(a: string, b: string, d: char)
    ensures Count(a + b, d) == Count(a, d) + Count(b, d)
  {
    if a == "" {
      assert a + b == b;
    } else {
      assert (a + b)[1..] == a[1..] + b;
      CountConcat(a[1..], b, d);
    }
  }

  /** boost::split without token compression: one token more than there are separators. */
  function Split(s: string, d: char): (r: seq<string>)
    ensures |r| >= 1
    ensures forall t | t in r :: d !in t
    decreases |s|
  {
    var i := Find(s, d);
    if i == |s| then [s] else [s[..i]] + Split(s[i + 1..], d)
  }

  function Join(ts: seq<string>, d: string): string {
    if |ts| == 0 then "" else if |ts| == 1 then ts[0] else ts[0] + d + Join(ts[1..], d)
  }

  lemma FindUnique(s: string, c: char, i: nat)
    requires i <= |s|
    requires i < |s| ==> s[i] == c
    requires forall k :: 0 <= k < i ==> s[k] != c
    ensures Find(s, c) == i
  {
  }

  lemma {:induction false} SplitHead(t: string, b: string, d: char)
    requires d !in t
    ensures Split(t + [d] + b, d) == [t] + Split(b, d)
  {
    var s := t + [d] + b;
    assert s[..|t|] == t;
    FindUnique(s, d, |t|);
    assert s[|t| + 1..] == b;
  }

  /** Splitting distributes over a separator. */
  lemma {:induction false} SplitConcat(a: string, b: string, d: char)
    ensures Split(a + [d] + b, d) == Split(a, d) + Split(b, d)
    decreases |a|
  {
    var i := Find(a, d);
    if i == |a| {
      SplitHead(a, b, d);
    } else {
      var rest := a[i + 1..];
      assert a + [d] + b == a[..i] + [d] + (rest + [d] + b);
      SplitHead(a[..i], rest + [d] + b, d);
      SplitConcat(rest, b, d);
    }
  }

  /** Splitting undoes joining when no token holds a separator. */
  lemma {:induction false} SplitJoin(ts: seq<string>, d: char)
    requires |ts| >= 1
    requires forall t | t in ts :: d !in t
    ensures Split(Join(ts, [d]), d) == ts
  {
    if |ts| == 1 {
      FindUnique(ts[0], d, |ts[0]|);
    } else {
      assert ts[0] in ts;
      SplitHead(ts[0], Join(ts[1..], [d]), d);
      SplitJoin(ts[1..], d);
      assert ts == [ts[0]] + ts[1..];
    }
  }

  /** Joining undoes splitting. */
  lemma {:induction false} JoinSplit(s: string, d: char)
    ensures Join(Split(s, d), [d]) == s
    decreases |s|
  {
    var i := Find(s, d);
    if i < |s| {
      JoinSplit(s[i + 1..], d);
      assert s == s[..i] + [d] + s[i + 1..];
      assert Split(s, d)[1..] == Split(s[i + 1..], d);
    }
  }

  lemma {:induction false} SplitCount(s: string, d: char)
    ensures |Split(s, d)| == Count(s, d) + 1
    decreases |s|
  {
    var i := Find(s, d);
    CountNone(s[..i], d);
    assert s == s[..i] + s[i..];
    CountConcat(s[..i], s[i..], d);
    if i < |s| {
      assert s[i..][1..] == s[i + 1..];
      SplitCount(s[i + 1..], d);
    }
  }

  lemma {:induction false} CountNone(s: string, d: char)
    ensures Count(s, d) == 0 <==> d !in s
  {
    if s != "" {
      CountNone(s[1..], d);
      assert s == [s[0]] + s[1..];
    }
  }

  lemma {:induction false} JoinAppend(ts: seq<string>, us: seq<string>, d: string)
    requires |ts| >= 1 && |us| >= 1
    ensures Join(ts + us, d) == Join(ts, d) + d + Join(us, d)
  {
    if |ts| == 1 {
      assert (ts + us)[1..] == us;
    } else {
      assert (ts + us)[1..] == ts[1..] + us;
      JoinAppend(ts[1..], us, d);
    }
  }
}
