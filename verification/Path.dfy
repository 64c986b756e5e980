// MIME lookup by file name (src/mime.cpp) and path joining (src/path.cpp).
module Path {
  import opened Text

  // ---- MIME lookup --------------------------------------------------------

  datatype MimeTypeMap = MimeTypeMap(mimetypes: map<string, string>, defaultMimetype: string)

  /** Whether an entry exists for what follows the dot at `i`. */
  predicate EntryAt(m: MimeTypeMap, s: string, i: nat) {
    i < |s| && s[i] == '.' && s[i + 1..] in m.mimetypes
  }

  ghost predicate NoEntryBefore(m: MimeTypeMap, s: string, i: nat) {
    forall j: nat | j < i :: !EntryAt(m, s, j)
  }

  /** The entry of the longest suffix that follows a dot of `s` and is in the map;
      the default when there is none. */
  ghost predicate IsLongestSuffixMatch(m: MimeTypeMap, s: string, mime: string) {
    || (exists i: nat :: EntryAt(m, s, i) && NoEntryBefore(m, s, i) && mime == m.mimetypes[s[i + 1..]])
    || (NoEntryBefore(m, s, |s|) && mime == m.defaultMimetype)
  }

  /** There is at most one longest-suffix match, so the relation pins the answer. */
  lemma LongestSuffixMatchUnique(m: MimeTypeMap, s: string, a: string, b: string)
    requires IsLongestSuffixMatch(m, s, a) && IsLongestSuffixMatch(m, s, b)
    ensures a == b
  {
    if NoEntryBefore(m, s, |s|) {
    } else {
      var i: nat :| EntryAt(m, s, i) && NoEntryBefore(m, s, i) && a == m.mimetypes[s[i + 1..]];
      var j: nat :| EntryAt(m, s, j) && NoEntryBefore(m, s, j) && b == m.mimetypes[s[j + 1..]];
      assert i == j;
    }
  }

  /** What the erasing loop computes, by recursion. */
  function Lookup(m: MimeTypeMap, s: string): string
    decreases |s|
  {
    var pos := Find(s, '.');
    if pos == |s| then m.defaultMimetype
    else if s[pos + 1..] in m.mimetypes then m.mimetypes[s[pos + 1..]]
    else Lookup(m, s[pos + 1..])
  }

  lemma EntryShift(m: MimeTypeMap, s: string, p: nat, i: nat)
    requires p <= i && p <= |s|
    ensures EntryAt(m, s, i) == EntryAt(m, s[p..], i - p)
  {
    if i < |s| {
      assert s[p..][i - p..][1..] == s[i + 1..];
    }
  }

  /** Dropping everything up to a first dot that has no entry changes no match. */
  lemma MatchShift(m: MimeTypeMap, s: string, pos: nat, mime: string)
    requires pos < |s| && NoEntryBefore(m, s, pos + 1)
    requires IsLongestSuffixMatch(m, s[pos + 1..], mime)
    ensures IsLongestSuffixMatch(m, s, mime)
  {
    var p := pos + 1;
    var rest := s[p..];
    forall i: nat | p <= i ensures EntryAt(m, s, i) == EntryAt(m, rest, i - p) {
      EntryShift(m, s, p, i);
    }
    if NoEntryBefore(m, rest, |rest|) && mime == m.defaultMimetype {
      forall j: nat | j < |s| ensures !EntryAt(m, s, j) {
        assert j >= p ==> !EntryAt(m, rest, j - p);
      }
    } else {
      var i: nat :| EntryAt(m, rest, i) && NoEntryBefore(m, rest, i) && mime == m.mimetypes[rest[i + 1..]];
      forall j: nat | j < p + i ensures !EntryAt(m, s, j) {
        assert j >= p ==> !EntryAt(m, rest, j - p);
      }
      assert EntryAt(m, s, p + i) && NoEntryBefore(m, s, p + i);
      assert s[p + i + 1..] == rest[i + 1..];
    }
  }

  lemma {:induction false} LookupIsLongestSuffix(m: MimeTypeMap, s: string)
    ensures IsLongestSuffixMatch(m, s, Lookup(m, s))
    decreases |s|
  {
    var pos := Find(s, '.');
    assert NoEntryBefore(m, s, pos);
    if pos < |s| {
      if s[pos + 1..] in m.mimetypes {
        assert EntryAt(m, s, pos);
      } else {
        LookupIsLongestSuffix(m, s[pos + 1..]);
        MatchShift(m, s, pos, Lookup(m, s));
      }
    }
  }

  /** `find_extension`: erases up to and including the first dot until what is left
      has an entry or no dot remains. */
  method FindExtension(m: MimeTypeMap, extension_: string) returns (mime: string)
    ensures mime == Lookup(m, extension_)
    ensures IsLongestSuffixMatch(m, extension_, mime)
  {
    LookupIsLongestSuffix(m, extension_);
    var extension := extension_;
    var pos := Find(extension, '.');
    while pos < |extension|
      invariant pos == Find(extension, '.')
      invariant Lookup(m, extension) == Lookup(m, extension_)
      decreases |extension|
    {
      extension := extension[pos + 1..];
      if extension in m.mimetypes {
        return m.mimetypes[extension];
      }
      pos := Find(extension, '.');
    }
    mime := m.defaultMimetype;
  }

  method FindFilename(m: MimeTypeMap, filename: string) returns (mime: string)
    ensures mime == Lookup(m, filename)
  {
    var pos := Find(filename, '.');
    if pos == |filename| {
      return m.defaultMimetype;
    }
    FindUnique(filename[pos..], '.', 0);
    assert filename[pos..][1..] == filename[pos + 1..];
    mime := FindExtension(m, filename[pos..]);
  }

  /** Position of the last slash, or |path| when there is none. */
  function RFindSlash(path: string): (i: nat)
    ensures i <= |path|
    ensures i < |path| ==> path[i] == '/'
    ensures forall k :: (if i < |path| then i < k else 0 <= k) && k < |path| ==> path[k] != '/'
  {
    if path == "" then 0
    else if path[|path| - 1] == '/' then |path| - 1
    else
      var i := RFindSlash(path[..|path| - 1]);
      if i == |path| - 1 then |path| else i
  }

  /** The text after the last slash. */
  function Basename(path: string): string {
    var i := RFindSlash(path);
    if i == |path| then path else path[i + 1..]
  }

  lemma FromSlash(path: string, pos: nat)
    requires pos < |path| && path[pos] == '/'
    ensures path[pos..] == "/" + path[pos + 1..]
  {
    assert path[pos..] == [path[pos]] + path[pos + 1..];
  }

  /** `get_mime_type`: the file name passes through a NUL-terminated pointer. */
  method GetMimeType(m: MimeTypeMap, path: string) returns (mime: string)
    ensures mime == Lookup(m, CStr(Basename(path)))
    ensures IsLongestSuffixMatch(m, CStr(Basename(path)), mime)
  {
    var pos := RFindSlash(path);
    var filename := if pos == |path| then path else path[pos..];
    LookupIsLongestSuffix(m, CStr(Basename(path)));
    if pos < |path| {
      LookupSkipsSlash(m, path[pos + 1..]);
      FromSlash(path, pos);
    }
    mime := FindFilename(m, CStr(filename));
  }

  lemma LookupSkipsSlash(m: MimeTypeMap, name: string)
    ensures Lookup(m, CStr("/" + name)) == Lookup(m, CStr(name))
  {
    var s := "/" + name;
    assert s[1..] == name;
    assert CStr(s) == "/" + CStr(name);
    var t := CStr(name);
    assert ("/" + t)[1..] == t;
    var pos := Find(t, '.');
    assert Find("/" + t, '.') == pos + 1;
    assert ("/" + t)[pos + 1..] == t[pos..];
    if pos < |t| {
      assert ("/" + t)[pos + 2..] == t[pos + 1..];
    }
  }

  /** Only the text after the last slash of a NUL-free path decides its type. */
  lemma MimeTypeDependsOnBasename(m: MimeTypeMap, dir: string, name: string)
    requires '/' !in name && '\0' !in name
    ensures Lookup(m, CStr(Basename(dir + "/" + name))) == Lookup(m, name)
  {
    var path := dir + "/" + name;
    assert path[|dir|] == '/';
    assert path[|dir| + 1..] == name;
    assert forall k :: |dir| < k < |path| ==> path[k] == name[k - |dir| - 1];
    assert RFindSlash(path) == |dir|;
  }

  /** The entry for what follows the first dot, else what the lookup of that gives. */
  lemma LookupText(m: MimeTypeMap, base: string, ext: string)
    requires '.' !in base
    ensures Lookup(m, base) == m.defaultMimetype
    ensures Lookup(m, base + "." + ext) == if ext in m.mimetypes then m.mimetypes[ext] else Lookup(m, ext)
  {
    var s := base + "." + ext;
    FindUnique(base, '.', |base|);
    FindUnique(s, '.', |base|);
    assert s[|base| + 1..] == ext;
  }

  /** A path and its last name. */
  lemma BasenameText(path: string) returns (dir: string)
    requires '/' in path
    ensures path == dir + "/" + Basename(path) && '/' !in Basename(path)
  {
    var i := RFindSlash(path);
    assert i < |path|;
    dir := path[..i];
    var name := path[i + 1..];
    assert forall k | 0 <= k < |name| :: name[k] == path[i + 1 + k];
  }

  /** All the suffixes that can have an entry. */
  function Extension(s: string): string {
    s[Find(s, '.')..]
  }

  lemma LookupOfExtension(m: MimeTypeMap, s: string)
    ensures Lookup(m, s) == Lookup(m, Extension(s))
  {
    var pos := Find(s, '.');
    if pos < |s| {
      FindUnique(s[pos..], '.', 0);
      assert s[pos..][1..] == s[pos + 1..];
    }
  }

  function OneType(ext: string): MimeTypeMap {
    MimeTypeMap(map[ext := "x"], "y")
  }

  lemma OneTypeSuffix(ext: string, s: string)
    requires Lookup(OneType(ext), s) == "x"
    ensures |ext| < |Extension(s)| && Extension(s)[|Extension(s)| - |ext|..] == ext
  {
    LookupIsLongestSuffix(OneType(ext), s);
    var i: nat :| EntryAt(OneType(ext), s, i);
    var pos := Find(s, '.');
    assert pos <= i && s[i + 1..] == ext;
    assert Extension(s)[i + 1 - pos..] == s[i + 1..];
  }

  lemma OwnType(s: string)
    requires '.' in s
    ensures Extension(s) != "" && Lookup(OneType(Extension(s)[1..]), s) == "x"
  {
    var pos := Find(s, '.');
    assert pos < |s|;
    assert Extension(s)[1..] == s[pos + 1..];
  }

  lemma NoType(s: string, ext: string)
    requires '.' !in s
    ensures Extension(s) == "" && Lookup(OneType(ext), s) == "y"
  {
    FindUnique(s, '.', |s|);
  }

  ghost predicate SameTypes(a: string, b: string) {
    forall m :: Lookup(m, a) == Lookup(m, b)
  }

  /** Two names have the same type in every table exactly when the same text starts at
      their first dots. */
  lemma SameTypeIff(a: string, b: string)
    ensures SameTypes(a, b) <==> Extension(a) == Extension(b)
  {
    hide Lookup, Extension;
    if Extension(a) == Extension(b) {
      forall m ensures Lookup(m, a) == Lookup(m, b) {
        LookupOfExtension(m, a);
        LookupOfExtension(m, b);
      }
    }
    hide SameTypes;
    if SameTypes(a, b) {
      SameExtension(a, b);
    }
  }

  lemma SameExtension(a: string, b: string)
    requires SameTypes(a, b)
    ensures Extension(a) == Extension(b)
  {
    hide Lookup, Extension, OneType;
    if '.' in a {
      OwnType(a);
      var ea := Extension(a)[1..];
      if '.' !in b {
        NoType(b, ea);
      }
      OwnType(b);
      var eb := Extension(b)[1..];
      OneTypeSuffix(ea, b);
      OneTypeSuffix(eb, a);
      DottedExtension(a);
      DottedExtension(b);
    } else {
      NoType(a, "");
      if '.' in b {
        OwnType(b);
        NoType(a, Extension(b)[1..]);
      } else {
        NoType(b, "");
      }
    }
  }

  lemma DottedExtension(s: string)
    requires '.' in s
    ensures Extension(s) == "." + Extension(s)[1..]
  {
    var pos := Find(s, '.');
    assert pos < |s|;
    assert s[pos..] == [s[pos]] + s[pos..][1..];
  }

  // ---- Joining paths ----------------------------------------------------------

  function WithoutTrailingSlash(base: string): string {
    if base != "" && base[|base| - 1] == '/' then base[..|base| - 1] else base
  }

  /** `path_cat` outside Windows. */
  method PathCat(base: string, path: string) returns (result: string)
    ensures result == Joined(base, path)
  {
    if base == "" {
      return path;
    }
    result := base;
    if result[|result| - 1] == '/' {
      result := result[..|result| - 1];
    }
    result := result + path;
  }

  function Joined(base: string, path: string): string {
    if base == "" then path else WithoutTrailingSlash(base) + path
  }

  function Walk(stack: seq<string>, c: string): seq<string> {
    if c == "" || c == "." then stack
    else if c == ".." && stack != [] && stack[|stack| - 1] != ".." then stack[..|stack| - 1]
    else stack + [c]
  }

  function WalkAll(stack: seq<string>, cs: seq<string>): seq<string>
    decreases |cs|
  {
    if cs == [] then stack else WalkAll(Walk(stack, cs[0]), cs[1..])
  }

  /** Where a path leads, resolved component by component: ".." leaves the last
      directory entered, or stays in front when there is none to leave. */
  function Resolve(path: string): seq<string> {
    WalkAll([], Split(path, '/'))
  }

  predicate HasDotDot(s: string) {
    exists i :: 0 <= i < |s| - 1 && s[i] == '.' && s[i + 1] == '.'
  }

  /** The components that name something. */
  function Names(cs: seq<string>): (r: seq<string>)
    ensures forall i :: 0 <= i < |r| ==> r[i] in cs && r[i] != "" && r[i] != "."
  {
    if cs == [] then []
    else (if cs[0] == "" || cs[0] == "." then [] else [cs[0]]) + Names(cs[1..])
  }

  lemma {:induction false} WalkAllConcat(stack: seq<string>, xs: seq<string>, ys: seq<string>)
    ensures WalkAll(stack, xs + ys) == WalkAll(WalkAll(stack, xs), ys)
    decreases |xs|
  {
    if xs == [] {
      assert xs + ys == ys;
    } else {
      assert (xs + ys)[1..] == xs[1..] + ys;
      WalkAllConcat(Walk(stack, xs[0]), xs[1..], ys);
    }
  }

  lemma WalkOne(stack: seq<string>, c: string)
    requires c != ".."
    ensures Walk(stack, c) == stack + Names([c])
  {
    assert [c][1..] == [] && Names([]) == [];
  }

  lemma NamesCons(cs: seq<string>)
    requires cs != []
    ensures Names(cs) == Names([cs[0]]) + Names(cs[1..])
  {
    assert [cs[0]][1..] == [] && Names([]) == [];
  }

  lemma {:induction false} WalkDescends(stack: seq<string>, cs: seq<string>)
    requires forall i | 0 <= i < |cs| :: cs[i] != ".."
    ensures WalkAll(stack, cs) == stack + Names(cs)
    decreases |cs|
  {
    if cs == [] {
      assert stack + Names(cs) == stack;
    } else {
      WalkOne(stack, cs[0]);
      NamesCons(cs);
      hide Walk, Names;
      WalkDescends(Walk(stack, cs[0]), cs[1..]);
    }
  }

  lemma NoDotDotInSuffix(s: string, k: nat)
    requires !HasDotDot(s) && k <= |s|
    ensures !HasDotDot(s[k..])
  {
    assert forall i :: 0 <= i < |s| - k ==> s[k..][i] == s[k + i];
  }

  lemma {:induction false} PiecesHaveNoDotDot(s: string)
    requires !HasDotDot(s)
    ensures ".." !in Split(s, '/')
    decreases |s|
  {
    var i := Find(s, '/');
    assert i >= 2 ==> s[..i][0] == s[0] && s[..i][1] == s[1];
    if i < |s| {
      var rest := s[i + 1..];
      NoDotDotInSuffix(s, i + 1);
      PiecesHaveNoDotDot(rest);
    }
  }

  /** A trailing slash on the base is one empty component more. */
  lemma ResolveWithoutTrailingSlash(base: string)
    ensures Resolve(WithoutTrailingSlash(base)) == Resolve(base)
  {
    var b := WithoutTrailingSlash(base);
    if b != base {
      assert base == b + "/" + "";
      SplitConcat(b, "", '/');
      assert Split("", '/') == [""];
      WalkAllConcat([], Split(b, '/'), [""]);
      var stack := WalkAll([], Split(b, '/'));
      assert [""][1..] == [];
      assert WalkAll(stack, [""]) == WalkAll(Walk(stack, ""), []);
    }
  }

  /** Containment: a target that is absolute and free of ".." resolves, on top of
      any base, to the base followed by the target's own names. The result is absolute
      when the base is, and also when the base is empty. */
  lemma JoinedStaysBelowBase(base: string, target: string)
    requires target != "" && target[0] == '/' && !HasDotDot(target)
    ensures WithoutTrailingSlash(base) <= Joined(base, target)
    ensures Resolve(Joined(base, target)) == Resolve(base) + Names(Split(target[1..], '/'))
    ensures ".." !in Names(Split(target[1..], '/'))
    ensures Joined(base, target)[0] == '/' <==> base == "" || base[0] == '/'
  {
    var b, t := WithoutTrailingSlash(base), target[1..];
    assert Joined(base, target) == b + "/" + t;
    NoDotDotInSuffix(target, 1);
    PiecesHaveNoDotDot(t);
    SplitConcat(b, t, '/');
    WalkAllConcat([], Split(b, '/'), Split(t, '/'));
    WalkDescends(Resolve(b), Split(t, '/'));
    ResolveWithoutTrailingSlash(base);
  }

  /** Going down into a name and up again leads back, and empty names and single dots
      lead nowhere. */
  lemma UpUndoesDown(path: string, name: string)
    requires '/' !in name && name != "" && name != "." && name != ".."
    ensures Resolve(path + "/" + name) == Resolve(path) + [name]
    ensures Resolve(path + "/" + name + "/" + "..") == Resolve(path)
    ensures Resolve(path + "/" + ".") == Resolve(path) == Resolve(path + "/" + "")
  {
    ResolveStep(path, name);
    ResolveStep(path + "/" + name, "..");
    ResolveStep(path, ".");
    ResolveStep(path, "");
    hide Resolve;
    assert (Resolve(path) + [name])[..|Resolve(path)|] == Resolve(path);
  }

  lemma ResolveStep(path: string, c: string)
    requires '/' !in c
    ensures Resolve(path + "/" + c) == Walk(Resolve(path), c)
  {
    SplitConcat(path, c, '/');
    FindUnique(c, '/', |c|);
    assert Split(c, '/') == [c] && [c][1..] == [];
    WalkAllConcat([], Split(path, '/'), [c]);
    assert WalkAll(Resolve(path), [c]) == WalkAll(Walk(Resolve(path), c), []);
  }
}
