/**
 * File discovery (`get_filenames`): which entries of a directory tree are
 * selected, and in which order they are returned.
 */
module Discovery {
  import opened Wrappers
  import opened PosixPath
  import opened PurePaths
  import opened StringOrder

  /** What an entry is, as the walkers see it: a file (`is_file()`, a symbolic
      link to one included), a directory they descend into, or anything else
      (a FIFO, a socket, a dangling link, a link to a directory). */
  datatype Kind = File | Dir | Other

  /** One entry below the root: the directories leading to it, its name, and its kind. */
  datatype Entry = Entry(dirs: seq<string>, name: string, kind: Kind)

  /** A directory tree as the file system enumerates it. */
  datatype Tree = Tree(root: string, entries: seq<Entry>)

  predicate WfEntry(e: Entry) {
    ValidName(e.name) && forall i :: 0 <= i < |e.dirs| ==> ValidName(e.dirs[i])
  }

  predicate WfTree(t: Tree) {
    forall k :: 0 <= k < |t.entries| ==> WfEntry(t.entries[k])
  }

  /** The path string pathlib yields for an entry, below the rendered root `base`. */
  function PathOf(base: string, e: Entry): string {
    Under(base, e.dirs + [e.name])
  }

  /** Shell-style matching of a name against a pattern in which `*` stands for
      any run of characters and every other character for itself. */
  predicate GlobMatch(p: string, s: string)
    decreases |p| + |s|
  {
    if p == [] then s == []
    else if p[0] == '*' then GlobMatch(p[1..], s) || (|s| > 0 && GlobMatch(p, s[1..]))
    else |s| > 0 && s[0] == p[0] && GlobMatch(p[1..], s[1..])
  }

  predicate EndsWith(s: string, x: string) {
    |x| <= |s| && s[|s| - |x|..] == x
  }

  /** The pattern list the recursive search walks: none given means `*`. */
  function RecursivePatterns(patterns: seq<string>): seq<string> {
    if patterns == [] then ["*"] else patterns
  }

  /** A pattern without a leading `*` gets one. */
  function GlobPattern(p: string): string {
    if |p| > 0 && p[0] == '*' then p else "*" + p
  }

  /** What decides whether an entry is selected. */
  datatype Criterion =
    | Glob(pattern: string)           // recursive: name matches the pattern, any depth, any kind
    | Child(patterns: seq<string>)    // non-recursive: a file directly under the root

  predicate Selects(c: Criterion, e: Entry) {
    match c
    case Glob(p) => GlobMatch(p, e.name)
    case Child(ps) => e.dirs == [] && e.kind == File && (ps == [] || Suffix(e.name) in ps)
  }

  /** The paths of the selected entries, in enumeration order. */
  function Select(base: string, es: seq<Entry>, c: Criterion): seq<string>
    decreases |es|
  {
    if es == [] then []
    else
      var last := es[|es| - 1];
      Select(base, es[..|es| - 1], c) + (if Selects(c, last) then [PathOf(base, last)] else [])
  }

  /** `rglob` for each pattern in turn, results appended. */
  function GlobAll(base: string, es: seq<Entry>, pats: seq<string>): seq<string>
    decreases |pats|
  {
    if pats == [] then []
    else GlobAll(base, es, pats[..|pats| - 1]) + Select(base, es, Glob(GlobPattern(pats[|pats| - 1])))
  }

  /** Everything `get_filenames` collects before sorting. */
  function Candidates(t: Tree, patterns: seq<string>, recursive: bool): seq<string> {
    var base := PathStr(t.root);
    if recursive then GlobAll(base, t.entries, RecursivePatterns(patterns))
    else Select(base, t.entries, Child(patterns))
  }

  /** What `get_filenames` returns. */
  function Discover(t: Tree, patterns: seq<string>, recursive: bool): seq<string> {
    SortStrings(Candidates(t, patterns, recursive))
  }

  /** `get_filenames(dir, patterns, recursive)`; `patterns` is the list of
      patterns, empty when the source's argument is `None`, `""` or `[]`. */
  method GetFilenames(t: Tree, patterns: seq<string>, recursive: bool) returns (files: seq<string>)
    ensures files == Discover(t, patterns, recursive)
    ensures Sorted(files)
    ensures multiset(files) == multiset(Candidates(t, patterns, recursive))
  {
    var found: seq<string> := [];
    if recursive {
      var pats := RecursivePatterns(patterns);
      for i := 0 to |pats|
        invariant found == GlobAll(PathStr(t.root), t.entries, pats[..i])
      {
        var pattern := pats[i];
        if !(|pattern| > 0 && pattern[0] == '*') {
          pattern := "*" + pattern;
        }
        assert pats[..i + 1][..i] == pats[..i];
        found := found + Select(PathStr(t.root), t.entries, Glob(pattern));
      }
      assert pats[..|pats|] == pats;
    } else {
      found := Select(PathStr(t.root), t.entries, Child(patterns));
    }
    files := SortStrings(found);
  }

  // ----- What discovery returns -----

  lemma {:induction false} SelectMembership(base: string, es: seq<Entry>, c: Criterion, p: string)
    ensures p in Select(base, es, c) <==>
            exists k :: 0 <= k < |es| && Selects(c, es[k]) && p == PathOf(base, es[k])
    decreases |es|
  {
    if es != [] {
      var init, last := es[..|es| - 1], es[|es| - 1];
      var tail := if Selects(c, last) then [PathOf(base, last)] else [];
      assert Select(base, es, c) == Select(base, init, c) + tail;
      SelectMembership(base, init, c, p);
      if p in Select(base, init, c) {
        var k :| 0 <= k < |init| && Selects(c, init[k]) && p == PathOf(base, init[k]);
        assert es[k] == init[k];
      }
      if exists k :: 0 <= k < |es| && Selects(c, es[k]) && p == PathOf(base, es[k]) {
        var k :| 0 <= k < |es| && Selects(c, es[k]) && p == PathOf(base, es[k]);
        if k < |init| { assert init[k] == es[k]; }
      }
    }
  }

  /** Some pattern of the list matches the name, once prefixed with `*`. */
  predicate AnyGlob(pats: seq<string>, name: string) {
    exists j :: 0 <= j < |pats| && GlobMatch(GlobPattern(pats[j]), name)
  }

  lemma {:induction false} GlobAllMembership(base: string, es: seq<Entry>, pats: seq<string>, p: string)
    ensures p in GlobAll(base, es, pats) <==>
            exists j :: 0 <= j < |pats| && p in Select(base, es, Glob(GlobPattern(pats[j])))
    decreases |pats|
  {
    if pats != [] {
      var init := pats[..|pats| - 1];
      GlobAllMembership(base, es, init, p);
      assert forall j :: 0 <= j < |init| ==> init[j] == pats[j];
    }
  }

  lemma RecursiveCandidates(base: string, es: seq<Entry>, pats: seq<string>, p: string)
    ensures p in GlobAll(base, es, pats) <==>
            exists k :: 0 <= k < |es| && p == PathOf(base, es[k]) && AnyGlob(pats, es[k].name)
  {
    GlobAllMembership(base, es, pats, p);
    forall j | 0 <= j < |pats| {
      SelectMembership(base, es, Glob(GlobPattern(pats[j])), p);
    }
  }

  lemma SortedMembership(xs: seq<string>, p: string)
    ensures p in SortStrings(xs) <==> p in xs
  {
    assert p in SortStrings(xs) <==> p in multiset(SortStrings(xs));
  }

  /** A pattern without `*` matches only itself. */
  lemma {:induction false} GlobLiteral(x: string, s: string)
    requires '*' !in x
    ensures GlobMatch(x, s) <==> s == x
    decreases |x| + |s|
  {
    if x != [] && s != [] {
      assert x[0] in x;
      assert '*' !in x[1..] by { assert forall c :: c in x[1..] ==> c in x; }
      GlobLiteral(x[1..], s[1..]);
      assert s == [s[0]] + s[1..] && x == [x[0]] + x[1..];
    }
  }

  /** `*x`, for `x` without `*`, matches exactly the names that end with `x`. */
  lemma {:induction false} GlobSuffix(x: string, s: string)
    requires '*' !in x
    ensures GlobMatch("*" + x, s) <==> EndsWith(s, x)
    decreases |s|
  {
    var p := "*" + x;
    assert p[1..] == x;
    GlobLiteral(x, s);
    if |s| > 0 {
      GlobSuffix(x, s[1..]);
      if |x| <= |s| - 1 {
        assert s[1..][|s| - 1 - |x|..] == s[|s| - |x|..];
      }
      if |x| == |s| && EndsWith(s, x) {
        assert s[0..] == s;
      }
    }
  }

  /** `*` matches every name. */
  lemma {:induction false} GlobStar(s: string)
    ensures GlobMatch("*", s)
  {
    assert "*" + "" == "*";
    GlobSuffix("", s);
  }

  /** Non-recursive discovery returns exactly the files directly under the
      root whose suffix is listed (every one when no pattern is given). */
  lemma NonRecursiveDiscovery(t: Tree, patterns: seq<string>, p: string)
    ensures p in Discover(t, patterns, false) <==>
            exists k :: 0 <= k < |t.entries| && t.entries[k].dirs == [] && t.entries[k].kind == File &&
              (patterns == [] || Suffix(t.entries[k].name) in patterns) && p == PathOf(PathStr(t.root), t.entries[k])
  {
    SortedMembership(Candidates(t, patterns, false), p);
    SelectMembership(PathStr(t.root), t.entries, Child(patterns), p);
  }

  /** Non-recursive discovery never returns something from a subdirectory:
      the directory of each result is the rendered root (no directory at all
      when the root renders as `.`), and its suffix is one of the patterns. */
  lemma NonRecursiveStaysAtTop(t: Tree, patterns: seq<string>, p: string, cwd: seq<string>)
    requires WfTree(t)
    requires p in Discover(t, patterns, false)
    ensures Dirname(p) == if PathStr(t.root) == "." then "" else PathStr(t.root)
    ensures patterns != [] ==> Suffix(Basename(p)) in patterns
    ensures RelDir(p, t.root, cwd) == if PathStr(t.root) == "." then None else Some("")
  {
    NonRecursiveDiscovery(t, patterns, p);
    var k :| 0 <= k < |t.entries| && t.entries[k].dirs == [] && t.entries[k].kind == File &&
      (patterns == [] || Suffix(t.entries[k].name) in patterns) && p == PathOf(PathStr(t.root), t.entries[k]);
    var e := t.entries[k];
    assert WfEntry(e);
    assert e.dirs + [e.name] == [e.name];
    PathStrParts(t.root);
    TopChild(PathStr(t.root), e.name);
    FileDirectory(t.root, e.dirs, e.name, cwd);
  }

  /** The name ends with one of the suffix patterns; any name when there are none. */
  predicate MatchesSome(name: string, patterns: seq<string>) {
    patterns == [] || exists j :: 0 <= j < |patterns| && EndsWith(name, GlobPattern(patterns[j])[1..])
  }

  lemma AnyGlobIsSuffixMatch(patterns: seq<string>, name: string)
    requires forall j :: 0 <= j < |patterns| ==> '*' !in GlobPattern(patterns[j])[1..]
    ensures AnyGlob(RecursivePatterns(patterns), name) <==> MatchesSome(name, patterns)
  {
    if patterns == [] {
      GlobStar(name);
      assert GlobPattern(RecursivePatterns(patterns)[0]) == "*";
    } else {
      forall j | 0 <= j < |patterns|
        ensures GlobMatch(GlobPattern(patterns[j]), name) <==> EndsWith(name, GlobPattern(patterns[j])[1..])
      {
        var g := GlobPattern(patterns[j]);
        assert g == "*" + g[1..];
        GlobSuffix(g[1..], name);
      }
    }
  }

  /** Recursive discovery with suffix patterns (no `*` after the optional
      leading one) returns the entries at any depth and of any kind whose name
      ends with one of them; with no pattern it returns every entry. */
  lemma RecursiveDiscovery(t: Tree, patterns: seq<string>, p: string)
    requires forall j :: 0 <= j < |patterns| ==> '*' !in GlobPattern(patterns[j])[1..]
    ensures p in Discover(t, patterns, true) <==>
            exists k :: 0 <= k < |t.entries| && p == PathOf(PathStr(t.root), t.entries[k]) &&
              MatchesSome(t.entries[k].name, patterns)
  {
    SortedMembership(Candidates(t, patterns, true), p);
    RecursiveCandidates(PathStr(t.root), t.entries, RecursivePatterns(patterns), p);
    forall k | 0 <= k < |t.entries| {
      AnyGlobIsSuffixMatch(patterns, t.entries[k].name);
    }
  }

  // ----- Independence of enumeration order -----

  lemma {:induction false} SelectAppend(base: string, a: seq<Entry>, b: seq<Entry>, c: Criterion)
    ensures Select(base, a + b, c) == Select(base, a, c) + Select(base, b, c)
    decreases |b|
  {
    if b != [] {
      var init := b[..|b| - 1];
      assert (a + b)[..|a + b| - 1] == a + init;
      SelectAppend(base, a, init, c);
    } else {
      assert a + b == a;
    }
  }

  /** Taking one entry out of the listing takes its contribution out of the selection. */
  lemma SelectRemove(base: string, b: seq<Entry>, j: nat, c: Criterion)
    requires j < |b|
    ensures multiset(Select(base, b, c)) ==
            multiset(Select(base, b[..j] + b[j + 1..], c)) + multiset(Select(base, [b[j]], c))
  {
    assert b == b[..j] + [b[j]] + b[j + 1..];
    SelectAppend(base, b[..j] + [b[j]], b[j + 1..], c);
    SelectAppend(base, b[..j], [b[j]], c);
    SelectAppend(base, b[..j], b[j + 1..], c);
  }

  /** Removing the same element from two permutations leaves permutations. */
  lemma RemoveMatching(a: seq<Entry>, b: seq<Entry>, j: nat)
    requires multiset(a) == multiset(b) && a != []
    requires j < |b| && b[j] == a[|a| - 1]
    ensures multiset(a[..|a| - 1]) == multiset(b[..j] + b[j + 1..])
  {
    var x := a[|a| - 1];
    var init := a[..|a| - 1];
    var rest := b[..j] + b[j + 1..];
    assert a == init + [x];
    assert b == b[..j] + [x] + b[j + 1..];
    assert multiset(b) == multiset(b[..j]) + multiset{x} + multiset(b[j + 1..]);
    assert multiset(b) == multiset(rest) + multiset{x};
    assert multiset(a) == multiset(init) + multiset{x};
    calc {
      multiset(init);
      multiset(a) - multiset{x};
      multiset(b) - multiset{x};
      multiset(rest);
    }
  }

  /** Enumerating the same entries in another order selects the same paths, in another order. */
  lemma {:induction false} SelectPermutation(base: string, a: seq<Entry>, b: seq<Entry>, c: Criterion)
    requires multiset(a) == multiset(b)
    ensures multiset(Select(base, a, c)) == multiset(Select(base, b, c))
    decreases |a|
  {
    if a == [] {
      assert |b| == |multiset(b)| == 0;
    } else {
      var x := a[|a| - 1];
      var init := a[..|a| - 1];
      assert a == init + [x];
      assert x in multiset(b);
      var j :| 0 <= j < |b| && b[j] == x;
      var rest := b[..j] + b[j + 1..];
      RemoveMatching(a, b, j);
      SelectPermutation(base, init, rest, c);
      SelectAppend(base, init, [x], c);
      SelectRemove(base, b, j, c);
      assert multiset(Select(base, a, c)) == multiset(Select(base, init, c)) + multiset(Select(base, [x], c));
    }
  }

  lemma {:induction false} GlobAllPermutation(base: string, a: seq<Entry>, b: seq<Entry>, pats: seq<string>)
    requires multiset(a) == multiset(b)
    ensures multiset(GlobAll(base, a, pats)) == multiset(GlobAll(base, b, pats))
    decreases |pats|
  {
    if pats != [] {
      GlobAllPermutation(base, a, b, pats[..|pats| - 1]);
      SelectPermutation(base, a, b, Glob(GlobPattern(pats[|pats| - 1])));
    }
  }

  /** Discovery is deterministic: the result depends only on which entries
      the tree holds, not on the order the file system lists them in. */
  lemma DiscoveryIgnoresListingOrder(t1: Tree, t2: Tree, patterns: seq<string>, recursive: bool)
    requires t1.root == t2.root
    requires multiset(t1.entries) == multiset(t2.entries)
    ensures Discover(t1, patterns, recursive) == Discover(t2, patterns, recursive)
  {
    if recursive {
      GlobAllPermutation(PathStr(t1.root), t1.entries, t2.entries, RecursivePatterns(patterns));
    } else {
      SelectPermutation(PathStr(t1.root), t1.entries, t2.entries, Child(patterns));
    }
    SortIgnoresOrder(Candidates(t1, patterns, recursive), Candidates(t2, patterns, recursive));
  }
}
