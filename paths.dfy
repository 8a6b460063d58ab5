/**
 * The POSIX path-string operations the converter relies on (Python's
 * `posixpath` on Linux), written out over `string`.
 */
module PosixPath {
  import opened Wrappers

  /** A path component as pathlib produces it: non-empty, no separator, not `.` or `..`. */
  predicate ValidName(s: string) {
    |s| > 0 && '/' !in s && s != "." && s != ".."
  }

  /** A non-empty path without a trailing separator. */
  predicate NormalRoot(root: string) {
    |root| > 0 && root[|root| - 1] != '/'
  }

  predicate AllSlashes(s: string) {
    forall i :: 0 <= i < |s| ==> s[i] == '/'
  }

  /** `str.rfind(c)`: the index of the last occurrence of `c`, `None` for -1. */
  function LastIndex(s: string, c: char): (r: Option<nat>)
    ensures r.Some? ==> r.value < |s| && s[r.value] == c
    ensures r.Some? ==> forall j :: r.value < j < |s| ==> s[j] != c
    ensures r.None? ==> c !in s
    decreases |s|
  {
    if |s| == 0 then None
    else if s[|s| - 1] == c then Some(|s| - 1)
    else
      var r := LastIndex(s[..|s| - 1], c);
      assert s == s[..|s| - 1] + [s[|s| - 1]];
      r
  }

  /** `str.rstrip('/')`. */
  function RStripSlash(s: string): (r: string)
    ensures |r| <= |s| && r == s[..|r|]
    ensures r == "" || r[|r| - 1] != '/'
    ensures AllSlashes(s[|r|..])
    decreases |s|
  {
    if |s| > 0 && s[|s| - 1] == '/' then
      var r := RStripSlash(s[..|s| - 1]);
      assert s[|r|..] == s[..|s| - 1][|r|..] + "/";
      r
    else s
  }

  /** `os.path.basename`: everything after the last separator. */
  function Basename(p: string): (r: string)
  {
    match LastIndex(p, '/')
    case None => p
    case Some(i) => p[i + 1..]
  }

  /** `os.path.dirname`: everything up to the last separator, trailing separators
      removed unless the head consists of separators only. */
  function Dirname(p: string): string
  {
    var head := match LastIndex(p, '/') case None => "" case Some(i) => p[..i + 1];
    if head != "" && !AllSlashes(head) then RStripSlash(head) else head
  }

  /** `posixpath.join(a, b)` for one further component. */
  function Join(a: string, b: string): string {
    if |b| > 0 && b[0] == '/' then b
    else if a == "" || a[|a| - 1] == '/' then a + b
    else a + "/" + b
  }

  /** What `join` puts before a relative component: `a` itself when it is
      empty or already ends with a separator, else `a` and one separator. */
  function DirPrefix(a: string): (r: string)
    ensures r == "" || r[|r| - 1] == '/'
  {
    if a == "" || a[|a| - 1] == '/' then a else a + "/"
  }

  /** `posixpath.join(a, b, c)`: components are joined left to right. */
  function Join3(a: string, b: string, c: string): string {
    Join(Join(a, b), c)
  }

  predicate HasNonDot(s: string) {
    exists i :: 0 <= i < |s| && s[i] != '.'
  }

  /** `os.path.splitext`: the extension starts at the last dot of the last
      component, provided that dot is preceded by something other than dots. */
  function SplitExt(p: string): (r: (string, string))
  {
    var sep: int := match LastIndex(p, '/') case None => -1 case Some(i) => i;
    match LastIndex(p, '.')
    case None => (p, "")
    case Some(dot) =>
      if dot > sep && HasNonDot(p[sep + 1..dot]) then (p[..dot], p[dot..]) else (p, "")
  }

  /** The stem os.path.splitext gives for a base name. */
  function Stem(name: string): string {
    SplitExt(name).0
  }

  /** `PurePath.suffix`: from the last dot, when that dot is neither the first
      nor the last character of the name. */
  function Suffix(name: string): string {
    match LastIndex(name, '.')
    case None => ""
    case Some(i) => if 0 < i < |name| - 1 then name[i..] else ""
  }

  /** `"/".join(cs)`. */
  function SlashJoin(cs: seq<string>): string
    decreases |cs|
  {
    if |cs| == 0 then ""
    else if |cs| == 1 then cs[0]
    else SlashJoin(cs[..|cs| - 1]) + "/" + cs[|cs| - 1]
  }

  /** `p.split('/')`: the strings between separators, empty ones included. */
  function Pieces(p: string): (r: seq<string>)
    ensures |r| > 0
    ensures forall k :: 0 <= k < |r| ==> '/' !in r[k]
    decreases |p|
  {
    match LastIndex(p, '/')
    case None => [p]
    case Some(i) =>
      var tail := p[i + 1..];
      assert forall j :: 0 <= j < |tail| ==> tail[j] == p[i + 1 + j];
      Pieces(p[..i]) + [tail]
  }

  // ----- Facts about the operations above -----

  /** The last separator of `x + "/" + name` is the one before `name`. */
  lemma LastSlashOfChild(x: string, name: string)
    requires '/' !in name
    ensures LastIndex(x + "/" + name, '/') == Some(|x|)
  {
    var p := x + "/" + name;
    assert p[|x|] == '/';
    var r := LastIndex(p, '/');
    assert r.Some?;
  }

  /** `basename(x/name)` is `name`. */
  lemma BasenameOfChild(x: string, name: string)
    requires '/' !in name
    ensures Basename(x + "/" + name) == name
  {
    LastSlashOfChild(x, name);
    assert (x + "/" + name)[|x| + 1..] == name;
  }

  /** `dirname(x/name)` is `x` when `x` is non-empty and has no trailing separator. */
  lemma DirnameOfChild(x: string, name: string)
    requires '/' !in name
    requires |x| > 0 && x[|x| - 1] != '/'
    ensures Dirname(x + "/" + name) == x
  {
    LastSlashOfChild(x, name);
    var head := (x + "/" + name)[..|x| + 1];
    assert head == x + "/";
    assert head[|x| - 1] != '/';
    assert !AllSlashes(head);
    var r := RStripSlash(head);
    assert RStripSlash(x) == x;
    assert head[..|head| - 1] == x;
  }

  lemma SlashJoinSnoc(cs: seq<string>, n: string)
    requires cs != []
    ensures SlashJoin(cs + [n]) == SlashJoin(cs) + "/" + n
  {
    assert (cs + [n])[..|cs|] == cs;
  }

  /** A path built from valid components does not end with a separator. */
  lemma {:induction false} SlashJoinLastChar(cs: seq<string>)
    requires cs != []
    requires forall i :: 0 <= i < |cs| ==> ValidName(cs[i])
    ensures NormalRoot(SlashJoin(cs))
  {
    var last := cs[|cs| - 1];
    assert ValidName(last) && last[|last| - 1] != '/' by {
      assert last[|last| - 1] in last;
    }
    if |cs| > 1 {
      assert SlashJoin(cs) == SlashJoin(cs[..|cs| - 1]) + "/" + last;
    }
  }

  /** The relative part of a descendant is never `.`. */
  lemma SlashJoinNotDot(cs: seq<string>)
    requires cs != []
    requires forall i :: 0 <= i < |cs| ==> ValidName(cs[i])
    ensures SlashJoin(cs) != "."
  {
    if |cs| > 1 {
      assert SlashJoin(cs) == SlashJoin(cs[..|cs| - 1]) + "/" + cs[|cs| - 1];
      SlashJoinLastChar(cs[..|cs| - 1]);
    } else {
      assert ValidName(cs[0]);
    }
  }

  /** A path built from valid components starts with its first component. */
  lemma {:induction false} SlashJoinFirstChar(cs: seq<string>)
    requires cs != [] && |cs[0]| > 0
    ensures |SlashJoin(cs)| > 0 && SlashJoin(cs)[0] == cs[0][0]
    decreases |cs|
  {
    if |cs| > 1 {
      var init := cs[..|cs| - 1];
      assert init[0] == cs[0];
      SlashJoinFirstChar(init);
    }
  }

  /** The stem of a valid name is a non-empty name without separators. */
  lemma StemOfValidName(n: string)
    requires ValidName(n)
    ensures |Stem(n)| > 0 && '/' !in Stem(n)
  {
    SplitExtParts(n);
    var st := Stem(n);
    assert n[..|st|] == st;
    forall j | 0 <= j < |st|
      ensures st[j] != '/'
    {
      assert st[j] == n[j];
    }
  }

  /** Joining an empty component is the same as not joining it. */
  lemma JoinEmptyComponent(a: string, b: string)
    ensures Join3(a, "", b) == Join(a, b)
  {
  }

  /** `join(a, b)` for a relative `b` appends it to the prefix of `a`. */
  lemma JoinRelative(a: string, b: string)
    requires |b| > 0 && b[0] != '/'
    ensures Join(a, b) == DirPrefix(a) + b
  {
  }

  /** `join(a, rel, b)` for a non-empty relative part separates the three by
      `/`, adding none after an `a` that already ends with one. */
  lemma JoinNested(a: string, rel: string, b: string)
    requires NormalRoot(rel) && rel[0] != '/'
    requires |b| > 0 && b[0] != '/'
    ensures Join3(a, rel, b) == DirPrefix(a) + rel + "/" + b
  {
    JoinRelative(a, rel);
    var ar := DirPrefix(a) + rel;
    assert ar[|ar| - 1] == rel[|rel| - 1];
  }

  /** `splitext(s + ext)` for an extension `.t` without further dots returns
      `(s, ext)` when `s` holds something other than dots. */
  lemma SplitExtOf(s: string, t: string)
    requires '/' !in s && '/' !in t && '.' !in t
    requires HasNonDot(s)
    ensures SplitExt(s + "." + t) == (s, "." + t)
  {
    var p := s + "." + t;
    assert '/' !in p by {
      forall j | 0 <= j < |p| ensures p[j] != '/' {
        if j < |s| { assert p[j] == s[j]; } else if j > |s| { assert p[j] == t[j - |s| - 1]; }
      }
    }
    LastSlashOfChildDot(s, t);
    assert LastIndex(p, '/') == None;
    assert p[0..|s|] == s;
    assert p[..|s|] == s && p[|s|..] == "." + t;
  }

  lemma LastSlashOfChildDot(s: string, t: string)
    requires '.' !in t
    ensures LastIndex(s + "." + t, '.') == Some(|s|)
  {
    var p := s + "." + t;
    assert p[|s|] == '.';
    assert forall j :: |s| < j < |p| ==> p[j] == t[j - |s| - 1];
  }

  /** `splitext` only splits, and what it splits off is an extension. */
  lemma SplitExtParts(p: string)
    ensures SplitExt(p).0 + SplitExt(p).1 == p
    ensures SplitExt(p).1 == "" || (SplitExt(p).1[0] == '.' && '.' !in SplitExt(p).1[1..] && '/' !in SplitExt(p).1)
  {
    var sep: int := match LastIndex(p, '/') case None => -1 case Some(i) => i;
    match LastIndex(p, '.')
    case None =>
    case Some(dot) =>
      if dot > sep && HasNonDot(p[sep + 1..dot]) {
        var e := p[dot..];
        assert forall j :: 0 <= j < |e| - 1 ==> e[1..][j] == p[dot + 1 + j];
        assert forall j :: 0 <= j < |e| ==> e[j] == p[dot + j];
      }
  }

  /** Joining different names into the same directory gives different paths. */
  lemma JoinInjective(dir: string, a: string, b: string)
    requires |a| > 0 && a[0] != '/' && |b| > 0 && b[0] != '/'
    requires Join(dir, a) == Join(dir, b)
    ensures a == b
  {
    var pre := if dir == "" || dir[|dir| - 1] == '/' then dir else dir + "/";
    assert Join(dir, a) == pre + a && Join(dir, b) == pre + b;
    assert a == (pre + a)[|pre|..];
    assert b == (pre + b)[|pre|..];
  }

  /** Splitting `x/name` splits `x` and adds `name`. */
  lemma PiecesOfChild(x: string, name: string)
    requires '/' !in name
    ensures Pieces(x + "/" + name) == Pieces(x) + [name]
  {
    LastSlashOfChild(x, name);
    var p := x + "/" + name;
    assert p[..|x|] == x && p[|x| + 1..] == name;
  }

  /** Splitting `a/c1/.../ck` splits `a` and adds the components. */
  lemma {:induction false} PiecesOfJoined(a: string, cs: seq<string>)
    requires cs != []
    requires forall k :: 0 <= k < |cs| ==> '/' !in cs[k]
    ensures Pieces(a + "/" + SlashJoin(cs)) == Pieces(a) + cs
    decreases |cs|
  {
    var init, last := cs[..|cs| - 1], cs[|cs| - 1];
    if init == [] {
      assert cs == [last];
      PiecesOfChild(a, last);
    } else {
      assert init + [last] == cs;
      SlashJoinSnoc(init, last);
      assert a + "/" + SlashJoin(cs) == (a + "/" + SlashJoin(init)) + "/" + last;
      PiecesOfChild(a + "/" + SlashJoin(init), last);
      PiecesOfJoined(a, init);
    }
  }

  /** Splitting `c1/.../ck` gives back the components. */
  lemma {:induction false} PiecesOfSlashJoin(cs: seq<string>)
    requires cs != []
    requires forall k :: 0 <= k < |cs| ==> '/' !in cs[k]
    ensures Pieces(SlashJoin(cs)) == cs
    decreases |cs|
  {
    if |cs| == 1 {
      assert LastIndex(cs[0], '/') == None;
    } else {
      var init, last := cs[..|cs| - 1], cs[|cs| - 1];
      assert init + [last] == cs;
      PiecesOfChild(SlashJoin(init), last);
      PiecesOfSlashJoin(init);
    }
  }
}
