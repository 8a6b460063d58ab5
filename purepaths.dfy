/**
 * How Python's `pathlib` renders a path (`str(Path(...))`), and
 * `os.path.relpath`, which resolves both of its arguments against the
 * working directory (`os.path.abspath`) before it compares them.
 */
module PurePaths {
  import opened Wrappers
  import opened PosixPath

  predicate IsAbsolute(p: string) {
    |p| > 0 && p[0] == '/'
  }

  /** What both pathlib and `normpath` discard: empty components and `.`. */
  predicate Insignificant(c: string) {
    c == "" || c == "."
  }

  function Significant(ps: seq<string>): (r: seq<string>)
    ensures forall k :: 0 <= k < |r| ==> !Insignificant(r[k])
    decreases |ps|
  {
    if ps == [] then []
    else
      var last := ps[|ps| - 1];
      Significant(ps[..|ps| - 1]) + (if Insignificant(last) then [] else [last])
  }

  /** The anchor pathlib keeps: exactly two leading separators stay two, any
      other number of them becomes one. */
  function Anchor(p: string): (r: string)
    ensures r == "" || r == "/" || r == "//"
    ensures r != "" <==> IsAbsolute(p)
  {
    if !IsAbsolute(p) then ""
    else if |p| >= 2 && p[1] == '/' && (|p| == 2 || p[2] != '/') then "//"
    else "/"
  }

  /** `str(Path(p))`: the anchor followed by the significant components
      (`..` included), or `.` when there is neither. */
  function PathStr(p: string): string {
    var parts := Significant(Pieces(p));
    if parts == [] then (if Anchor(p) == "" then "." else Anchor(p))
    else Anchor(p) + SlashJoin(parts)
  }

  /** `str(Path(s) / c1 / ... / ck)` for a rendered path `s` and valid components,
      as pathlib builds the children of a directory: below `.` the child is the
      bare name, below an anchor it follows the anchor directly. */
  function Under(s: string, cs: seq<string>): string {
    if cs == [] then s
    else if s == "." then SlashJoin(cs)
    else if s == "/" || s == "//" then s + SlashJoin(cs)
    else s + "/" + SlashJoin(cs)
  }

  /** One component of `normpath` on an absolute path: `..` climbs, never above the root. */
  function NormStep(acc: seq<string>, c: string): seq<string> {
    if Insignificant(c) then acc
    else if c == ".." then (if acc == [] then [] else acc[..|acc| - 1])
    else acc + [c]
  }

  function NormFrom(acc: seq<string>, ps: seq<string>): seq<string>
    decreases |ps|
  {
    if ps == [] then acc else NormStep(NormFrom(acc, ps[..|ps| - 1]), ps[|ps| - 1])
  }

  /** The non-empty components of `os.path.abspath(p)`, where `cwd` holds the
      components of the working directory that a relative `p` is joined to. */
  function AbsParts(p: string, cwd: seq<string>): seq<string> {
    NormFrom(if IsAbsolute(p) then [] else cwd, Pieces(p))
  }

  /** The length of the longest common prefix (`os.path.commonprefix`). */
  function CommonPrefix(a: seq<string>, b: seq<string>): (r: nat)
    ensures r <= |a| && r <= |b| && a[..r] == b[..r]
    ensures r < |a| && r < |b| ==> a[r] != b[r]
    decreases |a|
  {
    if a == [] || b == [] || a[0] != b[0] then 0
    else
      var r := CommonPrefix(a[1..], b[1..]);
      assert a[..r + 1] == [a[0]] + a[1..][..r];
      assert b[..r + 1] == [b[0]] + b[1..][..r];
      r + 1
  }

  /** `os.path.relpath(path, start)` under the working directory `cwd`: the
      steps up from `start` to the common ancestor, then down to `path`.
      An empty `path` raises `ValueError`, here `None`. */
  function RelPath(path: string, start: string, cwd: seq<string>): (r: Option<string>)
    ensures r.None? <==> path == ""
  {
    if path == "" then None
    else
      var p, s := AbsParts(path, cwd), AbsParts(start, cwd);
      var i := CommonPrefix(s, p);
      var rel := seq(|s| - i, _ => "..") + p[i..];
      Some(if rel == [] then "." else SlashJoin(rel))
  }

  /** The directory of `file` relative to `root`, `.` read as the empty string;
      `None` where `relpath` raises, which is when `file` has no directory part. */
  function RelDir(file: string, root: string, cwd: seq<string>): (r: Option<string>)
    ensures r.None? <==> Dirname(file) == ""
  {
    match RelPath(Dirname(file), root, cwd)
    case None => None
    case Some(rel) => Some(if rel == "." then "" else rel)
  }

  /** The directories `os.walk(d)` reaches, each child joined to its parent. */
  function WalkPath(d: string, cs: seq<string>): string
    decreases |cs|
  {
    if cs == [] then d else Join(WalkPath(d, cs[..|cs| - 1]), cs[|cs| - 1])
  }

  // ----- Facts about the operations above -----

  lemma {:induction false} SignificantAppend(xs: seq<string>, ys: seq<string>)
    ensures Significant(xs + ys) == Significant(xs) + Significant(ys)
    decreases |ys|
  {
    if ys != [] {
      var init, last := ys[..|ys| - 1], ys[|ys| - 1];
      var tail := if Insignificant(last) then [] else [last];
      var zs := xs + ys;
      assert zs[..|zs| - 1] == xs + init && zs[|zs| - 1] == last;
      assert Significant(zs) == Significant(xs + init) + tail;
      SignificantAppend(xs, init);
      assert Significant(ys) == Significant(init) + tail;
    } else {
      assert xs + ys == xs;
    }
  }

  lemma {:induction false} SignificantOfNames(cs: seq<string>)
    requires forall k :: 0 <= k < |cs| ==> !Insignificant(cs[k])
    ensures Significant(cs) == cs
    decreases |cs|
  {
    if cs != [] {
      var init := cs[..|cs| - 1];
      SignificantOfNames(init);
      assert init + [cs[|cs| - 1]] == cs;
    }
  }

  /** What pathlib keeps of separator-free pieces is separator-free. */
  lemma {:induction false} SignificantNoSlash(ps: seq<string>)
    requires forall k :: 0 <= k < |ps| ==> '/' !in ps[k]
    ensures forall k :: 0 <= k < |Significant(ps)| ==> '/' !in Significant(ps)[k]
    decreases |ps|
  {
    if ps != [] {
      SignificantNoSlash(ps[..|ps| - 1]);
    }
  }

  lemma {:induction false} NormFromAppend(acc: seq<string>, xs: seq<string>, ys: seq<string>)
    ensures NormFrom(acc, xs + ys) == NormFrom(NormFrom(acc, xs), ys)
    decreases |ys|
  {
    if ys != [] {
      var zs := xs + ys;
      assert zs[..|zs| - 1] == xs + ys[..|ys| - 1] && zs[|zs| - 1] == ys[|ys| - 1];
      NormFromAppend(acc, xs, ys[..|ys| - 1]);
    } else {
      assert xs + ys == xs;
    }
  }

  /** `normpath` ignores what pathlib drops. */
  lemma {:induction false} NormFromSignificant(acc: seq<string>, ps: seq<string>)
    ensures NormFrom(acc, ps) == NormFrom(acc, Significant(ps))
    decreases |ps|
  {
    if ps != [] {
      var init, last := ps[..|ps| - 1], ps[|ps| - 1];
      NormFromSignificant(acc, init);
      var tail := if Insignificant(last) then [] else [last];
      NormFromAppend(acc, Significant(init), tail);
    }
  }

  /** Valid names descend one level each. */
  lemma {:induction false} NormFromNames(acc: seq<string>, cs: seq<string>)
    requires forall k :: 0 <= k < |cs| ==> ValidName(cs[k])
    ensures NormFrom(acc, cs) == acc + cs
    decreases |cs|
  {
    if cs != [] {
      var init := cs[..|cs| - 1];
      NormFromNames(acc, init);
      assert acc + init + [cs[|cs| - 1]] == acc + cs;
    }
  }

  /** An anchor alone has no significant components. */
  lemma AnchorPieces(a: string)
    requires a == "" || a == "/" || a == "//"
    ensures Significant(Pieces(a)) == []
  {
    assert LastIndex("", '/') == None;
    assert Pieces("") == [""];
    assert Significant([""]) == [];
    if a != "" {
      PiecesOfChild("", "");
      assert "" + "/" + "" == "/";
      assert Significant(["", ""]) == [];
      if a == "//" {
        PiecesOfChild("/", "");
        assert "/" + "/" + "" == "//";
        assert Significant(["", "", ""]) == [];
      }
    }
  }

  /** A rendered path keeps the significant components and the anchor. */
  lemma PathStrParts(d: string)
    ensures Significant(Pieces(PathStr(d))) == Significant(Pieces(d))
    ensures IsAbsolute(PathStr(d)) <==> IsAbsolute(d)
    ensures PathStr(d) == "/" || PathStr(d) == "//" || NormalRoot(PathStr(d))
  {
    var parts := Significant(Pieces(d));
    var a := Anchor(d);
    if parts == [] {
      if a == "" {
        DotPieces();
      } else {
        AnchorPieces(a);
      }
    } else {
      SignificantNoSlash(Pieces(d));
      PartsRendered(a, parts);
    }
  }

  /** The anchor followed by non-empty components splits back into them. */
  lemma PartsRendered(a: string, parts: seq<string>)
    requires a == "" || a == "/" || a == "//"
    requires parts != []
    requires forall k :: 0 <= k < |parts| ==> !Insignificant(parts[k]) && '/' !in parts[k]
    ensures Significant(Pieces(a + SlashJoin(parts))) == parts
    ensures IsAbsolute(a + SlashJoin(parts)) <==> a != ""
    ensures NormalRoot(a + SlashJoin(parts))
  {
    SignificantOfNames(parts);
    assert parts[0][0] in parts[0];
    SlashJoinFirstChar(parts);
    EndsInName(parts);
    if a == "" {
      PiecesOfSlashJoin(parts);
      assert a + SlashJoin(parts) == SlashJoin(parts);
    } else {
      AnchorPieces(a);
      RenderUnderAnchor(a, parts);
    }
  }

  /** Non-empty components without separators join to a path without a trailing separator. */
  lemma {:induction false} EndsInName(cs: seq<string>)
    requires cs != []
    requires forall k :: 0 <= k < |cs| ==> !Insignificant(cs[k]) && '/' !in cs[k]
    ensures NormalRoot(SlashJoin(cs))
  {
    var last := cs[|cs| - 1];
    assert last[|last| - 1] in last;
    if |cs| > 1 {
      assert SlashJoin(cs) == SlashJoin(cs[..|cs| - 1]) + "/" + last;
    }
  }

  /** Building a child with pathlib and rendering the parent again keeps the
      parent's components and anchor, plus the new components. */
  lemma RenderParts(d: string, cs: seq<string>)
    requires forall k :: 0 <= k < |cs| ==> ValidName(cs[k])
    ensures Significant(Pieces(Under(PathStr(d), cs))) == Significant(Pieces(d)) + cs
    ensures IsAbsolute(Under(PathStr(d), cs)) <==> IsAbsolute(d)
  {
    var r := PathStr(d);
    PathStrParts(d);
    if cs != [] {
      if r == "." {
        DotPieces();
        DotChildParts(cs);
      } else if r == "/" || r == "//" {
        AnchorChildParts(r, cs);
      } else {
        NamedChildParts(r, cs);
      }
    } else {
      assert Significant(Pieces(d)) + cs == Significant(Pieces(d));
    }
  }

  lemma DotPieces()
    ensures Significant(Pieces(".")) == []
  {
    assert LastIndex(".", '/') == None;
    assert Significant(["."]) == [];
  }

  lemma DotChildParts(cs: seq<string>)
    requires cs != [] && forall k :: 0 <= k < |cs| ==> ValidName(cs[k])
    ensures Significant(Pieces(SlashJoin(cs))) == cs && !IsAbsolute(SlashJoin(cs))
  {
    SignificantOfNames(cs);
    assert cs[0][0] in cs[0];
    SlashJoinFirstChar(cs);
    PiecesOfSlashJoin(cs);
  }

  lemma AnchorChildParts(r: string, cs: seq<string>)
    requires r == "/" || r == "//"
    requires cs != [] && forall k :: 0 <= k < |cs| ==> ValidName(cs[k])
    ensures Significant(Pieces(r + SlashJoin(cs))) == cs && IsAbsolute(r + SlashJoin(cs))
    ensures Significant(Pieces(r)) == []
  {
    SignificantOfNames(cs);
    AnchorPieces(r);
    RenderUnderAnchor(r, cs);
  }

  lemma NamedChildParts(r: string, cs: seq<string>)
    requires NormalRoot(r)
    requires cs != [] && forall k :: 0 <= k < |cs| ==> ValidName(cs[k])
    ensures Significant(Pieces(r + "/" + SlashJoin(cs))) == Significant(Pieces(r)) + cs
    ensures IsAbsolute(r + "/" + SlashJoin(cs)) <==> IsAbsolute(r)
  {
    SignificantOfNames(cs);
    PiecesOfJoined(r, cs);
    SignificantAppend(Pieces(r), cs);
  }

  /** Components after a prefix of separators and dropped pieces are all that is kept. */
  lemma RenderUnderAnchor(r: string, cs: seq<string>)
    requires |r| > 0 && r[|r| - 1] == '/' && Significant(Pieces(r)) == []
    requires cs != [] && Significant(cs) == cs
    requires forall k :: 0 <= k < |cs| ==> '/' !in cs[k]
    ensures Significant(Pieces(r + SlashJoin(cs))) == cs
  {
    var r' := r[..|r| - 1];
    DroppedBeforeSlash(r);
    PiecesAfterSlash(r, cs);
    SignificantAppend(Pieces(r'), cs);
  }

  /** What precedes a final separator of a path without significant components has none either. */
  lemma DroppedBeforeSlash(r: string)
    requires |r| > 0 && r[|r| - 1] == '/' && Significant(Pieces(r)) == []
    ensures Significant(Pieces(r[..|r| - 1])) == []
  {
    var r' := r[..|r| - 1];
    assert r == r' + "/" + "";
    PiecesOfChild(r', "");
    SignificantAppend(Pieces(r'), [""]);
    assert Significant([""]) == [];
  }

  lemma PiecesAfterSlash(r: string, cs: seq<string>)
    requires |r| > 0 && r[|r| - 1] == '/'
    requires cs != [] && forall k :: 0 <= k < |cs| ==> '/' !in cs[k]
    ensures Pieces(r + SlashJoin(cs)) == Pieces(r[..|r| - 1]) + cs
  {
    var r' := r[..|r| - 1];
    assert r == r' + "/";
    PiecesOfJoined(r', cs);
  }

  /** `abspath` of a child built by pathlib: the parent's, one level further down per name. */
  lemma AbsPartsUnder(d: string, cs: seq<string>, cwd: seq<string>)
    requires forall k :: 0 <= k < |cs| ==> ValidName(cs[k])
    ensures AbsParts(Under(PathStr(d), cs), cwd) == AbsParts(d, cwd) + cs
  {
    var u := Under(PathStr(d), cs);
    RenderParts(d, cs);
    var base := if IsAbsolute(d) then [] else cwd;
    NormFromSignificant(base, Pieces(u));
    NormFromSignificant(base, Pieces(d));
    NormFromAppend(base, Significant(Pieces(d)), cs);
    NormFromNames(NormFrom(base, Significant(Pieces(d))), cs);
  }

  /** `relpath` of a path `cs` below `start` is `cs` joined, or `.` for `start` itself. */
  lemma RelPathBelow(path: string, start: string, cwd: seq<string>, cs: seq<string>)
    requires path != ""
    requires AbsParts(path, cwd) == AbsParts(start, cwd) + cs
    ensures RelPath(path, start, cwd) == Some(if cs == [] then "." else SlashJoin(cs))
  {
    var p, s := AbsParts(path, cwd), AbsParts(start, cwd);
    var i := CommonPrefix(s, p);
    assert i == |s|;
    var rel := seq(|s| - i, _ => "..") + p[i..];
    assert seq(|s| - i, _ => "..") == [];
    assert p[i..] == cs;
    assert rel == cs;
  }

  /** The base name and directory of a file pathlib found below a rendered path. */
  lemma UnderChild(r: string, dirs: seq<string>, name: string)
    requires r == "/" || r == "//" || NormalRoot(r)
    requires forall k :: 0 <= k < |dirs| ==> ValidName(dirs[k])
    requires ValidName(name)
    ensures Basename(Under(r, dirs + [name])) == name
    ensures Dirname(Under(r, dirs + [name])) == if r == "." && dirs == [] then "" else Under(r, dirs)
    ensures Under(r, dirs) != ""
  {
    if dirs == [] {
      assert dirs + [name] == [name];
      TopChild(r, name);
    } else {
      NestedChild(r, dirs, name);
    }
  }

  lemma NestedChild(r: string, dirs: seq<string>, name: string)
    requires dirs != [] && forall k :: 0 <= k < |dirs| ==> ValidName(dirs[k])
    requires ValidName(name)
    ensures Under(r, dirs + [name]) == Under(r, dirs) + "/" + name
    ensures NormalRoot(Under(r, dirs))
    ensures Basename(Under(r, dirs + [name])) == name
    ensures Dirname(Under(r, dirs + [name])) == Under(r, dirs)
  {
    var x := Under(r, dirs);
    UnderSnoc(r, dirs, name);
    UnderLastChar(r, dirs);
    BasenameOfChild(x, name);
    DirnameOfChild(x, name);
  }

  lemma UnderSnoc(r: string, dirs: seq<string>, name: string)
    requires dirs != []
    ensures Under(r, dirs + [name]) == Under(r, dirs) + "/" + name
  {
    SlashJoinSnoc(dirs, name);
  }

  lemma UnderLastChar(r: string, dirs: seq<string>)
    requires dirs != [] && forall k :: 0 <= k < |dirs| ==> ValidName(dirs[k])
    ensures NormalRoot(Under(r, dirs))
  {
    var j := SlashJoin(dirs);
    SlashJoinLastChar(dirs);
    var x := Under(r, dirs);
    assert x[|x| - 1] == j[|j| - 1];
  }

  lemma TopChild(r: string, name: string)
    requires r == "/" || r == "//" || NormalRoot(r)
    requires ValidName(name)
    ensures Basename(Under(r, [name])) == name
    ensures Dirname(Under(r, [name])) == if r == "." then "" else r
  {
    var path := Under(r, [name]);
    if r == "." {
      assert path == name;
      assert LastIndex(name, '/') == None;
    } else if r == "/" || r == "//" {
      var r' := r[..|r| - 1];
      assert path == r' + "/" + name;
      BasenameOfChild(r', name);
      LastSlashOfChild(r', name);
      assert path[..|r'| + 1] == r;
      assert AllSlashes(r);
    } else {
      assert path == r + "/" + name;
      BasenameOfChild(r, name);
      DirnameOfChild(r, name);
    }
  }

  /** For a file `d1/.../dk/name` that pathlib finds below the import directory
      `d`, the base name is `name` and the directory relative to `d` is
      `d1/.../dk`, empty for a file directly inside `d`; `relpath` raises
      exactly when `d` renders as `.` and the file lies directly inside it. */
  lemma FileDirectory(d: string, dirs: seq<string>, name: string, cwd: seq<string>)
    requires forall k :: 0 <= k < |dirs| ==> ValidName(dirs[k])
    requires ValidName(name)
    ensures Basename(Under(PathStr(d), dirs + [name])) == name
    ensures RelDir(Under(PathStr(d), dirs + [name]), d, cwd) ==
      if PathStr(d) == "." && dirs == [] then None else Some(SlashJoin(dirs))
  {
    var r := PathStr(d);
    PathStrParts(d);
    UnderChild(r, dirs, name);
    if !(r == "." && dirs == []) {
      AbsPartsUnder(d, dirs, cwd);
      RelPathBelow(Under(r, dirs), d, cwd, dirs);
      if dirs != [] {
        SlashJoinNotDot(dirs);
      }
    }
  }

  /** `abspath` of a directory `os.walk(d)` reaches: `d`'s, one level further down per name. */
  lemma AbsPartsWalk(d: string, cs: seq<string>, cwd: seq<string>)
    requires d != ""
    requires forall k :: 0 <= k < |cs| ==> ValidName(cs[k])
    ensures WalkPath(d, cs) != "" && (IsAbsolute(WalkPath(d, cs)) <==> IsAbsolute(d))
    ensures AbsParts(WalkPath(d, cs), cwd) == AbsParts(d, cwd) + cs
  {
    if cs == [] {
      assert AbsParts(d, cwd) + cs == AbsParts(d, cwd);
    } else {
      var base := if IsAbsolute(d) then [] else cwd;
      WalkPathShape(d, cs);
      if d[|d| - 1] == '/' {
        WalkBelowSlash(d, cs, base);
      } else {
        WalkBelowName(d, cs, base);
      }
    }
  }

  /** The directories `os.walk` reaches below `d` are `d` and the components
      separated by `/`, with no second separator after a trailing one. */
  lemma {:induction false} WalkPathShape(d: string, cs: seq<string>)
    requires d != "" && cs != []
    requires forall k :: 0 <= k < |cs| ==> ValidName(cs[k])
    ensures WalkPath(d, cs) == (if d[|d| - 1] == '/' then d else d + "/") + SlashJoin(cs)
    decreases |cs|
  {
    var init, n := cs[..|cs| - 1], cs[|cs| - 1];
    assert cs == init + [n];
    if init == [] {
      WalkPathOne(d, n);
    } else {
      WalkPathShape(d, init);
      WalkPathStep(d, init, n);
    }
  }

  lemma WalkPathOne(d: string, n: string)
    requires d != "" && ValidName(n)
    ensures WalkPath(d, [n]) == (if d[|d| - 1] == '/' then d else d + "/") + SlashJoin([n])
  {
    assert n[0] in n;
    assert [n][..0] == [];
  }

  lemma WalkPathStep(d: string, init: seq<string>, n: string)
    requires d != "" && init != [] && ValidName(n)
    requires forall k :: 0 <= k < |init| ==> ValidName(init[k])
    requires WalkPath(d, init) == (if d[|d| - 1] == '/' then d else d + "/") + SlashJoin(init)
    ensures WalkPath(d, init + [n]) == (if d[|d| - 1] == '/' then d else d + "/") + SlashJoin(init + [n])
  {
    var pre := if d[|d| - 1] == '/' then d else d + "/";
    WalkPathSnoc(d, init, n);
    SlashJoinLastChar(init);
    EndsLikeSuffix(pre, SlashJoin(init));
    JoinName(WalkPath(d, init), n);
    SlashJoinSnoc(init, n);
    Regroup(pre, SlashJoin(init), "/", n);
  }

  lemma Regroup(a: string, b: string, c: string, d: string)
    ensures a + b + c + d == a + (b + c + d)
  {
  }

  lemma WalkPathSnoc(d: string, cs: seq<string>, n: string)
    ensures WalkPath(d, cs + [n]) == Join(WalkPath(d, cs), n)
  {
    assert (cs + [n])[..|cs|] == cs;
  }

  lemma EndsLikeSuffix(a: string, b: string)
    requires NormalRoot(b)
    ensures NormalRoot(a + b)
  {
    assert (a + b)[|a + b| - 1] == b[|b| - 1];
  }

  /** Joining a name to a path without a trailing separator inserts one. */
  lemma JoinName(w: string, n: string)
    requires NormalRoot(w) && ValidName(n)
    ensures Join(w, n) == w + "/" + n
  {
    assert n[0] in n;
  }

  lemma WalkBelowSlash(d: string, cs: seq<string>, base: seq<string>)
    requires d != "" && d[|d| - 1] == '/' && cs != []
    requires forall k :: 0 <= k < |cs| ==> ValidName(cs[k])
    ensures NormFrom(base, Pieces(d + SlashJoin(cs))) == NormFrom(base, Pieces(d)) + cs
    ensures (d + SlashJoin(cs))[0] == d[0]
  {
    var d' := d[..|d| - 1];
    assert d == d' + "/" + "";
    PiecesOfChild(d', "");
    assert d == d' + "/";
    PiecesOfJoined(d', cs);
    NormFromAppend(base, Pieces(d'), [""]);
    NormFromAppend(base, Pieces(d'), cs);
    NormFromNames(NormFrom(base, Pieces(d')), cs);
  }

  lemma WalkBelowName(d: string, cs: seq<string>, base: seq<string>)
    requires d != "" && cs != []
    requires forall k :: 0 <= k < |cs| ==> ValidName(cs[k])
    ensures NormFrom(base, Pieces(d + "/" + SlashJoin(cs))) == NormFrom(base, Pieces(d)) + cs
    ensures (d + "/" + SlashJoin(cs))[0] == d[0]
  {
    PiecesOfJoined(d, cs);
    NormFromAppend(base, Pieces(d), cs);
    NormFromNames(NormFrom(base, Pieces(d)), cs);
  }

  /** `os.walk` below a non-empty root never names a directory by the empty string. */
  lemma {:induction false} WalkPathNonEmpty(d: string, cs: seq<string>)
    requires d != ""
    ensures WalkPath(d, cs) != ""
    decreases |cs|
  {
    if cs != [] {
      WalkPathNonEmpty(d, cs[..|cs| - 1]);
    }
  }

  /** A trailing separator changes neither how pathlib renders a path nor
      what `abspath` makes of it. */
  lemma TrailingSlashParts(d: string, cwd: seq<string>)
    requires NormalRoot(d)
    ensures PathStr(d + "/") == PathStr(d)
    ensures AbsParts(d + "/", cwd) == AbsParts(d, cwd)
  {
    PiecesOfChild(d, "");
    assert d + "/" + "" == d + "/";
    SignificantAppend(Pieces(d), [""]);
    assert Significant([""]) == [];
    assert Significant(Pieces(d + "/")) == Significant(Pieces(d));
    assert Anchor(d + "/") == Anchor(d) by {
      var p := d + "/";
      assert p[0] == d[0];
      if |d| >= 2 { assert p[1] == d[1]; }
      if |d| >= 3 { assert p[2] == d[2]; }
    }
    var base := if IsAbsolute(d) then [] else cwd;
    assert NormFrom(base, Pieces(d) + [""]) == NormFrom(base, Pieces(d)) by {
      assert (Pieces(d) + [""])[..|Pieces(d)|] == Pieces(d);
    }
  }

  lemma RelDirTrailingSlash(file: string, d: string, cwd: seq<string>)
    requires NormalRoot(d)
    ensures RelDir(file, d + "/", cwd) == RelDir(file, d, cwd)
  {
    TrailingSlashParts(d, cwd);
    RelPathSameStart(Dirname(file), d + "/", d, cwd);
  }

  /** `relpath` sees its start only through `abspath`. */
  lemma RelPathSameStart(path: string, s1: string, s2: string, cwd: seq<string>)
    requires AbsParts(s1, cwd) == AbsParts(s2, cwd)
    ensures RelPath(path, s1, cwd) == RelPath(path, s2, cwd)
  {
  }
}
