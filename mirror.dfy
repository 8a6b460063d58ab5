/**
 * Directory mirroring (`mirror_dir_path_tree`): every directory below the
 * import root gets a counterpart below the export root.
 */
module Mirror {
  import opened PosixPath
  import opened PurePaths
  import opened Discovery

  /** The directories `os.walk(root)` visits, top-down: the root itself, then
      every directory below it in enumeration order, each named by joining its
      components to the root with `os.path.join`. `os.walk("")` visits nothing. */
  function WalkOf(t: Tree): (r: seq<string>)
    ensures forall k :: 0 <= k < |r| ==> r[k] != ""
  {
    if t.root == "" then [] else [t.root] + WalkDirs(t.root, t.entries)
  }

  /** The directory entries below `root`, in enumeration order. */
  function WalkDirs(root: string, es: seq<Entry>): (r: seq<string>)
    requires root != ""
    ensures forall k :: 0 <= k < |r| ==> r[k] != ""
    decreases |es|
  {
    if es == [] then []
    else
      var last := es[|es| - 1];
      WalkPathNonEmpty(root, last.dirs + [last.name]);
      WalkDirs(root, es[..|es| - 1]) + (if last.kind == Dir then [WalkPath(root, last.dirs + [last.name])] else [])
  }

  /** The relative path of a visited directory, `.` read as the empty string. */
  function RelOf(walked: string, root: string, cwd: seq<string>): string
    requires walked != ""
  {
    var rel := RelPath(walked, root, cwd).value;
    if rel == "." then "" else rel
  }

  /** The directory created for each visited one: `join(export, rel)`. */
  function MirrorTargets(root: string, exportRoot: string, walked: seq<string>, cwd: seq<string>): (r: seq<string>)
    requires forall k :: 0 <= k < |walked| ==> walked[k] != ""
    ensures |r| == |walked|
    ensures forall k :: 0 <= k < |walked| ==> r[k] == Join(exportRoot, RelOf(walked[k], root, cwd))
    decreases |walked|
  {
    if walked == [] then []
    else [Join(exportRoot, RelOf(walked[0], root, cwd))] + MirrorTargets(root, exportRoot, walked[1..], cwd)
  }

  /** The directories that exist after `os.makedirs(p, exist_ok=True)`:
      `p` without trailing separators, and each of its ancestors. */
  function EnsuredBy(p: string): set<string> {
    var q := RStripSlash(p);
    {q} + (set i | 0 < i < |q| && q[i] == '/' :: q[..i])
  }

  /** Everything a list of successful `makedirs` calls ensures. */
  function EnsuredByAll(ps: seq<string>): set<string>
    decreases |ps|
  {
    if ps == [] then {} else EnsuredBy(ps[0]) + EnsuredByAll(ps[1..])
  }

  /** Whether `os.makedirs(p, exist_ok=True)` raises: only for a directory that
      does not exist yet and whose creation fails. */
  predicate Raises(dirs: set<string>, p: string, failing: set<string>) {
    RStripSlash(p) !in dirs && RStripSlash(p) in failing
  }

  /** The loop of `mirror_dir_path_tree` on a set of existing directories: one
      `makedirs` per target, the first one that raises ending the loop. Gives the
      directories afterwards and whether the loop ran to the end. */
  function ApplyMirror(dirs: set<string>, targets: seq<string>, failing: set<string>): (set<string>, bool)
    decreases |targets|
  {
    if targets == [] then (dirs, true)
    else if Raises(dirs, targets[0], failing) then (dirs, false)
    else ApplyMirror(dirs + EnsuredBy(targets[0]), targets[1..], failing)
  }

  /** One step of the loop over the remaining targets. */
  lemma ApplyMirrorStep(dirs: set<string>, targets: seq<string>, i: nat, failing: set<string>)
    requires i < |targets|
    ensures ApplyMirror(dirs, targets[i..], failing) ==
            if Raises(dirs, targets[i], failing) then (dirs, false)
            else ApplyMirror(dirs + EnsuredBy(targets[i]), targets[i + 1..], failing)
  {
    assert targets[i..][0] == targets[i];
    assert targets[i..][1..] == targets[i + 1..];
  }

  /** The directories of the file system, and the ones whose creation raises. */
  class DirectoryTree {
    var dirs: set<string>
    const failing: set<string>

    constructor (existing: set<string>, failing: set<string>)
      ensures dirs == existing && this.failing == failing
    {
      dirs := existing;
      this.failing := failing;
    }

    /** `os.makedirs(p, exist_ok=True)`: an already existing directory is no
        error, whatever would make its creation fail. */
    method MakeDirs(p: string) returns (ok: bool)
      modifies this
      ensures ok == (RStripSlash(p) in old(dirs) || RStripSlash(p) !in failing)
      ensures dirs == if ok then old(dirs) + EnsuredBy(p) else old(dirs)
    {
      ok := !Raises(dirs, p, failing);
      if ok {
        dirs := dirs + EnsuredBy(p);
      }
    }

    /** `mirror_dir_path_tree(t.root, exportRoot)` in the working directory
        `cwd`. Returns false when a `makedirs` raised. */
    method MirrorDirTree(t: Tree, exportRoot: string, cwd: seq<string>) returns (completed: bool)
      modifies this
      ensures (dirs, completed) == ApplyMirror(old(dirs), MirrorTargets(t.root, exportRoot, WalkOf(t), cwd), failing)
    {
      var walked := WalkOf(t);
      var targets := MirrorTargets(t.root, exportRoot, walked, cwd);
      completed := true;
      var i := 0;
      while i < |walked|
        invariant 0 <= i <= |walked|
        invariant ApplyMirror(old(dirs), targets, failing) == ApplyMirror(dirs, targets[i..], failing)
      {
        var rel := RelPath(walked[i], t.root, cwd).value;
        if rel == "." {
          rel := "";
        }
        var target := Join(exportRoot, rel);
        assert target == targets[i];
        ApplyMirrorStep(dirs, targets, i, failing);
        ghost var before := dirs;
        var ok := MakeDirs(target);
        assert ok == !Raises(before, targets[i], failing);
        if !ok {
          completed := false;
          return;
        }
        i := i + 1;
      }
    }
  }

  // ----- What mirroring guarantees -----

  /** Mirroring only ever adds directories. */
  lemma {:induction false} MirrorOnlyAdds(dirs: set<string>, targets: seq<string>, failing: set<string>)
    ensures dirs <= ApplyMirror(dirs, targets, failing).0
    decreases |targets|
  {
    if targets != [] && !Raises(dirs, targets[0], failing) {
      MirrorOnlyAdds(dirs + EnsuredBy(targets[0]), targets[1..], failing);
    }
  }

  /** A run that completes creates exactly the targets and their ancestors. */
  lemma {:induction false} MirrorCompleted(dirs: set<string>, targets: seq<string>, failing: set<string>)
    requires ApplyMirror(dirs, targets, failing).1
    ensures ApplyMirror(dirs, targets, failing).0 == dirs + EnsuredByAll(targets)
    decreases |targets|
  {
    if targets != [] {
      MirrorCompleted(dirs + EnsuredBy(targets[0]), targets[1..], failing);
    }
  }

  /** A run that completes met a failing target only where that directory
      already existed when its turn came. */
  lemma {:induction false} MirrorCompletedAvoidsFailures(dirs: set<string>, targets: seq<string>, failing: set<string>)
    requires ApplyMirror(dirs, targets, failing).1
    ensures forall k :: 0 <= k < |targets| ==> !Raises(dirs + EnsuredByAll(targets[..k]), targets[k], failing)
    decreases |targets|
  {
    if targets != [] {
      var rest := targets[1..];
      var next := dirs + EnsuredBy(targets[0]);
      MirrorCompletedAvoidsFailures(next, rest, failing);
      assert targets[..0] == [];
      forall k | 1 <= k < |targets|
        ensures !Raises(dirs + EnsuredByAll(targets[..k]), targets[k], failing)
      {
        assert targets[k] == rest[k - 1];
        assert targets[..k][1..] == rest[..k - 1];
        assert dirs + EnsuredByAll(targets[..k]) == next + EnsuredByAll(rest[..k - 1]);
      }
    }
  }

  /** With every target already present, mirroring completes and changes
      nothing, whatever would make their creation fail. */
  lemma {:induction false} MirrorOverExisting(dirs: set<string>, targets: seq<string>, failing: set<string>)
    requires EnsuredByAll(targets) <= dirs
    ensures ApplyMirror(dirs, targets, failing) == (dirs, true)
    decreases |targets|
  {
    if targets != [] {
      assert RStripSlash(targets[0]) in EnsuredBy(targets[0]);
      assert dirs + EnsuredBy(targets[0]) == dirs;
      MirrorOverExisting(dirs, targets[1..], failing);
    }
  }

  /** Running the loop again from any state between the start and the end of
      a run, complete or not, ends as that run did. */
  lemma {:induction false} MirrorRerun(dirs: set<string>, mid: set<string>, targets: seq<string>, failing: set<string>)
    requires dirs <= mid <= ApplyMirror(dirs, targets, failing).0
    ensures ApplyMirror(mid, targets, failing) == ApplyMirror(dirs, targets, failing)
    decreases |targets|
  {
    if targets == [] {
      assert mid == dirs;
    } else if Raises(dirs, targets[0], failing) {
      assert mid == dirs;
    } else {
      var next, rest := dirs + EnsuredBy(targets[0]), targets[1..];
      assert !Raises(mid, targets[0], failing);
      assert ApplyMirror(dirs, targets, failing) == ApplyMirror(next, rest, failing);
      assert ApplyMirror(mid, targets, failing) == ApplyMirror(mid + EnsuredBy(targets[0]), rest, failing);
      MirrorOnlyAdds(next, rest, failing);
      MirrorRerun(next, mid + EnsuredBy(targets[0]), rest, failing);
    }
  }

  /** Mirroring is idempotent: running it again leaves the directories as
      they are and ends as the first run did, completed or stopped at the
      same failing target. */
  lemma MirrorIdempotent(dirs: set<string>, targets: seq<string>, failing: set<string>)
    ensures ApplyMirror(ApplyMirror(dirs, targets, failing).0, targets, failing) == ApplyMirror(dirs, targets, failing)
  {
    MirrorOnlyAdds(dirs, targets, failing);
    MirrorRerun(dirs, ApplyMirror(dirs, targets, failing).0, targets, failing);
  }

  /** The import root maps to the export root itself. */
  lemma RootMapsToExport(t: Tree, exportRoot: string, cwd: seq<string>)
    requires NormalRoot(exportRoot) && t.root != ""
    ensures MirrorTargets(t.root, exportRoot, WalkOf(t), cwd)[0] == exportRoot + "/"
    ensures RStripSlash(MirrorTargets(t.root, exportRoot, WalkOf(t), cwd)[0]) == exportRoot
  {
    RootRel(t.root, cwd);
    var q := exportRoot + "/";
    assert RStripSlash(q) == RStripSlash(q[..|q| - 1]);
    assert q[..|q| - 1] == exportRoot;
  }

  lemma MirrorTargetsMembership(root: string, exportRoot: string, walked: seq<string>, cwd: seq<string>, target: string)
    requires forall k :: 0 <= k < |walked| ==> walked[k] != ""
    ensures target in MirrorTargets(root, exportRoot, walked, cwd) <==>
            exists k :: 0 <= k < |walked| && target == Join(exportRoot, RelOf(walked[k], root, cwd))
  {
  }

  /** The relative path of a directory entry is its components joined by `/`. */
  lemma EntryRel(root: string, e: Entry, cwd: seq<string>)
    requires root != "" && WfEntry(e)
    ensures RelOf(WalkPath(root, e.dirs + [e.name]), root, cwd) == SlashJoin(e.dirs + [e.name])
  {
    var cs := e.dirs + [e.name];
    assert forall i :: 0 <= i < |cs| ==> ValidName(cs[i]);
    AbsPartsWalk(root, cs, cwd);
    RelPathBelow(WalkPath(root, cs), root, cwd, cs);
    SlashJoinNotDot(cs);
  }

  lemma {:induction false} WalkDirsMembership(root: string, es: seq<Entry>, w: string)
    requires root != ""
    ensures w in WalkDirs(root, es) <==>
            exists k :: 0 <= k < |es| && es[k].kind == Dir && w == WalkPath(root, es[k].dirs + [es[k].name])
    decreases |es|
  {
    if es != [] {
      var init, last := es[..|es| - 1], es[|es| - 1];
      var tail := if last.kind == Dir then [WalkPath(root, last.dirs + [last.name])] else [];
      assert WalkDirs(root, es) == WalkDirs(root, init) + tail;
      WalkDirsMembership(root, init, w);
      if w in WalkDirs(root, init) {
        var k :| 0 <= k < |init| && init[k].kind == Dir && w == WalkPath(root, init[k].dirs + [init[k].name]);
        assert es[k] == init[k];
      } else if w in tail {
        assert es[|es| - 1] == last;
      }
      if exists k :: 0 <= k < |es| && es[k].kind == Dir && w == WalkPath(root, es[k].dirs + [es[k].name]) {
        var k :| 0 <= k < |es| && es[k].kind == Dir && w == WalkPath(root, es[k].dirs + [es[k].name]);
        if k < |init| {
          assert init[k] == es[k];
        } else {
          assert w in tail;
        }
      }
    }
  }

  /** A path is visited exactly when it is the root or names a directory entry;
      nothing is visited for the empty root. */
  lemma WalkMembership(t: Tree, w: string)
    ensures w in WalkOf(t) <==>
            t.root != "" &&
            (w == t.root ||
             exists k :: 0 <= k < |t.entries| && t.entries[k].kind == Dir &&
               w == WalkPath(t.root, t.entries[k].dirs + [t.entries[k].name]))
  {
    if t.root != "" {
      WalkDirsMembership(t.root, t.entries, w);
    }
  }

  /** Each directory `d1/.../dk` below the root maps to `join(export, "d1/.../dk")`,
      the root to `join(export, "")`, and nothing else is a target; other
      kinds of entry (files, links to directories) get no counterpart. */
  lemma DirectoryTargets(t: Tree, exportRoot: string, cwd: seq<string>, target: string)
    requires WfTree(t)
    ensures target in MirrorTargets(t.root, exportRoot, WalkOf(t), cwd) <==>
            t.root != "" &&
            (target == Join(exportRoot, "") ||
             exists k :: 0 <= k < |t.entries| && t.entries[k].kind == Dir &&
               target == Join(exportRoot, SlashJoin(t.entries[k].dirs + [t.entries[k].name])))
  {
    var walked := WalkOf(t);
    if target in MirrorTargets(t.root, exportRoot, walked, cwd) {
      MirrorTargetsMembership(t.root, exportRoot, walked, cwd, target);
      var j :| 0 <= j < |walked| && target == Join(exportRoot, RelOf(walked[j], t.root, cwd));
      WalkedTarget(t, exportRoot, cwd, walked[j]);
    }
    if t.root != "" {
      if target == Join(exportRoot, "") {
        RootRel(t.root, cwd);
        assert walked[0] == t.root;
      }
      if exists k :: 0 <= k < |t.entries| && t.entries[k].kind == Dir &&
          target == Join(exportRoot, SlashJoin(t.entries[k].dirs + [t.entries[k].name])) {
        var k :| 0 <= k < |t.entries| && t.entries[k].kind == Dir &&
          target == Join(exportRoot, SlashJoin(t.entries[k].dirs + [t.entries[k].name]));
        var w := WalkPath(t.root, t.entries[k].dirs + [t.entries[k].name]);
        WalkMembership(t, w);
        assert WfEntry(t.entries[k]);
        EntryRel(t.root, t.entries[k], cwd);
        var j :| 0 <= j < |walked| && walked[j] == w;
      }
    }
  }

  /** The root is `.` relative to itself. */
  lemma RootRel(root: string, cwd: seq<string>)
    requires root != ""
    ensures RelOf(root, root, cwd) == ""
  {
    RelPathBelow(root, root, cwd, []);
    assert AbsParts(root, cwd) + [] == AbsParts(root, cwd);
  }

  /** What a visited directory maps to. */
  lemma WalkedTarget(t: Tree, exportRoot: string, cwd: seq<string>, w: string)
    requires WfTree(t) && w in WalkOf(t)
    ensures t.root != ""
    ensures Join(exportRoot, RelOf(w, t.root, cwd)) == Join(exportRoot, "") ||
            exists k :: 0 <= k < |t.entries| && t.entries[k].kind == Dir &&
              Join(exportRoot, RelOf(w, t.root, cwd)) == Join(exportRoot, SlashJoin(t.entries[k].dirs + [t.entries[k].name]))
  {
    WalkMembership(t, w);
    if w == t.root {
      RootRel(t.root, cwd);
    } else {
      var k :| 0 <= k < |t.entries| && t.entries[k].kind == Dir &&
        w == WalkPath(t.root, t.entries[k].dirs + [t.entries[k].name]);
      assert WfEntry(t.entries[k]);
      EntryRel(t.root, t.entries[k], cwd);
    }
  }
}
