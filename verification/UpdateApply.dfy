/** Replacing the runtime files of the plugin, and putting them back when that fails. */
module UpdateApply {
  import opened Prelude
  import opened ZipFormat

  /** What a path of the plugin directory holds: of a file, its contents and permission bits. */
  datatype Node = File(contents: Bytes, mode: nat) | NotAFile

  type Tree = map<string, Node>

  /** How an update ends: done, or thrown with nothing left changed or with the files it could not put back. */
  datatype Ending = Applied | Refused | RolledBack | Incomplete(rollbackErrors: seq<string>)

  datatype Target = Target(path: string, mode: nat)

  function Named(paths: seq<string>): set<string> {
    set path | path in paths
  }

  /** The files an ending leaves new. */
  function NewFiles(ending: Ending): set<string> {
    match ending
    case Applied => Named(FILES)
    case Incomplete(rollbackErrors) => Named(rollbackErrors)
    case _ => {}
  }

  /** The file a target is to hold. */
  function Updated(files: map<string, Bytes>, t: Target): Node
    requires t.path in files
  {
    File(files[t.path], t.mode)
  }

  predicate Distinct(targets: seq<Target>) {
    forall i, j | 0 <= i < j < |targets| :: targets[i].path != targets[j].path
  }

  function Paths(targets: seq<Target>): seq<string> {
    seq(|targets|, i requires 0 <= i < |targets| => targets[i].path)
  }

  /** The tree with the files at the given paths updated and everything else as it was. */
  predicate Holds(tree: Tree, was: Tree, files: map<string, Bytes>, targets: seq<Target>, updated: set<string>)
    requires forall t | t in targets :: t.path in files
  {
    && tree.Keys == was.Keys
    && (forall path | path in was.Keys && path !in Paths(targets) :: tree[path] == was[path])
    && (forall t | t in targets ::
          t.path in was && tree[t.path] == if t.path in updated then Updated(files, t) else was[t.path])
  }

  class Plugin {
    var tree: Tree
    /** What the operating system does to the next steps; it lets everything beyond the list happen. */
    var faults: seq<bool>
    /** Whether every directory on the way is a real one. */
    var parentsAreDirectories: bool
    var backup: map<string, Bytes>

    constructor (tree: Tree, faults: seq<bool>, parentsAreDirectories: bool)
      ensures this.tree == tree && this.faults == faults && this.parentsAreDirectories == parentsAreDirectories
    {
      this.tree := tree;
      this.faults := faults;
      this.parentsAreDirectories := parentsAreDirectories;
      backup := map[];
    }

    /** One step of the file system, or its failure. */
    method Step() returns (ok: bool)
      modifies this`faults
      ensures old(faults) == [] ==> ok && faults == []
      ensures old(faults) != [] ==> ok == old(faults)[0] && faults == old(faults)[1..]
    {
      if faults == [] {
        return true;
      }
      ok := faults[0];
      faults := faults[1..];
    }

    /** Writes and adjusts a temporary file and renames it over the destination: all or nothing. */
    method ReplaceFile(t: Target, contents: Bytes) returns (ok: bool)
      modifies this`tree, this`faults
      ensures tree == if ok then old(tree)[t.path := File(contents, t.mode)] else old(tree)
      ensures old(faults) == [] ==> ok && faults == []
    {
      ok := Step();  // write
      if ok {
        ok := Step();  // change mode
      }
      if ok {
        ok := Step();  // rename
      }
      if ok {
        tree := tree[t.path := File(contents, t.mode)];
      }
    }

    /** Looks at every file to be replaced before anything is written. */
    method FindTargets() returns (targets: Option<seq<Target>>)
      modifies this`faults
      ensures targets.Some? ==>
                && Paths(targets.value) == FILES && Distinct(targets.value)
                && forall t | t in targets.value :: t.path in tree && tree[t.path].File? && tree[t.path].mode == t.mode
      ensures old(faults) == [] ==> faults == []
      ensures old(faults) == [] && targets.None? ==>
                !parentsAreDirectories || exists f | f in FILES :: f !in tree || !tree[f].File?
    {
      var found: seq<Target> := [];
      var i := 0;
      while i < |FILES|
        invariant 0 <= i <= |FILES| && |found| == i && (old(faults) == [] ==> faults == [])
        invariant forall k | 0 <= k < i :: found[k].path == FILES[k]
        invariant forall t | t in found :: t.path in tree && tree[t.path].File? && tree[t.path].mode == t.mode
      {
        var ok := Step();
        if !ok || !parentsAreDirectories || FILES[i] !in tree || !tree[FILES[i]].File? {
          assert ok && parentsAreDirectories ==> FILES[i] in FILES;
          return None;
        }
        found := found + [Target(FILES[i], tree[FILES[i]].mode)];
        i := i + 1;
      }
      assert Paths(found) == FILES;
      FilesAreDistinct();
      return Some(found);
    }

    /** Copies every target aside; a failure leaves no backup. */
    method BackUp(targets: seq<Target>) returns (ok: bool)
      requires forall t | t in targets :: t.path in tree && tree[t.path].File?
      modifies this`faults, this`backup
      ensures ok ==> forall t | t in targets :: t.path in backup && backup[t.path] == tree[t.path].contents
      ensures old(faults) == [] ==> ok && faults == []
    {
      backup := map[];
      var i := 0;
      while i < |targets|
        invariant 0 <= i <= |targets| && (old(faults) == [] ==> faults == [])
        invariant forall t | t in targets[..i] :: t.path in backup && backup[t.path] == tree[t.path].contents
      {
        ok := Step();
        if !ok {
          backup := map[];
          return;
        }
        backup := backup[targets[i].path := tree[targets[i].path].contents];
        assert targets[..i + 1] == targets[..i] + [targets[i]];
        i := i + 1;
      }
      assert targets[..i] == targets;
      ok := Step();  // manifest
      if !ok {
        backup := map[];
      }
    }

    /** Replaces target after target until one fails; says how many were replaced. */
    method ReplaceTargets(targets: seq<Target>, files: map<string, Bytes>) returns (replaced: nat)
      requires Distinct(targets) && forall t | t in targets :: t.path in files && t.path in tree
      modifies this`tree, this`faults
      ensures replaced <= |targets| && Holds(tree, old(tree), files, targets, PathSet(targets[..replaced]))
      ensures old(faults) == [] ==> replaced == |targets|
    {
      replaced := 0;
      while replaced < |targets|
        invariant 0 <= replaced <= |targets| && (old(faults) == [] ==> faults == [])
        invariant Holds(tree, old(tree), files, targets, PathSet(targets[..replaced]))
      {
        var t := targets[replaced];
        ghost var before := tree;
        var ok := ReplaceFile(t, files[t.path]);
        if !ok {
          return;
        }
        HoldsMore(before, old(tree), files, targets, PathSet(targets[..replaced]), t);
        PathsGrow(targets, replaced);
        replaced := replaced + 1;
      }
    }

    /** Puts one target back, or leaves it replaced. */
    method Restore(targets: seq<Target>, files: map<string, Bytes>, k: nat, ghost was: Tree, ghost failed: set<string>)
      returns (ok: bool)
      requires Distinct(targets) && k < |targets| && (forall t | t in targets :: t.path in files)
      requires Holds(tree, was, files, targets, PathSet(targets[..k + 1]) + failed) && targets[k].path !in failed
      requires targets[k].path in backup && was[targets[k].path] == File(backup[targets[k].path], targets[k].mode)
      modifies this`tree, this`faults
      ensures Holds(tree, was, files, targets,
                    PathSet(targets[..k]) + if ok then failed else failed + {targets[k].path})
    {
      var t := targets[k];
      PathsGrow(targets, k);
      assert PathSet(targets[..k + 1]) + failed == PathSet(targets[..k]) + failed + {t.path};
      assert PathSet(targets[..k + 1]) + failed == PathSet(targets[..k]) + (failed + {t.path});
      ghost var before := tree;
      ok := Step();  // read the backup
      if ok {
        ok := ReplaceFile(t, backup[t.path]);
      }
      if ok {
        HoldsLess(before, was, files, targets, PathSet(targets[..k]) + failed, t);
      }
    }

    /** Puts the replaced targets back, last one first, and names those it could not put back. */
    method RollBack(targets: seq<Target>, files: map<string, Bytes>, replaced: nat, ghost was: Tree)
      returns (rollbackErrors: seq<string>)
      requires Distinct(targets) && replaced <= |targets| && forall t | t in targets :: t.path in files
      requires Holds(tree, was, files, targets, PathSet(targets[..replaced]))
      requires forall t | t in targets :: t.path in backup && was[t.path] == File(backup[t.path], t.mode)
      modifies this`tree, this`faults
      ensures Holds(tree, was, files, targets, Named(rollbackErrors))
      ensures Named(rollbackErrors) <= PathSet(targets[..replaced])
    {
      rollbackErrors := [];
      var k := replaced;
      while k > 0
        invariant 0 <= k <= replaced
        invariant Holds(tree, was, files, targets, PathSet(targets[..k]) + Named(rollbackErrors))
        invariant Named(rollbackErrors) <= PathSet(targets[k..replaced])
      {
        k := k - 1;
        LaterPaths(targets, k, replaced);
        var ok := Restore(targets, files, k, was, Named(rollbackErrors));
        if !ok {
          NamedGrows(rollbackErrors, targets[k].path);
          rollbackErrors := rollbackErrors + [targets[k].path];
        }
      }
      assert targets[..0] == [] && targets[0..replaced] == targets[..replaced];
      assert PathSet(targets[..k]) + Named(rollbackErrors) == Named(rollbackErrors);
    }

    /** Replaces the targets behind a backup, and puts them back when that fails. */
    method Install(targets: seq<Target>, files: map<string, Bytes>) returns (ending: Ending)
      requires Distinct(targets) && Paths(targets) == FILES
      requires forall t | t in targets :: t.path in files && t.path in tree && t.path in backup
      requires forall t | t in targets :: tree[t.path] == File(backup[t.path], t.mode)
      modifies this`tree, this`faults
      ensures !ending.Refused? && Holds(tree, old(tree), files, targets, NewFiles(ending))
      ensures ending.Incomplete? ==> ending.rollbackErrors != [] && Named(ending.rollbackErrors) < Named(FILES)
      ensures old(faults) == [] ==> ending.Applied?
    {
      HoldsNone(tree, files, targets);
      PathsAreFiles(targets);
      var replaced := ReplaceTargets(targets, files);
      if replaced == |targets| {
        assert targets[..replaced] == targets;
        return Applied;
      }
      var rollbackErrors := RollBack(targets, files, replaced, old(tree));
      if rollbackErrors == [] {
        return RolledBack;
      }
      SomeNotReplaced(targets, replaced);
      return Incomplete(rollbackErrors);
    }

    /**
     Whatever fails: either every target holds its new contents under its old permissions, or the update throws and the
     targets that are new are exactly the ones it names as not put back; nothing else in the tree ever changes.
     */
    method ApplyUpdate(files: Option<map<string, Bytes>>, manifestsMatch: bool) returns (ending: Ending)
      requires files.Some? ==> forall f | f in FILES :: f in files.value
      modifies this
      ensures forall path | path in old(tree) && path !in FILES :: path in tree && tree[path] == old(tree)[path]
      ensures ending.Refused? || ending.RolledBack? ==> tree == old(tree)
      ensures !ending.Refused? ==> files.Some? && forall f | f in FILES :: f in tree && f in old(tree) && old(tree)[f].File?
      ensures ending.Applied? ==> forall f | f in FILES :: tree[f] == File(files.value[f], old(tree)[f].mode)
      ensures ending.Incomplete? ==>
                && ending.rollbackErrors != [] && Named(ending.rollbackErrors) < Named(FILES)
                && forall f | f in FILES ::
                     tree[f] == if f in ending.rollbackErrors then File(files.value[f], old(tree)[f].mode) else old(tree)[f]
      ensures && old(faults) == [] && files.Some? && manifestsMatch && old(parentsAreDirectories)
              && (forall f | f in FILES :: f in old(tree) && old(tree)[f].File?)
              ==> ending.Applied?
    {
      if files.None? || !manifestsMatch {
        return Refused;
      }
      var found := FindTargets();
      if found.None? {
        return Refused;
      }
      var targets := found.value;
      PathsAreFiles(targets);
      var backedUp := BackUp(targets);
      if !backedUp {
        return Refused;
      }
      ending := Install(targets, files.value);
      HoldsSome(tree, old(tree), files.value, targets, NewFiles(ending));
    }
  }

  lemma NamedGrows(paths: seq<string>, path: string)
    ensures Named(paths + [path]) == Named(paths) + {path}
  {
  }

  /** The targets are the fixed files. */
  lemma PathsAreFiles(targets: seq<Target>)
    requires Paths(targets) == FILES
    ensures forall t | t in targets :: t.path in FILES
    ensures forall f | f in FILES :: exists t | t in targets :: t.path == f
    ensures PathSet(targets) == Named(FILES)
  {
    forall t | t in targets ensures t.path in FILES {
      var i :| 0 <= i < |targets| && targets[i] == t;
      assert Paths(targets)[i] == t.path;
    }
    forall f | f in FILES ensures exists t | t in targets :: t.path == f {
      var i :| 0 <= i < |FILES| && FILES[i] == f;
      assert targets[i].path == f && targets[i] in targets;
    }
  }

  lemma HoldsNone(tree: Tree, files: map<string, Bytes>, targets: seq<Target>)
    requires forall t | t in targets :: t.path in files && t.path in tree
    ensures Holds(tree, tree, files, targets, PathSet(targets[..0]))
  {
  }

  lemma HoldsSome(tree: Tree, was: Tree, files: map<string, Bytes>, targets: seq<Target>, updated: set<string>)
    requires Paths(targets) == FILES && forall t | t in targets :: t.path in files && t.path in was && was[t.path].File?
    requires Holds(tree, was, files, targets, updated)
    requires forall t | t in targets :: was[t.path].mode == t.mode
    ensures forall f | f in FILES :: f in tree && f in files && f in was
              && tree[f] == if f in updated then File(files[f], was[f].mode) else was[f]
    ensures forall path | path in was && path !in FILES :: path in tree && tree[path] == was[path]
    ensures updated == {} ==> tree == was
  {
    PathsAreFiles(targets);
    if updated == {} {
      forall path | path in was ensures tree[path] == was[path] {
        if path in FILES {
        }
      }
    }
  }

  lemma SomeNotReplaced(targets: seq<Target>, replaced: nat)
    requires Distinct(targets) && replaced < |targets| && Paths(targets) == FILES
    ensures PathSet(targets[..replaced]) < Named(FILES)
  {
    PathsAreFiles(targets);
    PathsGrow(targets, replaced);
    assert targets[replaced] in targets;
  }

  function PathSet(targets: seq<Target>): set<string> {
    set t | t in targets :: t.path
  }

  lemma PathsGrow(targets: seq<Target>, n: nat)
    requires n < |targets| && Distinct(targets)
    ensures PathSet(targets[..n + 1]) == PathSet(targets[..n]) + {targets[n].path}
    ensures targets[n].path !in PathSet(targets[..n])
  {
    assert targets[..n + 1] == targets[..n] + [targets[n]];
  }

  lemma LaterPaths(targets: seq<Target>, k: nat, n: nat)
    requires k < n <= |targets| && Distinct(targets)
    ensures PathSet(targets[k..n]) == {targets[k].path} + PathSet(targets[k + 1..n])
    ensures targets[k].path !in PathSet(targets[k + 1..n])
  {
    assert targets[k..n] == [targets[k]] + targets[k + 1..n];
  }

  lemma HoldsMore(tree: Tree, was: Tree, files: map<string, Bytes>, targets: seq<Target>, updated: set<string>, t: Target)
    requires (forall u | u in targets :: u.path in files) && t in targets && Distinct(targets)
    requires Holds(tree, was, files, targets, updated)
    ensures Holds(tree[t.path := Updated(files, t)], was, files, targets, updated + {t.path})
  {
    SamePathSameTarget(targets);
    assert t.path in Paths(targets) by {
      var i :| 0 <= i < |targets| && targets[i] == t;
      assert Paths(targets)[i] == t.path;
    }
  }

  lemma HoldsLess(tree: Tree, was: Tree, files: map<string, Bytes>, targets: seq<Target>, updated: set<string>, t: Target)
    requires (forall u | u in targets :: u.path in files) && t in targets && Distinct(targets)
    requires Holds(tree, was, files, targets, updated + {t.path}) && t.path !in updated
    ensures t.path in was && Holds(tree[t.path := was[t.path]], was, files, targets, updated)
  {
    SamePathSameTarget(targets);
    assert t.path in Paths(targets) by {
      var i :| 0 <= i < |targets| && targets[i] == t;
      assert Paths(targets)[i] == t.path;
    }
  }

  lemma SamePathSameTarget(targets: seq<Target>)
    requires Distinct(targets)
    ensures forall t, u | t in targets && u in targets && t.path == u.path :: t == u
  {
  }
}
