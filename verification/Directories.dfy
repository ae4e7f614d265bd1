/**
 Directory ownership (src/beetroot/api.py, src/beetroot/snapshot.py): create,
 register, restore, destroy and reset over a registry and a file tree. Paths are
 canonical segment sequences. Runs are sequential: the overlap check is not
 under the registry lock. `if *` marks a later stage that fails.
 */
module Directories {
  import opened Prelude
  import Ports
  import Registry

  type Path = seq<string>

  datatype Node = Dir | File(content: string)

  type Tree = map<Path, Node>

  datatype Row = DirRow(vm: bool, path: Path) | AdbRow

  type Rows = map<string, Row>

  // ---- Paths and trees -----------------------------------------------------------

  /** One path is the other, or contains it. */
  predicate Overlap(a: Path, b: Path) { a <= b || b <= a }

  predicate Antichain(rows: Rows) {
    forall m, n | m in rows && n in rows && m != n && rows[m].DirRow? && rows[n].DirRow? ::
      !Overlap(rows[m].path, rows[n].path)
  }

  /** The guard of create, register and restore. */
  predicate Blocked(rows: Rows, target: Path) {
    exists n | n in rows :: rows[n].DirRow? && Overlap(rows[n].path, target)
  }

  /** Everything sits in a directory. */
  predicate Grounded(fs: Tree) {
    [] in fs && fs[[]].Dir? && forall q | q in fs && q != [] :: q[..|q| - 1] in fs && fs[q[..|q| - 1]].Dir?
  }

  function Subtree(fs: Tree, p: Path): Tree { map q | q in fs && p <= q :: fs[q] }

  function Rmtree(fs: Tree, p: Path): Tree { map q | q in fs && !(p <= q) :: fs[q] }

  function Ancestry(p: Path): set<Path> { set k | 0 <= k <= |p| :: p[..k] }

  /** mkdir with parents. */
  function WithDirs(fs: Tree, p: Path): Tree {
    map q | q in fs.Keys + Ancestry(p) :: if q in fs then fs[q] else Dir
  }

  predicate CanMkdir(fs: Tree, p: Path) { forall q | q in fs && q <= p :: fs[q].Dir? }

  predicate Occupied(fs: Tree, p: Path) { exists q | q in fs :: p < q }

  /** Outside `target` nothing is lost or altered, and nothing is new but directories leading to it. */
  ghost predicate Confined(a: Tree, b: Tree, target: Path) {
    && (forall q | q in a && !(target <= q) :: q in b && b[q] == a[q])
    && (forall q | q in b && q !in a && !(target <= q) :: q <= target && b[q].Dir?)
  }

  lemma PrefixesCompare(a: Path, b: Path, q: Path)
    requires a <= q && b <= q
    ensures Overlap(a, b)
  {
    assert a == q[..|a|] && b == q[..|b|];
    if |a| <= |b| { assert b[..|a|] == a; } else { assert a[..|b|] == b; }
  }

  lemma PrefixTrans(a: Path, b: Path, c: Path)
    requires a <= b && b <= c
    ensures a <= c
  {
    assert b == c[..|b|];
  }

  lemma ConfinedTrans(a: Tree, b: Tree, c: Tree, target: Path)
    requires Confined(a, b, target) && Confined(b, c, target)
    ensures Confined(a, c, target)
  {
  }

  /** Work confined to one directory leaves every non-overlapping directory exactly as it was. */
  lemma ConfinedSpares(a: Tree, b: Tree, target: Path, victim: Path)
    requires Confined(a, b, target) && !Overlap(target, victim)
    ensures Subtree(a, victim) == Subtree(b, victim)
  {
    forall q | victim <= q && (q in a || q in b) ensures q in a && q in b && a[q] == b[q] {
      if target <= q { PrefixesCompare(target, victim, q); }
      if q in b && q !in a && !(target <= q) { PrefixTrans(victim, q, target); }
    }
  }

  /** Removing a tree is harmless to another directory, whatever the files are, exactly when the two do not overlap. */
  lemma RmtreeSparesExactly(p: Path, victim: Path)
    ensures (forall fs: Tree :: Subtree(Rmtree(fs, p), victim) == Subtree(fs, victim)) <==> !Overlap(p, victim)
  {
    if Overlap(p, victim) {
      var lost := if p <= victim then victim else p;
      var fs: Tree := map[lost := Dir];
      assert lost in Subtree(fs, victim) && lost !in Subtree(Rmtree(fs, p), victim);
    } else {
      forall fs: Tree ensures Subtree(Rmtree(fs, p), victim) == Subtree(fs, victim) {
        ConfinedSpares(fs, Rmtree(fs, p), p, victim);
      }
    }
  }

  lemma AncestryMembers(p: Path, q: Path)
    ensures q in Ancestry(p) <==> q <= p
  {
    if q <= p { assert q == p[..|q|]; }
  }

  /** Making directories adds what is missing on the way and loses nothing. */
  lemma WithDirsExactly(fs: Tree, p: Path)
    ensures forall q :: q in WithDirs(fs, p) <==> q in fs || q <= p
    ensures forall q | q in WithDirs(fs, p) :: WithDirs(fs, p)[q] == if q in fs then fs[q] else Dir
  {
    forall q ensures q in Ancestry(p) <==> q <= p { AncestryMembers(p, q); }
  }

  lemma WithDirsGrounded(fs: Tree, p: Path)
    requires Grounded(fs) && CanMkdir(fs, p)
    ensures Grounded(WithDirs(fs, p)) && p in WithDirs(fs, p) && WithDirs(fs, p)[p].Dir?
    ensures Confined(fs, WithDirs(fs, p), p)
  {
    var made := WithDirs(fs, p);
    WithDirsExactly(fs, p);
    forall q | q in made && q != [] ensures q[..|q| - 1] in made && made[q[..|q| - 1]].Dir? {
      if q !in fs { assert q[..|q| - 1] <= p; }
    }
  }

  lemma RmtreeGrounded(fs: Tree, p: Path)
    requires Grounded(fs) && p != []
    ensures Grounded(Rmtree(fs, p)) && Confined(fs, Rmtree(fs, p), p)
  {
    forall q | q in fs && q != [] && p <= q[..|q| - 1] ensures p <= q { PrefixTrans(p, q[..|q| - 1], q); }
  }

  lemma FileBlocksMkdir(fs: Tree, p: Path)
    requires p in fs && fs[p].File?
    ensures !CanMkdir(fs, p)
  {
  }

  /** Nothing lives below a path that does not exist. */
  lemma {:induction false} NothingBelow(fs: Tree, p: Path, q: Path)
    requires Grounded(fs) && p !in fs && p <= q
    ensures q !in fs
    decreases |q|
  {
    if q == p || q !in fs {
    } else {
      assert p <= q[..|q| - 1];
      NothingBelow(fs, p, q[..|q| - 1]);
    }
  }

  /** Undoing a create that made its directory leaves the tree with at most new ancestors of it. */
  lemma UndoCreate(before: Tree, after: Tree, target: Path)
    requires Grounded(before) && target !in before && Confined(WithDirs(before, target), after, target)
    ensures Rmtree(after, target) == Rmtree(WithDirs(before, target), target)
    ensures forall q | q in before :: q in Rmtree(after, target) && Rmtree(after, target)[q] == before[q]
  {
    var made := WithDirs(before, target);
    forall q ensures q in Ancestry(target) <==> q <= target { AncestryMembers(target, q); }
    forall q | q in before ensures !(target <= q) { if target <= q { NothingBelow(before, target, q); } }
  }

  lemma ConfinedRefl(fs: Tree, target: Path)
    ensures Confined(fs, fs, target)
  {
  }

  lemma LeafNotMade(fs: Tree, target: Path, leaf: string)
    requires target + [leaf] !in fs
    ensures target + [leaf] !in WithDirs(fs, target)
  {
    AncestryMembers(target, target + [leaf]);
  }

  lemma StillMkdir(fs: Tree, p: Path)
    requires CanMkdir(fs, p)
    ensures CanMkdir(Rmtree(fs, p), p)
  {
  }

  lemma OccupiedExists(fs: Tree, p: Path)
    requires Grounded(fs)
    ensures Occupied(fs, p) ==> p in fs
    ensures p !in Rmtree(fs, p)
  {
    if q :| q in fs && p < q && p !in fs { NothingBelow(fs, p, q); }
  }

  /** A directory made where nothing was is empty. */
  lemma OnlyTop(fs: Tree, p: Path)
    requires Grounded(fs) && p !in fs
    ensures Subtree(WithDirs(fs, p), p) == map[p := Dir]
  {
    forall q ensures q in Ancestry(p) <==> q <= p { AncestryMembers(p, q); }
    forall q | q in fs ensures !(p <= q) { if p <= q { NothingBelow(fs, p, q); } }
    var made := WithDirs(fs, p);
    assert p in made && made[p].Dir?;
    forall q | q in made && p <= q ensures q == p {}
  }

  lemma AddKeepsAntichain(rows: Rows, name: string, vm: bool, target: Path)
    requires Antichain(rows) && !Blocked(rows, target)
    ensures Antichain(rows[name := DirRow(vm, target)])
  {
    var more := rows[name := DirRow(vm, target)];
    forall m, n | m in more && n in more && m != n && more[m].DirRow? && more[n].DirRow?
      ensures !Overlap(more[m].path, more[n].path)
    {
      if m == name || n == name { assert m in rows || n in rows; }
    }
  }

  // ---- The operations -----------------------------------------------------------------

  datatype Refusal =
    | NameTaken | UnknownName | YamlExists | NoYaml | BadYaml | BadManifest | NotADirectory | Overlaps | NeedsForce
    | AllocationFailed | StopFailed | RolledBack

  /** Whether the registry file cannot be written, and whether a stage after the row was committed fails. */
  datatype Env = Env(registryFails: bool, laterFails: bool)

  /** Every index is taken: one for each row. */
  predicate Full(rows: Rows) { |rows| > Ports.MAX_PORT_INDEX }

  /** That is when the registry refuses a fresh name. */
  lemma FullIsRefused(rows: Rows, registered: Registry.Rows, name: string, backend: Registry.Backend, now: int)
    requires Registry.Inv(registered) && registered.Keys == rows.Keys && name !in rows
    ensures Registry.Added(registered, name, backend, now).Err? <==> Full(rows)
  {
    assert |registered| == |registered.Keys| == |rows|;
    Registry.FullExactly(registered, name, backend, now);
  }

  class Host {
    var rows: Rows
    var fs: Tree

    ghost predicate Valid()
      reads this
    {
      Antichain(rows) && Grounded(fs) && forall n | n in rows && rows[n].DirRow? :: rows[n].path != []
    }

    constructor (fs: Tree)
      requires Grounded(fs)
      ensures Valid() && rows == map[] && this.fs == fs
    {
      rows := map[];
      this.fs := fs;
    }

    /** Staging, or extracting an archive with the data filter: any change below `target`. */
    method WriteBelow(target: Path)
      requires Grounded(fs) && target in fs
      modifies this`fs
      ensures Grounded(fs) && Confined(old(fs), fs, target) && target in fs
    {
      var next: Tree := *;
      if Grounded(next) && target in next
         && (forall q | q in fs && !(target <= q) :: q in next && next[q] == fs[q])
         && (forall q | q in next && !(target <= q) :: q in fs)
      {
        fs := next;
      }
    }

    method MakeDir(target: Path)
      requires Grounded(fs) && CanMkdir(fs, target)
      modifies this`fs
      ensures fs == WithDirs(old(fs), target)
      ensures Grounded(fs) && target in fs && fs[target].Dir? && Confined(old(fs), fs, target)
    {
      WithDirsGrounded(fs, target);
      fs := WithDirs(fs, target);
    }

    method WriteFile(dir: Path, leaf: string, content: string)
      requires Grounded(fs) && dir in fs && fs[dir].Dir? && dir + [leaf] !in fs
      modifies this`fs
      ensures fs == old(fs)[dir + [leaf] := File(content)] && Grounded(fs) && Confined(old(fs), fs, dir)
    {
      var path := dir + [leaf];
      assert path[..|path| - 1] == dir;
      fs := fs[path := File(content)];
    }

    method RemoveTree(target: Path)
      requires Grounded(fs) && target != []
      modifies this`fs
      ensures fs == Rmtree(old(fs), target)
      ensures Grounded(fs) && target !in fs && Confined(old(fs), fs, target)
    {
      RmtreeGrounded(fs, target);
      if target in fs {
        fs := Rmtree(fs, target);
      } else {
        forall q | q in fs ensures !(target <= q) { if target <= q { NothingBelow(fs, target, q); } }
        assert fs == Rmtree(fs, target);
      }
    }

    /** The tail shared by create, register and restore: stage, or roll the row and an own directory back.
        `before` is the tree when the target directory was last as the user left it. */
    method CommitOrRollBack(name: string, target: Path, createdDir: bool, env: Env, ghost before: Tree)
        returns (ok: bool)
      requires Grounded(fs) && target in fs && target != [] && Grounded(before) && Confined(before, fs, target)
      requires createdDir ==> target !in before && Confined(WithDirs(before, target), fs, target)
      modifies this
      ensures Grounded(fs) && Confined(before, fs, target)
      ensures ok <==> !env.laterFails
      ensures rows == if ok then old(rows) else old(rows) - {name}
      ensures !ok && createdDir ==> fs == Rmtree(WithDirs(before, target), target) && target !in fs
      ensures !(!ok && createdDir) ==> target in fs
    {
      hide Grounded, WithDirs, Confined;
      ghost var made := fs;
      WriteBelow(target);
      ConfinedTrans(before, made, fs, target);
      if !env.laterFails { return true; }
      rows := rows - {name};
      if createdDir {
        ConfinedTrans(WithDirs(before, target), made, fs, target);
        UndoCreate(before, fs, target);
        ghost var staged := fs;
        RemoveTree(target);
        ConfinedTrans(before, staged, fs, target);
      }
      return false;
    }

    /** The target directory, with a fresh `beetroot.yaml` in it. */
    method Scaffold(target: Path, yaml: string)
      requires Grounded(fs) && CanMkdir(fs, target) && target + ["beetroot.yaml"] !in fs
      modifies this`fs
      ensures fs == WithDirs(old(fs), target)[target + ["beetroot.yaml"] := File(yaml)]
      ensures Grounded(fs) && target in fs && Confined(old(fs), fs, target)
          && Confined(WithDirs(old(fs), target), fs, target)
    {
      hide Grounded, WithDirs, Confined, CanMkdir;
      ghost var before := fs;
      MakeDir(target);
      ghost var made := fs;
      LeafNotMade(before, target, "beetroot.yaml");
      WriteFile(target, "beetroot.yaml", yaml);
      ConfinedTrans(before, made, fs, target);
    }

    /** The row goes in, then the shared tail; a name already taken is refused before this. */
    method AddThenStage(name: string, target: Path, vm: bool, createdDir: bool, env: Env, ghost before: Tree)
        returns (ok: bool)
      requires Valid() && !Blocked(rows, target) && name !in rows
      requires target in fs && target != [] && Grounded(before) && Confined(before, fs, target)
      requires createdDir ==> target !in before && Confined(WithDirs(before, target), fs, target)
      modifies this
      ensures Valid() && Confined(before, fs, target)
      ensures ok <==> !env.laterFails
      ensures rows == if ok then old(rows)[name := DirRow(vm, target)] else old(rows)
      ensures !ok && createdDir ==> fs == Rmtree(WithDirs(before, target), target) && target !in fs
      ensures !(!ok && createdDir) ==> target in fs
    {
      hide Grounded, WithDirs, Confined, Rmtree, Antichain, Blocked, Overlap;
      ghost var oldRows := rows;
      AddKeepsAntichain(rows, name, vm, target);
      rows := rows[name := DirRow(vm, target)];
      ok := CommitOrRollBack(name, target, createdDir, env, before);
      assert oldRows[name := DirRow(vm, target)] - {name} == oldRows;
    }

    method Create(name: string, target: Path, vm: bool, yaml: string, env: Env) returns (r: Result<(), Refusal>)
      requires Valid() && target != []
      modifies this
      ensures Valid() && Confined(old(fs), fs, target)
      ensures r == if name in old(rows) then Err(NameTaken)
                   else if target + ["beetroot.yaml"] in old(fs) then Err(YamlExists)
                   else if exists n :: && n in old(rows) && old(rows)[n].DirRow?
                                       && (old(rows)[n].path <= target || target <= old(rows)[n].path)
                   then Err(Overlaps)
                   else if exists q :: q in old(fs) && q <= target && old(fs)[q].File? then Err(NotADirectory)
                   else if |old(rows)| > 1295 || env.registryFails then Err(AllocationFailed)
                   else if env.laterFails then Err(RolledBack)
                   else Ok(())
      ensures rows == if r.Ok? then old(rows)[name := DirRow(vm, target)] else old(rows)
      ensures fs != old(fs) ==> !Blocked(old(rows), target)
      ensures r.Err? && !r.error.RolledBack? && !r.error.AllocationFailed? ==> fs == old(fs)
      ensures r == Err(AllocationFailed) ==> fs == WithDirs(old(fs), target)[target + ["beetroot.yaml"] := File(yaml)]
      ensures r == Err(RolledBack) ==>
          if target in old(fs) then target in fs else fs == Rmtree(WithDirs(old(fs), target), target)
    {
      hide Grounded, WithDirs, Confined, Rmtree, Antichain;
      ConfinedRefl(fs, target);
      if name in rows { return Err(NameTaken); }
      if target + ["beetroot.yaml"] in fs { return Err(YamlExists); }
      if Blocked(rows, target) { return Err(Overlaps); }
      if !CanMkdir(fs, target) { return Err(NotADirectory); }
      ghost var before := fs;
      var createdDir := target !in fs;
      Scaffold(target, yaml);
      if Full(rows) || env.registryFails { return Err(AllocationFailed); }
      var ok := AddThenStage(name, target, vm, createdDir, env, before);
      return if ok then Ok(()) else Err(RolledBack);
    }

    /** `loads`: the YAML found there is one the loader accepts. */
    method Register(name: string, target: Path, vm: bool, loads: bool, env: Env) returns (r: Result<(), Refusal>)
      requires Valid() && target != []
      modifies this
      ensures Valid() && Confined(old(fs), fs, target)
      ensures r == if target + ["beetroot.yaml"] !in old(fs) || old(fs)[target + ["beetroot.yaml"]].Dir?
                   then Err(NoYaml)
                   else if name in old(rows) then Err(NameTaken)
                   else if exists n :: && n in old(rows) && old(rows)[n].DirRow?
                                       && (old(rows)[n].path <= target || target <= old(rows)[n].path)
                   then Err(Overlaps)
                   else if !loads then Err(BadYaml)
                   else if |old(rows)| > 1295 || env.registryFails then Err(AllocationFailed)
                   else if env.laterFails then Err(RolledBack)
                   else Ok(())
      ensures rows == if r.Ok? then old(rows)[name := DirRow(vm, target)] else old(rows)
      ensures fs != old(fs) ==> !Blocked(old(rows), target)
      ensures r.Err? && !r.error.RolledBack? ==> fs == old(fs)
      ensures target in old(fs) ==> target in fs
    {
      hide Antichain, Rmtree, WithDirs;
      ConfinedRefl(fs, target);
      var yamlPath := target + ["beetroot.yaml"];
      if yamlPath !in fs || !fs[yamlPath].File? { return Err(NoYaml); }
      if name in rows { return Err(NameTaken); }
      if Blocked(rows, target) { return Err(Overlaps); }
      if !loads { return Err(BadYaml); }
      if Full(rows) || env.registryFails { return Err(AllocationFailed); }
      assert yamlPath[..|yamlPath| - 1] == target;
      var ok := AddThenStage(name, target, vm, false, env, fs);
      return if ok then Ok(()) else Err(RolledBack);
    }

    /** A forced restore wipes the target before anything else can fail; restored rows are redroid. */
    method Restore(name: string, target: Path, manifestOk: bool, force: bool, env: Env) returns (r: Result<(), Refusal>)
      requires Valid() && target != []
      modifies this
      ensures Valid() && Confined(old(fs), fs, target)
      ensures r == if name in old(rows) then Err(NameTaken)
                   else if !manifestOk then Err(BadManifest)
                   else if target in old(fs) && old(fs)[target].File? then Err(NotADirectory)
                   else if exists n :: && n in old(rows) && old(rows)[n].DirRow?
                                       && (old(rows)[n].path <= target || target <= old(rows)[n].path)
                   then Err(Overlaps)
                   else if !force && exists q :: q in old(fs) && target < q then Err(NeedsForce)
                   else if exists q :: q in old(fs) && q <= target && old(fs)[q].File? then Err(NotADirectory)
                   else if |old(rows)| > 1295 || env.registryFails then Err(AllocationFailed)
                   else if env.laterFails then Err(RolledBack)
                   else Ok(())
      ensures rows == if r.Ok? then old(rows)[name := DirRow(false, target)] else old(rows)
      ensures fs != old(fs) ==> !Blocked(old(rows), target)
      ensures r.Err? && !r.error.RolledBack? && !r.error.AllocationFailed? ==> fs == old(fs)
      ensures r == Err(AllocationFailed) ==>
                fs == WithDirs(if Occupied(old(fs), target) then Rmtree(old(fs), target) else old(fs), target)
      ensures r == Err(RolledBack) ==> (target in fs <==> target in old(fs) && !Occupied(old(fs), target))
      ensures r == Err(RolledBack) && target !in old(fs) ==> fs == Rmtree(WithDirs(old(fs), target), target)
    {
      hide Grounded, WithDirs, Confined, Rmtree, Antichain;
      ConfinedRefl(fs, target);
      if name in rows { return Err(NameTaken); }
      if !manifestOk { return Err(BadManifest); }
      if target in fs && fs[target].File? {
        FileBlocksMkdir(fs, target);
        return Err(NotADirectory);
      }
      if Blocked(rows, target) { return Err(Overlaps); }
      if Occupied(fs, target) && !force { return Err(NeedsForce); }
      if !CanMkdir(fs, target) { return Err(NotADirectory); }
      ghost var start := fs;
      if Occupied(fs, target) {
        RemoveTree(target);
        StillMkdir(start, target);
      }
      ghost var cleared := fs;
      OccupiedExists(start, target);
      var createdDir := target !in fs;
      MakeDir(target);
      ConfinedTrans(start, cleared, fs, target);
      ConfinedRefl(fs, target);
      if Full(rows) || env.registryFails { return Err(AllocationFailed); }
      var ok := AddThenStage(name, target, false, createdDir, env, cleared);
      ConfinedTrans(start, cleared, fs, target);
      return if ok then Ok(()) else Err(RolledBack);
    }

    /** Container down (its failure is reported afterwards), then the row, then the tree. */
    method Destroy(name: string) returns (r: Result<(), Refusal>)
      requires Valid()
      modifies this
      ensures Valid()
      ensures r == if name in old(rows) then Ok(()) else Err(UnknownName)
      ensures rows == old(rows) - {name}
      ensures r.Ok? && old(rows)[name].DirRow? ==> fs == Rmtree(old(fs), old(rows)[name].path)
      ensures r.Ok? && old(rows)[name].DirRow? ==>
                && (forall q :: q in fs <==> q in old(fs) && !(old(rows)[name].path <= q))
                && forall q | q in fs :: fs[q] == old(fs)[q]
      ensures r.Err? || old(rows)[name].AdbRow? ==> fs == old(fs)
    {
      if name !in rows { return Err(UnknownName); }
      var row := rows[name];
      rows := rows - {name};
      if row.DirRow? {
        RemoveTree(row.path);
      }
      return Ok(());
    }

    /** Empties `data` below the instance; the row stays. The instance's YAML must be there and load first. */
    method Reset(name: string, loads: bool, stopFails: bool) returns (r: Result<(), Refusal>)
      requires Valid()
      modifies this`fs
      ensures Valid()
      ensures r.Ok? ==> && name in rows && rows[name].DirRow?
                        && Confined(old(fs), fs, rows[name].path + ["data"])
                        && Subtree(fs, rows[name].path + ["data"]) == map[rows[name].path + ["data"] := Dir]
      ensures r.Err? ==> fs == old(fs)
      ensures r.Ok? <==> && name in rows && rows[name].DirRow? && !rows[name].vm && loads
                         && rows[name].path + ["beetroot.yaml"] in old(fs)
                         && old(fs)[rows[name].path + ["beetroot.yaml"]].File?
                         && !stopFails
                         && forall q | q in old(fs) && q <= rows[name].path + ["data"] :: old(fs)[q].Dir?
    {
      hide Grounded, WithDirs, Confined, Rmtree, Antichain, Subtree;
      if name !in rows || !rows[name].DirRow? || rows[name].vm { return Err(UnknownName); }
      var yamlPath := rows[name].path + ["beetroot.yaml"];
      if yamlPath !in fs || !fs[yamlPath].File? { return Err(NoYaml); }
      if !loads { return Err(BadYaml); }
      if stopFails { return Err(StopFailed); }
      var data := rows[name].path + ["data"];
      if !CanMkdir(fs, data) { return Err(NotADirectory); }
      Recreate(data);
      return Ok(());
    }

    /** Removes a tree and makes an empty directory in its place. */
    method Recreate(p: Path)
      requires Grounded(fs) && p != [] && CanMkdir(fs, p)
      modifies this`fs
      ensures Grounded(fs) && Confined(old(fs), fs, p) && Subtree(fs, p) == map[p := Dir]
    {
      hide Grounded, WithDirs, Confined, Rmtree, CanMkdir, Subtree;
      ghost var before := fs;
      RemoveTree(p);
      StillMkdir(before, p);
      ghost var cleared := fs;
      MakeDir(p);
      ConfinedTrans(before, cleared, fs, p);
      OnlyTop(cleared, p);
    }

    method Reconcile(name: string, wantVm: bool)
      requires Valid()
      modifies this`rows
      ensures Valid() && rows.Keys == old(rows).Keys
      ensures forall n | n in rows ::
          rows[n] == if n == name && old(rows)[n].DirRow? then DirRow(wantVm, old(rows)[n].path) else old(rows)[n]
    {
      if name in rows && rows[name].DirRow? { rows := rows[name := DirRow(wantVm, rows[name].path)]; }
    }

    method Adopt(name: string)
      requires Valid()
      modifies this`rows
      ensures Valid() && rows == if name in old(rows) || Full(old(rows)) then old(rows) else old(rows)[name := AdbRow]
    {
      if name !in rows && !Full(rows) { rows := rows[name := AdbRow]; }
    }

    /** Deregisters and leaves every file. */
    method Forget(name: string)
      requires Valid()
      modifies this`rows
      ensures Valid() && rows == old(rows) - {name}
    {
      rows := rows - {name};
    }
  }

  // ---- A failed allocation ----------------------------------------------------------------

  /** With every index taken, a create that passes its guards fails and leaves the directory and its YAML; when an
      index has become free, the same create is refused because of that YAML. */
  method FullFleetLeavesDebris(h: Host, name: string, target: Path, vm: bool, yaml: string, env: Env, gone: string)
    returns (first: Result<(), Refusal>, second: Result<(), Refusal>)
    requires h.Valid() && target != [] && Full(h.rows) && gone in h.rows && name !in h.rows
    requires target + ["beetroot.yaml"] !in h.fs && !Blocked(h.rows, target) && CanMkdir(h.fs, target)
    modifies h
    ensures first == Err(AllocationFailed) && second == Err(YamlExists)
    ensures target in h.fs && target + ["beetroot.yaml"] in h.fs && h.rows == old(h.rows) - {gone}
  {
    hide Antichain, Grounded, Confined, WithDirs, Rmtree;
    TargetMade(h.fs, target);
    first := h.Create(name, target, vm, yaml, env);
    h.Forget(gone);
    second := h.Create(name, target, vm, yaml, env);
  }

  lemma TargetMade(fs: Tree, target: Path)
    ensures target in WithDirs(fs, target)
  {
    AncestryMembers(target, target);
  }

  /** A forced restore into a full fleet has emptied its target by the time it fails. */
  method FullFleetEmptiesTarget(h: Host, name: string, target: Path, env: Env) returns (r: Result<(), Refusal>)
    requires h.Valid() && target != [] && Full(h.rows) && name !in h.rows
    requires Occupied(h.fs, target) && !Blocked(h.rows, target) && CanMkdir(h.fs, target)
    modifies h
    ensures r == Err(AllocationFailed) && h.rows == old(h.rows) && Subtree(h.fs, target) == map[target := Dir]
  {
    hide Antichain, Confined, WithDirs, Rmtree, Subtree;
    ghost var before := h.fs;
    OccupiedExists(before, target);
    RmtreeGrounded(before, target);
    r := h.Restore(name, target, true, true, env);
    OnlyTop(Rmtree(before, target), target);
  }

  // ---- Whole runs ------------------------------------------------------------------------

  datatype Op =
    | CreateOp(name: string, target: Path, vm: bool, yaml: string, env: Env)
    | RegisterOp(name: string, target: Path, vm: bool, loads: bool, env: Env)
    | RestoreOp(name: string, target: Path, manifestOk: bool, force: bool, env: Env)
    | DestroyOp(name: string)
    | ResetOp(name: string, loads: bool, stopFails: bool)
    | ReconcileOp(name: string, wantVm: bool)
    | AdoptOp(name: string)
    | ForgetOp(name: string)

  /** An operation that may legitimately touch the row or the directory of `victim`. */
  predicate Aims(op: Op, victim: string) { (op.DestroyOp? || op.ResetOp? || op.ForgetOp?) && op.name == victim }

  /** A bystander keeps its directory's contents to the last file. */
  ghost predicate Untouched(rows: Rows, fs: Tree, rows': Rows, fs': Tree, victim: string) {
    victim in rows && rows[victim].DirRow? ==>
      && victim in rows' && rows'[victim].DirRow? && rows'[victim].path == rows[victim].path
      && Subtree(fs', rows[victim].path) == Subtree(fs, rows[victim].path)
  }

  lemma UntouchedRefl(rows: Rows, fs: Tree, victim: string)
    ensures Untouched(rows, fs, rows, fs, victim)
  {
  }

  lemma UntouchedTrans(rows: Rows, fs: Tree, rows1: Rows, fs1: Tree, rows2: Rows, fs2: Tree, victim: string)
    requires Untouched(rows, fs, rows1, fs1, victim) && Untouched(rows1, fs1, rows2, fs2, victim)
    ensures Untouched(rows, fs, rows2, fs2, victim)
  {
    hide Subtree;
  }

  lemma UntouchedMeans(rows: Rows, fs: Tree, rows': Rows, fs': Tree, victim: string)
    requires Untouched(rows, fs, rows', fs', victim) && victim in rows && rows[victim].DirRow?
    ensures victim in rows' && rows'[victim].DirRow? && rows'[victim].path == rows[victim].path
    ensures forall q | rows[victim].path <= q :: if q in fs then q in fs' && fs'[q] == fs[q] else q !in fs'
  {
    var p := rows[victim].path;
    forall q | p <= q
      ensures if q in fs then q in fs' && fs'[q] == fs[q] else q !in fs'
    {
      assert q in fs <==> q in Subtree(fs, p);
      assert q in fs' <==> q in Subtree(fs', p);
    }
  }

  lemma BystanderSpared(rows: Rows, fs: Tree, rows': Rows, fs': Tree, target: Path, victim: string)
    requires victim in rows && rows[victim].DirRow? ==>
      victim in rows' && rows'[victim].DirRow? && rows'[victim].path == rows[victim].path
    requires Confined(fs, fs', target)
    requires fs' != fs && victim in rows && rows[victim].DirRow? ==> !Overlap(target, rows[victim].path)
    ensures Untouched(rows, fs, rows', fs', victim)
  {
    if victim in rows && rows[victim].DirRow? && fs' != fs { ConfinedSpares(fs, fs', target, rows[victim].path); }
  }

  lemma OtherRow(rows: Rows, name: string, victim: string)
    requires Antichain(rows) && name in rows && victim in rows && name != victim
    requires rows[name].DirRow? && rows[victim].DirRow?
    ensures !Overlap(rows[name].path, rows[victim].path)
    ensures !Overlap(rows[name].path + ["data"], rows[victim].path)
  {
    var p, v, d := rows[name].path, rows[victim].path, rows[name].path + ["data"];
    assert d[..|p|] == p;
    if d <= v { PrefixTrans(p, d, v); }
    if v <= d { PrefixesCompare(p, v, d); }
  }

  method Perform(h: Host, op: Op, ghost victim: string)
    requires h.Valid()
    requires op.CreateOp? || op.RegisterOp? || op.RestoreOp? ==> op.target != []
    modifies h
    ensures h.Valid()
    ensures !Aims(op, victim) ==> Untouched(old(h.rows), old(h.fs), h.rows, h.fs, victim)
  {
    hide Antichain, Grounded, Confined, WithDirs, Rmtree, Subtree, Overlap, CanMkdir, Occupied, Untouched;
    ghost var rows, fs := h.rows, h.fs;
    ghost var target: Path := [];
    match op {
    case CreateOp(name, t, vm, yaml, env) =>
      var r := h.Create(name, t, vm, yaml, env);
      target := t;
    case RegisterOp(name, t, vm, loads, env) =>
      var r := h.Register(name, t, vm, loads, env);
      target := t;
    case RestoreOp(name, t, manifestOk, force, env) =>
      var r := h.Restore(name, t, manifestOk, force, env);
      target := t;
    case DestroyOp(name) =>
      var r := h.Destroy(name);
      ConfinedRefl(fs, target);
      if name in rows && rows[name].DirRow? {
        target := rows[name].path;
        RmtreeGrounded(fs, target);
      }
    case ResetOp(name, loads, stopFails) =>
      var r := h.Reset(name, loads, stopFails);
      if name in rows && rows[name].DirRow? { target := rows[name].path + ["data"]; }
      ConfinedRefl(fs, target);
    case ReconcileOp(name, wantVm) =>
      h.Reconcile(name, wantVm);
      ConfinedRefl(fs, target);
    case AdoptOp(name) =>
      h.Adopt(name);
      ConfinedRefl(fs, target);
    case ForgetOp(name) =>
      h.Forget(name);
      ConfinedRefl(fs, target);
    }
    if !Aims(op, victim) {
      var both := op.name in rows && victim in rows && rows[op.name].DirRow? && rows[victim].DirRow?;
      if (op.DestroyOp? || op.ResetOp?) && both {
        OtherRow(rows, op.name, victim);
      } else if victim in rows && rows[victim].DirRow? && h.fs != fs {
        OverlapSymmetric(rows[victim].path, target);
      }
      BystanderSpared(rows, fs, h.rows, h.fs, target, victim);
    }
  }

  lemma OverlapSymmetric(a: Path, b: Path)
    ensures Overlap(a, b) == Overlap(b, a)
  {
  }

  /** Over any sequential run the registered directories stay an antichain, and a directory that no
      destroy, reset or forget names is the same at the end as at the start. */
  method Campaign(h: Host, ops: seq<Op>, ghost victim: string)
    requires h.Valid()
    requires forall op | op in ops :: op.CreateOp? || op.RegisterOp? || op.RestoreOp? ==> op.target != []
    modifies h
    ensures h.Valid()
    ensures victim in old(h.rows) && old(h.rows)[victim].DirRow?
            && (forall op | op in ops && op.name == victim :: !op.DestroyOp? && !op.ResetOp? && !op.ForgetOp?) ==>
              && victim in h.rows && h.rows[victim].DirRow? && h.rows[victim].path == old(h.rows)[victim].path
              && forall q | old(h.rows)[victim].path <= q ::
                   if q in old(h.fs) then q in h.fs && h.fs[q] == old(h.fs)[q] else q !in h.fs
  {
    hide Antichain, Grounded, Untouched;
    UntouchedRefl(h.rows, h.fs, victim);
    for n := 0 to |ops|
      invariant h.Valid()
      invariant (forall op | op in ops :: !Aims(op, victim)) ==> Untouched(old(h.rows), old(h.fs), h.rows, h.fs, victim)
    {
      assert ops[n] in ops;
      ghost var rows, fs := h.rows, h.fs;
      Perform(h, ops[n], victim);
      if Untouched(old(h.rows), old(h.fs), rows, fs, victim) && Untouched(rows, fs, h.rows, h.fs, victim) {
        UntouchedTrans(old(h.rows), old(h.fs), rows, fs, h.rows, h.fs, victim);
      }
    }
    if victim in old(h.rows) && old(h.rows)[victim].DirRow? && forall op | op in ops :: !Aims(op, victim) {
      UntouchedMeans(old(h.rows), old(h.fs), h.rows, h.fs, victim);
    }
  }
}
