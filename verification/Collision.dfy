/**
 The announce-then-check protocol: any number of create, register, apply and
 restore commands share the registry and each other's YAML files. A command
 makes its row and YAML visible, then scans its siblings (src/beetroot/registry.py
 lines 926-1024). Every `Step` below is one atomic action and commands interleave freely; the model
 lets a command take its preparatory steps in any order, which covers the order
 each caller uses. Rows are reduced to what the scan reads, a directory or none
 and the index, so flipping a row between redroid and vm changes nothing here.
 */
module Collision {
  import opened Prelude
  import opened Ports
  import Registry

  datatype Row = DirRow(dir: string, index: int) | AdbRow(index: int)

  /** A YAML file that loads, or one that the loader rejects; a missing file is absent from the map. */
  datatype Yaml = Config(ports: seq<PortMapping>) | Invalid

  /** A scan: the command's own ports, and what it has seen of its siblings. */
  datatype Check = Check(
    name: string, dir: string,
    index: int, indexTime: nat,
    cfg: seq<PortMapping>, cfgTime: nat,
    seen: map<string, Row>, snapTime: nat,
    scanned: map<string, set<int>>)
  {
    function Own(): set<int> { ResolvedHosts(index, cfg) }
  }

  function ResolvedHosts(index: int, cfg: seq<PortMapping>): set<int> {
    if Resolve(index, cfg).Ok? then Hosts(Resolve(index, cfg).value) else {}
  }

  /** A value a command holds in memory, with the instant it was written or read. */
  datatype Held<T> = Unread | At(value: T, time: nat)

  datatype Proc =
    | Preparing(name: string, dir: string, index: Held<int>, cfg: Held<seq<PortMapping>>)
    | Scanning(check: Check, todo: set<string>)
    | Passed(name: string)
    | Failed(name: string)

  datatype State = State(
    now: nat,
    rows: map<string, Row>, rowTime: map<string, nat>,
    yamls: map<string, Yaml>, yamlTime: map<string, nat>,
    procs: map<nat, Proc>,
    ledger: set<Check>)

  datatype Step =
    | Spawn(pid: nat, name: string, dir: string)
    | WriteOwn(pid: nat, ports: seq<PortMapping>)
    | Load(pid: nat)
    | Announce(pid: nat)
    | LookUp(pid: nat)
    | Snapshot(pid: nat)
    | ReadSibling(pid: nat, sibling: string)
    | Decide(pid: nat)
    | RollBack(pid: nat)
    | Edit(dir: string, yaml: Option<Yaml>)
    | RemoveRow(name: string)
    | Adopt(name: string)

  function Used(rows: map<string, Row>): set<int> { set n | n in rows :: rows[n].index }

  // ---- The rows are the registry's ------------------------------------------------

  /** What a scan reads of a registry row: backends without a directory are charged the stride defaults. */
  function ViewOf(m: Registry.Meta): Row {
    match m.backend
    case Redroid(path, _) => DirRow(path, m.index)
    case Vm(path) => DirRow(path, m.index)
    case _ => AdbRow(m.index)
  }

  function View(rows: Registry.Rows): map<string, Row> { map n | n in rows :: ViewOf(rows[n]) }

  /** The row steps below are the registry's operations: allocation takes the same index under the same guard,
      removal removes, and neither a flipped kind nor a stealth layout is seen. */
  lemma RowStepsAreRegistrySteps(rows: Registry.Rows, op: Registry.Op)
    ensures match op
      case AddOp(name, backend, now) =>
        var index := LowestFree(Used(View(rows)));
        View(Registry.Apply(rows, op)) ==
          if name in View(rows) || index > MAX_PORT_INDEX then View(rows)
          else View(rows)[name := ViewOf(Registry.Meta(backend, index, now))]
      case RemoveOp(name) => View(Registry.Apply(rows, op)) == View(rows) - {name}
      case _ => View(Registry.Apply(rows, op)) == View(rows)
  {
    forall i ensures i in Used(View(rows)) <==> i in Registry.Used(rows) {
      if i in Used(View(rows)) {
        var n :| n in View(rows) && View(rows)[n].index == i;
        assert rows[n].index == i;
      }
      if i in Registry.Used(rows) {
        var n :| n in rows && rows[n].index == i;
        assert View(rows)[n].index == i;
      }
    }
    assert Used(View(rows)) == Registry.Used(rows);
  }

  // ---- State updates ----------------------------------------------------------

  function WithProc(s: State, pid: nat, p: Proc): State { s.(procs := s.procs[pid := p]) }

  function WithRow(s: State, name: string, row: Row): State {
    s.(rows := s.rows[name := row], rowTime := s.rowTime[name := s.now])
  }

  function WithoutRow(s: State, name: string): State {
    s.(rows := s.rows - {name}, rowTime := s.rowTime - {name})
  }

  function WithYaml(s: State, dir: string, yaml: Option<Yaml>): State {
    if yaml.Some? then s.(yamls := s.yamls[dir := yaml.value], yamlTime := s.yamlTime[dir := s.now])
    else s.(yamls := s.yamls - {dir}, yamlTime := s.yamlTime - {dir})
  }

  /** What one scan step learns about a sibling row: nothing, its ports, or an error that ends the check. */
  function SiblingView(s: State, row: Row): Option<Option<set<int>>> {
    match row
    case AdbRow(i) => if InRange(i) then Some(Some(Defaults(i))) else None
    case DirRow(d, i) =>
      if d !in s.yamls then Some(None)
      else if s.yamls[d].Invalid? || SiblingPorts(i, s.yamls[d].ports).Err? then None
      else Some(Some(SiblingPorts(i, s.yamls[d].ports).value))
  }

  predicate Clear(c: Check) { forall n | n in c.scanned :: c.Own() !! c.scanned[n] }

  // ---- The transition function --------------------------------------------------

  function Prepare(s: State, p: Proc, step: Step): State
    requires p.Preparing?
  {
    match step
    case WriteOwn(pid, ports) =>
      WithProc(WithYaml(s, p.dir, Some(Config(ports))), pid, p.(cfg := At(ports, s.now)))
    case Load(pid) =>
      if p.dir in s.yamls && s.yamls[p.dir].Config?
      then WithProc(s, pid, p.(cfg := At(s.yamls[p.dir].ports, s.now)))
      else WithProc(s, pid, Failed(p.name))
    case Announce(pid) =>
      var index := LowestFree(Used(s.rows));
      if p.name in s.rows || index > MAX_PORT_INDEX then WithProc(s, pid, Failed(p.name))
      else WithProc(WithRow(s, p.name, DirRow(p.dir, index)), pid, p.(index := At(index, s.now)))
    case LookUp(pid) =>
      if p.name in s.rows && s.rows[p.name].DirRow? && s.rows[p.name].dir == p.dir
      then WithProc(s, pid, p.(index := At(s.rows[p.name].index, s.now)))
      else WithProc(s, pid, Failed(p.name))
    case Snapshot(pid) =>
      if p.index.Unread? || p.cfg.Unread? then s
      else if Resolve(p.index.value, p.cfg.value).Err? then WithProc(s, pid, Failed(p.name))
      else
        var seen := s.rows - {p.name};
        WithProc(s, pid, Scanning(Check(p.name, p.dir, p.index.value, p.index.time, p.cfg.value, p.cfg.time,
                                        seen, s.now, map[]), seen.Keys))
    case _ => s
  }

  function Scan(s: State, p: Proc, step: Step): State
    requires p.Scanning?
  {
    var c := p.check;
    match step
    case ReadSibling(pid, n) =>
      if n !in p.todo || n !in c.seen then s
      else
        var view := SiblingView(s, c.seen[n]);
        if view.None? then WithProc(s, pid, Failed(c.name))
        else if view.value.None? then WithProc(s, pid, Scanning(c, p.todo - {n}))
        else WithProc(s, pid, Scanning(c.(scanned := c.scanned[n := view.value.value]), p.todo - {n}))
    case Decide(pid) =>
      if p.todo != {} then s
      else if Clear(c) then WithProc(s, pid, Passed(c.name)).(ledger := s.ledger + {c})
      else WithProc(s, pid, Failed(c.name))
    case _ => s
  }

  /** A disabled step leaves the state as it is; every step moves the clock. */
  function Next(s0: State, step: Step): State {
    var s := s0.(now := s0.now + 1);
    match step
    case Spawn(pid, name, dir) =>
      if pid in s.procs then s else WithProc(s, pid, Preparing(name, dir, Unread, Unread))
    case Edit(dir, yaml) => WithYaml(s, dir, yaml)
    case RemoveRow(name) => WithoutRow(s, name)
    case Adopt(name) =>
      if name in s.rows || LowestFree(Used(s.rows)) > MAX_PORT_INDEX then s
      else WithRow(s, name, AdbRow(LowestFree(Used(s.rows))))
    case RollBack(pid) =>
      if pid in s.procs && s.procs[pid].Failed? then WithoutRow(s, s.procs[pid].name) else s
    case _ =>
      if step.pid !in s.procs then s
      else if s.procs[step.pid].Preparing? then Prepare(s, s.procs[step.pid], step)
      else if s.procs[step.pid].Scanning? then Scan(s, s.procs[step.pid], step)
      else s
  }

  function Run(s: State, steps: seq<Step>): State
    decreases |steps|
  {
    if steps == [] then s else Run(Next(s, steps[0]), steps[1..])
  }

  const Init := State(0, map[], map[], map[], map[], map[], {})

  // ---- The steps are registry operations and file writes ---------------------------------

  /** The locked registry operation a step performs, if any. */
  function RegistryOp(s: State, step: Step): Option<Registry.Op> {
    match step
    case Announce(pid) =>
      if pid in s.procs && s.procs[pid].Preparing?
      then Some(Registry.AddOp(s.procs[pid].name, Registry.Redroid(s.procs[pid].dir, map[]), 0)) else None
    case Adopt(name) => Some(Registry.AddOp(name, Registry.Adb(""), 0))
    case RemoveRow(name) => Some(Registry.RemoveOp(name))
    case RollBack(pid) =>
      if pid in s.procs && s.procs[pid].Failed? then Some(Registry.RemoveOp(s.procs[pid].name)) else None
    case _ => None
  }

  /** Each step does to the rows exactly what its registry operation does, and no other step touches them. */
  lemma StepRows(s: State, step: Step, rows: Registry.Rows)
    requires View(rows) == s.rows
    ensures Next(s, step).rows ==
              match RegistryOp(s, step) case Some(op) => View(Registry.Apply(rows, op)) case None => s.rows
  {
    if RegistryOp(s, step).Some? { RowStepsAreRegistrySteps(rows, RegistryOp(s, step).value); }
    hide LowestFree, Resolve, SiblingView, Clear;
  }

  /** Only a command's own write and an external edit change a YAML file, each the file it names. */
  lemma StepYamls(s: State, step: Step, dir: string)
    ensures var before := if dir in s.yamls then Some(s.yamls[dir]) else None;
            var after := if dir in Next(s, step).yamls then Some(Next(s, step).yamls[dir]) else None;
            after == match step
                     case WriteOwn(pid, ports) =>
                       if pid in s.procs && s.procs[pid].Preparing? && s.procs[pid].dir == dir
                       then Some(Config(ports)) else before
                     case Edit(d, yaml) => if d == dir then yaml else before
                     case _ => before
  {
    hide LowestFree, Resolve, SiblingView, Clear;
  }

  // ---- The invariant ---------------------------------------------------------------

  predicate RowSince(s: State, name: string, t: nat) {
    name in s.rows && name in s.rowTime && s.rowTime[name] <= t
  }

  predicate YamlSince(s: State, dir: string, t: nat) {
    dir in s.yamls && dir in s.yamlTime && s.yamlTime[dir] <= t
  }

  predicate IndexOk(s: State, name: string, dir: string, index: int, t: nat) {
    t <= s.now && (RowSince(s, name, t) ==> s.rows[name] == DirRow(dir, index))
  }

  predicate CfgOk(s: State, dir: string, cfg: seq<PortMapping>, t: nat) {
    t <= s.now && (YamlSince(s, dir, t) ==> s.yamls[dir] == Config(cfg))
  }

  predicate OwnOk(s: State, c: Check) {
    && IndexOk(s, c.name, c.dir, c.index, c.indexTime)
    && CfgOk(s, c.dir, c.cfg, c.cfgTime)
    && c.indexTime <= c.snapTime && c.cfgTime <= c.snapTime <= s.now
    && Resolve(c.index, c.cfg).Ok?
  }

  predicate SeenOk(s: State, c: Check, n: string) {
    n != c.name && RowSince(s, n, c.snapTime) ==> n in c.seen && c.seen[n] == s.rows[n]
  }

  /** A settled sibling is one whose row, and YAML if it has a directory, predate the scan. */
  predicate Settled(s: State, n: string, t: nat) {
    RowSince(s, n, t) && (s.rows[n].DirRow? ==> YamlSince(s, s.rows[n].dir, t))
  }

  predicate ScanOk(s: State, c: Check, n: string) {
    n != c.name && Settled(s, n, c.snapTime) ==>
      n in c.scanned && SiblingView(s, s.rows[n]) == Some(Some(c.scanned[n]))
  }

  ghost predicate CheckOk(s: State, c: Check, todo: set<string>) {
    && OwnOk(s, c)
    && (forall n :: SeenOk(s, c, n))
    && (forall n | n !in todo :: ScanOk(s, c, n))
  }

  ghost predicate ProcOk(s: State, p: Proc) {
    match p
    case Preparing(name, dir, index, cfg) =>
      && (index.At? ==> IndexOk(s, name, dir, index.value, index.time))
      && (cfg.At? ==> CfgOk(s, dir, cfg.value, cfg.time))
    case Scanning(c, todo) => CheckOk(s, c, todo)
    case _ => true
  }

  ghost predicate Inv(s: State) {
    && s.rows.Keys == s.rowTime.Keys && s.yamls.Keys == s.yamlTime.Keys
    && (forall n | n in s.rowTime :: s.rowTime[n] <= s.now)
    && (forall d | d in s.yamlTime :: s.yamlTime[d] <= s.now)
    && (forall pid | pid in s.procs :: ProcOk(s, s.procs[pid]))
    && (forall c | c in s.ledger :: CheckOk(s, c, {}) && Clear(c))
  }

  /** Time moves by one, and whatever is there afterwards is either untouched or stamped with the new instant. */
  predicate Evolves(s: State, t: State) {
    && t.now == s.now + 1
    && (forall n | n in t.rows && n in t.rowTime ::
          t.rowTime[n] == t.now
          || (n in s.rows && n in s.rowTime && s.rows[n] == t.rows[n] && s.rowTime[n] == t.rowTime[n]))
    && (forall d | d in t.yamls && d in t.yamlTime ::
          t.yamlTime[d] == t.now
          || (d in s.yamls && d in s.yamlTime && s.yamls[d] == t.yamls[d] && s.yamlTime[d] == t.yamlTime[d]))
  }

  lemma FrameScan(s: State, t: State, c: Check, n: string)
    requires Evolves(s, t) && c.snapTime <= s.now && ScanOk(s, c, n)
    ensures ScanOk(t, c, n)
  {
    if n != c.name && Settled(t, n, c.snapTime) {
      assert s.rows[n] == t.rows[n] && Settled(s, n, c.snapTime);
    }
  }

  lemma FrameCheck(s: State, t: State, c: Check, todo: set<string>)
    requires Evolves(s, t) && CheckOk(s, c, todo)
    ensures CheckOk(t, c, todo)
  {
    forall n ensures SeenOk(t, c, n) { assert SeenOk(s, c, n); }
    forall n | n !in todo ensures ScanOk(t, c, n) { FrameScan(s, t, c, n); }
  }

  lemma FrameProc(s: State, t: State, p: Proc)
    requires Evolves(s, t) && ProcOk(s, p)
    ensures ProcOk(t, p)
  {
    if p.Scanning? { FrameCheck(s, t, p.check, p.todo); }
  }

  // ---- Every step keeps the invariant --------------------------------------------------

  lemma SnapshotOk(s: State, p: Proc)
    requires ProcOk(s, p) && p.Preparing? && p.index.At? && p.cfg.At?
    requires Resolve(p.index.value, p.cfg.value).Ok?
    ensures var seen := s.rows - {p.name};
      CheckOk(s, Check(p.name, p.dir, p.index.value, p.index.time, p.cfg.value, p.cfg.time, seen, s.now, map[]),
          seen.Keys)
  {
    var seen := s.rows - {p.name};
    var c := Check(p.name, p.dir, p.index.value, p.index.time, p.cfg.value, p.cfg.time, seen, s.now, map[]);
    forall n | n !in seen.Keys ensures ScanOk(s, c, n) { assert n == c.name || n !in s.rows; }
  }

  lemma ReadSiblingOk(s: State, c: Check, todo: set<string>, n: string, c': Check)
    requires CheckOk(s, c, todo) && n in todo && n in c.seen
    requires SiblingView(s, c.seen[n]).Some?
    requires c' == if SiblingView(s, c.seen[n]).value.None? then c
                   else c.(scanned := c.scanned[n := SiblingView(s, c.seen[n]).value.value])
    ensures CheckOk(s, c', todo - {n})
  {
    forall m ensures SeenOk(s, c', m) { assert SeenOk(s, c, m); }
    forall m | m !in todo - {n} ensures ScanOk(s, c', m) {
      if m == n { assert SeenOk(s, c, n); } else { assert ScanOk(s, c, m); }
    }
  }

  predicate Stamped(s: State) { s.rows.Keys == s.rowTime.Keys && s.yamls.Keys == s.yamlTime.Keys }

  /** `t` differs from `s` in processes and ledger, and in at most one row and one YAML file, stamped `s.now`. */
  predicate OneChange(s: State, t: State) {
    && t.now == s.now && Stamped(t)
    && (forall n | n in t.rows ::
          t.rowTime[n] == t.now
          || (n in s.rows && n in s.rowTime && s.rows[n] == t.rows[n] && s.rowTime[n] == t.rowTime[n]))
    && (forall d | d in t.yamls ::
          t.yamlTime[d] == t.now
          || (d in s.yamls && d in s.yamlTime && s.yamls[d] == t.yamls[d] && s.yamlTime[d] == t.yamlTime[d]))
  }

  lemma NoChange(s: State)
    requires Stamped(s)
    ensures OneChange(s, s)
  {
  }

  lemma ProcChange(s: State, t: State, pid: nat, p: Proc, ledger: set<Check>)
    requires OneChange(s, t)
    ensures OneChange(s, WithProc(t, pid, p)) && OneChange(s, WithProc(t, pid, p).(ledger := ledger))
  {
  }

  lemma YamlChange(s: State, dir: string, yaml: Option<Yaml>)
    requires Stamped(s)
    ensures OneChange(s, WithYaml(s, dir, yaml))
  {
  }

  lemma RowChange(s: State, name: string, row: Row)
    requires Stamped(s)
    ensures OneChange(s, WithRow(s, name, row)) && OneChange(s, WithoutRow(s, name))
  {
  }

  lemma PrepareChanges(s: State, p: Proc, step: Step)
    requires p.Preparing? && Stamped(s)
    ensures OneChange(s, Prepare(s, p, step))
  {
    hide Resolve, LowestFree, OneChange, Stamped, WithProc, WithYaml, WithRow;
    var t := Prepare(s, p, step);
    NoChange(s);
    forall pid, q ensures OneChange(s, WithProc(s, pid, q)) { ProcChange(s, s, pid, q, s.ledger); }
    if step.WriteOwn? {
      var yaml := Some(Config(step.ports));
      YamlChange(s, p.dir, yaml);
      ProcChange(s, WithYaml(s, p.dir, yaml), step.pid, p.(cfg := At(step.ports, s.now)), s.ledger);
    } else if step.Announce? {
      var index := LowestFree(Used(s.rows));
      RowChange(s, p.name, DirRow(p.dir, index));
      ProcChange(s, WithRow(s, p.name, DirRow(p.dir, index)), step.pid, p.(index := At(index, s.now)), s.ledger);
    }
  }

  lemma ScanChanges(s: State, p: Proc, step: Step)
    requires p.Scanning? && Stamped(s)
    ensures OneChange(s, Scan(s, p, step))
  {
    hide SiblingView, Clear, OneChange, Stamped, WithProc;
    NoChange(s);
    forall pid, q ensures OneChange(s, WithProc(s, pid, q)) { ProcChange(s, s, pid, q, s.ledger); }
    if step.Decide? { ProcChange(s, s, step.pid, Passed(p.check.name), s.ledger + {p.check}); }
  }

  lemma Tick(s: State)
    requires Stamped(s)
    ensures Stamped(s.(now := s.now + 1))
  {
  }

  predicate OwnStep(step: Step) {
    || step.WriteOwn? || step.Load? || step.Announce? || step.LookUp? || step.Snapshot?
    || step.ReadSibling? || step.Decide?
  }

  lemma OwnChanges(s: State, step: Step)
    requires Stamped(s) && OwnStep(step)
    ensures OneChange(s.(now := s.now + 1), Next(s, step))
  {
    hide Prepare, Scan, LowestFree, OneChange, Stamped, WithProc, WithYaml, WithRow, WithoutRow;
    var s' := s.(now := s.now + 1);
    Tick(s);
    NoChange(s');
    if step.pid in s.procs {
      var p := s.procs[step.pid];
      if p.Preparing? { PrepareChanges(s', p, step); } else if p.Scanning? { ScanChanges(s', p, step); }
    }
  }

  lemma NextChanges(s: State, step: Step)
    requires Stamped(s)
    ensures OneChange(s.(now := s.now + 1), Next(s, step))
  {
    hide Prepare, Scan, LowestFree, OneChange, Stamped, WithProc, WithYaml, WithRow, WithoutRow;
    var s' := s.(now := s.now + 1);
    Tick(s);
    NoChange(s');
    if OwnStep(step) {
      OwnChanges(s, step);
    } else {
      match step {
        case Spawn(pid, name, dir) => ProcChange(s', s', pid, Preparing(name, dir, Unread, Unread), s.ledger);
        case Edit(dir, yaml) => YamlChange(s', dir, yaml);
        case RemoveRow(name) => RowChange(s', name, AdbRow(0));
        case Adopt(name) => RowChange(s', name, AdbRow(LowestFree(Used(s.rows))));
        case RollBack(pid) => if pid in s.procs && s.procs[pid].Failed? { RowChange(s', s.procs[pid].name, AdbRow(0)); }
        case _ =>
      }
    }
  }

  lemma StepEvolves(s: State, step: Step)
    requires Inv(s)
    ensures Evolves(s, Next(s, step)) && Stamped(Next(s, step))
  {
    hide Next, ProcOk;
    NextChanges(s, step);
  }

  lemma FrameSame(s: State, t: State, p: Proc)
    requires t == s.(procs := t.procs) && ProcOk(s, p)
    ensures ProcOk(t, p)
  {
    if p.Scanning? {
      var c := p.check;
      forall n ensures SeenOk(t, c, n) { assert SeenOk(s, c, n); }
      forall n | n !in p.todo ensures ScanOk(t, c, n) { assert ScanOk(s, c, n); }
    }
  }

  /** The acting process is fine after its own step. */
  lemma PrepareOk(s: State, pid: nat, step: Step)
    requires pid in s.procs && s.procs[pid].Preparing? && ProcOk(s, s.procs[pid]) && Stamped(s)
    requires forall n | n in s.rowTime :: s.rowTime[n] <= s.now
    requires step.WriteOwn? || step.Load? || step.Announce? || step.LookUp? || step.Snapshot?
    requires step.pid == pid
    ensures ProcOk(Prepare(s, s.procs[pid], step), Prepare(s, s.procs[pid], step).procs[pid])
  {
    hide Resolve, LowestFree;
    var p := s.procs[pid];
    var t := Prepare(s, p, step);
    if step.Snapshot? && t.procs[pid].Scanning? {
      SnapshotOk(s, p);
      FrameSame(s, t, t.procs[pid]);
    }
  }

  lemma ScanStepOk(s: State, pid: nat, step: Step)
    requires pid in s.procs && s.procs[pid].Scanning? && ProcOk(s, s.procs[pid])
    requires (step.ReadSibling? || step.Decide?) && step.pid == pid
    ensures ProcOk(Scan(s, s.procs[pid], step), Scan(s, s.procs[pid], step).procs[pid])
  {
    hide SiblingView, Clear;
    var p := s.procs[pid];
    var t := Scan(s, p, step);
    if t.procs[pid].Scanning? {
      if t.procs[pid] != p { ReadSiblingOk(s, p.check, p.todo, step.sibling, t.procs[pid].check); }
      FrameSame(s, t, t.procs[pid]);
    }
  }

  lemma ProcsKept(s: State, dir: string, yaml: Option<Yaml>, name: string, row: Row)
    ensures WithYaml(s, dir, yaml).procs == s.procs && WithYaml(s, dir, yaml).ledger == s.ledger
    ensures WithRow(s, name, row).procs == s.procs && WithRow(s, name, row).ledger == s.ledger
  {
  }

  lemma PrepareOwn(s: State, p: Proc, step: Step)
    requires p.Preparing? && OwnStep(step)
    ensures forall pid | pid in Prepare(s, p, step).procs && pid != step.pid ::
              pid in s.procs && Prepare(s, p, step).procs[pid] == s.procs[pid]
    ensures Prepare(s, p, step).ledger == s.ledger
  {
    hide Resolve, LowestFree, WithYaml, WithRow;
    if step.WriteOwn? { ProcsKept(s, p.dir, Some(Config(step.ports)), p.name, AdbRow(0)); }
    if step.Announce? { ProcsKept(s, p.dir, None, p.name, DirRow(p.dir, LowestFree(Used(s.rows)))); }
  }

  lemma ScanOwn(s: State, p: Proc, step: Step)
    requires p.Scanning? && OwnStep(step)
    ensures forall pid | pid in Scan(s, p, step).procs && pid != step.pid ::
              pid in s.procs && Scan(s, p, step).procs[pid] == s.procs[pid]
    ensures forall c | c in Scan(s, p, step).ledger && c !in s.ledger ::
        step.Decide? && p == Scanning(c, {}) && Clear(c)
  {
    hide SiblingView, Clear;
  }

  lemma OthersUntouched(s: State, step: Step, pid: nat)
    requires pid in Next(s, step).procs
    requires !(OwnStep(step) && step.pid == pid)
    ensures pid in s.procs ==> Next(s, step).procs[pid] == s.procs[pid]
    ensures pid !in s.procs ==> Next(s, step).procs[pid].Preparing?
                                && Next(s, step).procs[pid].index.Unread? && Next(s, step).procs[pid].cfg.Unread?
  {
    hide Prepare, Scan, LowestFree;
    var s' := s.(now := s.now + 1);
    if OwnStep(step) && step.pid in s.procs {
      var p := s.procs[step.pid];
      if p.Preparing? { PrepareOwn(s', p, step); }
      if p.Scanning? { ScanOwn(s', p, step); }
    }
  }

  lemma ActorOk(s: State, step: Step, pid: nat)
    requires Inv(s) && pid in Next(s, step).procs && OwnStep(step) && step.pid == pid
    ensures ProcOk(Next(s, step), Next(s, step).procs[pid])
  {
    hide Prepare, Scan;
    var s' := s.(now := s.now + 1);
    if pid in s.procs {
      var p := s.procs[pid];
      FrameProc(s, s', p);
      if p.Preparing? && !step.ReadSibling? && !step.Decide? { PrepareOk(s', pid, step); }
      if p.Scanning? && (step.ReadSibling? || step.Decide?) { ScanStepOk(s', pid, step); }
      IdleSteps(s', p, step);
    }
  }

  /** A process does not react to a step of the other phase. */
  lemma IdleSteps(s: State, p: Proc, step: Step)
    ensures p.Preparing? && (step.ReadSibling? || step.Decide?) ==> Prepare(s, p, step) == s
    ensures p.Scanning? && OwnStep(step) && !step.ReadSibling? && !step.Decide? ==> Scan(s, p, step) == s
  {
  }

  lemma NewEntry(s: State, step: Step, c: Check)
    requires c in Next(s, step).ledger && c !in s.ledger
    ensures step.Decide? && step.pid in s.procs && s.procs[step.pid] == Scanning(c, {}) && Clear(c)
  {
    hide Prepare, Scan, LowestFree, Clear;
    var s' := s.(now := s.now + 1);
    if OwnStep(step) && step.pid in s.procs {
      var p := s.procs[step.pid];
      if p.Preparing? { PrepareOwn(s', p, step); }
      if p.Scanning? { ScanOwn(s', p, step); }
    }
  }

  lemma StepKeepsInv(s: State, step: Step)
    requires Inv(s)
    ensures Inv(Next(s, step))
  {
    hide Next, Clear, ProcOk, Evolves;
    var t := Next(s, step);
    StepEvolves(s, step);
    StampsPast(s, t);
    forall pid | pid in t.procs ensures ProcOk(t, t.procs[pid]) {
      if OwnStep(step) && step.pid == pid { ActorOk(s, step, pid); }
      else {
        OthersUntouched(s, step, pid);
        if pid in s.procs { FrameProc(s, t, s.procs[pid]); } else { FreshOk(t, t.procs[pid]); }
      }
    }
    forall c | c in t.ledger ensures CheckOk(t, c, {}) && Clear(c) {
      if c !in s.ledger { NewEntry(s, step, c); DecidedOk(s, step.pid, c); }
      FrameCheck(s, t, c, {});
    }
  }

  lemma StampsPast(s: State, t: State)
    requires Inv(s) && Evolves(s, t) && Stamped(t)
    ensures forall n | n in t.rowTime :: t.rowTime[n] <= t.now
    ensures forall d | d in t.yamlTime :: t.yamlTime[d] <= t.now
  {
    hide ProcOk, CheckOk;
  }

  lemma FreshOk(s: State, p: Proc)
    requires p.Preparing? && p.index.Unread? && p.cfg.Unread?
    ensures ProcOk(s, p)
  {
  }

  lemma DecidedOk(s: State, pid: nat, c: Check)
    requires Inv(s) && pid in s.procs && s.procs[pid] == Scanning(c, {})
    ensures CheckOk(s, c, {})
  {
    hide CheckOk, Clear;
    assert ProcOk(s, s.procs[pid]);
  }

  lemma {:induction false} RunKeepsInv(s: State, steps: seq<Step>)
    requires Inv(s)
    ensures Inv(Run(s, steps))
    decreases |steps|
  {
    if steps == [] {
    } else {
      StepKeepsInv(s, steps[0]);
      RunKeepsInv(Next(s, steps[0]), steps[1..]);
    }
  }

  // ---- Safety -----------------------------------------------------------------------------

  /** The instance behind a passed check: registered, with row and YAML as they were when it read them. */
  predicate Standing(s: State, c: Check) {
    c in s.ledger && RowSince(s, c.name, c.indexTime) && YamlSince(s, c.dir, c.cfgTime)
  }

  /** The host ports an instance resolves to in the current state. */
  function CurrentPorts(s: State, name: string): set<int> {
    if name in s.rows && s.rows[name].DirRow? && s.rows[name].dir in s.yamls && s.yamls[s.rows[name].dir].Config?
    then ResolvedHosts(s.rows[name].index, s.yamls[s.rows[name].dir].ports)
    else {}
  }

  lemma StandingPorts(s: State, c: Check)
    requires Inv(s) && Standing(s, c)
    ensures CurrentPorts(s, c.name) == c.Own() && s.rows[c.name] == DirRow(c.dir, c.index)
  {
    assert CheckOk(s, c, {});
  }

  /** One passed check suffices against any sibling, adb ones included, that settled before it scanned. */
  lemma ClearOfSettled(s: State, c: Check, n: string)
    requires Inv(s) && Standing(s, c) && n != c.name && Settled(s, n, c.snapTime)
    ensures SiblingView(s, s.rows[n]).Some? && SiblingView(s, s.rows[n]).value.Some?
    ensures CurrentPorts(s, c.name) !! SiblingView(s, s.rows[n]).value.value
  {
    StandingPorts(s, c);
    assert CheckOk(s, c, {}) && ScanOk(s, c, n) && Clear(c);
  }

  /** A passed check keeps clear of the stride ports of every other adb device that settled before it scanned. */
  lemma ClearOfAdbDevices(s: State, c: Check, n: string)
    requires Inv(s) && Standing(s, c) && n != c.name && Settled(s, n, c.snapTime) && s.rows[n].AdbRow?
    ensures forall h | h in CurrentPorts(s, c.name) ::
              && h != 5555 + 10 * s.rows[n].index
              && h != 27042 + 10 * s.rows[n].index
              && h != 27043 + 10 * s.rows[n].index
  {
    ClearOfSettled(s, c, n);
  }

  /** And of every port a directory sibling resolves to; of one that cannot resolve, its pins and its stride ports. */
  lemma ClearOfDirectories(s: State, c: Check, n: string, h: int)
    requires Inv(s) && Standing(s, c) && n != c.name && Settled(s, n, c.snapTime) && s.rows[n].DirRow?
    requires h in CurrentPorts(s, c.name)
    ensures s.rows[n].dir in s.yamls && s.yamls[s.rows[n].dir].Config?
    ensures var index, ports := s.rows[n].index, s.yamls[s.rows[n].dir].ports;
            if Resolve(index, ports).Ok? then
              forall k | 0 <= k < |Resolve(index, ports).value| :: Resolve(index, ports).value[k].host != h
            else
              && (forall m | m in ports :: m.host != Some(h))
              && h != 5555 + 10 * index && h != 27042 + 10 * index && h != 27043 + 10 * index
  {
    ClearOfSettled(s, c, n);
    SiblingPortsExactly(s.rows[n].index, s.yamls[s.rows[n].dir].ports, h);
  }

  lemma LaterScanSeesEarlier(s: State, c: Check, d: Check)
    requires Inv(s) && Standing(s, c) && Standing(s, d) && c.name != d.name
    requires d.snapTime <= c.snapTime
    ensures CurrentPorts(s, c.name) !! CurrentPorts(s, d.name)
  {
    StandingPorts(s, d);
    assert CheckOk(s, d, {});
    ClearOfSettled(s, c, d.name);
  }

  /** Two instances that both passed, and stand as they did when they scanned, share no host port. */
  lemma AnnounceThenCheckIsSafe(steps: seq<Step>, c: Check, d: Check)
    requires Standing(Run(Init, steps), c) && Standing(Run(Init, steps), d) && c.name != d.name
    ensures CurrentPorts(Run(Init, steps), c.name) !! CurrentPorts(Run(Init, steps), d.name)
  {
    RunKeepsInv(Init, steps);
    if d.snapTime <= c.snapTime { LaterScanSeesEarlier(Run(Init, steps), c, d); }
    else { LaterScanSeesEarlier(Run(Init, steps), d, c); }
  }

  /** The same in terms of the registry and the YAML files alone. */
  lemma ResolvedHostsDiffer(steps: seq<Step>, c: Check, d: Check, i: nat, j: nat)
    requires Standing(Run(Init, steps), c) && Standing(Run(Init, steps), d) && c.name != d.name
    ensures var s := Run(Init, steps);
            && c.name in s.rows && s.rows[c.name].DirRow? && s.rows[c.name].dir in s.yamls
            && d.name in s.rows && s.rows[d.name].DirRow? && s.rows[d.name].dir in s.yamls
            && var p, q := s.yamls[s.rows[c.name].dir], s.yamls[s.rows[d.name].dir];
            && p.Config? && q.Config?
            && var own, other := Resolve(s.rows[c.name].index, p.ports), Resolve(s.rows[d.name].index, q.ports);
            && own.Ok? && other.Ok?
            && (i < |own.value| && j < |other.value| ==> own.value[i].host != other.value[j].host)
  {
    var s := Run(Init, steps);
    RunKeepsInv(Init, steps);
    AnnounceThenCheckIsSafe(steps, c, d);
    StandingPorts(s, c);
    StandingPorts(s, d);
    assert CheckOk(s, c, {}) && CheckOk(s, d, {});
    hide Inv, CheckOk, Run;
    var own, other := Resolve(c.index, c.cfg), Resolve(d.index, d.cfg);
    if i < |own.value| { assert own.value[i].host in Hosts(own.value); }
    if j < |other.value| { assert other.value[j].host in Hosts(other.value); }
  }

  // ---- A check that nothing disturbs -----------------------------------------------------

  /** The siblings read one after the other. */
  function Reads(pid: nat, names: seq<string>): seq<Step> {
    if names == [] then [] else [ReadSibling(pid, names[0])] + Reads(pid, names[1..])
  }

  /** What a scan holds against a command with these ports: an index past the cap, a YAML that does not load, or a
      shared port. A directory without a YAML holds nothing. */
  predicate Objects(s: State, own: set<int>, row: Row) {
    match row
    case AdbRow(i) => !(0 <= i <= 1295) || OnStride(own, i)
    case DirRow(d, i) =>
      && d in s.yamls
      && (s.yamls[d].Config? && 0 <= i <= 1295 ==>
            var ports := s.yamls[d].ports;
            if Resolve(i, ports).Ok? then exists rp :: rp in Resolve(i, ports).value && rp.host in own
            else OnStride(own, i) || exists m :: m in ports && m.host.Some? && m.host.value in own)
  }

  predicate OnStride(own: set<int>, i: int) {
    5555 + 10 * i in own || 27042 + 10 * i in own || 27043 + 10 * i in own
  }

  lemma ObjectsToView(s: State, own: set<int>, row: Row)
    ensures Objects(s, own, row) <==>
              match SiblingView(s, row)
              case None => true
              case Some(None) => false
              case Some(Some(hosts)) => exists h :: h in own && h in hosts
  {
    CapIsLargest(row.index);
    hide Resolve;
    if row.AdbRow? {
      assert forall h :: h in Defaults(row.index) <==>
                         h == 5555 + 10 * row.index || h == 27042 + 10 * row.index || h == 27043 + 10 * row.index;
    } else if row.dir in s.yamls && s.yamls[row.dir].Config? && InRange(row.index) {
      ChargedPorts(row.index, s.yamls[row.dir].ports, own);
    }
  }

  lemma ChargedPorts(index: int, ports: seq<PortMapping>, own: set<int>)
    requires InRange(index)
    ensures SiblingPorts(index, ports).Ok?
    ensures (exists h :: h in own && h in SiblingPorts(index, ports).value) <==>
              if Resolve(index, ports).Ok? then exists rp :: rp in Resolve(index, ports).value && rp.host in own
              else OnStride(own, index) || exists m :: m in ports && m.host.Some? && m.host.value in own
  {
    hide Resolve;
    var hosts := SiblingPorts(index, ports).value;
    if Resolve(index, ports).Ok? {
      var r := Resolve(index, ports).value;
      if h :| h in own && h in hosts { var rp :| rp in r && rp.host == h; }
      if rp :| rp in r && rp.host in own { assert rp.host in hosts; }
    } else {
      var a, b, c := 5555 + 10 * index, 27042 + 10 * index, 27043 + 10 * index;
      assert {a, b, c} == Defaults(index) && a in hosts && b in hosts && c in hosts;
      forall m | m in ports && m.host.Some? ensures m.host.value in hosts {
        assert m.host.value in ExplicitPins(ports);
      }
      forall h | h in hosts && h !in {a, b, c} ensures exists m :: m in ports && m.host == Some(h) {
        var m :| m in ports && m.host.Some? && m.host.value == h;
      }
    }
  }

  /** A snapshot of the registry, every sibling read, and the decision. */
  function Checks(pid: nat, names: seq<string>): seq<Step> { [Snapshot(pid)] + Reads(pid, names) + [Decide(pid)] }

  /** Only processes, the ledger and the clock differ. */
  predicate SameTables(s: State, t: State) { t.rows == s.rows && t.yamls == s.yamls }

  lemma ReadStep(s: State, pid: nat, c: Check, todo: set<string>, n: string)
    requires pid in s.procs && s.procs[pid] == Scanning(c, todo) && n in todo && n in c.seen
    ensures var t := Next(s, ReadSibling(pid, n));
            && SameTables(s, t) && pid in t.procs
            && t.procs[pid] == match SiblingView(s, c.seen[n])
                               case None => Failed(c.name)
                               case Some(None) => Scanning(c, todo - {n})
                               case Some(Some(hosts)) => Scanning(c.(scanned := c.scanned[n := hosts]), todo - {n})
  {
  }

  predicate ActsFor(pid: nat, step: Step) { OwnStep(step) && step.pid == pid }

  lemma FailedStays(s: State, pid: nat, name: string, step: Step)
    requires pid in s.procs && s.procs[pid] == Failed(name) && ActsFor(pid, step)
    ensures SameTables(s, Next(s, step)) && pid in Next(s, step).procs && Next(s, step).procs[pid] == Failed(name)
  {
  }

  lemma DecideStep(s: State, pid: nat, c: Check)
    requires pid in s.procs && s.procs[pid] == Scanning(c, {})
    ensures var t := Next(s, Decide(pid));
            && SameTables(s, t) && pid in t.procs
            && t.procs[pid] == if exists n, h :: n in c.scanned && h in c.Own() && h in c.scanned[n]
                               then Failed(c.name) else Passed(c.name)
  {
    var t := Next(s, Decide(pid));
    if n, h :| n in c.scanned && h in c.Own() && h in c.scanned[n] { assert !(c.Own() !! c.scanned[n]); }
    if !Clear(c) {
      var n :| n in c.scanned && !(c.Own() !! c.scanned[n]);
      var h :| h in c.Own() && h in c.scanned[n];
    }
  }

  /** Reading the rest and deciding ends in a refusal exactly when something is, or will be, held against the
      command. */
  lemma {:induction false} ScanExactly(s: State, pid: nat, c: Check, names: seq<string>)
    requires pid in s.procs && s.procs[pid] == Scanning(c, (set n | n in names))
    requires forall i, j | 0 <= i < j < |names| :: names[i] != names[j]
    requires forall n | n in names :: n in c.seen && n !in c.scanned
    ensures var t := Run(s, Reads(pid, names) + [Decide(pid)]);
            && SameTables(s, t) && pid in t.procs
            && t.procs[pid] == if || (exists n, h :: n in c.scanned && h in c.Own() && h in c.scanned[n])
                                  || (exists n :: n in names && Objects(s, c.Own(), c.seen[n]))
                               then Failed(c.name) else Passed(c.name)
    decreases |names|
  {
    hide Next, SiblingView, Clear, ResolvedHosts, Objects, SameTables;
    if names == [] {
      assert (set n | n in names) == {};
      assert Reads(pid, names) + [Decide(pid)] == [Decide(pid)];
      assert Run(s, [Decide(pid)]) == Next(s, Decide(pid)) by { assert [Decide(pid)][1..] == []; }
      DecideStep(s, pid, c);
    } else {
      var n, rest := names[0], names[1..];
      var steps := Reads(pid, names) + [Decide(pid)];
      assert steps[0] == ReadSibling(pid, n) && steps[1..] == Reads(pid, rest) + [Decide(pid)];
      ReadStep(s, pid, c, (set m | m in names), n);
      var t := Next(s, ReadSibling(pid, n));
      RestOfNames(names);
      SameObjects(s, t);
      ObjectsToView(s, c.Own(), c.seen[n]);
      assert (exists m :: m in names && Objects(s, c.Own(), c.seen[m]))
        <==> Objects(s, c.Own(), c.seen[n]) || exists m :: m in rest && Objects(s, c.Own(), c.seen[m]);
      match SiblingView(s, c.seen[n]) {
        case None =>
          ReadsAreOwn(pid, rest);
          RunFailed(t, pid, c.name, steps[1..]);
        case Some(None) => ScanExactly(t, pid, c, rest);
        case Some(Some(hosts)) =>
          var c' := c.(scanned := c.scanned[n := hosts]);
          ScanExactly(t, pid, c', rest);
          Scanned(c, c', n, hosts);
      }
      SameTwice(s, t, Run(s, steps));
    }
  }

  lemma Scanned(c: Check, c': Check, n: string, hosts: set<int>)
    requires c' == c.(scanned := c.scanned[n := hosts]) && n !in c.scanned
    ensures c'.Own() == c.Own()
    ensures (exists m, h :: m in c'.scanned && h in c'.Own() && h in c'.scanned[m])
      <==> || (exists m, h :: m in c.scanned && h in c.Own() && h in c.scanned[m])
           || exists h :: h in c.Own() && h in hosts
  {
    hide ResolvedHosts;
    if m, h :| m in c.scanned && h in c.Own() && h in c.scanned[m] { assert h in c'.scanned[m]; }
    if h :| h in c.Own() && h in hosts { assert n in c'.scanned && h in c'.scanned[n]; }
  }

  lemma RestOfNames(names: seq<string>)
    requires names != [] && forall i, j | 0 <= i < j < |names| :: names[i] != names[j]
    ensures (set m | m in names) - {names[0]} == (set m | m in names[1..])
  {
  }

  lemma SameObjects(s: State, t: State)
    requires SameTables(s, t)
    ensures forall own, row :: Objects(s, own, row) == Objects(t, own, row)
    ensures forall row :: SiblingView(s, row) == SiblingView(t, row)
  {
  }

  lemma {:induction false} RunFailed(s: State, pid: nat, name: string, steps: seq<Step>)
    requires pid in s.procs && s.procs[pid] == Failed(name) && forall step | step in steps :: ActsFor(pid, step)
    ensures SameTables(s, Run(s, steps))
    ensures pid in Run(s, steps).procs && Run(s, steps).procs[pid] == Failed(name)
    decreases |steps|
  {
    hide Next, ActsFor;
    if steps == [] {
    } else {
      FailedStays(s, pid, name, steps[0]);
      RunFailed(Next(s, steps[0]), pid, name, steps[1..]);
    }
  }

  lemma ChecksAreOwn(pid: nat, names: seq<string>)
    ensures forall step | step in Checks(pid, names) :: ActsFor(pid, step)
  {
    ReadsAreOwn(pid, names);
  }

  lemma {:induction false} ReadsAreOwn(pid: nat, names: seq<string>)
    ensures forall step | step in Reads(pid, names) + [Decide(pid)] :: ActsFor(pid, step)
  {
    if names == [] {
    } else {
      ReadsAreOwn(pid, names[1..]);
    }
  }

  /** A command with its index and configuration at hand, left alone while it scans, is refused exactly when its own
      ports do not resolve, or some other registered instance cannot be read or is charged with one of them. */
  lemma UndisturbedCheckExactly(s: State, pid: nat, name: string, dir: string, index: Held<int>,
                                cfg: Held<seq<PortMapping>>, names: seq<string>)
    requires pid in s.procs && s.procs[pid] == Preparing(name, dir, index, cfg) && index.At? && cfg.At?
    requires forall n :: n in names <==> n in s.rows && n != name
    requires forall i, j | 0 <= i < j < |names| :: names[i] != names[j]
    ensures var t := Run(s, Checks(pid, names));
            && SameTables(s, t) && pid in t.procs
            && t.procs[pid] ==
               if || Resolve(index.value, cfg.value).Err?
                  || exists n :: n in names && Objects(s, ResolvedHosts(index.value, cfg.value), s.rows[n])
               then Failed(name) else Passed(name)
  {
    hide Next, SiblingView, Clear, Resolve, Objects, SameTables, Run, Reads;
    RunSnapshot(s, pid, names);
    var seen := s.rows - {name};
    assert seen.Keys == (set n | n in names);
    SnapshotStep(s, pid, name, dir, index, cfg);
    var t := Next(s, Snapshot(pid));
    SameObjects(s, t);
    ReadsAreOwn(pid, names);
    if Resolve(index.value, cfg.value).Err? {
      RunFailed(t, pid, name, Reads(pid, names) + [Decide(pid)]);
    } else {
      var c := Check(name, dir, index.value, index.time, cfg.value, cfg.time, seen, s.now + 1, map[]);
      ScanExactly(t, pid, c, names);
    }
    SameTwice(s, t, Run(t, Reads(pid, names) + [Decide(pid)]));
  }

  lemma SameTwice(s: State, t: State, u: State)
    requires SameTables(s, t) && SameTables(t, u)
    ensures SameTables(s, u)
  {
  }

  lemma RunSnapshot(s: State, pid: nat, names: seq<string>)
    ensures Run(s, Checks(pid, names)) == Run(Next(s, Snapshot(pid)), Reads(pid, names) + [Decide(pid)])
  {
    hide Next;
    var steps := Checks(pid, names);
    assert steps[0] == Snapshot(pid) && steps[1..] == Reads(pid, names) + [Decide(pid)];
  }

  lemma SnapshotStep(s: State, pid: nat, name: string, dir: string, index: Held<int>, cfg: Held<seq<PortMapping>>)
    requires pid in s.procs && s.procs[pid] == Preparing(name, dir, index, cfg) && index.At? && cfg.At?
    ensures var t := Next(s, Snapshot(pid));
            var seen := s.rows - {name};
            var c := Check(name, dir, index.value, index.time, cfg.value, cfg.time, seen, s.now + 1, map[]);
            && SameTables(s, t) && pid in t.procs
            && t.procs[pid] ==
               if Resolve(index.value, cfg.value).Err? then Failed(name) else Scanning(c, seen.Keys)
  {
    hide Resolve;
  }

  lemma {:induction false} RunSplit(s: State, first: seq<Step>, rest: seq<Step>)
    ensures Run(s, first + rest) == Run(Run(s, first), rest)
    decreases |first|
  {
    hide Next;
    if first == [] {
      assert first + rest == rest;
    } else {
      assert (first + rest)[0] == first[0] && (first + rest)[1..] == first[1..] + rest;
      RunSplit(Next(s, first[0]), first[1..], rest);
    }
  }

  /** A `create` that nothing disturbs takes the lowest free index, and is refused exactly when there is none, its
      ports do not resolve there, or a registered instance objects to them. */
  lemma UndisturbedCreate(s: State, pid: nat, name: string, dir: string, ports: seq<PortMapping>, names: seq<string>)
    requires pid !in s.procs && name !in s.rows
    requires forall n :: n in names <==> n in s.rows
    requires forall i, j | 0 <= i < j < |names| :: names[i] != names[j]
    ensures var t := Run(s, [Spawn(pid, name, dir), WriteOwn(pid, ports), Announce(pid)] + Checks(pid, names));
            var index := LowestFree(Used(s.rows));
            && t.yamls == s.yamls[dir := Config(ports)]
            && t.rows == (if index <= 1295 then s.rows[name := DirRow(dir, index)] else s.rows)
            && pid in t.procs
            && t.procs[pid] == if || index > 1295
                                  || Resolve(index, ports).Err?
                                  || exists n :: n in names && Objects(t, ResolvedHosts(index, ports), s.rows[n])
                               then Failed(name) else Passed(name)
  {
    hide Resolve, LowestFree, Objects, Scan, Reads;
    CapIsLargest(0);
    var first := [Spawn(pid, name, dir), WriteOwn(pid, ports), Announce(pid)];
    RunSplit(s, first, Checks(pid, names));
    CreateRun(s, pid, name, dir, ports);
    var t := Run(s, first);
    hide Run, Next, SameTables, ResolvedHosts;
    ChecksAreOwn(pid, names);
    var index := LowestFree(Used(s.rows));
    if index > 1295 {
      RunFailed(t, pid, name, Checks(pid, names));
    } else {
      UndisturbedCheckExactly(t, pid, name, dir, At(index, s.now + 3), At(ports, s.now + 2), names);
      SameObjects(t, Run(t, Checks(pid, names)));
      assert forall n | n in names :: t.rows[n] == s.rows[n];
    }
    TablesOf(t, Run(t, Checks(pid, names)));
  }

  lemma TablesOf(s: State, t: State)
    requires SameTables(s, t)
    ensures t.rows == s.rows && t.yamls == s.yamls
  {
  }

  lemma CreateRun(s: State, pid: nat, name: string, dir: string, ports: seq<PortMapping>)
    requires pid !in s.procs && name !in s.rows
    ensures var t := Run(s, [Spawn(pid, name, dir), WriteOwn(pid, ports), Announce(pid)]);
            var index := LowestFree(Used(s.rows));
            && t.yamls == s.yamls[dir := Config(ports)]
            && t.rows == (if index <= MAX_PORT_INDEX then s.rows[name := DirRow(dir, index)] else s.rows)
            && pid in t.procs
            && t.procs[pid] == if index > MAX_PORT_INDEX then Failed(name)
                               else Preparing(name, dir, At(index, s.now + 3), At(ports, s.now + 2))
  {
    RunThree(s, Spawn(pid, name, dir), WriteOwn(pid, ports), Announce(pid));
    SpawnStep(s, pid, name, dir);
    var t := Next(s, Spawn(pid, name, dir));
    WriteStep(t, pid, name, dir, ports);
    AnnounceStep(Next(t, WriteOwn(pid, ports)), pid, name, dir, At(ports, s.now + 2));
    hide Next, LowestFree;
  }

  lemma WriteStep(s: State, pid: nat, name: string, dir: string, ports: seq<PortMapping>)
    requires pid in s.procs && s.procs[pid] == Preparing(name, dir, Unread, Unread)
    ensures var t := Next(s, WriteOwn(pid, ports));
            && t.rows == s.rows && t.yamls == s.yamls[dir := Config(ports)] && t.now == s.now + 1
            && pid in t.procs && t.procs[pid] == Preparing(name, dir, Unread, At(ports, s.now + 1))
  {
  }

  lemma AnnounceStep(s: State, pid: nat, name: string, dir: string, cfg: Held<seq<PortMapping>>)
    requires pid in s.procs && s.procs[pid] == Preparing(name, dir, Unread, cfg) && name !in s.rows
    ensures var t := Next(s, Announce(pid));
            var index := LowestFree(Used(s.rows));
            && t.yamls == s.yamls
            && t.rows == (if index <= MAX_PORT_INDEX then s.rows[name := DirRow(dir, index)] else s.rows)
            && pid in t.procs
            && t.procs[pid] == if index > MAX_PORT_INDEX then Failed(name)
                               else Preparing(name, dir, At(index, s.now + 1), cfg)
  {
    hide LowestFree, Used;
  }

  lemma RunThree(s: State, a: Step, b: Step, c: Step)
    ensures Run(s, [a, b, c]) == Next(Next(Next(s, a), b), c)
  {
    hide Next;
    assert [a, b, c][1..] == [b, c] && [b, c][1..] == [c] && [c][1..] == [];
    var t := Next(Next(s, a), b);
    assert Run(t, [c]) == Next(t, c);
    assert Run(Next(s, a), [b, c]) == Run(t, [c]);
  }

  /** An `apply` that nothing disturbs is refused exactly when its YAML does not load, its name is not registered for
      its directory, its ports do not resolve, or another registered instance objects to them. It changes no table. */
  lemma UndisturbedApply(s: State, pid: nat, name: string, dir: string, names: seq<string>)
    requires pid !in s.procs
    requires forall n :: n in names <==> n in s.rows && n != name
    requires forall i, j | 0 <= i < j < |names| :: names[i] != names[j]
    ensures var t := Run(s, [Spawn(pid, name, dir), Load(pid), LookUp(pid)] + Checks(pid, names));
            && t.rows == s.rows && t.yamls == s.yamls
            && pid in t.procs
            && t.procs[pid] == if || dir !in s.yamls || s.yamls[dir].Invalid?
                                  || name !in s.rows || s.rows[name].AdbRow? || s.rows[name].dir != dir
                                  || Resolve(s.rows[name].index, s.yamls[dir].ports).Err?
                                  || exists n :: n in names
                                       && Objects(s, ResolvedHosts(s.rows[name].index, s.yamls[dir].ports), s.rows[n])
                               then Failed(name) else Passed(name)
  {
    hide Resolve, LowestFree, Objects, Scan, Reads;
    var first := [Spawn(pid, name, dir), Load(pid), LookUp(pid)];
    RunSplit(s, first, Checks(pid, names));
    ApplyRun(s, pid, name, dir);
    var t := Run(s, first);
    hide Run, Next, SameTables, ResolvedHosts;
    ChecksAreOwn(pid, names);
    if t.procs[pid].Failed? {
      RunFailed(t, pid, name, Checks(pid, names));
    } else {
      UndisturbedCheckExactly(t, pid, name, dir, t.procs[pid].index, t.procs[pid].cfg, names);
      SameObjects(s, t);
    }
    TablesOf(t, Run(t, Checks(pid, names)));
    TablesOf(s, t);
  }

  lemma ApplyRun(s: State, pid: nat, name: string, dir: string)
    requires pid !in s.procs
    ensures var t := Run(s, [Spawn(pid, name, dir), Load(pid), LookUp(pid)]);
            && SameTables(s, t) && pid in t.procs
            && t.procs[pid] == if || dir !in s.yamls || s.yamls[dir].Invalid?
                                  || name !in s.rows || s.rows[name].AdbRow? || s.rows[name].dir != dir
                               then Failed(name)
                               else Preparing(name, dir, At(s.rows[name].index, s.now + 3),
                                              At(s.yamls[dir].ports, s.now + 2))
  {
    RunThree(s, Spawn(pid, name, dir), Load(pid), LookUp(pid));
    SpawnStep(s, pid, name, dir);
    var t := Next(s, Spawn(pid, name, dir));
    LoadStep(t, pid, name, dir);
    var u := Next(t, Load(pid));
    hide Next;
    if u.procs[pid].Failed? {
      FailedStays(u, pid, name, LookUp(pid));
    } else {
      LookUpStep(u, pid, name, dir, u.procs[pid].cfg);
    }
  }

  lemma SpawnStep(s: State, pid: nat, name: string, dir: string)
    requires pid !in s.procs
    ensures var t := Next(s, Spawn(pid, name, dir));
            && SameTables(s, t) && t.now == s.now + 1
            && pid in t.procs && t.procs[pid] == Preparing(name, dir, Unread, Unread)
  {
  }

  lemma LoadStep(s: State, pid: nat, name: string, dir: string)
    requires pid in s.procs && s.procs[pid] == Preparing(name, dir, Unread, Unread)
    ensures var t := Next(s, Load(pid));
            && SameTables(s, t) && t.now == s.now + 1 && pid in t.procs
            && t.procs[pid] == if dir in s.yamls && s.yamls[dir].Config?
                               then Preparing(name, dir, Unread, At(s.yamls[dir].ports, s.now + 1)) else Failed(name)
  {
  }

  lemma LookUpStep(s: State, pid: nat, name: string, dir: string, cfg: Held<seq<PortMapping>>)
    requires pid in s.procs && s.procs[pid] == Preparing(name, dir, Unread, cfg)
    ensures var t := Next(s, LookUp(pid));
            && SameTables(s, t) && pid in t.procs
            && t.procs[pid] == if name in s.rows && s.rows[name].DirRow? && s.rows[name].dir == dir
                               then Preparing(name, dir, At(s.rows[name].index, s.now + 1), cfg) else Failed(name)
  {
  }

  // ---- Fleets that pin nothing -------------------------------------------------------------

  predicate PinsNothing(yaml: Yaml) { yaml.Config? ==> AllAuto(yaml.ports) }

  /** No YAML that is written pins a host port. */
  predicate AutoStep(step: Step) {
    && (step.WriteOwn? ==> AllAuto(step.ports))
    && (step.Edit? && step.yaml.Some? ==> PinsNothing(step.yaml.value))
  }

  predicate RowsApart(rows: map<string, Row>) {
    && (forall n | n in rows :: InRange(rows[n].index))
    && forall m, n | m in rows && n in rows && m != n :: rows[m].index != rows[n].index
  }

  predicate YamlsAuto(yamls: map<string, Yaml>) { forall d | d in yamls :: PinsNothing(yamls[d]) }

  /** As long as the command's own row stands, no row it saw had its index; and what it scanned lies in the bands of
      the rows it saw. */
  ghost predicate AutoCheck(s: State, c: Check) {
    && c.indexTime <= s.now && InRange(c.index) && AllAuto(c.cfg)
    && (forall n | n in c.seen :: InRange(c.seen[n].index))
    && (RowSince(s, c.name, c.indexTime) ==> forall n | n in c.seen :: c.seen[n].index != c.index)
    && (forall n, h | n in c.scanned && h in c.scanned[n] :: n in c.seen && InBand(c.seen[n].index, h))
  }

  ghost predicate AutoProc(s: State, p: Proc) {
    match p
    case Preparing(_, _, _, cfg) => cfg.At? ==> AllAuto(cfg.value)
    case Scanning(c, _) => AutoCheck(s, c)
    case _ => true
  }

  ghost predicate AutoInv(s: State) {
    && RowsApart(s.rows) && YamlsAuto(s.yamls)
    && forall pid | pid in s.procs :: AutoProc(s, s.procs[pid])
  }

  lemma FreshRowApart(rows: map<string, Row>, name: string, row: Row)
    requires RowsApart(rows) && row.index == LowestFree(Used(rows)) && row.index <= MAX_PORT_INDEX
    ensures RowsApart(rows[name := row])
  {
    forall n | n in rows ensures rows[n].index in Used(rows) {}
  }

  /** Preparing keeps the tables as a fleet that pins nothing has them. */
  lemma PrepareTables(s: State, p: Proc, step: Step)
    requires p.Preparing? && RowsApart(s.rows) && YamlsAuto(s.yamls) && AutoStep(step)
    ensures RowsApart(Prepare(s, p, step).rows) && YamlsAuto(Prepare(s, p, step).yamls)
    ensures Prepare(s, p, step).now == s.now
  {
    hide Resolve, LowestFree, RowsApart;
    if step.Announce? {
      var index := LowestFree(Used(s.rows));
      if index <= MAX_PORT_INDEX { FreshRowApart(s.rows, p.name, DirRow(p.dir, index)); }
    }
  }

  lemma ScanTables(s: State, p: Proc, step: Step)
    requires p.Scanning?
    ensures Scan(s, p, step).rows == s.rows && Scan(s, p, step).yamls == s.yamls && Scan(s, p, step).now == s.now
    ensures Scan(s, p, step).rowTime == s.rowTime
  {
    hide SiblingView, Clear;
  }

  lemma FewerRowsApart(rows: map<string, Row>, name: string)
    requires RowsApart(rows)
    ensures RowsApart(rows - {name})
  {
  }

  lemma StepTables(s: State, step: Step)
    requires AutoInv(s) && AutoStep(step)
    ensures RowsApart(Next(s, step).rows) && YamlsAuto(Next(s, step).yamls)
  {
    hide Prepare, Scan, LowestFree, RowsApart, AutoProc;
    var s' := s.(now := s.now + 1);
    if OwnStep(step) && step.pid in s.procs {
      var p := s.procs[step.pid];
      if p.Preparing? { PrepareTables(s', p, step); }
      if p.Scanning? { ScanTables(s', p, step); }
    }
    if step.Adopt? && LowestFree(Used(s.rows)) <= MAX_PORT_INDEX {
      FreshRowApart(s.rows, step.name, AdbRow(LowestFree(Used(s.rows))));
    }
    if step.RemoveRow? { FewerRowsApart(s.rows, step.name); }
    if step.RollBack? && step.pid in s.procs && s.procs[step.pid].Failed? {
      FewerRowsApart(s.rows, s.procs[step.pid].name);
    }
  }

  lemma FrameAuto(s: State, t: State, p: Proc)
    requires Evolves(s, t) && AutoProc(s, p)
    ensures AutoProc(t, p)
  {
  }

  /** A snapshot taken while the own row stands holds no other row with its index. */
  lemma SnapshotAuto(s: State, p: Proc)
    requires RowsApart(s.rows) && ProcOk(s, p) && p.Preparing? && p.index.At? && p.cfg.At? && AllAuto(p.cfg.value)
    requires Resolve(p.index.value, p.cfg.value).Ok?
    ensures var seen := s.rows - {p.name};
      AutoCheck(s, Check(p.name, p.dir, p.index.value, p.index.time, p.cfg.value, p.cfg.time, seen, s.now, map[]))
  {
  }

  lemma ViewInBand(s: State, row: Row)
    requires YamlsAuto(s.yamls) && InRange(row.index) && SiblingView(s, row).Some? && SiblingView(s, row).value.Some?
    ensures forall h | h in SiblingView(s, row).value.value :: InBand(row.index, h)
  {
    if row.DirRow? {
      assert PinsNothing(s.yamls[row.dir]);
      AutoStaysInBand(row.index, s.yamls[row.dir].ports);
    }
  }

  lemma ReadAuto(s: State, c: Check, n: string, c': Check)
    requires YamlsAuto(s.yamls) && AutoCheck(s, c) && n in c.seen && SiblingView(s, c.seen[n]).Some?
    requires c' == if SiblingView(s, c.seen[n]).value.None? then c
                   else c.(scanned := c.scanned[n := SiblingView(s, c.seen[n]).value.value])
    ensures AutoCheck(s, c')
  {
    hide SiblingView, InBand, InRange;
    if SiblingView(s, c.seen[n]).value.Some? { ViewInBand(s, c.seen[n]); }
  }

  lemma PrepareAuto(s: State, pid: nat, step: Step)
    requires pid in s.procs && s.procs[pid].Preparing? && ProcOk(s, s.procs[pid]) && AutoProc(s, s.procs[pid])
    requires RowsApart(s.rows) && YamlsAuto(s.yamls) && AutoStep(step) && OwnStep(step) && step.pid == pid
    ensures AutoProc(Prepare(s, s.procs[pid], step), Prepare(s, s.procs[pid], step).procs[pid])
  {
    hide Resolve, LowestFree, RowsApart, AutoCheck, ProcOk;
    var p := s.procs[pid];
    if step.Snapshot? && p.index.At? && p.cfg.At? && Resolve(p.index.value, p.cfg.value).Ok? {
      SnapshotAuto(s, p);
      var seen := s.rows - {p.name};
      var c := Check(p.name, p.dir, p.index.value, p.index.time, p.cfg.value, p.cfg.time, seen, s.now, map[]);
      assert Prepare(s, p, step) == WithProc(s, pid, Scanning(c, seen.Keys));
      SameRows(s, Prepare(s, p, step), c);
    }
    if step.Load? && p.dir in s.yamls { assert PinsNothing(s.yamls[p.dir]); }
  }

  lemma SameRows(s: State, t: State, c: Check)
    requires t.now == s.now && t.rows == s.rows && t.rowTime == s.rowTime
    ensures AutoCheck(s, c) <==> AutoCheck(t, c)
  {
  }

  lemma ScanAuto(s: State, pid: nat, step: Step)
    requires pid in s.procs && s.procs[pid].Scanning? && AutoProc(s, s.procs[pid])
    requires YamlsAuto(s.yamls) && OwnStep(step) && step.pid == pid
    ensures AutoProc(Scan(s, s.procs[pid], step), Scan(s, s.procs[pid], step).procs[pid])
  {
    hide SiblingView, Clear, AutoCheck, YamlsAuto;
    var p := s.procs[pid];
    var t := Scan(s, p, step);
    ScanTables(s, p, step);
    if t.procs[pid].Scanning? {
      if t.procs[pid] != p { ReadAuto(s, p.check, step.sibling, t.procs[pid].check); }
      SameRows(s, t, t.procs[pid].check);
    }
  }

  lemma ActorAuto(s: State, step: Step, pid: nat)
    requires Inv(s) && AutoInv(s) && AutoStep(step) && pid in Next(s, step).procs && OwnStep(step) && step.pid == pid
    ensures AutoProc(Next(s, step), Next(s, step).procs[pid])
  {
    hide Prepare, Scan, RowsApart, YamlsAuto, ProcOk, AutoProc;
    var s' := s.(now := s.now + 1);
    if pid in s.procs {
      var p := s.procs[pid];
      Ticks(s);
      FrameProc(s, s', p);
      FrameAuto(s, s', p);
      if p.Preparing? { PrepareAuto(s', pid, step); }
      if p.Scanning? { ScanAuto(s', pid, step); }
    }
  }

  lemma Ticks(s: State)
    ensures Evolves(s, s.(now := s.now + 1))
  {
  }

  lemma NewProcAuto(s: State, p: Proc)
    requires p.Preparing? && p.cfg.Unread?
    ensures AutoProc(s, p)
  {
  }

  lemma StepKeepsAuto(s: State, step: Step)
    requires Inv(s) && AutoInv(s) && AutoStep(step)
    ensures AutoInv(Next(s, step))
  {
    hide Next, RowsApart, YamlsAuto, AutoProc, Evolves, Inv;
    var t := Next(s, step);
    StepTables(s, step);
    StepEvolves(s, step);
    forall pid | pid in t.procs ensures AutoProc(t, t.procs[pid]) {
      if OwnStep(step) && step.pid == pid { ActorAuto(s, step, pid); }
      else {
        OthersUntouched(s, step, pid);
        if pid in s.procs { FrameAuto(s, t, s.procs[pid]); } else { NewProcAuto(t, t.procs[pid]); }
      }
    }
  }

  lemma {:induction false} RunKeepsAuto(s: State, steps: seq<Step>)
    requires Inv(s) && AutoInv(s) && forall step | step in steps :: AutoStep(step)
    ensures AutoInv(Run(s, steps))
    decreases |steps|
  {
    hide Inv, AutoInv, AutoStep, Next;
    if steps == [] {
    } else {
      StepKeepsInv(s, steps[0]);
      StepKeepsAuto(s, steps[0]);
      RunKeepsAuto(Next(s, steps[0]), steps[1..]);
    }
  }

  lemma AutoIsClear(s: State, c: Check)
    requires AutoCheck(s, c) && RowSince(s, c.name, c.indexTime)
    ensures Clear(c)
  {
    AutoStaysInBand(c.index, c.cfg);
    forall n, h | n in c.scanned && h in c.Own() ensures h !in c.scanned[n] {
      BandsDisjoint(c.index, c.index, h);
      if h in c.scanned[n] { BandsDisjoint(c.seen[n].index, c.index, h); }
    }
  }

  /** In every run in which no YAML pins a host port, a command whose own row still stands is never refused when it
      decides. */
  lemma DefaultFleetsAreNeverRefused(steps: seq<Step>, pid: nat, c: Check)
    requires forall step | step in steps :: AutoStep(step)
    requires pid in Run(Init, steps).procs && Run(Init, steps).procs[pid] == Scanning(c, {})
    requires RowSince(Run(Init, steps), c.name, c.indexTime)
    ensures Next(Run(Init, steps), Decide(pid)).procs[pid] == Passed(c.name)
  {
    hide AutoCheck, RowsApart, YamlsAuto, Clear;
    var s := Run(Init, steps);
    InitAuto();
    RunKeepsAuto(Init, steps);
    assert AutoProc(s, s.procs[pid]);
    AutoIsClear(s, c);
  }

  lemma InitAuto()
    ensures Inv(Init) && AutoInv(Init)
  {
  }
}
