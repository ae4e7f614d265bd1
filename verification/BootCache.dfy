/**
 The warm-boot cache (src/beetroot/backends/vm.py lines 506-651,
 src/beetroot/vm/boot_cache.py): overlay, identity sidecar, internal snapshot,
 pidfile and live guests, with a crash possible before and after every file
 operation. A stop reaches only a guest that the PID guard recognises by its
 command line (src/beetroot/vm/qemu.py lines 449-587); any other lives on. `if *`
 and `Trouble` mark what the environment decides.
 */
module BootCache {
  import opened Prelude
  import opened CacheIdentity
  import Qemu
  import Text

  const SNAPSHOT_TAG := "beetroot-boot"

  /** Machine state saved inside an overlay: what the guest was launched with, and whether it had booted. */
  datatype Saved = Saved(inputs: Inputs, booted: bool)

  /** The qcow2 overlay file. `id` tells a recreated file from the one a live guest may still hold open. */
  datatype Overlay = Overlay(id: nat, builtWith: Inputs, dirty: bool, snap: Option<Saved>)

  /** A live QEMU and its command line. `saving`: a savevm may still complete. */
  datatype Guest = Guest(inputs: Inputs, command: Qemu.Launch, disk: nat, booted: bool, saving: bool) {
    predicate Resumed() { command.loadvm.Some? }
  }

  /** An attempt to spawn QEMU, with the overlay as it was at that instant. */
  datatype Launch = Launch(inputs: Inputs, command: Qemu.Launch, disk: Overlay) {
    predicate Warm() { command.loadvm == Some("beetroot-boot") }

    predicate Cold() { command.loadvm == None }
  }

  /** The configured binary, the instance's overlay and monitor paths, and its host ADB port: any of them may be
      edited between two commands. */
  datatype Setting = Setting(qemuBin: string, overlay: string, monitor: string, port: nat)

  /** What the world does to one `up`: whether `qemu-img snapshot -l` works at each of its two probes, whether ADB
      accepts the very first connect after a launch, or one before the deadline, whether Android boots in time, whether
      signals to a recognised guest get through, whether the pidfile can be written, and whether all else goes well: no
      crash, no tool or file operation that fails, no guest that dies. */
  datatype Tools = Tools(
    firstProbe: bool, secondProbe: bool,
    adbAtOnce: bool, adbInTime: bool, bootsInTime: bool,
    signalsLand: bool, recordsPid: bool, calm: bool)

  /** Trouble may come at any time, unless all is calm. */
  method Trouble(calm: bool) returns (t: bool)
    ensures calm ==> !t
  {
    t := *;
    if calm { t := false; }
  }

  datatype Outcome =
    | Attached        // a launch whose ADB wait succeeded
    | Resumed         // returned after a warm launch
    | NotBooted       // returned after a cold launch that was not checkpointed
    | Checkpointed    // returned after a cold launch and a savevm, whatever it reported
    | Crashed         // the beetroot process died
    | FileFailed      // raised by a file operation on the overlay or its sidecar
    | PidfileFailed   // raised by the write of the pidfile, after QEMU was spawned
    | OverlayFailed   // raised because qemu-img create failed
    | LaunchFailed    // QemuLaunchError raised by a launch or its ADB wait
    | WaitAborted     // raised by a missing adb, or an interrupt, during a launch's ADB wait
    | PollAborted     // raised by a missing adb, or an interrupt, during the boot_completed poll

  /** A step that did not complete: the process died, or a file operation raised. */
  method Halted() returns (o: Outcome)
    ensures o.Crashed? || o.FileFailed?
  {
    if * { return Crashed; }
    return FileFailed;
  }

  // ---- What the PID guard sees of a launch ----------------------------------------------

  function CommandLine(i: Inputs, s: Setting, warm: bool): (l: Qemu.Launch)
    ensures l.hostAdbPort == s.port
    ensures l.loadvm == if warm then Some("beetroot-boot") else None
  {
    Qemu.Launch(s.qemuBin, i.accel.Kvm?, i.kernel.path, s.overlay, i.smp, i.memoryMib, s.port, true, Some(s.monitor),
                if warm then Some(SNAPSHOT_TAG) else None)
  }

  function Attempt(i: Inputs, s: Setting, warm: bool, disk: Overlay): (l: Launch)
    ensures if warm then l.Warm() else l.Cold()
    ensures l.inputs == i && l.disk == disk
  {
    Launch(i, CommandLine(i, s, warm), disk)
  }

  /** The guard of a command that acts for `port` passes this guest. */
  predicate Recognised(g: Guest, port: nat) { Qemu.Matches(Some(port), Qemu.Cmdline(Qemu.BuildArgv(g.command))) }

  /** The binary or one of the paths a launch is given spells qemu-system. */
  predicate Recognisable(i: Inputs, s: Setting) {
    || Text.Contains(s.qemuBin, Qemu.QEMU) || Text.Contains(i.kernel.path, Qemu.QEMU)
    || Text.Contains(s.overlay, Qemu.QEMU) || Text.Contains(s.monitor, Qemu.QEMU)
  }

  /** An undisturbed ADB wait attaches: at once, or later as long as the guard sees the guest. */
  predicate AdbAttaches(i: Inputs, s: Setting, tools: Tools) {
    tools.adbAtOnce || (tools.adbInTime && Recognisable(i, s))
  }

  /** A stop reaches the guest and kills it. */
  predicate Stoppable(i: Inputs, s: Setting, tools: Tools) { Recognisable(i, s) && tools.signalsLand }

  lemma TagIsPlain()
    ensures !Text.Contains(SNAPSHOT_TAG, Qemu.QEMU)
  {
    Qemu.Lacks(SNAPSHOT_TAG, 'q');
  }

  /** An instance recognises the guest it just launched exactly when the launch can be recognised at all. */
  lemma RecognisedWhenLaunched(i: Inputs, s: Setting, warm: bool, g: Guest)
    requires g.command == CommandLine(i, s, warm)
    ensures Recognised(g, s.port) <==> Recognisable(i, s)
  {
    hide Text.Contains, Qemu.Matches, Qemu.Cmdline, Qemu.BuildArgv;
    TagIsPlain();
    Qemu.OwnRecognised(g.command);
  }

  /** A renamed binary in a directory of ordinary names: no launch can be recognised. */
  lemma RenamedBinary(i: Inputs)
    requires i.kernel.path == "/c/bz"
    ensures !Recognisable(i, Setting("/opt/kvm", "/i/disk", "/i/sock", 5555))
  {
    hide Text.Contains;
    Qemu.Lacks("/opt/kvm", 'q');
    Qemu.Lacks("/c/bz", 'q');
    Qemu.Lacks("/i/disk", 'q');
    Qemu.Lacks("/i/sock", 'q');
  }

  /** Resuming it restores a fully booted guest of the same identity. */
  predicate Resumable(l: Launch) {
    && l.disk.snap.Some? && l.disk.snap.value.booted
    && Identity(l.disk.snap.value.inputs) == Identity(l.inputs) == Identity(l.disk.builtWith)
  }

  predicate Clean(o: Overlay) { !o.dirty && o.snap.None? }

  /** At most one warm launch, then at most one cold launch. */
  predicate Bounded(run: seq<Launch>) {
    |run| <= 2 && (|run| == 2 ==> run[0].Warm() && run[1].Cold())
  }

  /** A raise, other than that of the pidfile write and those of the boot poll. */
  predicate Raised(o: Outcome) { o.LaunchFailed? || o.WaitAborted? || o.OverlayFailed? || o.FileFailed? }

  /** Guests may have died, and one may have come up. */
  predicate MayAdd(before: map<nat, Guest>, after: map<nat, Guest>, pid: nat, g: Guest) {
    forall p | p in after :: if p in before then after[p] == before[p] else p == pid && after[p] == g
  }

  predicate SameProcess(g: Guest, h: Guest) { g.command == h.command && g.inputs == h.inputs && g.disk == h.disk }

  /** How an undisturbed `up` that begins with no live guest ends, its first launch being warm or not and having PID
      `pid`: with one guest, resumed or checkpointed as the cache says; or with a raise, and then with a live guest
      exactly when that guest cannot be stopped. */
  ghost predicate Ends(i: Inputs, s: Setting, tools: Tools, warm: bool, pid: nat, o: Outcome,
                       guests: map<nat, Guest>, pidfile: Option<nat>, cached: bool)
  {
    if AdbAttaches(i, s, tools) then
      && guests.Keys == {pid} && pidfile == Some(pid) && guests[pid].command == CommandLine(i, s, warm)
      && if warm then o.Resumed? && guests[pid].booted && cached
         else if tools.bootsInTime then o.Checkpointed? && cached
         else o.NotBooted?
    else
      && o.LaunchFailed? && pidfile == None
      && guests.Keys == (if Stoppable(i, s, tools) then {} else {pid})
      && (guests.Keys != {} ==> exists p :: p in guests && guests[p].command.hostAdbPort == s.port)
  }

  lemma RaiseEnds(i: Inputs, s: Setting, tools: Tools, warm: bool, pid: nat, guests: map<nat, Guest>)
    requires !AdbAttaches(i, s, tools)
    requires guests.Keys == if Stoppable(i, s, tools) then {} else {pid}
    requires forall p | p in guests :: guests[p].command.hostAdbPort == s.port
    ensures Ends(i, s, tools, warm, pid, LaunchFailed, guests, None, false)
    ensures Ends(i, s, tools, warm, pid, LaunchFailed, guests, None, true)
  {
    if pid in guests { assert guests[pid].command.hostAdbPort == s.port; }
  }

  lemma ColdEnds(i: Inputs, s: Setting, tools: Tools, pid: nat, o: Outcome, was: map<nat, Guest>,
                 guests: map<nat, Guest>, cached: bool)
    requires AdbAttaches(i, s, tools) && guests.Keys == was.Keys == {pid}
    requires SameProcess(was[pid], guests[pid]) && was[pid].command == CommandLine(i, s, false)
    requires if tools.bootsInTime then o.Checkpointed? && cached else o.NotBooted?
    ensures Ends(i, s, tools, false, pid, o, guests, Some(pid), cached)
  {
  }

  /** A warm launch given up and a cold one that raised end alike, if both guests were stopped. */
  lemma GoneEnds(i: Inputs, s: Setting, tools: Tools, pid: nat, next: nat, o: Outcome,
                 guests: map<nat, Guest>, pidfile: Option<nat>, cached: bool)
    requires Stoppable(i, s, tools) && !AdbAttaches(i, s, tools)
    requires Ends(i, s, tools, false, next, o, guests, pidfile, cached)
    ensures Ends(i, s, tools, true, pid, o, guests, pidfile, cached)
  {
  }

  lemma WarmEnds(i: Inputs, s: Setting, tools: Tools, pid: nat, guests: map<nat, Guest>, cached: bool)
    requires AdbAttaches(i, s, tools) && guests.Keys == {pid} && guests[pid].command == CommandLine(i, s, true)
    requires guests[pid].booted && cached
    ensures Ends(i, s, tools, true, pid, Resumed, guests, Some(pid), cached)
  {
  }

  /** What one `up` may spawn from a settled overlay: nothing; the one launch; or, after a warm one, a cold one on a
      pristine overlay. */
  predicate Spawns(more: seq<Launch>, i: Inputs, s: Setting, warm: bool, disk: Overlay) {
    || more == [] || more == [Attempt(i, s, warm, disk)]
    || (warm && |more| == 2 && more[0] == Attempt(i, s, true, disk)
        && more[1] == Attempt(i, s, false, more[1].disk) && Clean(more[1].disk))
  }

  lemma SpawnsAreBounded(more: seq<Launch>, i: Inputs, s: Setting, warm: bool, disk: Overlay)
    requires Spawns(more, i, s, warm, disk) && (warm ==> Resumable(Attempt(i, s, true, disk)))
    ensures Bounded(more) && forall l | l in more ::
                               && (l.Warm() || l.Cold()) && (l.Warm() ==> Resumable(l)) && l.inputs == i
                               && l.command == Qemu.Launch(s.qemuBin, i.accel.Kvm?, i.kernel.path, s.overlay, i.smp,
                                                           i.memoryMib, s.port, true, Some(s.monitor), l.command.loadvm)
    ensures forall k | 0 <= k < |more| && more[k].Cold() :: Clean(more[k].disk) <==> k > 0 || Clean(disk)
    ensures more != [] ==> (more[0].Warm() <==> warm)
  {
    hide Resumable;
  }

  /** Every guest is the process it was, or runs one of these launches under a new PID. */
  ghost predicate AddedBy(since: nat, more: seq<Launch>, before: map<nat, Guest>, after: map<nat, Guest>) {
    forall p | p in after ::
      || (p in before && SameProcess(before[p], after[p]))
      || (p >= since && exists l :: l in more && l.command == after[p].command && l.inputs == after[p].inputs)
  }

  lemma AddedTwice(since: nat, one: seq<Launch>, two: seq<Launch>, a: map<nat, Guest>, b: map<nat, Guest>,
                   c: map<nat, Guest>)
    requires AddedBy(since, one, a, b) && AddedBy(since, two, b, c)
    ensures AddedBy(since, one + two, a, c)
  {
    forall p | p in c && !(p in a && SameProcess(a[p], c[p]))
      ensures p >= since && exists l :: l in one + two && l.command == c[p].command && l.inputs == c[p].inputs
    {
      if p in b && SameProcess(b[p], c[p]) {
        var l :| l in one && l.command == b[p].command && l.inputs == b[p].inputs;
        assert l in one + two;
      } else {
        var l :| l in two && l.command == c[p].command && l.inputs == c[p].inputs;
        assert l in one + two;
      }
    }
  }

  /** One launch, or none and then no new guest. */
  lemma AddedByLaunch(since: nat, pid: nat, more: seq<Launch>, i: Inputs, s: Setting, warm: bool, disk: Overlay,
                      a: map<nat, Guest>, b: map<nat, Guest>)
    requires more == [Attempt(i, s, warm, disk)] || (more == [] && b.Keys <= a.Keys)
    requires since <= pid && MayAdd(a, b, pid, Launched(i, s, warm, disk))
    ensures AddedBy(since, more, a, b)
  {
    var l := Attempt(i, s, warm, disk);
    assert more != [] ==> l in more && l.command == CommandLine(i, s, warm);
  }

  /** Guests that only came up, or were checkpointed, or died, are the processes they were. */
  lemma AddedThenKept(since: nat, more: seq<Launch>, a: map<nat, Guest>, b: map<nat, Guest>, c: map<nat, Guest>)
    requires AddedBy(since, more, a, b) && c.Keys <= b.Keys
    requires forall p | p in c :: SameProcess(b[p], c[p])
    ensures AddedBy(since, more, a, c)
  {
  }

  /** The guests of this `up` forward its port, and one that was resumed does not run on the current overlay. */
  ghost predicate OwnGuests(since: nat, port: nat, overlay: Option<Overlay>, guests: map<nat, Guest>) {
    forall p | p in guests && p >= since ::
      && guests[p].command.hostAdbPort == port
      && (guests[p].Resumed() ==> overlay.None? || guests[p].disk != overlay.value.id)
  }

  lemma ColdLaunchIsOwn(since: nat, pid: nat, i: Inputs, s: Setting, disk: Overlay, overlay: Option<Overlay>,
                        a: map<nat, Guest>, b: map<nat, Guest>)
    requires OwnGuests(since, s.port, Some(disk), a) && overlay.Some? && overlay.value.id == disk.id
    requires MayAdd(a, b, pid, Launched(i, s, false, disk))
    ensures OwnGuests(since, s.port, overlay, b)
  {
  }

  class Host {
    var overlay: Option<Overlay>
    var sidecar: Option<string>
    var sidecarTmp: Option<string>
    var guests: map<nat, Guest>   // live QEMUs by PID
    var pidfile: Option<nat>
    var nextId: nat
    var nextPid: nat
    ghost var log: seq<Launch>
    ghost var saves: nat  // savevm commands issued

    constructor ()
      ensures Inv() && log == [] && guests == map[]
    {
      overlay, sidecar, sidecarTmp, guests, pidfile, nextId, nextPid := None, None, None, map[], None, 0, 0;
      log, saves := [], 0;
    }

    /** The sidecar is that of the overlay, or missing. */
    ghost predicate Keyed()
      reads this`overlay, this`sidecar
      requires overlay.Some?
    {
      sidecar == None || sidecar == Some(Identity(overlay.value.builtWith))
    }

    ghost predicate SnapshotInv()
      reads this`overlay, this`sidecar
    {
      overlay.Some? && overlay.value.snap.Some? ==>
        && overlay.value.dirty
        && overlay.value.snap.value.booted
        && Keyed()
        && Identity(overlay.value.snap.value.inputs) == Identity(overlay.value.builtWith)
    }

    /** A cold-booted guest on the current overlay may yet be checkpointed into it; no other guest may. */
    ghost predicate GuestInv(g: Guest)
      reads this`overlay, this`sidecar, this`nextId
    {
      && g.disk < nextId
      && (g.saving ==> g.booted)
      && (overlay.Some? && g.disk == overlay.value.id ==>
            if g.Resumed() then !g.saving
            else overlay.value.dirty && Keyed() && Identity(g.inputs) == Identity(overlay.value.builtWith))
    }

    /** One process at a time forwards a port. */
    ghost predicate PortsApart()
      reads this`guests
    {
      forall p, q | p in guests && q in guests && p != q ::
          guests[p].command.hostAdbPort != guests[q].command.hostAdbPort
    }

    ghost predicate Inv()
      reads this`overlay, this`sidecar, this`guests, this`nextId, this`nextPid
    {
      && SnapshotInv() && PortsApart()
      && (forall p | p in guests :: p < nextPid && GuestInv(guests[p]))
      && (overlay.Some? ==> overlay.value.id < nextId)
    }

    predicate Busy(port: nat)
      reads this`guests
    {
      exists p | p in guests :: guests[p].command.hostAdbPort == port
    }

    /** `is_running`: the pidfile names a live guest that the guard recognises. */
    predicate IsRunning(port: nat)
      reads this`guests, this`pidfile
    {
      pidfile.Some? && pidfile.value in guests && Recognised(guests[pidfile.value], port)
    }

    /** The overlay exists, matches the inputs and carries a snapshot. */
    predicate FreshSnapshot(i: Inputs)
      reads this`overlay, this`sidecar
    {
      overlay.Some? && sidecar == Some(Identity(i)) && overlay.value.snap.Some?
    }

    /** The guest launched last, by the `up` that began at PID `since`, runs on the current overlay. */
    predicate OnOverlay(since: nat)
      reads this`guests, this`overlay, this`nextPid
    {
      nextPid > since && nextPid - 1 in guests && overlay.Some? && guests[nextPid - 1].disk == overlay.value.id
    }

    // ---- File operations, each of which the process may not survive -----------

    method DiscardOverlay(calm: bool) returns (alive: bool)
      requires Inv()
      modifies this`overlay, this`sidecar
      ensures Inv() && (calm ==> alive)
      ensures alive ==> overlay == None && sidecar == None
    {
      hide Identity;
      var t := Trouble(calm);
      if t { return false; }
      overlay := None;
      t := Trouble(calm);
      if t { return false; }
      sidecar := None;
      t := Trouble(calm);
      alive := !t;
    }

    /** A failed create may leave an unusable file behind. */
    method CreateOverlay(i: Inputs, calm: bool) returns (alive: bool, created: bool)
      requires Inv() && overlay == None
      modifies this`overlay, this`nextId
      ensures calm ==> alive && created
      ensures Inv() && sidecar == old(sidecar) && nextId >= old(nextId)
      ensures alive && created ==> overlay == Some(Overlay(old(nextId), i, false, None))
      ensures overlay.Some? ==> overlay.value.id == old(nextId)
    {
      hide Identity;
      var t := Trouble(calm);
      if t { return false, false; }
      t := Trouble(calm);
      if t {
        if * { overlay, nextId := Some(Overlay(nextId, i, true, None)), nextId + 1; }
        return true, false;
      }
      overlay, nextId := Some(Overlay(nextId, i, false, None)), nextId + 1;
      t := Trouble(calm);
      alive, created := !t, true;
    }

    /** Temp file, then an atomic rename over the sidecar. */
    method RecordIdentity(i: Inputs, calm: bool) returns (alive: bool)
      requires Inv() && overlay.Some? && Clean(overlay.value)
      requires forall p | p in guests :: guests[p].disk != overlay.value.id
      modifies this`sidecar, this`sidecarTmp
      ensures Inv() && (calm ==> alive)
      ensures alive ==> sidecar == Some(Identity(i))
    {
      hide Identity;
      var t := Trouble(calm);
      if t { return false; }
      var id := BaseIdentity(i);
      sidecarTmp := Some(id);
      t := Trouble(calm);
      if t { return false; }
      sidecar, sidecarTmp := sidecarTmp, None;
      t := Trouble(calm);
      alive := !t;
    }

    method Recreate(i: Inputs, calm: bool) returns (alive: bool, created: bool)
      requires Inv() && overlay == None
      modifies this`overlay, this`nextId, this`sidecar, this`sidecarTmp
      ensures Inv() && (calm ==> alive && created)
      ensures alive && created ==> && overlay.Some? && Clean(overlay.value) && overlay.value.builtWith == i
                                   && sidecar == Some(Identity(i))
                                   && forall p | p in guests :: guests[p].disk != overlay.value.id
    {
      hide Identity;
      alive, created := CreateOverlay(i, calm);
      if alive && created { alive := RecordIdentity(i, calm); }
    }

    method SnapshotPresent(works: bool) returns (present: bool)
      ensures present == (works && overlay.Some? && overlay.value.snap.Some?)
    {
      if overlay.None? || !works { return false; }
      present := overlay.value.snap.Some?;
    }

    // ---- Processes ---------------------------------------------------------------

    /** `down`: only a guest the guard recognises is signalled, and the pidfile goes in every case. */
    method Down(port: nat, kills: bool)
      requires Inv()
      modifies this`guests, this`pidfile
      ensures Inv() && pidfile == None
      ensures guests == if old(IsRunning(port)) && kills then old(guests) - {old(pidfile).value} else old(guests)
    {
      hide Identity, Recognised;
      if IsRunning(port) && kills { guests := guests - {pidfile.value}; }
      pidfile := None;
    }

    /** A guest dies on its own. */
    method Dies(pid: nat)
      requires Inv()
      modifies this`guests
      ensures Inv() && guests == old(guests) - {pid}
    {
      hide Identity;
      guests := guests - {pid};
    }

    /** Spawn QEMU; it exits at once if another process forwards its port. */
    method Spawn(i: Inputs, s: Setting, warm: bool) returns (pid: nat)
      requires Inv() && overlay.Some?
      requires !warm ==> sidecar == Some(Identity(i)) == Some(Identity(overlay.value.builtWith))
      modifies this`guests, this`overlay, this`nextPid, this`log
      ensures Inv() && pid == old(nextPid) && nextPid == pid + 1
      ensures log == old(log) + [Attempt(i, s, warm, old(overlay).value)]
      ensures overlay.Some? && overlay.value.(dirty := old(overlay).value.dirty) == old(overlay).value
      ensures guests == if old(Busy(s.port)) then old(guests)
          else old(guests)[pid := Launched(i, s, warm, old(overlay).value)]
      ensures !old(Busy(s.port)) ==>
                guests[pid].command == Qemu.Launch(s.qemuBin, i.accel.Kvm?, i.kernel.path, s.overlay, i.smp,
                                                   i.memoryMib, s.port, true, Some(s.monitor),
                                                   if warm then Some("beetroot-boot") else None)
    {
      hide Identity;
      pid := nextPid;
      nextPid := nextPid + 1;
      log := log + [Attempt(i, s, warm, overlay.value)];
      if !Busy(s.port) {
        guests := guests[pid := Launched(i, s, warm, overlay.value)];
        overlay := Some(overlay.value.(dirty := true));
      }
    }

    /** `start`: refused while the guard sees a guest of this instance; otherwise spawn, then write the pidfile. A
        write that fails may have emptied the file; QEMU runs on, and nothing takes it down. */
    method Start(i: Inputs, s: Setting, warm: bool, tools: Tools) returns (o: Outcome)
      requires Inv() && overlay.Some?
      requires !warm ==> sidecar == Some(Identity(i)) == Some(Identity(overlay.value.builtWith))
      modifies this`guests, this`pidfile, this`overlay, this`nextPid, this`log
      ensures Inv() && (o.Attached? || o.Crashed? || o.LaunchFailed? || o.PidfileFailed?)
      ensures overlay.Some? && overlay.value.(dirty := old(overlay).value.dirty) == old(overlay).value
      ensures log == old(log) || log == old(log) + [Attempt(i, s, warm, old(overlay).value)]
      ensures old(nextPid) <= nextPid <= old(nextPid) + 1
      ensures guests == old(guests)
           || (log != old(log) && guests == old(guests)[old(nextPid) := Launched(i, s, warm, old(overlay).value)])
      ensures old(IsRunning(s.port)) ==> log == old(log) && guests == old(guests) && (o.Crashed? || o.LaunchFailed?)
      ensures !old(IsRunning(s.port)) && !o.Crashed? ==> log != old(log)
      ensures o.Crashed? || o.LaunchFailed? ==> pidfile == old(pidfile)
      ensures o.LaunchFailed? || old(Busy(s.port)) ==> guests == old(guests)
      ensures o.Attached? || o.PidfileFailed? ==>
                && nextPid == old(nextPid) + 1 && (o.Attached? <==> tools.recordsPid)
                && guests == if old(Busy(s.port)) then old(guests)
                             else old(guests)[old(nextPid) := Launched(i, s, warm, old(overlay).value)]
      ensures o.Attached? ==> pidfile == Some(old(nextPid))
      ensures o.PidfileFailed? ==> pidfile == old(pidfile) || pidfile == None
      ensures tools.calm && !old(IsRunning(s.port)) ==> o.Attached? || o.PidfileFailed?
    {
      hide Identity, Recognised, Inv;
      var t := Trouble(tools.calm);
      if t { return Crashed; }
      if IsRunning(s.port) { return LaunchFailed; }
      t := Trouble(tools.calm);
      if t {
        log := log + [Attempt(i, s, warm, overlay.value)];
        return LaunchFailed;
      }
      var pid := Spawn(i, s, warm);
      t := Trouble(tools.calm);
      if t { return Crashed; }
      if !tools.recordsPid {
        if * { pidfile := None; }
        return PidfileFailed;
      }
      pidfile := Some(pid);
      return Attached;
    }

    /** Every round of the wait tries a connect, then whether the guard still sees the guest that was started.
        Anything but a timely attach takes it down, if the guard recognises it. */
    method AwaitAdb(pid: nat, port: nat, tools: Tools) returns (o: Outcome)
      requires Inv() && pidfile == Some(pid)
      modifies this`guests, this`pidfile
      ensures Inv() && (o.Attached? || o.Crashed? || o.LaunchFailed? || o.WaitAborted?)
      ensures guests == old(guests) || guests == old(guests) - {pid}
      ensures o.LaunchFailed? || o.WaitAborted? ==> pidfile == None
      ensures (o.LaunchFailed? || o.WaitAborted?) && old(IsRunning(port)) && tools.signalsLand ==> pid !in guests
      ensures tools.calm ==>
                if tools.adbAtOnce || (tools.adbInTime && old(IsRunning(port))) then
                  o.Attached? && guests == old(guests) && pidfile == old(pidfile)
                else
                  o.LaunchFailed? && pidfile == None
                  && guests == if old(IsRunning(port)) && tools.signalsLand then old(guests) - {pid} else old(guests)
    {
      hide Identity, Recognised, Inv;
      var t := Trouble(tools.calm);
      if t {
        if * { Dies(pid); }
        if * { return Crashed; }
        if * { return Attached; }
        Down(port, tools.signalsLand);
        if * { return LaunchFailed; }
        return WaitAborted;
      }
      if !tools.adbAtOnce && (!IsRunning(port) || !tools.adbInTime) {
        Down(port, tools.signalsLand);
        return LaunchFailed;
      }
      return Attached;
    }

    /** Start QEMU, then wait for ADB. */
    method LaunchVm(i: Inputs, s: Setting, warm: bool, tools: Tools) returns (o: Outcome)
      requires Inv() && overlay.Some?
      requires !warm ==> sidecar == Some(Identity(i)) == Some(Identity(overlay.value.builtWith))
      modifies this`guests, this`pidfile, this`overlay, this`nextPid, this`log
      ensures Inv()
      ensures o.Attached? || o.Crashed? || o.LaunchFailed? || o.WaitAborted? || o.PidfileFailed?
      ensures log == old(log) || log == old(log) + [Attempt(i, s, warm, old(overlay).value)]
      ensures overlay.Some? && overlay.value.(dirty := old(overlay).value.dirty) == old(overlay).value
      ensures old(nextPid) <= nextPid <= old(nextPid) + 1 && (o.Attached? ==> nextPid == old(nextPid) + 1)
      ensures MayAdd(old(guests), guests, old(nextPid), Launched(i, s, warm, old(overlay).value))
      ensures log == old(log) ==> guests.Keys <= old(guests).Keys
      ensures old(IsRunning(s.port)) ==>
                log == old(log) && guests == old(guests) && pidfile == old(pidfile) && (o.LaunchFailed? || o.Crashed?)
      ensures !old(IsRunning(s.port)) && !o.Crashed? ==> log != old(log)
      ensures (o.LaunchFailed? || o.WaitAborted?) && (old(Busy(s.port)) || Stoppable(i, s, tools)) ==>
                guests.Keys <= old(guests).Keys
      ensures o.LaunchFailed? || o.WaitAborted? || o.PidfileFailed? ==> pidfile == old(pidfile) || pidfile == None
      ensures o.PidfileFailed? ==>
                && !tools.recordsPid && Busy(s.port)
                && guests == if old(Busy(s.port)) then old(guests)
                             else old(guests)[old(nextPid) := Launched(i, s, warm, old(overlay).value)]
      ensures tools.calm && !old(IsRunning(s.port)) && !tools.recordsPid ==> o.PidfileFailed?
      ensures tools.calm && !old(IsRunning(s.port)) && tools.recordsPid && old(Busy(s.port)) ==>
                && guests == old(guests) && o == (if tools.adbAtOnce then Attached else LaunchFailed)
                && (!tools.adbAtOnce ==> pidfile == None)
      ensures tools.calm && !old(IsRunning(s.port)) && tools.recordsPid && !old(Busy(s.port)) ==>
                var up := old(guests)[old(nextPid) := Launched(i, s, warm, old(overlay).value)];
                if AdbAttaches(i, s, tools) then o.Attached? && guests == up && pidfile == Some(old(nextPid))
                else o.LaunchFailed? && pidfile == None && guests == if Stoppable(i, s, tools) then old(guests) else up
    {
      hide Identity, Recognised, Recognisable, GuestInv, SnapshotInv, PortsApart;
      ghost var pid := nextPid;
      assert pid !in guests;
      RecognisedWhenLaunched(i, s, warm, Launched(i, s, warm, overlay.value));
      o := Start(i, s, warm, tools);
      assert pid in guests ==> guests[pid].command.hostAdbPort == s.port && Busy(s.port);
      if !o.Attached? { return; }
      hide Inv;
      o := AwaitAdb(pidfile.value, s.port, tools);
    }

    method MarkBooted(pid: nat)
      requires Inv() && pid in guests
      modifies this`guests
      ensures Inv() && guests == old(guests)[pid := old(guests)[pid].(booted := true)]
    {
      hide Identity;
      guests := guests[pid := guests[pid].(booted := true)];
    }

    lemma OnlyOne(pid: nat)
      requires Inv() && pid in guests
      ensures forall p | p in guests && guests[p].command.hostAdbPort == guests[pid].command.hostAdbPort :: p == pid
    {
    }

    /** A true answer means that whoever forwards the port has reported sys.boot_completed. */
    method WaitForBootCompleted(port: nat, boots: bool, calm: bool) returns (booted: bool)
      requires Inv()
      modifies this`guests
      ensures Inv() && guests.Keys <= old(guests).Keys
      ensures forall p | p in guests :: guests[p].(booted := old(guests)[p].booted) == old(guests)[p]
      ensures booted ==> boots && forall p | p in guests && guests[p].command.hostAdbPort == port :: guests[p].booted
      ensures !booted ==> !boots || !Busy(port)
      ensures calm ==> guests.Keys == old(guests).Keys && (booted <==> boots && old(Busy(port)))
    {
      hide Identity, Inv;
      if !Busy(port) || !boots { return false; }
      var pid :| pid in guests && guests[pid].command.hostAdbPort == port;
      MarkBooted(pid);
      OnlyOne(pid);
      var t := Trouble(calm);
      if t { Dies(pid); }
      return true;
    }

    /** Marks the guest a savevm was sent to, or has completed in. */
    method MarkSaving(pid: nat, saving: bool)
      requires Inv() && pid in guests
      requires saving ==>
                 guests[pid].booted && (guests[pid].Resumed() ==> overlay.None? || guests[pid].disk != overlay.value.id)
      modifies this`guests
      ensures Inv() && guests == old(guests)[pid := old(guests)[pid].(saving := saving)]
    {
      hide Identity;
      guests := guests[pid := guests[pid].(saving := saving)];
    }

    /** savevm over the monitor socket, which leads to a guest launched by this `up` if to any. It may complete now,
        later or never, whatever it reports; in calm it reaches the last one launched and completes now. */
    method SaveSnapshot(since: nat, calm: bool) returns (reported: bool)
      requires Inv()
      requires forall p | p in guests && p >= since ::
                 guests[p].booted && (guests[p].Resumed() ==> overlay.None? || guests[p].disk != overlay.value.id)
      modifies this`overlay, this`guests, this`saves
      ensures Inv() && saves == old(saves) + 1
      ensures guests.Keys == old(guests).Keys
      ensures forall p | p in guests :: guests[p].(saving := old(guests)[p].saving) == old(guests)[p]
      ensures overlay.Some? <==> old(overlay).Some?
      ensures overlay.Some? ==> overlay.value.(snap := old(overlay).value.snap) == old(overlay).value
      ensures calm && overlay.Some? && OnOverlay(since) ==> overlay.value.snap.Some?
    {
      hide Identity, Inv;
      reported := *;
      saves := saves + 1;
      var pid: nat := *;
      if calm && nextPid > since { pid := nextPid - 1; }
      if pid >= since && pid in guests { Savevm(pid, calm); }
    }

    method Savevm(pid: nat, calm: bool)
      requires Inv() && pid in guests && guests[pid].booted
      requires guests[pid].Resumed() ==> overlay.None? || guests[pid].disk != overlay.value.id
      modifies this`overlay, this`guests
      ensures Inv() && pid in guests && guests == old(guests)[pid := old(guests)[pid].(saving := guests[pid].saving)]
      ensures overlay.Some? <==> old(overlay).Some?
      ensures overlay.Some? ==> overlay.value.(snap := old(overlay).value.snap) == old(overlay).value
      ensures calm && overlay.Some? && guests[pid].disk == overlay.value.id ==> overlay.value.snap.Some?
    {
      hide Identity, Inv;
      MarkSaving(pid, true);
      var later: bool := *;
      if calm || !later {
        SaveLands(pid);
        MarkSaving(pid, false);
      }
    }

    method SaveLands(pid: nat)
      requires Inv()
      modifies this`overlay
      ensures Inv()
      ensures overlay.Some? <==> old(overlay).Some?
      ensures overlay.Some? ==> overlay.value.(snap := old(overlay).value.snap) == old(overlay).value
      ensures pid in guests && guests[pid].saving && overlay.Some? && guests[pid].disk == overlay.value.id ==>
                overlay.value.snap == Some(Saved(guests[pid].inputs, guests[pid].booted))
    {
      hide Identity;
      if pid in guests && guests[pid].saving && overlay.Some? && guests[pid].disk == overlay.value.id {
        overlay := Some(overlay.value.(snap := Some(Saved(guests[pid].inputs, guests[pid].booted))));
      }
    }

    // ---- One cached up -------------------------------------------------------------

    /** Settle on an overlay that matches the inputs: keep a fresh snapshot, replace anything else. */
    method PrepareOverlay(i: Inputs, tools: Tools) returns (alive: bool, created: bool)
      requires Inv()
      modifies this`overlay, this`nextId, this`sidecar, this`sidecarTmp
      ensures Inv() && (tools.calm ==> alive && created)
      ensures alive && created ==>
        if old(FreshSnapshot(i)) && tools.firstProbe
        then overlay == old(overlay) && sidecar == old(sidecar)
        else && overlay.Some? && Clean(overlay.value) && overlay.value.builtWith == i
             && sidecar == Some(Identity(i)) && forall p | p in guests :: guests[p].disk != overlay.value.id
    {
      hide Identity, Inv;
      alive, created := true, true;
      if overlay.Some? && sidecar != Some(Identity(i)) {
        alive := DiscardOverlay(tools.calm);
      } else if overlay.Some? {
        var present := SnapshotPresent(tools.firstProbe);
        if !present { alive := DiscardOverlay(tools.calm); }
      }
      if !alive { return; }
      if overlay.None? { alive, created := Recreate(i, tools.calm); }
    }

    /** After a cold launch: checkpoint, but only a guest that reported it booted. `since` is the first PID of this
        `up`. */
    method FinishCold(since: nat, s: Setting, boots: bool, calm: bool) returns (o: Outcome)
      requires Inv()
      requires OwnGuests(since, s.port, overlay, guests)
      modifies this`overlay, this`guests, this`saves
      ensures Inv() && guests.Keys <= old(guests).Keys
      ensures o.PollAborted? || o.Crashed? || o.NotBooted? || o.Checkpointed?
      ensures o.NotBooted? ==> !boots || !Busy(s.port)
      ensures o.Checkpointed? ==> boots
      ensures saves == old(saves) + if o.Checkpointed? then 1 else 0
      ensures overlay.Some? <==> old(overlay).Some?
      ensures overlay.Some? ==> overlay.value.(snap := old(overlay).value.snap) == old(overlay).value
      ensures calm ==> guests.Keys == old(guests).Keys
      ensures forall p | p in guests :: SameProcess(old(guests)[p], guests[p])
      ensures calm && old(OnOverlay(since)) && old(Busy(s.port)) ==>
                if boots then o.Checkpointed? && overlay.value.snap.Some? else o.NotBooted?
    {
      hide Identity, Inv;
      var t := Trouble(calm);
      if t { return PollAborted; }
      var booted := WaitForBootCompleted(s.port, boots, calm);
      if !booted { return NotBooted; }
      t := Trouble(calm);
      if t { return Crashed; }
      var reported := SaveSnapshot(since, calm);
      return Checkpointed;
    }

    /** The cold tail of an `up`: one launch, then perhaps a checkpoint. */
    method ColdBoot(since: nat, i: Inputs, s: Setting, tools: Tools) returns (o: Outcome)
      requires Inv() && overlay.Some? && sidecar == Some(Identity(i)) == Some(Identity(overlay.value.builtWith))
      requires since <= nextPid && OwnGuests(since, s.port, overlay, guests)
      modifies this
      ensures Inv()
      ensures log == old(log) || log == old(log) + [Attempt(i, s, false, old(overlay).value)]
      ensures AddedBy(since, log[|old(log)|..], old(guests), guests)
      ensures old(IsRunning(s.port)) ==> log == old(log)
      ensures Raised(o) && (old(Busy(s.port)) || Stoppable(i, s, tools)) ==> guests.Keys <= old(guests).Keys
      ensures o.PidfileFailed? ==> !tools.recordsPid && Busy(s.port) && (pidfile == old(pidfile) || pidfile == None)
      ensures !o.Attached? && !o.Resumed?
      ensures o.NotBooted? || o.Checkpointed? ==> log != old(log)
      ensures o.NotBooted? ==> !tools.bootsInTime || !Busy(s.port)
      ensures o.Checkpointed? ==> tools.bootsInTime
      ensures saves == old(saves) + if o.Checkpointed? then 1 else 0
      ensures tools.calm && !old(IsRunning(s.port)) && !tools.recordsPid ==> o.PidfileFailed?
      ensures tools.calm && tools.recordsPid && !old(IsRunning(s.port)) && old(Busy(s.port)) && !tools.adbAtOnce ==>
                o.LaunchFailed? && guests == old(guests) && pidfile == None
      ensures tools.calm && tools.recordsPid && old(guests) == map[] ==>
                Ends(i, s, tools, false, old(nextPid), o, guests, pidfile, FreshSnapshot(i))
    {
      hide Identity, Inv, Recognised, Recognisable, Launched, CommandLine, Busy, IsRunning, OnOverlay, Ends,
          AdbAttaches, Stoppable, AddedBy, SameProcess, OwnGuests, MayAdd;
      EmptyIsIdle(s.port);
      ghost var quiet := tools.calm && tools.recordsPid && guests == map[];
      ghost var pid, disk := nextPid, overlay.value;
      o := LaunchVm(i, s, false, tools);
      ColdLaunchIsOwn(since, pid, i, s, disk, overlay, old(guests), guests);
      AddedByLaunch(since, pid, log[|old(log)|..], i, s, false, disk, old(guests), guests);
      if o.Attached? {
        LastLaunched(since, s.port);
        ghost var was := guests;
        o := FinishCold(since, s, tools.bootsInTime, tools.calm);
        AddedThenKept(since, log[|old(log)|..], old(guests), was, guests);
        if quiet { ColdEnds(i, s, tools, pid, o, was, guests, FreshSnapshot(i)); }
      } else if quiet {
        RaiseEnds(i, s, tools, false, pid, guests);
      }
    }

    lemma EmptyIsIdle(port: nat)
      ensures guests == map[] ==> !Busy(port) && !IsRunning(port)
      ensures pidfile == None ==> !IsRunning(port)
    {
      hide Recognised;
    }

    lemma AnyoneIsBusy(port: nat)
      ensures guests.Keys != {} && (forall p | p in guests :: guests[p].command.hostAdbPort == port) ==> Busy(port)
    {
      if guests.Keys != {} { var p :| p in guests.Keys; }
    }

    lemma LastLaunched(since: nat, port: nat)
      requires since < nextPid && overlay.Some?
      ensures nextPid - 1 in guests && guests[nextPid - 1].command.hostAdbPort == port ==> Busy(port)
      ensures nextPid - 1 in guests && guests[nextPid - 1].disk == overlay.value.id ==> OnOverlay(since)
    {
    }

    /** The warm attempt: resumed, or given up and the overlay replaced by a pristine one (`LaunchFailed`). */
    method TryWarm(i: Inputs, s: Setting, tools: Tools) returns (o: Outcome)
      requires Inv() && overlay.Some?
      modifies this
      ensures Inv() && saves == old(saves)
      ensures o.Resumed? || o.Crashed? || Raised(o) || o.PidfileFailed?
      ensures log == old(log) || log == old(log) + [Attempt(i, s, true, old(overlay).value)]
      ensures old(nextPid) <= nextPid
      ensures MayAdd(old(guests), guests, old(nextPid), Launched(i, s, true, old(overlay).value))
      ensures AddedBy(old(nextPid), log[|old(log)|..], old(guests), guests)
      ensures old(IsRunning(s.port)) ==>
                log == old(log) && guests == old(guests) && pidfile == old(pidfile) && !o.Resumed? && !o.PidfileFailed?
      ensures !old(IsRunning(s.port)) && !o.Crashed? && !o.FileFailed? ==> log != old(log)
      ensures o.LaunchFailed? ==>
                && (pidfile == old(pidfile) || pidfile == None)
                && overlay.Some? && Clean(overlay.value) && overlay.value.builtWith == i
                && sidecar == Some(Identity(i)) && forall p | p in guests :: guests[p].disk != overlay.value.id
      ensures Raised(o) && (old(Busy(s.port)) || Stoppable(i, s, tools)) ==> guests.Keys <= old(guests).Keys
      ensures o.PidfileFailed? ==> !tools.recordsPid && Busy(s.port) && (pidfile == old(pidfile) || pidfile == None)
      ensures tools.calm && !old(IsRunning(s.port)) && !tools.recordsPid ==> o.PidfileFailed?
      ensures tools.calm && tools.recordsPid && !old(IsRunning(s.port)) && old(Busy(s.port)) && !tools.adbAtOnce ==>
                guests == old(guests) && o.LaunchFailed? && pidfile == None
      ensures tools.calm && tools.recordsPid && old(guests) == map[] ==>
                if AdbAttaches(i, s, tools) then
                  && o.Resumed? && guests == map[old(nextPid) := Launched(i, s, true, old(overlay).value)]
                  && pidfile == Some(old(nextPid)) && sidecar == old(sidecar)
                  && overlay.Some? && overlay.value.snap == old(overlay).value.snap
                else
                  && o.LaunchFailed? && pidfile == None
                  && guests.Keys == (if Stoppable(i, s, tools) then {} else {old(nextPid)})
                  && (guests.Keys != {} ==> Busy(s.port))
    {
      hide Identity, Inv, Recognised, Recognisable, Launched, CommandLine, Busy, IsRunning, AdbAttaches, Stoppable,
        AddedBy;
      EmptyIsIdle(s.port);
      ghost var disk := overlay.value;
      o := LaunchVm(i, s, true, tools);
      AddedByLaunch(old(nextPid), old(nextPid), log[|old(log)|..], i, s, true, disk, old(guests), guests);
      if o.Attached? {
        o := Resumed;
      } else if o.LaunchFailed? {
        AnyoneIsBusy(s.port);
        o := Replace(i, tools.calm);
      }
    }

    /** The overlay whose snapshot would not resume makes way for a pristine one; `LaunchFailed` if all went well. */
    method Replace(i: Inputs, calm: bool) returns (o: Outcome)
      requires Inv()
      modifies this`overlay, this`nextId, this`sidecar, this`sidecarTmp
      ensures Inv() && (o.LaunchFailed? || o.Crashed? || o.FileFailed? || o.OverlayFailed?)
      ensures o.LaunchFailed? ==>
                && overlay.Some? && Clean(overlay.value) && overlay.value.builtWith == i
                && sidecar == Some(Identity(i)) && forall p | p in guests :: guests[p].disk != overlay.value.id
      ensures calm ==> o.LaunchFailed?
    {
      hide Identity, Inv;
      var alive := DiscardOverlay(calm);
      if !alive {
        o := Halted();
        return;
      }
      var created;
      alive, created := Recreate(i, calm);
      if !alive {
        o := Halted();
        return;
      }
      return if created then LaunchFailed else OverlayFailed;
    }

    /** Everything after the overlay is settled: a warm launch if there is a snapshot, a cold one otherwise or after it
        failed. `more` are the spawns. */
    method BootFrom(i: Inputs, s: Setting, tools: Tools, warm: bool) returns (o: Outcome, ghost more: seq<Launch>)
      requires Inv() && overlay.Some? && sidecar == Some(Identity(i)) == Some(Identity(overlay.value.builtWith))
      requires forall p | p in guests :: p < nextPid
      requires warm ==> overlay.value.snap.Some? && overlay.value.snap.value.booted
      modifies this
      ensures Inv()
      ensures log == old(log) + more && Spawns(more, i, s, warm, old(overlay).value)
      ensures AddedBy(old(nextPid), more, old(guests), guests)
      ensures old(IsRunning(s.port)) ==> more == []
      ensures !o.Attached?
      ensures o.Resumed? ==> more == [Attempt(i, s, true, old(overlay).value)]
      ensures o.NotBooted? || o.Checkpointed? ==> more != [] && more[|more| - 1].Cold()
      ensures o.NotBooted? ==> !tools.bootsInTime || !Busy(s.port)
      ensures o.Checkpointed? ==> tools.bootsInTime
      ensures saves == old(saves) + if o.Checkpointed? then 1 else 0
      ensures Raised(o) && Stoppable(i, s, tools) ==> guests.Keys <= old(guests).Keys
      ensures o.PidfileFailed? ==> !tools.recordsPid && Busy(s.port) && (pidfile == old(pidfile) || pidfile == None)
      ensures tools.calm && !old(IsRunning(s.port)) && !tools.recordsPid ==> o.PidfileFailed?
      ensures tools.calm && tools.recordsPid && old(guests) == map[] ==>
                Ends(i, s, tools, warm, old(nextPid), o, guests, pidfile, FreshSnapshot(i))
      ensures tools.calm && tools.recordsPid && !old(IsRunning(s.port)) && old(Busy(s.port)) && !tools.adbAtOnce ==>
                o.LaunchFailed? && guests == old(guests) && pidfile == None
    {
      hide Identity, Inv, Recognised, Recognisable, Launched, CommandLine, Busy, IsRunning, Ends, Stoppable, AddedBy;
      var since := nextPid;
      ghost var start := log;
      EmptyIsIdle(s.port);
      ghost var quiet := tools.calm && tools.recordsPid && guests == map[];
      if warm {
        o := TryWarm(i, s, tools);
        more := log[|start|..];
        if !o.LaunchFailed? {
          if quiet { WarmEnds(i, s, tools, since, guests, FreshSnapshot(i)); }
        } else {
          EmptyIsIdle(s.port);
          ghost var next, was, mid := nextPid, guests, log;
          o := ColdBoot(since, i, s, tools);
          AddedTwice(since, more, log[|mid|..], old(guests), was, guests);
          more := more + log[|mid|..];
          if quiet {
            if Stoppable(i, s, tools) { GoneEnds(i, s, tools, since, next, o, guests, pidfile, FreshSnapshot(i)); }
            else { RaiseEnds(i, s, tools, true, since, guests); }
          }
        }
      } else {
        o := ColdBoot(since, i, s, tools);
        more := log[|start|..];
      }
    }

    method UpCached(i: Inputs, s: Setting, tools: Tools) returns (o: Outcome)
      requires Inv()
      modifies this
      ensures Inv()
      ensures |log| >= |old(log)| && log[..|old(log)|] == old(log)
      // at most one warm launch and then one cold one, each with the whole command line that was configured
      ensures |log| <= |old(log)| + 2
      ensures |log| == |old(log)| + 2 ==> log[|log| - 2].Warm() && log[|log| - 1].Cold()
      ensures forall l | l in log[|old(log)|..] ::
                && (l.Warm() || l.Cold()) && (l.Warm() ==> Resumable(l)) && l.inputs == i
                && l.command == Qemu.Launch(s.qemuBin, i.accel.Kvm?, i.kernel.path, s.overlay, i.smp, i.memoryMib,
                                            s.port, true, Some(s.monitor), l.command.loadvm)
      ensures forall p | p in guests ::
                || (p in old(guests) && guests[p].command == old(guests)[p].command)
                || (p >= old(nextPid) && exists k :: |old(log)| <= k < |log| && log[k].command == guests[p].command)
      ensures forall k | |old(log)| <= k < |log| && log[k].Cold() ::
                !log[k].disk.dirty && log[k].disk.snap.None?
                <==> !(k == |old(log)| && old(FreshSnapshot(i)) && tools.firstProbe && !tools.secondProbe)
      ensures |log| > |old(log)| ==>
                (log[|old(log)|].Warm() <==> old(FreshSnapshot(i)) && tools.firstProbe && tools.secondProbe)
      ensures old(IsRunning(s.port)) ==> log == old(log)
      ensures !o.Attached?
      ensures o.Resumed? ==> |log| > |old(log)| && log[|log| - 1].Warm()
      ensures o.NotBooted? || o.Checkpointed? ==> |log| > |old(log)| && log[|log| - 1].Cold()
      ensures o.NotBooted? ==> !tools.bootsInTime || !Busy(s.port)
      ensures o.Checkpointed? ==> tools.bootsInTime
      ensures saves == old(saves) + if o.Checkpointed? then 1 else 0
      // a raise adds no live guest if its guest can be stopped, unless it comes from the pidfile or the boot poll
      ensures (o.LaunchFailed? || o.WaitAborted? || o.OverlayFailed? || o.FileFailed?) && Stoppable(i, s, tools) ==>
                guests.Keys <= old(guests).Keys
      // a pidfile that cannot be written always leaves a guest on the port
      ensures o.PidfileFailed? ==> !tools.recordsPid && Busy(s.port) && (pidfile == old(pidfile) || pidfile == None)
      ensures tools.calm && !old(IsRunning(s.port)) && !tools.recordsPid ==> o.PidfileFailed?
      // undisturbed, from no guest at all
      ensures tools.calm && tools.recordsPid && old(guests) == map[] ==>
                Ends(i, s, tools, old(FreshSnapshot(i)) && tools.firstProbe && tools.secondProbe,
                     old(nextPid), o, guests, pidfile, FreshSnapshot(i))
      // a guest that the guard does not see but that holds the port makes every further `up` fail
      ensures tools.calm && tools.recordsPid && !old(IsRunning(s.port)) && old(Busy(s.port)) && !tools.adbAtOnce ==>
                o.LaunchFailed? && guests == old(guests) && pidfile == None
    {
      hide Identity, Inv, Recognised, Recognisable, Resumable, Launched, CommandLine, Busy, IsRunning, Ends,
        AdbAttaches, Stoppable;
      BornBefore();
      FreshIsKeyed(i);
      var alive, created := PrepareOverlay(i, tools);
      if !alive {
        o := Halted();
        return;
      }
      if !created { return OverlayFailed; }
      var warm := SnapshotPresent(tools.secondProbe);
      if warm { WarmIsResumable(i, s); }
      ghost var more;
      ghost var disk := overlay.value;
      o, more := BootFrom(i, s, tools, warm);
      SpawnsAreBounded(more, i, s, warm, disk);
      assert log[|old(log)|..] == more;
    }

    lemma BornBefore()
      requires Inv()
      ensures forall p | p in guests :: p < nextPid
    {
    }

    lemma FreshIsKeyed(i: Inputs)
      requires Inv()
      ensures FreshSnapshot(i) ==> sidecar == Some(Identity(overlay.value.builtWith))
    {
    }

    lemma WarmIsResumable(i: Inputs, s: Setting)
      requires Inv() && FreshSnapshot(i)
      ensures Resumable(Attempt(i, s, true, overlay.value)) && overlay.value.snap.value.booted
    {
    }
  }

  /** The guest a launch brings to life. It has booted only if -loadvm resumed a booted one. */
  function Launched(i: Inputs, s: Setting, warm: bool, disk: Overlay): (g: Guest)
    ensures g.command == CommandLine(i, s, warm) && g.disk == disk.id && g.Resumed() == warm
    ensures g.inputs == i && (g.booted <==> warm && disk.snap.Some? && disk.snap.value.booted)
  {
    var command := CommandLine(i, s, warm);
    Guest(i, command, disk.id, command.loadvm.Some? && disk.snap.Some? && disk.snap.value.booted, false)
  }

  // ---- Whole runs ----------------------------------------------------------------------

  datatype Action =
    | Up(inputs: Inputs, setting: Setting, tools: Tools)
    | Stop(port: nat, kills: bool)
    | GuestDies(pid: nat)
    | LateSave(pid: nat)
    | DeleteOverlay
    | DeleteSidecar

  /** Any sequence of ups with arbitrary inputs and settings, stops, guest deaths, late checkpoints and deletions by
      hand. */
  method Campaign(actions: seq<Action>) returns (host: Host)
    ensures host.Inv()
    ensures forall l | l in host.log && l.Warm() :: Resumable(l)
  {
    hide Identity, Recognised, Recognisable, Resumable;
    host := new Host();
    for n := 0 to |actions|
      invariant fresh(host) && host.Inv()
      invariant forall l | l in host.log && l.Warm() :: Resumable(l)
    {
      match actions[n]
      case Up(i, s, tools) =>
        ghost var before := host.log;
        var o := host.UpCached(i, s, tools);
        forall l | l in host.log && l.Warm() ensures Resumable(l) {
          assert host.log == before + host.log[|before|..];
        }
      case Stop(port, kills) => host.Down(port, kills);
      case GuestDies(pid) => host.Dies(pid);
      case LateSave(pid) => host.SaveLands(pid);
      case DeleteOverlay => host.overlay := None;
      case DeleteSidecar => host.sidecar := None;
    }
  }

  /** All goes well, and ADB attaches sooner or later. */
  predicate Fine(tools: Tools) {
    && tools.calm && tools.recordsPid && tools.firstProbe && tools.secondProbe
    && (tools.adbAtOnce || tools.adbInTime) && tools.bootsInTime
  }

  /** All goes well, but the first connect is refused. */
  const FINE := Tools(true, true, false, true, true, true, true, true)

  /** After one undisturbed boot of a recognisable guest, stopped, the next undisturbed `up` resumes it. */
  method SecondUpResumes(h: Host, i: Inputs, s: Setting, one: Tools, two: Tools)
      returns (first: Outcome, second: Outcome)
    requires h.Inv() && h.guests == map[] && Recognisable(i, s) && Fine(one) && Fine(two)
    modifies h
    ensures h.Inv() && second.Resumed? && h.Busy(s.port) && forall p | p in h.guests :: h.guests[p].booted
    ensures first.Resumed? <==> old(h.FreshSnapshot(i))
  {
    hide Identity, Recognisable, Recognised;
    first := h.UpCached(i, s, one);
    StopReaches(h, i, s);
    h.Down(s.port, true);
    assert h.guests == map[];
    second := h.UpCached(i, s, two);
    StopReaches(h, i, s);
  }

  /** The one guest of an undisturbed `up` is seen by the guard exactly when it can be recognised. */
  lemma StopReaches(h: Host, i: Inputs, s: Setting)
    requires h.pidfile.Some? && h.guests.Keys == {h.pidfile.value}
    requires exists warm :: h.guests[h.pidfile.value].command == CommandLine(i, s, warm)
    ensures h.IsRunning(s.port) <==> Recognisable(i, s)
    ensures h.Busy(s.port)
  {
    hide Recognised, Recognisable;
    var g := h.guests[h.pidfile.value];
    var warm :| g.command == CommandLine(i, s, warm);
    RecognisedWhenLaunched(i, s, warm, g);
  }

  /** With a binary and paths that do not spell qemu-system, an `up` whose first connect is refused raises and leaves
      a live guest without a pidfile; no stop reaches it, and every further such `up` fails on its port. */
  method UnrecognisableStrands(h: Host, i: Inputs, s: Setting, further: nat) returns (outcomes: seq<Outcome>)
    requires h.Inv() && h.guests == map[] && !Recognisable(i, s)
    modifies h
    ensures |outcomes| == further + 1 && forall o | o in outcomes :: o.LaunchFailed?
    ensures h.pidfile == None && h.Busy(s.port)
  {
    hide Identity, Recognisable, Recognised;
    var first := h.UpCached(i, s, FINE);
    outcomes := [first];
    for n := 0 to further
      invariant h.Inv() && h.pidfile == None && h.Busy(s.port)
      invariant |outcomes| == n + 1 && forall o | o in outcomes :: o.LaunchFailed?
    {
      h.Down(s.port, true);
      var next := h.UpCached(i, s, FINE);
      outcomes := outcomes + [next];
    }
    h.Down(s.port, true);
  }

  /** Nor does a stop reach it when the first connect was accepted and the `up` succeeded. */
  method UnrecognisableOutlivesItsStop(h: Host, i: Inputs, s: Setting) returns (o: Outcome)
    requires h.Inv() && h.guests == map[] && !Recognisable(i, s)
    modifies h
    ensures o.Resumed? || o.Checkpointed?
    ensures h.pidfile == None && h.Busy(s.port)
  {
    hide Identity, Recognisable, Recognised;
    o := h.UpCached(i, s, FINE.(adbAtOnce := true));
    StopReaches(h, i, s);
    h.Down(s.port, true);
  }

  /** An `up` that cannot write its pidfile raises and leaves its guest running, a recognisable one included: no stop
      finds it. */
  method UnwritablePidfileStrands(h: Host, i: Inputs, s: Setting) returns (o: Outcome)
    requires h.Inv() && h.guests == map[] && h.pidfile == None
    modifies h
    ensures o.PidfileFailed? && h.pidfile == None && h.Busy(s.port)
  {
    hide Identity, Recognisable, Recognised;
    o := h.UpCached(i, s, FINE.(recordsPid := false));
    h.Down(s.port, true);
  }

  /** Once the ADB port was edited, a stop no longer recognises the guest that runs on the former one. */
  method PortEditStrands(h: Host, port: nat)
    requires h.Inv() && h.pidfile.Some? && h.pidfile.value in h.guests
    requires port != h.guests[h.pidfile.value].command.hostAdbPort
    requires !Qemu.InFreeText(h.guests[h.pidfile.value].command, Qemu.Token(port))
    modifies h
    ensures h.guests == old(h.guests) && h.pidfile == None
  {
    hide Identity;
    Qemu.RecognisedExactly(h.guests[h.pidfile.value].command, port);
    h.Down(port, true);
  }

  /** A probe that fails only the second time has the guest cold-booted on its checkpointed overlay. */
  method DirtyColdBoot(h: Host, i: Inputs, s: Setting) returns (o: Outcome)
    requires h.Inv() && h.guests == map[] && Recognisable(i, s)
    modifies h
    ensures h.log != [] && h.log[|h.log| - 1].Cold() && !Clean(h.log[|h.log| - 1].disk)
  {
    hide Identity, Recognisable, Recognised;
    o := h.UpCached(i, s, FINE);
    StopReaches(h, i, s);
    h.Down(s.port, true);
    assert h.guests == map[];
    ghost var n := |h.log|;
    o := h.UpCached(i, s, FINE.(secondProbe := false));
    assert h.log[n].Cold();
  }

  /** What a resumed guest was built from: the same geometry, accelerator and files, up to exchanging the two. */
  lemma ResumedInputs(l: Launch)
    requires Resumable(l) && PlainInputs(l.inputs) && PlainInputs(l.disk.snap.value.inputs)
    ensures l.disk.snap.value.booted
    ensures SameGeometry(l.disk.snap.value.inputs, l.inputs) && SameUpToRoles(l.disk.snap.value.inputs, l.inputs)
  {
    IdentityPinsInputs(l.disk.snap.value.inputs, l.inputs);
  }
}
