/**
 The QEMU command line and the process it identifies (src/beetroot/vm/qemu.py):
 a port token written by one function and looked for by another guards every
 signal sent into a process table whose PIDs are recycled.
 */
module Qemu {
  import opened Prelude
  import opened Text

  const GUEST_ADB_PORT: nat := 5555
  const MARK := "hostfwd="
  const LOOPBACK := "tcp:127.0.0.1:"
  const KERNEL_ARGS := "console=ttyS0 root=/dev/vda rw " + "init=/init panic=1 " + "mitigations=off"

  /** The knobs of one launch. No caller sets the disk cache mode, so it is left out. */
  datatype Launch = Launch(
    qemuBin: string, kvm: bool, kernel: string, rootfs: string, smp: nat, memoryMib: nat,
    hostAdbPort: nat, qcow2: bool, monitor: Option<string>, loadvm: Option<string>)

  function HostForward(port: nat): string { MARK + LOOPBACK + Dec(port) + "-:" + Dec(GUEST_ADB_PORT) }

  function Drive(l: Launch): string {
    "file=" + l.rootfs + ",format=" + (if l.qcow2 then "qcow2" else "raw") + ",if=virtio"
  }

  function NetDev(port: nat): string { "user,id=net0," + HostForward(port) }

  function Monitor(socket: string): string { "unix:" + socket + ",server,nowait" }

  function AccelArgs(kvm: bool): seq<string> {
    if kvm then ["-accel", "kvm", "-cpu", "host"]
    else ["-accel", "tcg,thread=multi,tb-size=1024", "-cpu", "max"]
  }

  function BuildArgv(l: Launch): seq<string> {
    [l.qemuBin, "-M", "q35"] + AccelArgs(l.kvm)
    + CoreArgs(l) + DeviceArgs(l) + LastArgs(l)
  }

  function CoreArgs(l: Launch): seq<string> {
    ["-smp", Dec(l.smp), "-m", Dec(l.memoryMib), "-nographic", "-display", "none", "-no-reboot", "-kernel", l.kernel]
  }

  function DeviceArgs(l: Launch): seq<string> {
    ["-drive", Drive(l), "-netdev", NetDev(l.hostAdbPort), "-device", "virtio-net-pci,netdev=net0"]
  }

  /** Monitor and snapshot, if any, and the kernel's own command line. */
  function LastArgs(l: Launch): seq<string> {
    (if l.monitor.Some? then ["-monitor", Monitor(l.monitor.value)] else [])
    + ((if l.loadvm.Some? then ["-loadvm", l.loadvm.value] else []) + ["-append", KERNEL_ARGS])
  }

  // ---- What the command line says ----------------------------------------------

  /** The values an option is given on a command line in which only two options stand alone. */
  function ValuesOf(args: seq<string>, option: string): seq<string> {
    if args == [] then []
    else if args[0] == "-nographic" || args[0] == "-no-reboot" then ValuesOf(args[1..], option)
    else if |args| == 1 then []
    else Given(option, args[0], args[1]) + ValuesOf(args[2..], option)
  }

  function Given(option: string, x: string, value: string): seq<string> { if x == option then [value] else [] }

  lemma PairFirst(x: string, value: string, rest: seq<string>, option: string)
    requires x != "-nographic" && x != "-no-reboot"
    ensures ValuesOf([x, value] + rest, option) == Given(option, x, value) + ValuesOf(rest, option)
  {
    assert ([x, value] + rest)[2..] == rest;
  }

  lemma FlagFirst(x: string, rest: seq<string>, option: string)
    requires x == "-nographic" || x == "-no-reboot"
    ensures ValuesOf([x] + rest, option) == ValuesOf(rest, option)
  {
    assert ([x] + rest)[1..] == rest;
  }

  lemma LastValues(l: Launch, option: string)
    ensures ValuesOf(LastArgs(l), option)
            == (if l.monitor.Some? then Given(option, "-monitor", Monitor(l.monitor.value)) else [])
               + (if l.loadvm.Some? then Given(option, "-loadvm", l.loadvm.value) else [])
               + Given(option, "-append", KERNEL_ARGS)
  {
    assert ValuesOf([], option) == [];
    hide Monitor, ValuesOf, Given;
    var append := ["-append", KERNEL_ARGS];
    PairFirst("-append", KERNEL_ARGS, [], option);
    assert append + [] == append;
    var rest := (if l.loadvm.Some? then ["-loadvm", l.loadvm.value] else []) + append;
    if l.loadvm.Some? { PairFirst("-loadvm", l.loadvm.value, append, option); } else { assert rest == append; }
    if l.monitor.Some? {
      PairFirst("-monitor", Monitor(l.monitor.value), rest, option);
    } else {
      assert LastArgs(l) == rest;
    }
  }

  /** Read from the left: a pair is read off first, what stands alone gives nothing. */
  lemma AllValues(l: Launch, option: string)
    ensures ValuesOf(BuildArgv(l)[1..], option)
         == HeadValues(l, option) + (CoreValues(l, option) + DeviceValues(l, option))
  {
    hide ValuesOf, AccelArgs, CoreArgs, DeviceArgs, LastArgs, HeadValues, CoreValues, DeviceValues;
    var rest := DeviceArgs(l) + LastArgs(l);
    assert BuildArgv(l)[1..] == ["-M", "q35"] + (AccelArgs(l.kvm) + (CoreArgs(l) + rest));
    hide BuildArgv;
    HeadRead(l, CoreArgs(l) + rest, option);
    CoreRead(l, rest, option);
    DeviceRead(l, option);
  }

  function HeadValues(l: Launch, option: string): seq<string> {
    Given(option, "-M", "q35") + (Given(option, "-accel", AccelArgs(l.kvm)[1])
    + Given(option, "-cpu", AccelArgs(l.kvm)[3]))
  }

  lemma HeadRead(l: Launch, rest: seq<string>, option: string)
    ensures ValuesOf(["-M", "q35"] + (AccelArgs(l.kvm) + rest), option)
         == HeadValues(l, option) + ValuesOf(rest, option)
  {
    hide ValuesOf, Given;
    var accel, cpu := AccelArgs(l.kvm)[1], AccelArgs(l.kvm)[3];
    var r := ["-cpu", cpu] + rest;
    assert AccelArgs(l.kvm) + rest == ["-accel", accel] + r;
    hide AccelArgs;
    PairFirst("-M", "q35", ["-accel", accel] + r, option);
    PairFirst("-accel", accel, r, option);
    PairFirst("-cpu", cpu, rest, option);
  }

  function CoreValues(l: Launch, option: string): seq<string> {
    Given(option, "-smp", Dec(l.smp)) + (Given(option, "-m", Dec(l.memoryMib))
    + (Given(option, "-display", "none") + Given(option, "-kernel", l.kernel)))
  }

  lemma CoreRead(l: Launch, rest: seq<string>, option: string)
    ensures ValuesOf(CoreArgs(l) + rest, option) == CoreValues(l, option) + ValuesOf(rest, option)
  {
    hide ValuesOf, Given, Dec;
    var r6 := ["-kernel", l.kernel] + rest;
    var r5 := ["-no-reboot"] + r6;
    var r4 := ["-display", "none"] + r5;
    var r3 := ["-nographic"] + r4;
    var r2 := ["-m", Dec(l.memoryMib)] + r3;
    assert CoreArgs(l) + rest == ["-smp", Dec(l.smp)] + r2;
    hide CoreArgs;
    PairFirst("-smp", Dec(l.smp), r2, option);
    PairFirst("-m", Dec(l.memoryMib), r3, option);
    FlagFirst("-nographic", r4, option);
    PairFirst("-display", "none", r5, option);
    FlagFirst("-no-reboot", r6, option);
    PairFirst("-kernel", l.kernel, rest, option);
  }

  function DeviceValues(l: Launch, option: string): seq<string> {
    Given(option, "-drive", Drive(l)) + (Given(option, "-netdev", NetDev(l.hostAdbPort))
    + (Given(option, "-device", "virtio-net-pci,netdev=net0") + ValuesOf(LastArgs(l), option)))
  }

  lemma DeviceRead(l: Launch, option: string)
    ensures ValuesOf(DeviceArgs(l) + LastArgs(l), option) == DeviceValues(l, option)
  {
    hide Monitor, ValuesOf, Given, Drive, NetDev, LastArgs;
    var net := "virtio-net-pci,netdev=net0";
    var r9 := ["-device", net] + LastArgs(l);
    var r8 := ["-netdev", NetDev(l.hostAdbPort)] + r9;
    assert DeviceArgs(l) + LastArgs(l) == ["-drive", Drive(l)] + r8;
    hide DeviceArgs;
    PairFirst("-drive", Drive(l), r8, option);
    PairFirst("-netdev", NetDev(l.hostAdbPort), r9, option);
    PairFirst("-device", net, LastArgs(l), option);
  }

  /** Every knob of a launch reaches its own option, once, and an option that was not asked for is absent. */
  lemma CommandLineSays(l: Launch)
    ensures BuildArgv(l) != [] && BuildArgv(l)[0] == l.qemuBin
    ensures var args := BuildArgv(l)[1..];
      && ValuesOf(args, "-smp") == [Dec(l.smp)] && ValuesOf(args, "-m") == [Dec(l.memoryMib)]
      && ValuesOf(args, "-accel") == [if l.kvm then "kvm" else "tcg,thread=multi,tb-size=1024"]
      && ValuesOf(args, "-cpu") == [if l.kvm then "host" else "max"]
      && ValuesOf(args, "-kernel") == [l.kernel]
      && ValuesOf(args, "-drive")
         == ["file=" + l.rootfs + ",format=" + (if l.qcow2 then "qcow2" else "raw") + ",if=virtio"]
      && ValuesOf(args, "-netdev") == ["user,id=net0," + ("hostfwd=tcp:127.0.0.1:" + Dec(l.hostAdbPort) + "-:5555")]
      && ValuesOf(args, "-monitor")
         == (if l.monitor.Some? then ["unix:" + l.monitor.value + ",server,nowait"] else [])
      && ValuesOf(args, "-loadvm") == (if l.loadvm.Some? then [l.loadvm.value] else [])
      && ValuesOf(args, "-append") == [KERNEL_ARGS]
  {
    HostForwardSays(l.hostAdbPort);
    ValuesFor(l, "-smp");
    ValuesFor(l, "-m");
    ValuesFor(l, "-accel");
    ValuesFor(l, "-cpu");
    ValuesFor(l, "-kernel");
    ValuesFor(l, "-drive");
    ValuesFor(l, "-netdev");
    ValuesFor(l, "-monitor");
    ValuesFor(l, "-loadvm");
    ValuesFor(l, "-append");
    hide ValuesOf, Dec, HostForward;
  }

  /** One option's values, in the order of the command line. */
  lemma ValuesFor(l: Launch, option: string)
    ensures ValuesOf(BuildArgv(l)[1..], option) ==
              if option == "-smp" then [Dec(l.smp)]
              else if option == "-m" then [Dec(l.memoryMib)]
              else if option == "-accel" then [AccelArgs(l.kvm)[1]]
              else if option == "-cpu" then [AccelArgs(l.kvm)[3]]
              else if option == "-kernel" then [l.kernel]
              else if option == "-drive" then [Drive(l)]
              else if option == "-netdev" then [NetDev(l.hostAdbPort)]
              else if option == "-monitor" then if l.monitor.Some? then [Monitor(l.monitor.value)] else []
              else if option == "-append" then [KERNEL_ARGS]
              else if option == "-loadvm" then if l.loadvm.Some? then [l.loadvm.value] else []
              else ValuesOf(BuildArgv(l)[1..], option)
  {
    AllValues(l, option);
    LastValues(l, option);
    hide ValuesOf, Dec, BuildArgv, NetDev, Drive, Monitor, AccelArgs, LastArgs, DeviceArgs, CoreArgs;
  }

  lemma HostForwardSays(port: nat)
    ensures HostForward(port) == "hostfwd=tcp:127.0.0.1:" + Dec(port) + "-:5555"
  {
    GuestPortText();
    hide Dec;
    assert "-:" + "5555" == "-:5555" && MARK + LOOPBACK == "hostfwd=tcp:127.0.0.1:";
  }

  lemma GuestPortText()
    ensures Dec(GUEST_ADB_PORT) == "5555"
  {
    assert Dec(5) == "5";
    assert Dec(55) == Dec(5) + "5" == "55";
    assert Dec(555) == Dec(55) + "5" == "555";
    assert Dec(5555) == Dec(555) + "5" == "5555";
  }

  /** What /proc shows: every argument followed by a NUL. */
  function Cmdline(argv: seq<string>): string { Terminated(argv) }

  function Token(port: nat): string { MARK + LOOPBACK + Dec(port) + "-" }

  const QEMU := "qemu-system"

  predicate NamesQemu(cmdline: string) { Contains(cmdline, QEMU) }

  /** `_pid_is_qemu` on the text it reads; without a port any QEMU will do. */
  predicate Matches(port: Option<nat>, cmdline: string) {
    NamesQemu(cmdline) && (port.Some? ==> Contains(cmdline, Token(port.value)))
  }

  // ---- Where the token can occur -----------------------------------------------

  /** A token begins with the mark, so an argument without the mark holds no token. */
  lemma TokenNeedsMark(s: string, port: nat)
    requires Contains(s, Token(port))
    ensures Contains(s, MARK)
  {
    var i :| 0 <= i <= |s| && OccursAt(Token(port), s, i);
    OccursChars(Token(port), s, i);
    assert forall k | 0 <= k < |MARK| :: s[i + k] == Token(port)[k] == MARK[k];
    OccursChars(MARK, s, i);
    assert OccursAt(MARK, s, i);
  }

  lemma DecText(n: nat)
    ensures Dec(n) != "" && forall c | c in Dec(n) :: '0' <= c <= '9'
  {
    DecReadsBack(n);
  }

  /** Inside the network argument the mark stands in one place only, so the port is read off exactly. */
  lemma NetDevToken(p: nat, q: nat)
    ensures Contains(NetDev(q), Token(p)) <==> p == q
  {
    DecText(p);
    DecText(q);
    DecText(GUEST_ADB_PORT);
    hide Contains, Dec;
    var head, tail := MARK + LOOPBACK, ":" + Dec(GUEST_ADB_PORT);
    assert NetDev(q) == "user,id=net0," + head + (Dec(q) + "-" + tail);
    assert Token(p) == head + Dec(p) + "-";
    assert head[1..] == "ostfwd=" + LOOPBACK && 'h' !in "ostfwd=" && 'h' !in LOOPBACK;
    MarkedField("user,id=net0,", head, Dec(p), Dec(q), tail);
    if Dec(p) == Dec(q) { DecInjective(p, q); }
  }

  // ---- The token identifies the launch ------------------------------------------------

  /** Free text of a launch that could itself spell a port token. */
  predicate MarkFree(l: Launch) {
    && !Contains(l.qemuBin, MARK) && !Contains(l.kernel, MARK) && !Contains(l.rootfs, MARK)
    && (l.monitor.Some? ==> !Contains(l.monitor.value, MARK))
    && (l.loadvm.Some? ==> !Contains(l.loadvm.value, MARK))
  }

  /** The texts of a launch that its caller chooses: binary, kernel, disk, monitor and snapshot name. */
  predicate InFreeText(l: Launch, t: string) {
    || Contains(l.qemuBin, t) || Contains(l.kernel, t) || Contains(l.rootfs, t)
    || (l.monitor.Some? && Contains(l.monitor.value, t))
    || (l.loadvm.Some? && Contains(l.loadvm.value, t))
  }

  predicate FixedArg(a: string) {
    a in {"-M", "q35", "-accel", "kvm", "-cpu", "host", "tcg,thread=multi,tb-size=1024", "max", "-smp", "-m",
          "-nographic",
          "-display", "none", "-no-reboot", "-kernel", "-drive", "-netdev", "-device", "virtio-net-pci,netdev=net0",
          "-monitor", "-loadvm", "-append", KERNEL_ARGS}
  }

  lemma FixedArgPlain(a: string)
    requires FixedArg(a)
    ensures ':' !in a
  {
    assert ':' !in "console=ttyS0 root=/dev/vda rw " && ':' !in "init=/init panic=1 " && ':' !in "mitigations=off";
  }

  lemma FixedArgToken(a: string, p: nat)
    requires FixedArg(a)
    ensures !Contains(a, Token(p))
  {
    assert Token(p)[|MARK| + 3] == ':';
    FixedArgPlain(a);
    if Contains(a, Token(p)) { ContainsChars(a, Token(p), ':'); }
  }

  lemma ArgCases(l: Launch, a: string)
    requires a in BuildArgv(l)
    ensures || FixedArg(a) || a == NetDev(l.hostAdbPort) || a == Drive(l) || a in [l.qemuBin, l.kernel]
            || a in [Dec(l.smp), Dec(l.memoryMib)]
            || (l.monitor.Some? && a == Monitor(l.monitor.value)) || (l.loadvm.Some? && a == l.loadvm.value)
  {
    hide NetDev, Drive, Monitor, Dec;
  }

  lemma DriveToken(l: Launch, p: nat)
    ensures Contains(Drive(l), Token(p)) <==> Contains(l.rootfs, Token(p))
  {
    TokenText(p);
    hide Contains, Token;
    var format := if l.qcow2 then "qcow2" else "raw";
    var tail := "format=" + format + ",if=virtio";
    assert Drive(l) == "file=" + l.rootfs + [','] + tail;
    assert 'h' !in "file=" && 'h' !in "format=" && 'h' !in format && 'h' !in ",if=virtio";
    ContainsInParts("file=" + l.rootfs, ',', tail, Token(p));
    ContainsAfter("file=", l.rootfs, Token(p));
    WithoutToken(tail, p);
  }

  lemma MonitorToken(socket: string, p: nat)
    ensures Contains(Monitor(socket), Token(p)) <==> Contains(socket, Token(p))
  {
    TokenText(p);
    hide Contains, Token;
    assert Monitor(socket) == "unix:" + socket + [','] + "server,nowait";
    ContainsInParts("unix:" + socket, ',', "server,nowait", Token(p));
    ContainsAfter("unix:", socket, Token(p));
    WithoutToken("server,nowait", p);
  }

  lemma TokenText(p: nat)
    ensures Token(p) != "" && Token(p)[0] == 'h' && ',' !in Token(p) && NulFree(Token(p))
  {
    DecText(p);
    hide Dec;
    assert ',' !in MARK && ',' !in LOOPBACK && NUL !in MARK && NUL !in LOOPBACK;
  }

  lemma WithoutToken(s: string, p: nat)
    requires 'h' !in s
    ensures !Contains(s, Token(p))
  {
    TokenText(p);
    if Contains(s, Token(p)) { ContainsChars(s, Token(p), 'h'); }
  }

  lemma DecToken(n: nat, p: nat)
    ensures !Contains(Dec(n), Token(p))
  {
    DecText(n);
    hide Dec;
    WithoutToken(Dec(n), p);
  }

  lemma ArgToken(l: Launch, a: string, p: nat)
    requires a in BuildArgv(l) && Contains(a, Token(p))
    ensures p == l.hostAdbPort || InFreeText(l, Token(p))
  {
    ArgCases(l, a);
    hide BuildArgv, Contains, Token, NetDev, Drive, Monitor, Dec, FixedArg;
    if FixedArg(a) { FixedArgToken(a, p); }
    NetDevToken(p, l.hostAdbPort);
    DriveToken(l, p);
    DecToken(l.smp, p);
    DecToken(l.memoryMib, p);
    if l.monitor.Some? { MonitorToken(l.monitor.value, p); }
  }

  lemma NetDevPresent(l: Launch)
    ensures NetDev(l.hostAdbPort) in BuildArgv(l)
  {
    var front := [l.qemuBin, "-M", "q35"] + AccelArgs(l.kvm)
      + ["-smp", Dec(l.smp), "-m", Dec(l.memoryMib), "-nographic", "-display", "none", "-no-reboot", "-kernel",
          l.kernel];
    assert BuildArgv(l)[|front| + 3] == NetDev(l.hostAdbPort);
  }

  // ---- What the guard needs besides the port --------------------------------------------

  /** The free text of a launch spells qemu-system somewhere. */
  predicate SpellsQemu(l: Launch) { InFreeText(l, QEMU) }

  lemma Lacks(s: string, c: char)
    requires c !in s && c in QEMU
    ensures !Contains(s, QEMU)
  {
    if Contains(s, QEMU) { ContainsChars(s, QEMU, c); }
  }

  lemma FixedArgLacks(a: string)
    requires FixedArg(a)
    ensures !Contains(a, QEMU)
  {
    assert 'q' !in "console=ttyS0 root=/dev/vda rw " && 'q' !in "init=/init panic=1 " && 'q' !in "mitigations=off";
    if a == "q35" { Lacks(a, 'y'); } else { Lacks(a, 'q'); }
  }

  lemma DriveNames(l: Launch)
    ensures Contains(Drive(l), QEMU) <==> Contains(l.rootfs, QEMU)
  {
    hide Contains;
    var format := if l.qcow2 then "qcow2" else "raw";
    var tail := "format=" + format + ",if=virtio";
    assert Drive(l) == "file" + ['='] + (l.rootfs + [','] + tail);
    assert 'y' !in "file" && 'y' !in "format=" && 'y' !in format && 'y' !in ",if=virtio";
    ContainsInParts("file", '=', l.rootfs + [','] + tail, QEMU);
    ContainsInParts(l.rootfs, ',', tail, QEMU);
    Lacks("file", 'y');
    Lacks(tail, 'y');
  }

  lemma MonitorNames(socket: string)
    ensures Contains(Monitor(socket), QEMU) <==> Contains(socket, QEMU)
  {
    hide Contains;
    assert Monitor(socket) == "unix" + [':'] + (socket + [','] + "server,nowait");
    ContainsInParts("unix", ':', socket + [','] + "server,nowait", QEMU);
    ContainsInParts(socket, ',', "server,nowait", QEMU);
    Lacks("unix", 'y');
    Lacks("server,nowait", 'y');
  }

  lemma NetDevLacks(port: nat)
    ensures !Contains(NetDev(port), QEMU)
  {
    DecText(port);
    DecText(GUEST_ADB_PORT);
    hide Contains, Dec;
    assert 'y' !in "user,id=net0," && 'y' !in MARK && 'y' !in LOOPBACK && 'y' !in "-:";
    Lacks(NetDev(port), 'y');
  }

  lemma DecLacks(n: nat)
    ensures !Contains(Dec(n), QEMU)
  {
    DecText(n);
    hide Contains, Dec;
    Lacks(Dec(n), 'y');
  }

  lemma ArgNames(l: Launch, a: string)
    requires a in BuildArgv(l) && Contains(a, QEMU)
    ensures SpellsQemu(l)
  {
    ArgCases(l, a);
    hide BuildArgv, Contains, NetDev, Drive, Monitor, Dec, FixedArg;
    if FixedArg(a) { FixedArgLacks(a); }
    NetDevLacks(l.hostAdbPort);
    DriveNames(l);
    DecLacks(l.smp);
    DecLacks(l.memoryMib);
    if l.monitor.Some? { MonitorNames(l.monitor.value); }
  }

  lemma FreeTextPresent(l: Launch)
    ensures l.qemuBin in BuildArgv(l) && l.kernel in BuildArgv(l) && Drive(l) in BuildArgv(l)
    ensures l.monitor.Some? ==> Monitor(l.monitor.value) in BuildArgv(l)
    ensures l.loadvm.Some? ==> l.loadvm.value in BuildArgv(l)
  {
    hide NetDev, Drive, Monitor, Dec;
  }

  /** The token sought for port p occurs on the command line built for port q exactly when p is q, or a text the
      caller chose spells that token itself. */
  lemma TokenIdentifies(l: Launch, p: nat)
    ensures Contains(Cmdline(BuildArgv(l)), Token(p)) <==> p == l.hostAdbPort || InFreeText(l, Token(p))
  {
    TokenText(p);
    hide BuildArgv, Contains, Token, Drive, Monitor, NetDev;
    ContainsInFields(BuildArgv(l), Token(p));
    if a :| a in BuildArgv(l) && Contains(a, Token(p)) { ArgToken(l, a, p); }
    NetDevToken(p, l.hostAdbPort);
    NetDevPresent(l);
    FreeTextPresent(l);
    DriveToken(l, p);
    if l.monitor.Some? { MonitorToken(l.monitor.value, p); }
  }

  /** A launch whose paths are free of the mark spells no token. */
  lemma MarkFreeSpellsNone(l: Launch, p: nat)
    requires MarkFree(l)
    ensures !InFreeText(l, Token(p))
  {
    hide Contains;
    forall s | Contains(s, Token(p)) ensures Contains(s, MARK) { TokenNeedsMark(s, p); }
  }

  /** The command line says qemu-system exactly when the launch's own free text does: no fixed argument helps. */
  lemma NamesQemuExactly(l: Launch)
    ensures NamesQemu(Cmdline(BuildArgv(l))) <==> SpellsQemu(l)
  {
    hide BuildArgv, Contains;
    ContainsInFields(BuildArgv(l), QEMU);
    if a :| a in BuildArgv(l) && Contains(a, QEMU) { ArgNames(l, a); }
    FreeTextPresent(l);
    DriveNames(l);
    if l.monitor.Some? { MonitorNames(l.monitor.value); }
  }

  /** A launched QEMU is recognised as instance p's own exactly when its free text spells qemu-system and it serves port
      p or spells p's token itself. */
  lemma RecognisedExactly(l: Launch, p: nat)
    ensures Matches(Some(p), Cmdline(BuildArgv(l))) <==>
        SpellsQemu(l) && (p == l.hostAdbPort || InFreeText(l, Token(p)))
  {
    TokenIdentifies(l, p);
    NamesQemuExactly(l);
  }

  /** For its own port that is so whatever the paths spell. */
  lemma OwnRecognised(l: Launch)
    ensures Matches(Some(l.hostAdbPort), Cmdline(BuildArgv(l))) <==> SpellsQemu(l)
  {
    hide SpellsQemu, InFreeText, Matches;
    RecognisedExactly(l, l.hostAdbPort);
  }

  /** Text that spells neither what the guard looks for nor a port token. */
  predicate Plain(s: string) { !Contains(s, QEMU) && !Contains(s, MARK) }

  lemma PlainText(s: string, c: char)
    requires c !in s && c in QEMU && '=' !in s
    ensures Plain(s)
  {
    Lacks(s, c);
    if Contains(s, MARK) { ContainsChars(s, MARK, '='); }
  }

  predicate PlainLaunch(l: Launch) {
    && Plain(l.qemuBin) && Plain(l.kernel) && Plain(l.rootfs)
    && (l.monitor.Some? ==> Plain(l.monitor.value)) && (l.loadvm.Some? ==> Plain(l.loadvm.value))
  }

  /** A guest whose binary and paths go by other names is recognised for no port at all. */
  lemma PlainIsNeverRecognised(l: Launch, p: nat)
    requires PlainLaunch(l)
    ensures MarkFree(l) && !Matches(Some(p), Cmdline(BuildArgv(l)))
  {
    hide Contains, BuildArgv;
    RecognisedExactly(l, p);
  }

  const RENAMED := Launch("/opt/kvm", true, "/c/bz", "/c/fs", 4, 4096, 5555, false, None, None)

  lemma RenamedIsNeverRecognised(p: nat)
    ensures !Matches(Some(p), Cmdline(BuildArgv(RENAMED)))
  {
    hide BuildArgv, Plain, MarkFree, Matches;
    PlainText("/opt/kvm", 'q');
    PlainText("/c/bz", 'q');
    PlainText("/c/fs", 'q');
    PlainIsNeverRecognised(RENAMED, p);
  }

  /** Without a port the check accepts a sibling's QEMU: the teardown of an orphan is best effort. */
  lemma OrphanCheckAcceptsSiblings(l: Launch)
    requires SpellsQemu(l)
    ensures Matches(None, Cmdline(BuildArgv(l)))
    ensures forall p: nat | MarkFree(l) && p != l.hostAdbPort :: !Matches(Some(p), Cmdline(BuildArgv(l)))
  {
    hide SpellsQemu, MarkFree, BuildArgv, Contains;
    NamesQemuExactly(l);
    forall p: nat | MarkFree(l) && p != l.hostAdbPort ensures !Matches(Some(p), Cmdline(BuildArgv(l))) {
      RecognisedExactly(l, p);
      MarkFreeSpellsNone(l, p);
    }
  }

  // ---- Signals into a changing process table --------------------------------------------

  /** One incarnation of a PID. Someone else's process has its own command line, which need not be valid text. */
  datatype Process = Qemu(launch: Launch) | Other(text: string) | Undecodable

  function CmdlineOf(p: Process): string
    requires !p.Undecodable?
  {
    match p case Qemu(l) => Cmdline(BuildArgv(l)) case Other(text) => text
  }

  datatype Signal = Term | Kill

  /** A signal that was sent: for which port the sender acts, and the process it reached. */
  datatype Sent = Sent(port: Option<nat>, signal: Signal, target: Process)

  /** A pidfile is absent, holds a number, or holds something that does not parse. */
  datatype PidFile = Missing | Pid(pid: int) | Unparsable

  const GRACE_POLLS: nat := 50

  class Machine {
    var procs: map<int, Process>
    var pidfile: PidFile
    ghost var sent: seq<Sent>

    /** Everything that is not us: processes exit, and their PIDs are taken by others. */
    method Elapse()
      modifies this`procs
    {
      procs := *;
    }

    /** The guard passes. */
    predicate PidIsQemu(port: Option<nat>, pid: int)
      reads this`procs
    {
      pid in procs && !procs[pid].Undecodable? && Matches(port, CmdlineOf(procs[pid]))
    }

    /** The guard raises: it reads the command line as text, and only a failing read is caught. */
    predicate GuardRaises(pid: int)
      reads this`procs
    {
      pid in procs && procs[pid].Undecodable?
    }

    method IsRunning(port: Option<nat>) returns (r: Result<bool, ()>)
      ensures r.Err? <==> pidfile.Pid? && GuardRaises(pidfile.pid)
      ensures r.Ok? ==> (r.value <==> pidfile.Pid? && PidIsQemu(port, pidfile.pid))
    {
      if !pidfile.Pid? || pidfile.pid !in procs { return Ok(false); }
      if GuardRaises(pidfile.pid) { return Err(()); }
      return Ok(PidIsQemu(port, pidfile.pid));
    }

    /** `spawned` is the PID the kernel hands out, or nothing if the spawn fails. What was just started is recognised
        exactly when its command line can be. */
    method Start(port: Option<nat>, l: Launch, spawned: Option<int>) returns (ok: bool)
      requires spawned.Some? ==> spawned.value !in procs
      modifies this`procs, this`pidfile
      ensures ok <==>
                && spawned.Some?
                && !(old(pidfile).Pid? && (old(PidIsQemu(port, pidfile.pid)) || old(GuardRaises(pidfile.pid))))
      ensures ok ==> procs == old(procs)[spawned.value := Qemu(l)] && pidfile == Pid(spawned.value)
      ensures !ok ==> procs == old(procs) && pidfile == old(pidfile)
      ensures ok ==> (PidIsQemu(Some(l.hostAdbPort), spawned.value) <==> SpellsQemu(l))
    {
      var running := IsRunning(port);
      if running.Err? || running.value || spawned.None? { return false; }
      procs := procs[spawned.value := Qemu(l)];
      pidfile := Pid(spawned.value);
      OwnRecognised(l);
      return true;
    }

    /** The identity check and the signal that follows it are one step; `denied` is an OSError from the kill. */
    method CheckAndSignal(port: Option<nat>, pid: int, signal: Signal, denied: bool) returns (r: Result<bool, ()>)
      modifies this`sent
      ensures r.Err? <==> GuardRaises(pid)
      ensures r.Ok? ==> (r.value <==> PidIsQemu(port, pid) && !denied)
      ensures sent == if r == Ok(true) then old(sent) + [Sent(port, signal, procs[pid])] else old(sent)
    {
      if GuardRaises(pid) { return Err(()); }
      if !PidIsQemu(port, pid) || denied { return Ok(false); }
      sent := sent + [Sent(port, signal, procs[pid])];
      return Ok(true);
    }

    /** TERM if the PID names this QEMU, then KILL if it still does after the grace. Either signal may be refused by
        the kernel. The pidfile goes, unless the guard raises: at the first look, or while it waits out the grace. */
    method Terminate(port: Option<nat>, termDenied: bool, killDenied: bool) returns (r: Result<bool, ()>)
      modifies this
      ensures pidfile == if r.Err? then old(pidfile) else Missing
      ensures r == Ok(false) || (r.Err? && sent == old(sent)) ==> procs == old(procs) && sent == old(sent)
      ensures old(pidfile).Pid? && old(GuardRaises(pidfile.pid)) ==> r.Err? && sent == old(sent)
      ensures !old(pidfile).Pid? || !old(PidIsQemu(port, pidfile.pid)) || termDenied ==>
                && sent == old(sent)
                && (pidfile == Missing <==> !old(pidfile).Pid? || !old(GuardRaises(pidfile.pid)))
      ensures old(pidfile).Pid? && old(PidIsQemu(port, pidfile.pid)) && !termDenied ==>
                var term := Sent(port, Term, old(procs)[old(pidfile).pid]);
                var kills := PidIsQemu(port, old(pidfile).pid) && !killDenied;
                && (r.Err? ==> GuardRaises(old(pidfile).pid))
                && sent == old(sent) + [term]
                           + if r.Ok? && kills then [Sent(port, Kill, procs[old(pidfile).pid])] else []
    {
      var signalled := false;
      if pidfile.Pid? {
        var term := CheckAndSignal(port, pidfile.pid, Term, termDenied);
        if term.Err? { return Err(()); }
        signalled := term.value;
        if signalled {
          var raised := EscalateIfAlive(port, pidfile.pid, killDenied);
          if raised { return Err(()); }
        }
      }
      pidfile := Missing;
      return Ok(signalled);
    }

    /** Looks again up to GRACE_POLLS times; returns as soon as the PID names something else. */
    method EscalateIfAlive(port: Option<nat>, pid: int, denied: bool) returns (raised: bool)
      modifies this`procs, this`sent
      ensures raised ==> GuardRaises(pid)
      ensures sent == old(sent)
                      + if !raised && PidIsQemu(port, pid) && !denied then [Sent(port, Kill, procs[pid])] else []
    {
      Elapse();
      var polls := 0;
      while polls < GRACE_POLLS
        invariant sent == old(sent)
      {
        if GuardRaises(pid) { return true; }
        if !PidIsQemu(port, pid) { return false; }
        Elapse();
        polls := polls + 1;
      }
      var delivered := CheckAndSignal(port, pid, Kill, denied);
      return delivered.Err?;
    }
  }

  /** A stale PID that names a process whose command line is not valid text: no stop succeeds, and the pidfile stays. */
  method UndecodableBlocksStops(m: Machine, port: Option<nat>, stops: nat)
    requires m.pidfile.Pid? && m.GuardRaises(m.pidfile.pid)
    modifies m
    ensures m.pidfile == old(m.pidfile) && m.sent == old(m.sent)
  {
    for n := 0 to stops
      invariant m.pidfile == old(m.pidfile) && m.sent == old(m.sent) && m.procs == old(m.procs)
    {
      var r := m.Terminate(port, false, false);
    }
  }

  /** A process of this instance: its own QEMU. */
  predicate OwnQemu(p: Process, port: nat) { p.Qemu? && p.launch.hostAdbPort == port }

  /** Nobody else's text imitates a port token, and launches spell none in their paths. */
  ghost predicate Honest(p: Process) {
    match p
    case Qemu(l) => MarkFree(l)
    case Other(text) => !Contains(text, MARK)
    case Undecodable => true
  }

  /** Among honest processes a matched target is this instance's own QEMU. */
  lemma MatchedIsOwn(p: Process, port: nat)
    requires Honest(p) && !p.Undecodable? && Matches(Some(port), CmdlineOf(p))
    ensures OwnQemu(p, port)
  {
    match p
    case Qemu(l) =>
      TokenIdentifies(l, port);
      MarkFreeSpellsNone(l, port);
    case Other(text) => TokenNeedsMark(text, port);
    case Undecodable =>
  }

  ghost predicate ReachedOwn(x: Sent) {
    x.port.Some? && (Honest(x.target) ==> OwnQemu(x.target, x.port.value))
  }

  /** One stop: what the pidfile holds, the sender's port, and which signals the kernel refuses. */
  datatype Stop = Stop(pidfile: PidFile, port: nat, termDenied: bool, killDenied: bool)

  /** Stops of any instances in any order, whatever their pidfiles hold and however the table changes meanwhile. */
  method Campaign(m: Machine, stops: seq<Stop>) returns (raised: seq<bool>)
    modifies m
    ensures forall x | x in m.sent :: x in old(m.sent) || ReachedOwn(x)
    ensures |raised| == |stops| && (stops != [] && !raised[|stops| - 1] ==> m.pidfile == Missing)
  {
    raised := [];
    for n := 0 to |stops|
      invariant forall x | x in m.sent :: x in old(m.sent) || ReachedOwn(x)
      invariant |raised| == n && (n > 0 && !raised[n - 1] ==> m.pidfile == Missing)
    {
      var stop := stops[n];
      m.Elapse();
      m.pidfile := stop.pidfile;
      ghost var before := m.sent;
      var r := m.Terminate(Some(stop.port), stop.termDenied, stop.killDenied);
      raised := raised + [r.Err?];
      assert m.sent == before + m.sent[|before|..];
      forall x | x in m.sent[|before|..] ensures ReachedOwn(x) {
        if Honest(x.target) { MatchedIsOwn(x.target, stop.port); }
      }
    }
  }
}
