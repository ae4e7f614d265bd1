/**
 Loading and writing `beetroot.yaml` (src/beetroot/config.py): version auto-bump,
 refusal of renamed keys, migration of the mapping form of `ports`, the ports
 validators, and the notes a load prints. YAML is a value tree. Blocks the
 migrations never look into are normalised by an abstract validator that accepts
 its own output unchanged.
 */
module Config {
  import opened Prelude
  import opened Ports
  import J = Registry

  type Yaml = J.Json

  type Fields = map<string, Yaml>

  const SUPPORTED_API_VERSION := 8

  /** How integers are coerced, and how each block the model leaves whole is validated (absent means default). */
  datatype Codec = Codec(asInt: Yaml -> Option<int>, block: (string, Option<Yaml>) -> Option<Yaml>)

  ghost predicate Lawful(c: Codec) {
    && (forall n :: c.asInt(J.Num(n)) == Some(n))
    && (forall k, y :: c.block(k, y).Some? ==> c.block(k, c.block(k, y)) == c.block(k, y))
  }

  const BLOCKS: set<string> := {"lifecycle", "resources", "frida", "modules", "magisk", "binder", "vm"}

  datatype Android = Android(version: int, gapps: string, vendor: Option<string>)

  datatype Display = Display(width: int, height: int, fps: int, rendering: string)

  datatype Config = Config(android: Android, display: Display, blocks: map<string, Yaml>, ports: seq<PortMapping>)

  function Lookup(f: Fields, k: string): Option<Yaml> { if k in f then Some(f[k]) else None }

  function IntOr(c: Codec, f: Fields, k: string, default: int): Option<int> {
    if k in f then c.asInt(f[k]) else Some(default)
  }

  function OneOf(f: Fields, k: string, default: string, allowed: set<string>): Option<string> {
    if k !in f then Some(default)
    else if f[k].Str? && f[k].s in allowed then Some(f[k].s) else None
  }

  // ---- Blocks with renamed keys --------------------------------------------------------

  predicate LegacyGapps(f: Fields) {
    "gapps" in f && (f["gapps"] == J.Str("lite") || f["gapps"] == J.Str("mindthegapps"))
  }

  function VendorOf(f: Fields): Option<Option<string>> {
    if "gapps_vendor" !in f || f["gapps_vendor"].Null? then Some(None)
    else if f["gapps_vendor"].Str? && f["gapps_vendor"].s in {"litegapps", "opengapps", "mindthegapps"}
    then Some(Some(f["gapps_vendor"].s)) else None
  }

  function AndroidOf(c: Codec, y: Option<Yaml>): Option<Android> {
    if y.None? then Some(Android(14, "minimal", None))
    else if !y.value.Obj? || "base_image" in y.value.fields || LegacyGapps(y.value.fields) then None
    else
      var f := y.value.fields;
      var version, gapps, vendor :=
        IntOr(c, f, "version", 14), OneOf(f, "gapps", "minimal", {"none", "minimal", "full"}), VendorOf(f);
      if version.None? || gapps.None? || vendor.None? then None
      else if version.value !in {11, 12, 13, 14} || (gapps.value == "none" && vendor.value.Some?) then None
      else Some(Android(version.value, gapps.value, vendor.value))
  }

  function DisplayOf(c: Codec, y: Option<Yaml>): Option<Display> {
    if y.None? then Some(Display(540, 960, 3, "auto"))
    else if !y.value.Obj? || "gpu_mode" in y.value.fields then None
    else
      var f := y.value.fields;
      var width, height, fps, rendering :=
        IntOr(c, f, "width", 540), IntOr(c, f, "height", 960), IntOr(c, f, "fps", 3),
        OneOf(f, "rendering", "auto", {"gpu", "software", "auto"});
      if width.None? || height.None? || fps.None? || rendering.None? then None
      else if width.value <= 0 || height.value <= 0 || fps.value <= 0 then None
      else Some(Display(width.value, height.value, fps.value, rendering.value))
  }

  function BlocksOf(c: Codec, f: Fields): Option<map<string, Yaml>> {
    if forall k | k in BLOCKS :: c.block(k, Lookup(f, k)).Some?
    then Some(map k | k in BLOCKS :: c.block(k, Lookup(f, k)).value) else None
  }

  // ---- Ports --------------------------------------------------------------------------------

  /** The guest port a well-known service has in the image. */
  function Canonical(service: string): Option<int> {
    if service == "adb" then Some(5555)
    else if service == "frida" then Some(27042)
    else if service == "frida_control" then Some(27043)
    else None
  }

  function ServiceOf(f: Fields): Option<Option<string>> {
    if "service" !in f || f["service"].Null? then Some(None)
    else if f["service"].Str? then Some(Some(f["service"].s)) else None
  }

  function PortNumber(c: Codec, y: Yaml): Option<int> {
    if c.asInt(y).Some? && 1 <= c.asInt(y).value <= MAX_PORT then c.asInt(y) else None
  }

  function HostOf(c: Codec, f: Fields): Option<Option<int>> {
    if "host" !in f || f["host"].Null? then Some(None)
    else if PortNumber(c, f["host"]).Some? then Some(PortNumber(c, f["host"])) else None
  }

  function MappingOf(c: Codec, y: Yaml): Option<PortMapping> {
    if !y.Obj? || "guest" !in y.fields then None
    else
      var service, guest, host := ServiceOf(y.fields), PortNumber(c, y.fields["guest"]), HostOf(c, y.fields);
      if service.None? || guest.None? || host.None? then None
      else Some(PortMapping(service.value, guest.value, host.value))
  }

  function DefaultPorts(): seq<PortMapping> {
    [PortMapping(Some("adb"), 5555, None),
     PortMapping(Some("frida"), 27042, None),
     PortMapping(Some("frida_control"), 27043, None)]
  }

  function PortsOf(c: Codec, f: Fields): Option<seq<PortMapping>> {
    if "ports" !in f then Some(DefaultPorts())
    else if !f["ports"].Arr? then None
    else
      var items := f["ports"].items;
      if forall i | 0 <= i < |items| :: MappingOf(c, items[i]).Some?
      then Some(seq(|items|, i requires 0 <= i < |items| && MappingOf(c, items[i]).Some? =>
                               MappingOf(c, items[i]).value))
      else None
  }

  function SeededEntry(service: string, guest: int, overrides: Fields): Yaml {
    J.Obj(map["service" := J.Str(service), "guest" := J.Num(guest),
              "host" := if service in overrides then overrides[service] else J.Null])
  }

  function Seeded(overrides: Fields): seq<Yaml> {
    [SeededEntry("adb", 5555, overrides),
     SeededEntry("frida", 27042, overrides),
     SeededEntry("frida_control", 27043, overrides)]
  }

  predicate UnknownService(f: Fields) { exists k | k in f :: Canonical(k).None? }

  /** A populated mapping of well-known services only. */
  predicate LegacyPorts(f: Fields) {
    "ports" in f && f["ports"].Obj? && f["ports"].fields != map[] && !UnknownService(f["ports"].fields)
  }

  /** The mapping form of `ports` becomes the list form; an empty mapping means the defaults. */
  function Migrate(f: Fields): Option<Fields> {
    if "ports" !in f || !f["ports"].Obj? then Some(f)
    else if f["ports"].fields == map[] then Some(f - {"ports"})
    else if UnknownService(f["ports"].fields) then None
    else Some(f["ports" := J.Arr(Seeded(f["ports"].fields))])
  }

  predicate Offers(ports: seq<PortMapping>, service: string) { exists m | m in ports :: m.service == Some(service) }

  /** The validators over the whole list. */
  predicate PortsAccepted(ports: seq<PortMapping>, fridaOn: bool) {
    && Validated(ports)
    && (forall m | m in ports && m.service.Some? && Canonical(m.service.value).Some? ::
      Canonical(m.service.value) == Some(m.guest))
    && Offers(ports, "adb")
    && (fridaOn ==> Offers(ports, "frida") && Offers(ports, "frida_control"))
  }

  // ---- Load and dump ---------------------------------------------------------------------------

  predicate Bumpable(f: Fields) {
    "api_version" in f && ((f["api_version"].Num? && 1 <= f["api_version"].n <= 7) || f["api_version"] == J.Bool(true))
  }

  function Bumped(f: Fields): Fields { if Bumpable(f) then f["api_version" := J.Num(SUPPORTED_API_VERSION)] else f }

  function Validate(c: Codec, f: Fields): Option<Config> {
    if "stealth" in f || Migrate(f).None? then None
    else
      var g := Migrate(f).value;
      var android, display, blocks, ports :=
        AndroidOf(c, Lookup(g, "android")), DisplayOf(c, Lookup(g, "display")), BlocksOf(c, g), PortsOf(c, g);
      if android.None? || display.None? || blocks.None? || ports.None? then None
      else if IntOr(c, g, "api_version", SUPPORTED_API_VERSION) != Some(SUPPORTED_API_VERSION) then None
      else if !PortsAccepted(ports.value, blocks.value["frida"] != J.Null) then None
      else Some(Config(android.value, display.value, blocks.value, ports.value))
  }

  function Load(c: Codec, y: Yaml): Option<Config> {
    match y
    case Null => Validate(c, map[])
    case Obj(f) => Validate(c, Bumped(f))
    case _ => None
  }

  function DumpAndroid(a: Android): Yaml {
    J.Obj(map["version" := J.Num(a.version), "gapps" := J.Str(a.gapps),
              "gapps_vendor" := if a.vendor.Some? then J.Str(a.vendor.value) else J.Null])
  }

  function DumpDisplay(d: Display): Yaml {
    J.Obj(map["width" := J.Num(d.width), "height" := J.Num(d.height), "fps" := J.Num(d.fps),
        "rendering" := J.Str(d.rendering)])
  }

  function DumpMapping(m: PortMapping): Yaml {
    J.Obj(map["service" := if m.service.Some? then J.Str(m.service.value) else J.Null, "guest" := J.Num(m.guest),
              "host" := if m.host.Some? then J.Num(m.host.value) else J.Null])
  }

  function DumpPorts(ports: seq<PortMapping>): Yaml {
    J.Arr(seq(|ports|, i requires 0 <= i < |ports| => DumpMapping(ports[i])))
  }

  function DumpFields(cfg: Config): Fields {
    cfg.blocks["api_version" := J.Num(SUPPORTED_API_VERSION)]["android" := DumpAndroid(cfg.android)]
              ["display" := DumpDisplay(cfg.display)]["ports" := DumpPorts(cfg.ports)]
  }

  // ---- The fixpoint -----------------------------------------------------------------------------

  lemma AndroidRoundTrip(c: Codec, y: Option<Yaml>)
    requires Lawful(c) && AndroidOf(c, y).Some?
    ensures AndroidOf(c, Some(DumpAndroid(AndroidOf(c, y).value))) == AndroidOf(c, y)
  {
  }

  lemma DisplayRoundTrip(c: Codec, y: Option<Yaml>)
    requires Lawful(c) && DisplayOf(c, y).Some?
    ensures DisplayOf(c, Some(DumpDisplay(DisplayOf(c, y).value))) == DisplayOf(c, y)
  {
  }

  lemma MappingRoundTrip(c: Codec, m: PortMapping)
    requires Lawful(c) && 1 <= m.guest <= MAX_PORT && (m.host.Some? ==> 1 <= m.host.value <= MAX_PORT)
    ensures MappingOf(c, DumpMapping(m)) == Some(m)
  {
  }

  lemma GuestsInRange(c: Codec, f: Fields, m: PortMapping)
    requires PortsOf(c, f).Some? && m in PortsOf(c, f).value
    ensures 1 <= m.guest <= MAX_PORT && (m.host.Some? ==> 1 <= m.host.value <= MAX_PORT)
  {
    if "ports" in f {
      var i :| 0 <= i < |f["ports"].items| && MappingOf(c, f["ports"].items[i]) == Some(m);
    }
  }

  lemma PortsRoundTrip(c: Codec, f: Fields, g: Fields)
    requires Lawful(c) && PortsOf(c, f).Some? && "ports" in g && g["ports"] == DumpPorts(PortsOf(c, f).value)
    ensures PortsOf(c, g) == PortsOf(c, f)
  {
    var ports := PortsOf(c, f).value;
    forall i | 0 <= i < |ports| ensures MappingOf(c, g["ports"].items[i]) == Some(ports[i]) {
      GuestsInRange(c, f, ports[i]);
      MappingRoundTrip(c, ports[i]);
    }
    assert PortsOf(c, g).value == ports;
  }

  lemma BlocksRoundTrip(c: Codec, f: Fields, g: Fields)
    requires Lawful(c) && BlocksOf(c, f).Some?
    requires forall k | k in BLOCKS :: k in g && g[k] == BlocksOf(c, f).value[k]
    ensures BlocksOf(c, g) == BlocksOf(c, f)
  {
    forall k | k in BLOCKS ensures c.block(k, Lookup(g, k)) == c.block(k, Lookup(f, k)) {
      assert Lookup(g, k) == c.block(k, Lookup(f, k));
    }
    assert BlocksOf(c, g).value == BlocksOf(c, f).value;
  }

  /** Anything a load would still migrate. */
  predicate NeedsMigration(f: Fields) { Bumpable(f) || ("ports" in f && f["ports"].Obj?) }

  lemma DumpedFields(cfg: Config)
    requires cfg.blocks.Keys == BLOCKS
    ensures var g := DumpFields(cfg);
            && "stealth" !in g && "api_version" in g && g["api_version"] == J.Num(SUPPORTED_API_VERSION)
            && Lookup(g, "android") == Some(DumpAndroid(cfg.android))
            && Lookup(g, "display") == Some(DumpDisplay(cfg.display))
            && "ports" in g && g["ports"] == DumpPorts(cfg.ports) && g["ports"].Arr?
            && forall k | k in BLOCKS :: k in g && g[k] == cfg.blocks[k]
  {
  }

  lemma BlockNames(c: Codec, f: Fields)
    requires BlocksOf(c, f).Some?
    ensures BlocksOf(c, f).value.Keys == BLOCKS
  {
  }

  lemma LawfulInts(c: Codec, n: int)
    requires Lawful(c)
    ensures c.asInt(J.Num(n)) == Some(n)
  {
  }

  lemma ValidateDump(c: Codec, f: Fields)
    requires Lawful(c) && Validate(c, f).Some?
    ensures Validate(c, DumpFields(Validate(c, f).value)) == Validate(c, f)
    ensures !NeedsMigration(DumpFields(Validate(c, f).value))
  {
    hide Lawful, AndroidOf, DisplayOf, BlocksOf, PortsOf, PortsAccepted, DumpFields, DumpAndroid, DumpDisplay,
        DumpPorts, Lookup;
    var cfg, h := Validate(c, f).value, Migrate(f).value;
    var g := DumpFields(cfg);
    BlockNames(c, h);
    DumpedFields(cfg);
    LawfulInts(c, SUPPORTED_API_VERSION);
    AndroidRoundTrip(c, Lookup(h, "android"));
    DisplayRoundTrip(c, Lookup(h, "display"));
    BlocksRoundTrip(c, h, g);
    PortsRoundTrip(c, h, g);
    assert Migrate(g) == Some(g);
  }

  /** Every accepted document, of any version, is written as one that loads to the same configuration
      with nothing left to migrate. */
  lemma LoadDumpLoad(c: Codec, y: Yaml)
    requires Lawful(c) && Load(c, y).Some?
    ensures Load(c, J.Obj(DumpFields(Load(c, y).value))) == Load(c, y)
    ensures !NeedsMigration(DumpFields(Load(c, y).value))
  {
    hide Validate, DumpFields;
    ValidateDump(c, if y.Null? then map[] else Bumped(y.fields));
  }

  // ---- What a load promises the allocator ----------------------------------------------------------

  /** Exactly one entry names the service, and its guest port is the image's. */
  predicate NamedOnce(ports: seq<PortMapping>, service: string, guest: int) {
    exists i :: && 0 <= i < |ports| && ports[i].service == Some(service) && ports[i].guest == guest
                && forall j | 0 <= j < |ports| && j != i :: ports[j].service != Some(service)
  }

  lemma OfferedMeansNamedOnce(ports: seq<PortMapping>, fridaOn: bool, service: string)
    requires PortsAccepted(ports, fridaOn) && Offers(ports, service) && Canonical(service).Some?
    ensures NamedOnce(ports, service, Canonical(service).value)
  {
    var m :| m in ports && m.service == Some(service);
    var i :| 0 <= i < |ports| && ports[i] == m;
    forall j | 0 <= j < |ports| && j != i ensures ports[j].service != Some(service) { assert i < j || j < i; }
  }

  /** Loaded ports meet what the allocator assumes, and name the services the addresses come from, once
      and on their own guest port: adb always, both frida channels when frida is configured. */
  lemma LoadedPorts(c: Codec, y: Yaml)
    requires Load(c, y).Some?
    ensures Validated(Load(c, y).value.ports)
    ensures NamedOnce(Load(c, y).value.ports, "adb", 5555)
    ensures "frida" in Load(c, y).value.blocks
    ensures Load(c, y).value.blocks["frida"] != J.Null ==>
              && NamedOnce(Load(c, y).value.ports, "frida", 27042)
              && NamedOnce(Load(c, y).value.ports, "frida_control", 27043)
  {
    hide AndroidOf, DisplayOf, PortsOf, PortsAccepted, Offers, Canonical, Lookup, Migrate;
    var cfg := Load(c, y).value;
    var fridaOn := cfg.blocks["frida"] != J.Null;
    CanonicalPorts();
    AcceptedOffers(cfg.ports, fridaOn);
    OfferedMeansNamedOnce(cfg.ports, fridaOn, "adb");
    if fridaOn {
      OfferedMeansNamedOnce(cfg.ports, fridaOn, "frida");
      OfferedMeansNamedOnce(cfg.ports, fridaOn, "frida_control");
    }
  }

  lemma AcceptedOffers(ports: seq<PortMapping>, fridaOn: bool)
    requires PortsAccepted(ports, fridaOn)
    ensures Validated(ports) && Offers(ports, "adb")
    ensures fridaOn ==> Offers(ports, "frida") && Offers(ports, "frida_control")
  {
  }

  /** Versions that load: absent, 1 to 7 (which are bumped), or anything that reads as 8. */
  predicate VersionLoads(c: Codec, f: Fields) {
    "api_version" !in f || Bumpable(f) || c.asInt(f["api_version"]) == Some(SUPPORTED_API_VERSION)
  }

  /** The version decides whether a document loads, never what it means. */
  lemma VersionOnlyGates(c: Codec, f: Fields)
    requires Lawful(c)
    ensures Load(c, J.Obj(f)) == if VersionLoads(c, f) then Load(c, J.Obj(f - {"api_version"})) else None
  {
    var g := f - {"api_version"};
    LawfulInts(c, SUPPORTED_API_VERSION);
    if VersionLoads(c, f) { SameButVersion(c, Bumped(f), g); }
    hide Validate;
    assert Bumped(g) == g;
    UnversionedIsSupported(c, Bumped(f));
  }

  lemma UnversionedIsSupported(c: Codec, f: Fields)
    ensures IntOr(c, f, "api_version", SUPPORTED_API_VERSION) != Some(SUPPORTED_API_VERSION) ==> Validate(c, f).None?
  {
    hide AndroidOf, DisplayOf, BlocksOf, PortsOf, PortsAccepted, Lookup;
  }

  lemma SameButVersion(c: Codec, f: Fields, g: Fields)
    requires g == f - {"api_version"}
        && IntOr(c, f, "api_version", SUPPORTED_API_VERSION) == Some(SUPPORTED_API_VERSION)
    ensures Validate(c, f) == Validate(c, g)
  {
    hide AndroidOf, DisplayOf, MappingOf, PortsAccepted, Seeded, UnknownService;
    if Migrate(f).Some? {
      var h, k := Migrate(f).value, Migrate(g).value;
      assert k == h - {"api_version"};
      BlocksSame(c, h, k);
    }
  }

  lemma BlocksSame(c: Codec, f: Fields, g: Fields)
    requires g == f - {"api_version"}
    ensures BlocksOf(c, f) == BlocksOf(c, g)
  {
    forall k | k in BLOCKS ensures Lookup(f, k) == Lookup(g, k) {}
    if BlocksOf(c, f).Some? { assert BlocksOf(c, f).value == BlocksOf(c, g).value; }
  }

  /** The override a legacy mapping gives a service, if any. */
  function Override(c: Codec, overrides: Fields, service: string): Option<int> {
    if service in overrides && !overrides[service].Null? then c.asInt(overrides[service]) else None
  }

  function MigratedPorts(c: Codec, overrides: Fields): seq<PortMapping> {
    [PortMapping(Some("adb"), 5555, Override(c, overrides, "adb")),
     PortMapping(Some("frida"), 27042, Override(c, overrides, "frida")),
     PortMapping(Some("frida_control"), 27043, Override(c, overrides, "frida_control"))]
  }

  predicate InPortRange(c: Codec, overrides: Fields, service: string) {
    service in overrides && !overrides[service].Null? ==> PortNumber(c, overrides[service]).Some?
  }

  lemma SeededMapping(c: Codec, service: string, overrides: Fields)
    requires Lawful(c) && Canonical(service).Some?
    ensures MappingOf(c, SeededEntry(service, Canonical(service).value, overrides)).Some? <==>
        InPortRange(c, overrides, service)
    ensures InPortRange(c, overrides, service) ==>
              MappingOf(c, SeededEntry(service, Canonical(service).value, overrides))
              == Some(PortMapping(Some(service), Canonical(service).value, Override(c, overrides, service)))
  {
  }

  lemma CanonicalPorts()
    ensures Canonical("adb") == Some(5555) && Canonical("frida") == Some(27042)
        && Canonical("frida_control") == Some(27043)
  {
  }

  /** A legacy mapping that is accepted becomes the three services with its overrides as pins. */
  lemma LegacyBecomesPins(c: Codec, f: Fields)
    requires Lawful(c) && "ports" in f && f["ports"].Obj? && f["ports"].fields != map[] && Load(c, J.Obj(f)).Some?
    ensures LegacyPorts(f)
    ensures Load(c, J.Obj(f)).value.ports == MigratedPorts(c, f["ports"].fields)
  {
    hide AndroidOf, DisplayOf, BlocksOf, PortsAccepted, Lookup, MappingOf, InPortRange, Override, SeededEntry,
        Canonical;
    var overrides := f["ports"].fields;
    var g := Migrate(Bumped(f)).value;
    assert g["ports"] == J.Arr(Seeded(overrides));
    var items := Seeded(overrides);
    assert forall i | 0 <= i < |items| :: MappingOf(c, items[i]).Some?;
    assert MappingOf(c, items[0]).Some? && MappingOf(c, items[1]).Some? && MappingOf(c, items[2]).Some?;
    CanonicalPorts();
    SeededMapping(c, "adb", overrides);
    SeededMapping(c, "frida", overrides);
    SeededMapping(c, "frida_control", overrides);
    assert PortsOf(c, g).value == MigratedPorts(c, overrides);
  }

  /** The override where there is one, the stride default elsewhere. */
  function Expected(c: Codec, overrides: Fields, service: string, index: int): ResolvedPort
    requires Canonical(service).Some?
  {
    var guest, pin := Canonical(service).value, Override(c, overrides, service);
    ResolvedPort(Some(service), guest, if pin.Some? then pin.value else guest + STRIDE * index)
  }

  lemma PinsResolve(c: Codec, overrides: Fields, index: int)
    requires Validated(MigratedPorts(c, overrides)) && InRange(index)
    ensures var ports, r := MigratedPorts(c, overrides), Resolve(index, MigratedPorts(c, overrides));
            && (r.Ok? <==> !PinOnDefault(index, ports))
            && (r.Ok? ==> r.value == [Expected(c, overrides, "adb", index), Expected(c, overrides, "frida", index),
                                      Expected(c, overrides, "frida_control", index)])
  {
    hide Override, PinOnDefault, Validated, DistinctHosts;
    var ports := MigratedPorts(c, overrides);
    assert Slots(ports, 0) == 0 && Slots(ports, 1) == 0 && Slots(ports, 2) == 0 && Slots(ports, 3) == 0;
    ResolveSucceedsExactly(index, ports);
  }

  /** At every index it resolves to its overrides, with the stride defaults elsewhere; and resolution fails
      exactly when an override sits on the default of a service it does not override. */
  lemma LegacyResolves(c: Codec, f: Fields, index: int)
    requires Lawful(c) && Load(c, J.Obj(f)).Some? && InRange(index)
    requires "ports" in f && f["ports"].Obj? && f["ports"].fields != map[]
    ensures var o, r := f["ports"].fields, Resolve(index, Load(c, J.Obj(f)).value.ports);
            && (r.Ok? <==> !PinOnDefault(index, MigratedPorts(c, o)))
            && (r.Ok? ==> r.value == [Expected(c, o, "adb", index), Expected(c, o, "frida", index),
                                      Expected(c, o, "frida_control", index)])
  {
    hide Load, Resolve, MigratedPorts, Expected, PinOnDefault, Validated;
    LegacyBecomesPins(c, f);
    LoadedPorts(c, J.Obj(f));
    PinsResolve(c, f["ports"].fields, index);
  }

  // ---- Which documents load, and to what ------------------------------------------------------------

  /** An integer read from a key, or its default. */
  predicate Reads(c: Codec, f: Fields, k: string, default: int, n: int) {
    if k in f then c.asInt(f[k]) == Some(n) else n == default
  }

  predicate Picks(f: Fields, k: string, default: string, v: string) {
    if k in f then f[k] == J.Str(v) else v == default
  }

  /** Exactly the android blocks that are accepted, and the values each gives. */
  lemma AndroidExactly(c: Codec, f: Fields, a: Android)
    ensures AndroidOf(c, None) == Some(a) <==> a == Android(14, "minimal", None)
    ensures AndroidOf(c, Some(J.Obj(f))) == Some(a) <==>
              && "base_image" !in f
              && Reads(c, f, "version", 14, a.version) && 11 <= a.version <= 14
              && Picks(f, "gapps", "minimal", a.gapps) && a.gapps in {"none", "minimal", "full"}
              && (if "gapps_vendor" in f && f["gapps_vendor"] != J.Null
                  then a.vendor.Some? && f["gapps_vendor"] == J.Str(a.vendor.value) else a.vendor.None?)
              && (a.vendor.Some? ==> a.vendor.value in {"litegapps", "opengapps", "mindthegapps"} && a.gapps != "none")
  {
    assert LegacyGapps(f) ==> f["gapps"].s !in {"none", "minimal", "full"};
  }

  /** Exactly the display blocks that are accepted, and the values each gives. */
  lemma DisplayExactly(c: Codec, f: Fields, d: Display)
    ensures DisplayOf(c, None) == Some(d) <==> d == Display(540, 960, 3, "auto")
    ensures DisplayOf(c, Some(J.Obj(f))) == Some(d) <==>
              && "gpu_mode" !in f
              && Reads(c, f, "width", 540, d.width) && Reads(c, f, "height", 960, d.height)
              && Reads(c, f, "fps", 3, d.fps) && d.width > 0 && d.height > 0 && d.fps > 0
              && Picks(f, "rendering", "auto", d.rendering) && d.rendering in {"gpu", "software", "auto"}
  {
  }

  /** One entry of the list form; a missing or null service or host means none. */
  predicate ReadsMapping(c: Codec, y: Yaml, m: PortMapping) {
    && y.Obj? && "guest" in y.fields && c.asInt(y.fields["guest"]) == Some(m.guest) && 1 <= m.guest <= 65535
    && (if "service" in y.fields && y.fields["service"] != J.Null
        then m.service.Some? && y.fields["service"] == J.Str(m.service.value) else m.service.None?)
    && (if "host" in y.fields && y.fields["host"] != J.Null
        then m.host.Some? && c.asInt(y.fields["host"]) == m.host && 1 <= m.host.value <= 65535 else m.host.None?)
  }

  /** One service of the mapping form: its override, or none where it is missing or null. */
  predicate ReadsOverride(c: Codec, f: Fields, service: string, guest: int, m: PortMapping) {
    && m.service == Some(service) && m.guest == guest
    && (if service in f && f[service] != J.Null
        then m.host.Some? && c.asInt(f[service]) == m.host && 1 <= m.host.value <= 65535 else m.host.None?)
  }

  /** The three forms of `ports`, and what each gives. */
  predicate ReadsPorts(c: Codec, f: Fields, ports: seq<PortMapping>) {
    if "ports" !in f || f["ports"] == J.Obj(map[]) then
      ports == [PortMapping(Some("adb"), 5555, None), PortMapping(Some("frida"), 27042, None),
                PortMapping(Some("frida_control"), 27043, None)]
    else match f["ports"]
      case Arr(items) => |items| == |ports| && forall i | 0 <= i < |items| :: ReadsMapping(c, items[i], ports[i])
      case Obj(o) =>
        && o.Keys <= {"adb", "frida", "frida_control"} && |ports| == 3
        && ReadsOverride(c, o, "adb", 5555, ports[0]) && ReadsOverride(c, o, "frida", 27042, ports[1])
        && ReadsOverride(c, o, "frida_control", 27043, ports[2])
      case _ => false
  }

  lemma MappingExactly(c: Codec, y: Yaml, m: PortMapping)
    ensures MappingOf(c, y) == Some(m) <==> ReadsMapping(c, y, m)
  {
  }

  lemma OverrideExactly(c: Codec, o: Fields, service: string, guest: int, m: PortMapping)
    requires Lawful(c) && 1 <= guest <= 65535
    ensures MappingOf(c, SeededEntry(service, guest, o)) == Some(m) <==> ReadsOverride(c, o, service, guest, m)
  {
    MappingExactly(c, SeededEntry(service, guest, o), m);
  }

  lemma UnknownExactly(o: Fields)
    ensures UnknownService(o) <==> !(o.Keys <= {"adb", "frida", "frida_control"})
  {
    if k :| k in o.Keys && k !in {"adb", "frida", "frida_control"} { assert Canonical(k).None?; }
  }

  lemma ListExactly(c: Codec, f: Fields, ports: seq<PortMapping>)
    requires "ports" in f && f["ports"].Arr?
    ensures PortsOf(c, f) == Some(ports) <==>
              && |f["ports"].items| == |ports|
              && forall i | 0 <= i < |ports| :: MappingOf(c, f["ports"].items[i]) == Some(ports[i])
  {
    hide MappingOf;
    var items := f["ports"].items;
    if |items| == |ports| && forall i | 0 <= i < |ports| :: MappingOf(c, items[i]) == Some(ports[i]) {
      assert PortsOf(c, f).value == ports;
    }
  }

  /** Exactly the `ports` values that are accepted, and the list each gives, before the checks over the whole list. */
  lemma PortsExactly(c: Codec, f: Fields, ports: seq<PortMapping>)
    requires Lawful(c)
    ensures Migrate(f).Some? && PortsOf(c, Migrate(f).value) == Some(ports) <==> ReadsPorts(c, f, ports)
  {
    hide MappingOf, ReadsMapping, ReadsOverride, UnknownService, SeededEntry, Lawful;
    if "ports" in f && f["ports"].Arr? {
      ListExactly(c, f, ports);
      forall i | 0 <= i < |ports| && |ports| == |f["ports"].items|
        ensures MappingOf(c, f["ports"].items[i]) == Some(ports[i]) <==> ReadsMapping(c, f["ports"].items[i], ports[i])
      {
        MappingExactly(c, f["ports"].items[i], ports[i]);
      }
    } else if "ports" in f && f["ports"].Obj? && f["ports"].fields != map[] {
      var o := f["ports"].fields;
      UnknownExactly(o);
      if Migrate(f).Some? {
        ListExactly(c, Migrate(f).value, ports);
        if |ports| == 3 {
          OverrideExactly(c, o, "adb", 5555, ports[0]);
          OverrideExactly(c, o, "frida", 27042, ports[1]);
          OverrideExactly(c, o, "frida_control", 27043, ports[2]);
        }
      }
    }
  }

  /** What the whole list must satisfy: distinct services, guests and pins; well-known services on their own guest
      ports; adb offered, and both frida channels when frida is configured. */
  predicate Coherent(ports: seq<PortMapping>, fridaOn: bool) {
    && (forall i, j | 0 <= i < |ports| && 0 <= j < |ports| && i != j ::
          && ports[i].guest != ports[j].guest
          && (ports[i].service.Some? ==> ports[i].service != ports[j].service)
          && (ports[i].host.Some? ==> ports[i].host != ports[j].host))
    && (forall i | 0 <= i < |ports| ::
          && (ports[i].service == Some("adb") ==> ports[i].guest == 5555)
          && (ports[i].service == Some("frida") ==> ports[i].guest == 27042)
          && (ports[i].service == Some("frida_control") ==> ports[i].guest == 27043))
    && (exists m :: m in ports && m.service == Some("adb"))
    && (fridaOn ==> (exists m :: m in ports && m.service == Some("frida"))
                    && exists m :: m in ports && m.service == Some("frida_control"))
  }

  lemma CoherentExactly(ports: seq<PortMapping>, fridaOn: bool)
    requires forall m | m in ports && m.host.Some? :: 1 <= m.host.value <= 65535
    ensures PortsAccepted(ports, fridaOn) <==> Coherent(ports, fridaOn)
  {
    if PortsAccepted(ports, fridaOn) {
      forall i, j | 0 <= i < |ports| && 0 <= j < |ports| && i != j
        ensures && ports[i].guest != ports[j].guest
                && (ports[i].service.Some? ==> ports[i].service != ports[j].service)
                && (ports[i].host.Some? ==> ports[i].host != ports[j].host)
      {
        if i > j { assert ports[j].guest != ports[i].guest; }
      }
    }
    if Coherent(ports, fridaOn) {
      forall m | m in ports && m.service.Some? && Canonical(m.service.value).Some?
        ensures Canonical(m.service.value) == Some(m.guest)
      {
        var i :| 0 <= i < |ports| && ports[i] == m;
      }
    }
  }

  /** The configuration a document stands for. */
  predicate StandsFor(c: Codec, f: Fields, cfg: Config) {
    && "stealth" !in f
    && ("api_version" in f ==> || c.asInt(f["api_version"]) == Some(8) || f["api_version"] == J.Bool(true)
                               || exists n :: 1 <= n <= 7 && f["api_version"] == J.Num(n))
    && AndroidOf(c, Lookup(f, "android")) == Some(cfg.android)
    && DisplayOf(c, Lookup(f, "display")) == Some(cfg.display)
    && cfg.blocks.Keys == {"lifecycle", "resources", "frida", "modules", "magisk", "binder", "vm"}
    && (forall k | k in cfg.blocks :: c.block(k, Lookup(f, k)) == Some(cfg.blocks[k]))
    && ReadsPorts(c, f, cfg.ports) && Coherent(cfg.ports, cfg.blocks["frida"] != J.Null)
  }

  lemma ReadInRange(c: Codec, f: Fields, ports: seq<PortMapping>)
    requires ReadsPorts(c, f, ports)
    ensures forall m | m in ports && m.host.Some? :: 1 <= m.host.value <= 65535
  {
    forall m | m in ports && m.host.Some? ensures 1 <= m.host.value <= 65535 {
      var i :| 0 <= i < |ports| && ports[i] == m;
      if "ports" in f && f["ports"].Arr? { assert ReadsMapping(c, f["ports"].items[i], m); }
    }
  }

  lemma BlocksExactly(c: Codec, f: Fields, blocks: map<string, Yaml>)
    ensures BlocksOf(c, f) == Some(blocks) <==>
              blocks.Keys == BLOCKS && forall k | k in blocks :: c.block(k, Lookup(f, k)) == Some(blocks[k])
  {
    if blocks.Keys == BLOCKS && forall k | k in blocks :: c.block(k, Lookup(f, k)) == Some(blocks[k]) {
      assert BlocksOf(c, f).Some? && BlocksOf(c, f).value == blocks;
    }
  }

  /** Apart from its ports and version, a document is migrated as it stands. */
  lemma MigratedRest(f: Fields)
    requires Migrate(Bumped(f)).Some?
    ensures var g := Migrate(Bumped(f)).value;
            && Lookup(g, "android") == Lookup(f, "android") && Lookup(g, "display") == Lookup(f, "display")
            && (forall k | k in BLOCKS :: Lookup(g, k) == Lookup(f, k))
            && ("api_version" in g <==> "api_version" in f)
            && ("api_version" in f ==> g["api_version"] == if Bumpable(f) then J.Num(8) else f["api_version"])
  {
    hide Seeded, UnknownService;
  }

  lemma MigratePorts(c: Codec, f: Fields, ports: seq<PortMapping>)
    ensures ReadsPorts(c, Bumped(f), ports) <==> ReadsPorts(c, f, ports)
  {
    hide Bumpable, ReadsMapping, ReadsOverride;
  }

  /** A document loads to a configuration exactly when it stands for it. */
  lemma LoadExactly(c: Codec, f: Fields, cfg: Config)
    requires Lawful(c)
    ensures Load(c, J.Obj(f)) == Some(cfg) <==> StandsFor(c, f, cfg)
  {
    hide Lawful, AndroidOf, DisplayOf, BlocksOf, PortsOf, PortsAccepted, ReadsPorts, Coherent, Lookup, Migrate;
    var g := Bumped(f);
    PortsExactly(c, g, cfg.ports);
    MigratePorts(c, f, cfg.ports);
    if ReadsPorts(c, f, cfg.ports) && "frida" in cfg.blocks {
      ReadInRange(c, f, cfg.ports);
      CoherentExactly(cfg.ports, cfg.blocks["frida"] != J.Null);
    }
    if Migrate(g).Some? {
      MigratedRest(f);
      BlocksExactly(c, Migrate(g).value, cfg.blocks);
      LawfulInts(c, 8);
    }
  }

  /** The empty document stands for the defaults, as soon as every other block has one; a bare value never loads. */
  lemma EmptyDocument(c: Codec, y: Yaml)
    requires y == J.Null || y == J.Obj(map[])
    ensures forall z: Yaml | !z.Null? && !z.Obj? :: Load(c, z).None?
    ensures Load(c, y).Some? <==> forall k | k in BLOCKS :: c.block(k, None).Some?
    ensures Load(c, y).Some? ==>
              var cfg := Load(c, y).value;
              && cfg.android == Android(14, "minimal", None) && cfg.display == Display(540, 960, 3, "auto")
              && cfg.ports == [PortMapping(Some("adb"), 5555, None), PortMapping(Some("frida"), 27042, None),
                               PortMapping(Some("frida_control"), 27043, None)]
  {
    var ports := DefaultPorts();
    assert ports[0] in ports && ports[1] in ports && ports[2] in ports;
  }

  /** An empty mapping, unlike an empty list, means the defaults. */
  lemma EmptyMappingMeansDefaults(c: Codec, f: Fields)
    requires "ports" in f
    ensures f["ports"] == J.Obj(map[]) ==> Load(c, J.Obj(f)) == Load(c, J.Obj(f - {"ports"}))
    ensures f["ports"] == J.Arr([]) ==> Load(c, J.Obj(f)).None?
  {
    if f["ports"] == J.Obj(map[]) {
      assert Bumped(f) - {"ports"} == Bumped(f - {"ports"});
    }
  }

  /** A document that still carries a renamed key is refused whatever version it claims. */
  predicate Renamed(f: Fields) {
    || "stealth" in f
    || ("display" in f && f["display"].Obj? && "gpu_mode" in f["display"].fields)
    || ("android" in f && f["android"].Obj? && LegacyGapps(f["android"].fields))
    || ("ports" in f && f["ports"].Obj? && UnknownService(f["ports"].fields))
  }

  lemma RenamedIsRefused(c: Codec, f: Fields)
    requires Renamed(f)
    ensures Load(c, J.Obj(f)).None?
  {
    hide BlocksOf, PortsOf, PortsAccepted, LegacyGapps;
  }

  /** A pinned vendor is never combined with no GApps at all. */
  lemma VendorMeansGapps(c: Codec, y: Yaml)
    requires Load(c, y).Some? && Load(c, y).value.android.vendor.Some?
    ensures Load(c, y).value.android.gapps != "none"
  {
  }

  // ---- The loader and its notes ----------------------------------------------------------------------

  datatype Kind = Bump | PortsForm | Vendor

  datatype Note = Note(kind: Kind, path: string)

  /** When a load calls for a note. */
  predicate Wants(c: Codec, y: Yaml, kind: Kind) {
    match kind
    case Bump => y.Obj? && Bumpable(y.fields) && !Renamed(y.fields)
    case PortsForm => y.Obj? && LegacyPorts(y.fields)
    case Vendor => Load(c, y).Some? && Load(c, y).value.android.vendor.Some?
  }

  /** Exactly the documents that are noted: a version below 8 with no renamed key anywhere; a mapping of ports that is
      not empty and names well-known services only; an accepted document that pins a GApps vendor. */
  lemma WantsExactly(c: Codec, f: Fields)
    ensures Wants(c, J.Obj(f), Bump) <==>
              && "api_version" in f
              && (f["api_version"] == J.Bool(true) || exists n :: 1 <= n <= 7 && f["api_version"] == J.Num(n))
              && "stealth" !in f
              && ("display" in f && f["display"].Obj? ==> "gpu_mode" !in f["display"].fields)
              && ("android" in f && f["android"].Obj? && "gapps" in f["android"].fields ==>
                    f["android"].fields["gapps"] !in {J.Str("lite"), J.Str("mindthegapps")})
              && ("ports" in f && f["ports"].Obj? ==> f["ports"].fields.Keys <= {"adb", "frida", "frida_control"})
    ensures Wants(c, J.Obj(f), PortsForm) <==>
              && "ports" in f && f["ports"].Obj? && f["ports"].fields != map[]
              && f["ports"].fields.Keys <= {"adb", "frida", "frida_control"}
    ensures Wants(c, J.Obj(f), Vendor) <==> exists cfg :: Load(c, J.Obj(f)) == Some(cfg) && cfg.android.vendor.Some?
  {
    hide Load;
    if "ports" in f && f["ports"].Obj? { UnknownExactly(f["ports"].fields); }
    hide UnknownService;
  }

  lemma EmptyIsPlain()
    ensures !Bumpable(map[]) && !LegacyPorts(map[])
  {
  }

  /** The module-level sets that keep a fleet scan from repeating a note. */
  class Loader {
    var notes: seq<Note>
    var bumpWarned: set<string>
    var portsWarned: set<string>
    var vendorWarned: set<string>

    function Warned(kind: Kind): set<string>
      reads this
    {
      match kind case Bump => bumpWarned case PortsForm => portsWarned case Vendor => vendorWarned
    }

    /** No note is ever printed twice, and the sets know exactly which were. */
    ghost predicate Valid()
      reads this
    {
      && (forall i, j | 0 <= i < j < |notes| :: notes[i] != notes[j])
      && (forall n :: n in notes <==> n.path in Warned(n.kind))
    }

    constructor ()
      ensures Valid() && notes == []
    {
      notes, bumpWarned, portsWarned, vendorWarned := [], {}, {}, {};
    }

    method Print(n: Note)
      requires Valid()
      modifies this
      ensures Valid() && notes == if n in old(notes) then old(notes) else old(notes) + [n]
      ensures forall m :: m in notes <==> m in old(notes) || m == n
    {
      match n.kind {
        case Bump =>
          if n.path in bumpWarned { return; }
          bumpWarned := bumpWarned + {n.path};
        case PortsForm =>
          if n.path in portsWarned { return; }
          portsWarned := portsWarned + {n.path};
        case Vendor =>
          if n.path in vendorWarned { return; }
          vendorWarned := vendorWarned + {n.path};
      }
      notes := notes + [n];
    }

    /** The two notes about a document that is about to be migrated. */
    method NoteMigrations(path: string, f: Fields)
      requires Valid()
      modifies this
      ensures Valid()
      ensures forall k :: Note(k, path) in notes <==> || Note(k, path) in old(notes)
                                                      || (k == Bump && Bumpable(f) && !Renamed(f))
                                                      || (k == PortsForm && LegacyPorts(f))
      ensures forall n: Note | n.path != path :: n in notes <==> n in old(notes)
    {
      hide Renamed, LegacyPorts, Bumpable, Valid;
      if Bumpable(f) && !Renamed(f) { Print(Note(Bump, path)); }
      if LegacyPorts(f) { Print(Note(PortsForm, path)); }
    }

    /** A load says what it changed, once for each path; a renamed key silences the version note. */
    method LoadYaml(c: Codec, path: string, y: Yaml) returns (r: Option<Config>)
      requires Valid()
      modifies this
      ensures Valid() && r == Load(c, y)
      ensures forall k :: Note(k, path) in notes <==> Note(k, path) in old(notes) || Wants(c, y, k)
      ensures forall n: Note | n.path != path :: n in notes <==> n in old(notes)
    {
      hide Validate, Renamed, LegacyPorts, Bumpable, Valid;
      EmptyIsPlain();
      var raw := if y.Null? then J.Obj(map[]) else y;
      if raw.Obj? {
        NoteMigrations(path, raw.fields);
        if Bumpable(raw.fields) {
          raw := J.Obj(raw.fields["api_version" := J.Num(SUPPORTED_API_VERSION)]);
        }
      }
      r := if raw.Obj? then Validate(c, raw.fields) else None;
      assert r == Load(c, y);
      if r.Some? && r.value.android.vendor.Some? { VendorMeansGapps(c, y); }
      if r.Some? && r.value.android.vendor.Some? && r.value.android.gapps != "none" { Print(Note(Vendor, path)); }
    }
  }

  /** An accepted document of an older version is always noted: only a refused one is silent about its version. */
  lemma AcceptedBumpIsNoted(c: Codec, y: Yaml)
    requires Load(c, y).Some?
    ensures Wants(c, y, Bump) <==> y.Obj? && Bumpable(y.fields)
  {
    hide Validate, Renamed;
    if y.Obj? && Renamed(y.fields) { RenamedIsRefused(c, y.fields); }
  }

  /** What was loaded and written back calls for no migration note any more. */
  lemma WrittenBackIsQuiet(c: Codec, y: Yaml, kind: Kind)
    requires Lawful(c) && Load(c, y).Some? && kind != Vendor
    ensures !Wants(c, J.Obj(DumpFields(Load(c, y).value)), kind)
  {
    LoadDumpLoad(c, y);
  }
}
