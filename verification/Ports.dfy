/**
 Host-port allocation (src/beetroot/ports.py): stride bands for the well-known
 services, an extra pool for arbitrary ones, a cap that keeps them apart, and
 the sibling view the cross-instance collision scan takes.
 */
module Ports {
  import opened Prelude

  const ADB_BASE := 5555
  const FRIDA_BASE := 27042
  const FRIDA_CONTROL_BASE := 27043
  const STRIDE := 10
  const MAX_PORT := 65535
  const PRIVILEGED_PORT_CEILING := 1024
  const EXTRA_POOL_BASE := 40000
  const MAX_PORT_INDEX := Min((EXTRA_POOL_BASE - 1 - FRIDA_CONTROL_BASE) / STRIDE,
                              (MAX_PORT - EXTRA_POOL_BASE - STRIDE) / STRIDE)

  function Min(a: int, b: int): int { if a < b then a else b }

  datatype PortMapping = PortMapping(service: Option<string>, guest: int, host: Option<int>)

  datatype ResolvedPort = ResolvedPort(service: Option<string>, guest: int, host: int)

  datatype PortError = BadIndex | TooManyExtras | Duplicate

  predicate InRange(index: int) { 0 <= index <= MAX_PORT_INDEX }

  function WellKnownBase(service: Option<string>): Option<int> {
    if service == Some("adb") then Some(ADB_BASE)
    else if service == Some("frida") then Some(FRIDA_BASE)
    else if service == Some("frida_control") then Some(FRIDA_CONTROL_BASE)
    else None
  }

  // ---- The reference meaning of resolution, position by position ----------

  predicate TakesSlot(m: PortMapping) { m.host.None? && WellKnownBase(m.service).None? }

  /** How many of the first `k` entries draw a slot from the extra pool. */
  function Slots(ports: seq<PortMapping>, k: nat): nat
    requires k <= |ports|
  {
    if k == 0 then 0 else Slots(ports, k - 1) + if TakesSlot(ports[k - 1]) then 1 else 0
  }

  function HostAt(index: int, ports: seq<PortMapping>, k: nat): int
    requires k < |ports|
  {
    if ports[k].host.Some? then ports[k].host.value
    else if WellKnownBase(ports[k].service).Some? then
      WellKnownBase(ports[k].service).value + index * STRIDE
    else EXTRA_POOL_BASE + index * STRIDE + Slots(ports, k)
  }

  function ResolvedAt(index: int, ports: seq<PortMapping>, k: nat): ResolvedPort
    requires k < |ports|
  {
    ResolvedPort(ports[k].service, ports[k].guest, HostAt(index, ports, k))
  }

  predicate DistinctHosts(index: int, ports: seq<PortMapping>) {
    forall i, j | 0 <= i < j < |ports| :: HostAt(index, ports, i) != HostAt(index, ports, j)
  }

  function Resolve(index: int, ports: seq<PortMapping>): Result<seq<ResolvedPort>, PortError> {
    if !InRange(index) then Err(BadIndex)
    else if Slots(ports, |ports|) > STRIDE then Err(TooManyExtras)
    else if !DistinctHosts(index, ports) then Err(Duplicate)
    else Ok(seq(|ports|, k requires 0 <= k < |ports| => ResolvedAt(index, ports, k)))
  }

  /** Slots go to the entries that have neither a host nor a well-known service, one each. */
  lemma {:induction false} SlotsExactly(ports: seq<PortMapping>, k: nat)
    requires k <= |ports|
    ensures Slots(ports, k) ==
              |set i | 0 <= i < k && ports[i].host.None?
                       && ports[i].service !in {Some("adb"), Some("frida"), Some("frida_control")}|
  {
    if k == 0 {
    } else {
      SlotsExactly(ports, k - 1);
      var before := set i | 0 <= i < k - 1 && ports[i].host.None?
                            && ports[i].service !in {Some("adb"), Some("frida"), Some("frida_control")};
      var after := set i | 0 <= i < k && ports[i].host.None?
                           && ports[i].service !in {Some("adb"), Some("frida"), Some("frida_control")};
      assert after == if TakesSlot(ports[k - 1]) then before + {k - 1} else before;
    }
  }

  lemma {:induction false} SlotsMonotone(ports: seq<PortMapping>, i: nat, j: nat)
    requires i <= j <= |ports|
    ensures Slots(ports, i) <= Slots(ports, j)
    ensures i < j && TakesSlot(ports[i]) ==> Slots(ports, i) < Slots(ports, j)
    decreases j - i
  {
    if i == j {
    } else {
      SlotsMonotone(ports, i + 1, j);
    }
  }

  // ---- The allocator loop ---------------------------------------------------

  method ResolvePorts(index: int, ports: seq<PortMapping>) returns (r: Result<seq<ResolvedPort>, PortError>)
    ensures r == Resolve(index, ports)
  {
    if index < 0 || index > MAX_PORT_INDEX { return Err(BadIndex); }
    var resolved: seq<ResolvedPort> := [];
    var extraSlot := 0;
    for n := 0 to |ports|
      invariant |resolved| == n
      invariant extraSlot == Slots(ports, n) <= STRIDE
      invariant forall k | 0 <= k < n :: resolved[k] == ResolvedAt(index, ports, k)
    {
      var mapping := ports[n];
      var host;
      if mapping.host.Some? {
        host := mapping.host.value;
      } else if WellKnownBase(mapping.service).Some? {
        host := WellKnownBase(mapping.service).value + index * STRIDE;
      } else {
        if extraSlot >= STRIDE {
          SlotsMonotone(ports, n + 1, |ports|);
          return Err(TooManyExtras);
        }
        host := EXTRA_POOL_BASE + index * STRIDE + extraSlot;
        extraSlot := extraSlot + 1;
      }
      resolved := resolved + [ResolvedPort(mapping.service, mapping.guest, host)];
    }
    var seen: set<int> := {};
    for n := 0 to |resolved|
      invariant forall h :: h in seen <==> exists k | 0 <= k < n :: resolved[k].host == h
      invariant forall i, j | 0 <= i < j < n :: resolved[i].host != resolved[j].host
    {
      if resolved[n].host in seen {
        ghost var i :| 0 <= i < n && resolved[i].host == resolved[n].host;
        assert HostAt(index, ports, i) == HostAt(index, ports, n);
        return Err(Duplicate);
      }
      seen := seen + {resolved[n].host};
    }
    assert DistinctHosts(index, ports) by {
      forall i, j | 0 <= i < j < |ports| ensures HostAt(index, ports, i) != HostAt(index, ports, j) {
        assert resolved[i].host != resolved[j].host;
      }
    }
    assert resolved == seq(|ports|, k requires 0 <= k < |ports| => ResolvedAt(index, ports, k));
    return Ok(resolved);
  }

  // ---- When resolution succeeds ---------------------------------------------

  /** What a loaded configuration guarantees about its ports list. */
  predicate Validated(ports: seq<PortMapping>) {
    && (forall i, j | 0 <= i < j < |ports| && ports[i].service.Some? :: ports[i].service != ports[j].service)
    && (forall i, j | 0 <= i < j < |ports| :: ports[i].guest != ports[j].guest)
    && (forall i, j | 0 <= i < j < |ports| && ports[i].host.Some? :: ports[i].host != ports[j].host)
    && (forall i | 0 <= i < |ports| && ports[i].host.Some? :: 1 <= ports[i].host.value <= MAX_PORT)
  }

  /** An explicit pin sits on a host port that an unset entry would be given. */
  predicate PinOnDefault(index: int, ports: seq<PortMapping>) {
    exists i, j | 0 <= i < |ports| && 0 <= j < |ports| ::
      ports[i].host.Some? && ports[j].host.None? && HostAt(index, ports, i) == HostAt(index, ports, j)
  }

  lemma AutoHostsDiffer(index: int, ports: seq<PortMapping>, i: nat, j: nat)
    requires InRange(index) && i < j < |ports|
    requires ports[i].host.None? && ports[j].host.None?
    requires ports[i].service.Some? ==> ports[i].service != ports[j].service
    ensures HostAt(index, ports, i) != HostAt(index, ports, j)
  {
    SlotsMonotone(ports, i, j);
  }

  lemma PinsApartMeansDistinct(index: int, ports: seq<PortMapping>, i: nat, j: nat)
    requires InRange(index) && Validated(ports) && !PinOnDefault(index, ports)
    requires i < j < |ports|
    ensures HostAt(index, ports, i) != HostAt(index, ports, j)
  {
    if ports[i].host.None? && ports[j].host.None? { AutoHostsDiffer(index, ports, i, j); }
  }

  lemma DistinctExactly(index: int, ports: seq<PortMapping>)
    requires InRange(index) && Validated(ports)
    ensures DistinctHosts(index, ports) <==> !PinOnDefault(index, ports)
  {
    if PinOnDefault(index, ports) {
      var i, j :| 0 <= i < |ports| && 0 <= j < |ports| && ports[i].host.Some? && ports[j].host.None?
                  && HostAt(index, ports, i) == HostAt(index, ports, j);
      assert i < j || j < i;
    } else {
      forall i, j | 0 <= i < j < |ports| ensures HostAt(index, ports, i) != HostAt(index, ports, j) {
        PinsApartMeansDistinct(index, ports, i, j);
      }
    }
  }

  /** Exactly when a validated ports list resolves at an in-range index. */
  lemma ResolveSucceedsExactly(index: int, ports: seq<PortMapping>)
    requires InRange(index) && Validated(ports)
    ensures Resolve(index, ports).Ok? <==> Slots(ports, |ports|) <= STRIDE && !PinOnDefault(index, ports)
  {
    DistinctExactly(index, ports);
  }

  /** On success: the input's order and length, distinct hosts, the stride port for an unset well-known entry,
      and for an unset arbitrary one the slot after those of the unset arbitrary entries before it. */
  lemma ResolvedShape(index: int, ports: seq<PortMapping>, i: nat, j: nat)
    requires Resolve(index, ports).Ok? && i < |ports| && j < |ports|
    ensures var r := Resolve(index, ports).value;
      && |r| == |ports|
      && r[i].service == ports[i].service && r[i].guest == ports[i].guest
      && (ports[i].host.Some? ==> r[i].host == ports[i].host.value)
      && (r[i].host == r[j].host ==> i == j)
      && (ports[i].host.None? && WellKnownBase(ports[i].service).Some? ==>
            r[i].host == WellKnownBase(ports[i].service).value + index * STRIDE)
      && (TakesSlot(ports[i]) ==> r[i].host == EXTRA_POOL_BASE + index * STRIDE + Slots(ports, i))
      && (TakesSlot(ports[i]) ==>
            EXTRA_POOL_BASE + index * STRIDE <= r[i].host < EXTRA_POOL_BASE + (index + 1) * STRIDE)
      && (TakesSlot(ports[i]) && TakesSlot(ports[j]) && i <= j ==>
            r[j].host - r[i].host == Slots(ports, j) - Slots(ports, i))
  {
    var r := Resolve(index, ports).value;
    assert r[i].host == HostAt(index, ports, i) && r[j].host == HostAt(index, ports, j);
    SlotsMonotone(ports, i, |ports|);
  }

  // ---- Bands and the cap ------------------------------------------------------

  function Hosts(r: seq<ResolvedPort>): set<int> { set rp | rp in r :: rp.host }

  function Defaults(index: int): set<int> {
    {ADB_BASE + index * STRIDE, FRIDA_BASE + index * STRIDE, FRIDA_CONTROL_BASE + index * STRIDE}
  }

  function ExplicitPins(ports: seq<PortMapping>): set<int> {
    set m | m in ports && m.host.Some? :: m.host.value
  }

  /** What the collision scan charges a directory-backed sibling with. */
  function SiblingPorts(index: int, ports: seq<PortMapping>): Result<set<int>, PortError> {
    if !InRange(index) then Err(BadIndex)
    else if Resolve(index, ports).Ok? then Ok(Hosts(Resolve(index, ports).value))
    else Ok(ExplicitPins(ports) + Defaults(index))
  }

  /** Whether or not a sibling resolves, the scan still sees every host port it pins. */
  lemma ScanKeepsPins(index: int, ports: seq<PortMapping>)
    requires InRange(index)
    ensures SiblingPorts(index, ports).Ok? && ExplicitPins(ports) <= SiblingPorts(index, ports).value
  {
    if Resolve(index, ports).Ok? {
      var r := Resolve(index, ports).value;
      forall h | h in ExplicitPins(ports) ensures h in Hosts(r) {
        var k :| 0 <= k < |ports| && ports[k].host == Some(h);
        assert r[k].host == h;
      }
    }
  }

  /** In numbers: what a sibling that resolves is charged with, what one that does not is, and when a scan fails. */
  lemma SiblingPortsExactly(index: int, ports: seq<PortMapping>, h: int)
    ensures SiblingPorts(index, ports).Ok? <==> 0 <= index <= 1295
    ensures Resolve(index, ports).Ok? ==>
              (h in SiblingPorts(index, ports).value
               <==> exists k :: 0 <= k < |ports| && Resolve(index, ports).value[k].host == h)
    ensures 0 <= index <= 1295 && Resolve(index, ports).Err? ==>
              (h in SiblingPorts(index, ports).value
               <==> || (exists m :: m in ports && m.host == Some(h))
                    || h == 5555 + 10 * index || h == 27042 + 10 * index || h == 27043 + 10 * index)
  {
    CapIsLargest(index);
    if Resolve(index, ports).Ok? {
      var r := Resolve(index, ports).value;
      assert h in Hosts(r) <==> exists k :: 0 <= k < |r| && r[k].host == h;
    } else if InRange(index) {
      assert h in ExplicitPins(ports) <==> exists m :: m in ports && m.host == Some(h);
    }
  }

  /** In numbers: where the well-known services are without a pin, and which indices resolve at all. */
  lemma WellKnownInNumbers(index: int, ports: seq<PortMapping>, i: nat)
    ensures !(0 <= index <= 1295) ==> Resolve(index, ports) == Err(BadIndex)
    ensures Resolve(index, ports).Ok? && i < |ports| && ports[i].host.None? ==>
              var r := Resolve(index, ports).value[i];
              && (r.service == Some("adb") ==> r.host == 5555 + 10 * index)
              && (r.service == Some("frida") ==> r.host == 27042 + 10 * index)
              && (r.service == Some("frida_control") ==> r.host == 27043 + 10 * index)
              && (r.service !in {Some("adb"), Some("frida"), Some("frida_control")} ==>
                    40000 + 10 * index <= r.host < 40010 + 10 * index)
  {
    CapIsLargest(index);
    if Resolve(index, ports).Ok? && i < |ports| { ResolvedShape(index, ports, i, i); }
  }

  /** The three stride offsets and the ten-wide window that belong to one index. */
  predicate InBand(index: int, host: int) {
    || host in Defaults(index)
    || EXTRA_POOL_BASE + index * STRIDE <= host < EXTRA_POOL_BASE + (index + 1) * STRIDE
  }

  lemma BandsDisjoint(i: int, j: int, host: int)
    requires InRange(i) && InRange(j) && InBand(i, host)
    ensures PRIVILEGED_PORT_CEILING <= host <= MAX_PORT
    ensures InBand(j, host) ==> i == j
  {
  }

  predicate AllAuto(ports: seq<PortMapping>) { forall m | m in ports :: m.host.None? }

  lemma AutoStaysInBand(index: int, ports: seq<PortMapping>)
    requires InRange(index) && AllAuto(ports)
    ensures forall h | h in SiblingPorts(index, ports).value :: InBand(index, h)
  {
    if Resolve(index, ports).Ok? {
      var r := Resolve(index, ports).value;
      forall h | h in Hosts(r) ensures InBand(index, h) {
        var k :| 0 <= k < |r| && r[k].host == h;
        assert ports[k] in ports;
        ResolvedShape(index, ports, k, k);
      }
    }
  }

  /** Fleets that pin nothing never collide, even with a sibling that cannot resolve. */
  lemma DefaultFleetsNeverCollide(i: int, p: seq<PortMapping>, j: int, q: seq<PortMapping>)
    requires InRange(i) && InRange(j) && i != j && AllAuto(p) && AllAuto(q)
    ensures SiblingPorts(i, p).value !! SiblingPorts(j, q).value
    ensures forall h | h in SiblingPorts(i, p).value :: PRIVILEGED_PORT_CEILING <= h <= MAX_PORT
  {
    AutoStaysInBand(i, p);
    AutoStaysInBand(j, q);
    forall h | h in SiblingPorts(i, p).value
      ensures h !in SiblingPorts(j, q).value && PRIVILEGED_PORT_CEILING <= h <= MAX_PORT
    {
      BandsDisjoint(i, j, h);
    }
  }

  /** The cap is the largest index with well-known bands under the pool and the pool within TCP range. */
  lemma CapIsLargest(n: int)
    ensures n <= MAX_PORT_INDEX <==>
      && FRIDA_CONTROL_BASE + n * STRIDE < EXTRA_POOL_BASE
      && EXTRA_POOL_BASE + n * STRIDE + (STRIDE - 1) <= MAX_PORT
    ensures MAX_PORT_INDEX == 1295
  {
  }

  // ---- The collision search ---------------------------------------------------

  datatype Hit = Hit(port: int, other: string, service: Option<string>)

  /** `others` lists the siblings in registry order. */
  method FindPortCollision(newPorts: seq<ResolvedPort>, others: seq<(string, set<int>)>) returns (hit: Option<Hit>)
    ensures hit.None? <==> forall o | o in others :: o.1 !! Hosts(newPorts)
    ensures hit.Some? ==>
      exists i, j | 0 <= i < |newPorts| && 0 <= j < |others| ::
        && hit.value == Hit(newPorts[i].host, others[j].0, newPorts[i].service)
        && newPorts[i].host in others[j].1
        && (forall k | 0 <= k < j :: newPorts[i].host !in others[k].1)
        && (forall k, o | 0 <= k < i && o in others :: newPorts[k].host !in o.1)
  {
    for i := 0 to |newPorts|
      invariant forall k, o | 0 <= k < i && o in others :: newPorts[k].host !in o.1
    {
      for j := 0 to |others|
        invariant forall k | 0 <= k < j :: newPorts[i].host !in others[k].1
      {
        if newPorts[i].host in others[j].1 {
          assert newPorts[i].host in Hosts(newPorts) && others[j] in others;
          return Some(Hit(newPorts[i].host, others[j].0, newPorts[i].service));
        }
      }
    }
    return None;
  }

  // ---- The lowest free index --------------------------------------------------

  predicate IsLowestFree(used: set<int>, i: int) {
    0 <= i && i !in used && forall j | 0 <= j < i :: j in used
  }

  /** Indices below `i` all taken means at least `i` are taken. */
  lemma {:induction false} Pigeonhole(used: set<int>, i: nat)
    requires forall j | 0 <= j < i :: j in used
    ensures i <= |used|
  {
    if i == 0 {
    } else {
      Pigeonhole(used - {i - 1}, i - 1);
    }
  }

  function LowestFree(used: set<int>): (r: nat)
    ensures IsLowestFree(used, r) && r <= |used|
  {
    LowestFreeFrom(used, 0)
  }

  function LowestFreeFrom(used: set<int>, i: nat): (r: nat)
    requires forall j | 0 <= j < i :: j in used
    ensures IsLowestFree(used, r) && r <= |used|
    decreases |used| + 1 - i
  {
    Pigeonhole(used, i);
    if i in used then (Pigeonhole(used, i + 1); LowestFreeFrom(used, i + 1)) else i
  }

  method LowestFreeIndex(used: set<int>) returns (i: nat)
    ensures i == LowestFree(used)
  {
    i := 0;
    while i in used
      invariant forall j | 0 <= j < i :: j in used
      decreases |used| + 1 - i
    {
      Pigeonhole(used, i + 1);
      i := i + 1;
    }
  }

  /** Allocation runs out exactly when every index up to the cap is taken. */
  lemma ExhaustedExactly(used: set<int>)
    ensures LowestFree(used) > MAX_PORT_INDEX <==> forall j | 0 <= j <= MAX_PORT_INDEX :: j in used
  {
  }
}
