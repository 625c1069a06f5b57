/** The change detectors of the metrics collector: snapshots in, events out on the bus. Each detector
    keeps only its last observation; its events are tied to the complete history of observations. */
module Collector {
  import opened Options
  import opened Text
  import opened Devices
  import opened Bus
  import opened Changes
  import opened Interfaces
  import opened Sustained

  const CPU_THRESHOLD: real := 85.0
  const MEM_THRESHOLD: real := 90.0

  const WAN: set<Kind> := {WANIPChange}
  const SERVICES: set<Kind> := {ServiceDown, ServiceUp}

  /** An address with its prefix length, as `ip addr` prints it: never empty. */
  type Address = s: string | s != "" witness "::/0"

  datatype AddrInfo = AddrInfo(iface: string, addrs: seq<Address>)

  datatype IfaceInfo = IfaceInfo(name: string, state: string)

  datatype MemInfo = MemInfo(usedPct: real, freeKB: nat)

  // ---------------------------------------------------------------- what the events must say

  /** The scan by lower-case MAC; of two devices with one MAC the later stays. */
  function ByMAC(devices: seq<Device>): (r: map<string, Device>)
    ensures r.Keys == set d | d in devices :: Lower(d.mac)
  {
    if devices == [] then map[]
    else
      var d := devices[|devices| - 1];
      assert devices == devices[..|devices| - 1] + [d];
      ByMAC(devices[..|devices| - 1])[Lower(d.mac) := d]
  }

  /** Every device of the scan is in the index under its lower-case MAC, unless a later one has the same. */
  ghost predicate ScanIndex(devices: seq<Device>, index: map<string, Device>) {
    && (forall i :: 0 <= i < |devices| ==> Lower(devices[i].mac) in index)
    && forall mac :: mac in index ==> exists i :: 0 <= i < |devices| && LastWith(devices, mac, i, index[mac])
  }

  ghost predicate LastWith(devices: seq<Device>, mac: string, i: int, d: Device)
    requires 0 <= i < |devices|
  {
    devices[i] == d && Lower(d.mac) == mac && forall j :: i < j < |devices| ==> Lower(devices[j].mac) != mac
  }

  lemma IndexGrows(devices: seq<Device>, index: map<string, Device>, d: Device)
    requires ScanIndex(devices, index)
    ensures ScanIndex(devices + [d], index[Lower(d.mac) := d])
  {
    var more, after, n := devices + [d], index[Lower(d.mac) := d], |devices|;
    forall mac | mac in after ensures exists i :: 0 <= i < |more| && LastWith(more, mac, i, after[mac]) {
      if mac == Lower(d.mac) {
        assert LastWith(more, mac, n, after[mac]);
      } else {
        var i :| 0 <= i < n && LastWith(devices, mac, i, index[mac]);
        assert LastWith(more, mac, i, after[mac]);
      }
    }
  }

  lemma {:induction false} ByMACIsIndex(devices: seq<Device>)
    ensures ScanIndex(devices, ByMAC(devices))
    decreases |devices|
  {
    if devices != [] {
      var rest, d := devices[..|devices| - 1], devices[|devices| - 1];
      ByMACIsIndex(rest);
      IndexGrows(rest, ByMAC(rest), d);
      assert rest + [d] == devices;
    }
  }

  /** The loop that builds the index. */
  method IndexByMAC(devices: seq<Device>) returns (cur: map<string, Device>)
    ensures cur == ByMAC(devices)
  {
    cur := map[];
    for i := 0 to |devices|
      invariant cur == ByMAC(devices[..i])
    {
      assert devices[..i + 1][..i] == devices[..i];
      cur := cur[Lower(devices[i].mac) := devices[i]];
    }
    assert devices[..|devices|] == devices;
  }

  ghost predicate Indexed(devices: map<string, Device>) {
    forall mac :: mac in devices ==> Lower(devices[mac].mac) == mac
  }

  lemma {:induction false} ByMACIndexed(devices: seq<Device>)
    ensures Indexed(ByMAC(devices))
    decreases |devices|
  {
    if devices != [] { ByMACIndexed(devices[..|devices| - 1]); }
  }

  function DeviceEvent(kind: Kind, d: Device): Event {
    Event(kind, DevicePayload(d.mac, d.ip, d.hostname, d.vendor))
  }

  /** The address, names and vendor are those of the device. */
  predicate Describes(p: Payload, d: Device) {
    p.DevicePayload? && p.mac == d.mac && p.ip == d.ip && p.hostname == d.hostname && p.vendor == d.vendor
  }

  /** A join of the scan, or a leave of what was there before. */
  ghost predicate Announces(e: Event, before: map<string, Device>, now: map<string, Device>) {
    || (e.kind == DeviceJoin && Key(e) in now && Key(e) !in before && Describes(e.payload, now[Key(e)]))
    || (e.kind == DeviceLeave && Key(e) in before && Key(e) !in now && Describes(e.payload, before[Key(e)]))
  }

  /** The events from position n on announce differences between two scans, each once. */
  ghost predicate Differences(es: seq<Event>, n: nat, before: map<string, Device>, now: map<string, Device>) {
    && n <= |es|
    && (forall k :: n <= k < |es| ==> Announces(es[k], before, now))
    && (forall j, k :: n <= j < k < |es| ==> Key(es[j]) != Key(es[k]))
  }

  lemma DifferencesGrow(es: seq<Event>, n: nat, before: map<string, Device>, now: map<string, Device>, e: Event)
    requires Differences(es, n, before, now) && Announces(e, before, now)
    requires forall k :: n <= k < |es| ==> Key(es[k]) != Key(e)
    ensures Differences(es + [e], n, before, now)
  {
  }

  ghost predicate DevicesTold(es: seq<Event>, prev: map<string, Device>) {
    Consistent(es) && Replay(es) == prev.Keys && Indexed(prev)
  }

  /** Half way through the new devices: those in `todo` are still to be looked at. */
  ghost predicate Joining(es: seq<Event>, start: seq<Event>, prev: map<string, Device>, cur: map<string, Device>,
                          todo: set<string>)
  {
    && start <= es && Consistent(es) && Replay(es) == prev.Keys + (cur.Keys - todo)
    && Differences(es, |start|, prev, cur)
    && forall k :: |start| <= k < |es| ==> Key(es[k]) in cur && Key(es[k]) !in todo
  }

  lemma JoinStep(es: seq<Event>, start: seq<Event>, prev: map<string, Device>, cur: map<string, Device>,
                 todo: set<string>, mac: string)
    requires Joining(es, start, prev, cur, todo) && mac in todo && todo <= cur.Keys && Indexed(cur)
    ensures mac in prev ==> Joining(es, start, prev, cur, todo - {mac})
    ensures mac !in prev ==> Joining(es + [DeviceEvent(DeviceJoin, cur[mac])], start, prev, cur, todo - {mac})
  {
    if mac !in prev {
      var e := DeviceEvent(DeviceJoin, cur[mac]);
      OneEvent(es, e);
      DifferencesGrow(es, |start|, prev, cur, e);
    }
  }

  /** Half way through the gone devices. */
  ghost predicate Leaving(es: seq<Event>, start: seq<Event>, prev: map<string, Device>, cur: map<string, Device>,
                          todo: set<string>)
  {
    && start <= es && Consistent(es) && Replay(es) == cur.Keys + todo
    && Differences(es, |start|, prev, cur)
    && forall k :: |start| <= k < |es| ==> Key(es[k]) in cur || Key(es[k]) !in todo
  }

  lemma JoinsBegin(es: seq<Event>, prev: map<string, Device>, cur: map<string, Device>)
    requires DevicesTold(es, prev)
    ensures Joining(es, es, prev, cur, cur.Keys)
  {
    assert prev.Keys + (cur.Keys - cur.Keys) == prev.Keys;
  }

  lemma JoinsThenLeaves(es: seq<Event>, start: seq<Event>, prev: map<string, Device>, cur: map<string, Device>)
    requires Joining(es, start, prev, cur, {})
    ensures Leaving(es, start, prev, cur, prev.Keys)
  {
  }

  lemma LeavesDone(es: seq<Event>, start: seq<Event>, prev: map<string, Device>, cur: map<string, Device>)
    requires Leaving(es, start, prev, cur, {}) && Indexed(cur)
    ensures DevicesTold(es, cur) && start <= es && Differences(es, |start|, prev, cur)
  {
  }

  lemma LeaveStep(es: seq<Event>, start: seq<Event>, prev: map<string, Device>, cur: map<string, Device>,
                  todo: set<string>, mac: string)
    requires Leaving(es, start, prev, cur, todo) && mac in todo && todo <= prev.Keys && Indexed(prev)
    ensures mac in cur ==> Leaving(es, start, prev, cur, todo - {mac})
    ensures mac !in cur ==> Leaving(es + [DeviceEvent(DeviceLeave, prev[mac])], start, prev, cur, todo - {mac})
  {
    if mac !in cur {
      var e := DeviceEvent(DeviceLeave, prev[mac]);
      OneEvent(es, e);
      DifferencesGrow(es, |start|, prev, cur, e);
    }
  }

  predicate IsWAN(name: string) {
    name in ["eth0", "eth1", "pppoe-wan", "wan", "wan6"] || (|name| >= 3 && name[..3] == "ppp") || name == "wan"
  }

  /** The search through the list of names. */
  method IsWANIface(name: string, wanList: seq<string>) returns (wan: bool)
    ensures wan <==> name in wanList || (|name| >= 3 && name[..3] == "ppp") || name == "wan"
  {
    for i := 0 to |wanList|
      invariant name !in wanList[..i]
    {
      if name == wanList[i] {
        return true;
      }
    }
    return (|name| >= 3 && name[..3] == "ppp") || name == "wan";
  }

  /** The addresses seen per interface; interfaces that are not WAN or have no address do not count. */
  function Observe(seen: map<string, seq<Address>>, addrs: seq<AddrInfo>): map<string, seq<Address>> {
    if addrs == [] then seen
    else
      var rest, ai := Observe(seen, addrs[..|addrs| - 1]), addrs[|addrs| - 1];
      if IsWAN(ai.iface) && ai.addrs != [] then rest[ai.iface := ListOf(rest, ai.iface) + [ai.addrs[0]]] else rest
  }

  /** The names of WAN interfaces: eth0, eth1, pppoe-wan, wan, wan6, and all that begin with ppp. */
  lemma WANNames(name: string)
    ensures IsWAN(name) <==>
            || name == "eth0" || name == "eth1" || name == "pppoe-wan" || name == "wan" || name == "wan6"
            || (|name| >= 3 && name[0] == name[1] == name[2] == 'p')
  {
    if |name| >= 3 { assert name[..3] == [name[0], name[1], name[2]]; }
  }

  /** What a list of addresses adds: the first address of the entry of a WAN interface; other entries add
      nothing. */
  lemma {:induction false} ObserveMeans(seen: map<string, seq<Address>>, addrs: seq<AddrInfo>, k: nat)
    requires k < |addrs| && forall i :: 0 <= i < |addrs| && i != k ==> addrs[i].iface != addrs[k].iface
    ensures var name, found := addrs[k].iface, addrs[k].addrs;
            ListOf(Observe(seen, addrs), name) ==
            if IsWAN(name) && found != [] then ListOf(seen, name) + [found[0]] else ListOf(seen, name)
    decreases |addrs|
  {
    var n := |addrs| - 1;
    if k < n {
      ObserveMeans(seen, addrs[..n], k);
    } else {
      ObserveElsewhere(seen, addrs[..n], addrs[n].iface);
    }
  }

  /** The history of other interfaces stays as it is. */
  lemma {:induction false} ObserveElsewhere(seen: map<string, seq<Address>>, addrs: seq<AddrInfo>, name: string)
    requires forall i :: 0 <= i < |addrs| ==> addrs[i].iface != name
    ensures ListOf(Observe(seen, addrs), name) == ListOf(seen, name)
    decreases |addrs|
  {
    if addrs != [] { ObserveElsewhere(seen, addrs[..|addrs| - 1], name); }
  }

  /** Every interface: announced changes and the stored address against the addresses seen. */
  ghost predicate WanTold(es: seq<Event>, prev: map<string, string>, seen: map<string, seq<Address>>) {
    forall iface :: WanTrue(es, Known(prev, iface), ListOf(seen, iface), iface)
  }

  ghost predicate WanTrue(es: seq<Event>, prev: Option<string>, seen: seq<Address>, iface: string) {
    && MovesOf(es, iface) == Moves(seen, |seen|)
    && prev == if seen == [] then None else Some(seen[|seen| - 1])
  }

  /** The states seen per service after one round of checks. */
  function Check(seen: map<string, seq<bool>>, watched: seq<string>, running: seq<bool>): map<string, seq<bool>>
    requires |watched| == |running|
  {
    if watched == [] then seen
    else
      var n := |watched| - 1;
      var rest := Check(seen, watched[..n], running[..n]);
      rest[watched[n] := ListOf(rest, watched[n]) + [running[n]]]
  }

  /** A round of checks adds to the history of each service its own outcome, and nothing to others. */
  lemma {:induction false} CheckMeans(seen: map<string, seq<bool>>, watched: seq<string>, running: seq<bool>, k: nat)
    requires |watched| == |running| && k < |watched|
    requires forall i :: 0 <= i < |watched| && i != k ==> watched[i] != watched[k]
    ensures ListOf(Check(seen, watched, running), watched[k]) == ListOf(seen, watched[k]) + [running[k]]
    decreases |watched|
  {
    var n := |watched| - 1;
    if k < n {
      CheckMeans(seen, watched[..n], running[..n], k);
    } else {
      UncheckedStays(seen, watched[..n], running[..n], watched[n]);
    }
  }

  lemma {:induction false} UncheckedStays(seen: map<string, seq<bool>>, watched: seq<string>, running: seq<bool>,
                                          svc: string)
    requires |watched| == |running| && svc !in watched
    ensures ListOf(Check(seen, watched, running), svc) == ListOf(seen, svc)
    decreases |watched|
  {
    if watched != [] { UncheckedStays(seen, watched[..|watched| - 1], running[..|watched| - 1], svc); }
  }

  ghost predicate ServicesTold(es: seq<Event>, prev: map<string, bool>, seen: map<string, seq<bool>>) {
    forall svc :: ServiceTrue(es, Known(prev, svc), ListOf(seen, svc), svc)
  }

  ghost predicate ServiceTrue(es: seq<Event>, prev: Option<bool>, seen: seq<bool>, svc: string) {
    && FlipsOf(es, svc) == Flips(seen, |seen|)
    && prev == if seen == [] then None else Some(seen[|seen| - 1])
  }

  /** What one reading of the interfaces adds to the history: each state, upper case. */
  function ReadingsOf(ifaces: seq<IfaceInfo>): (r: seq<Reading>) {
    if ifaces == [] then []
    else
      var last := ifaces[|ifaces| - 1];
      ReadingsOf(ifaces[..|ifaces| - 1]) + [Reading(last.name, Upper(last.state))]
  }

  lemma {:induction false} ReadingsAt(ifaces: seq<IfaceInfo>, i: nat)
    requires i < |ifaces|
    ensures |ReadingsOf(ifaces)| == |ifaces|
    ensures ReadingsOf(ifaces)[i] == Reading(ifaces[i].name, Upper(ifaces[i].state))
    decreases |ifaces|
  {
    var rest := ifaces[..|ifaces| - 1];
    if i < |rest| {
      ReadingsAt(rest, i);
    } else if rest != [] {
      ReadingsAt(rest, 0);
    }
  }

  lemma ReadingsOne(start: seq<Reading>, ifaces: seq<IfaceInfo>, i: nat)
    requires i < |ifaces|
    ensures (start + ReadingsOf(ifaces[..i])) + [Reading(ifaces[i].name, Upper(ifaces[i].state))] ==
            start + ReadingsOf(ifaces[..i + 1])
  {
    assert ifaces[..i + 1][..i] == ifaces[..i];
  }

  /** The interface events are those the complete history of readings leads to, and every stored state is the
      last one read. */
  ghost predicate IfacesTold(es: seq<Event>, prev: map<string, string>, readings: seq<Reading>) {
    && es == EventsOf(readings) && UpperCase(readings)
    && forall name :: Known(prev, name) == Stored(readings, name)
  }

  lemma OneIface(es: seq<Event>, prev: map<string, string>, readings: seq<Reading>, r: Reading)
    requires IfacesTold(es, prev, readings) && Upper(r.state) == r.state
    ensures IfacesTold(AfterIface(es, Known(prev, r.name), r.name, r.state), prev[r.name := r.state], readings + [r])
  {
    var after := prev[r.name := r.state];
    forall name ensures Known(after, name) == Stored(readings + [r], name) {
      OneReading(readings, r, name);
      assert Known(prev, name) == Stored(readings, name);
    }
    OneReading(readings, r, r.name);
    assert Known(prev, r.name) == Stored(readings, r.name);
  }

  /** The alerts raised are those of the readings, and what is remembered is what the rule remembers. */
  ghost predicate AlertsTold(times: seq<Time>, since: Option<Time>, loads: seq<Load>, threshold: real) {
    && times == AlertTimes(SamplesOf(loads, threshold), |loads|)
    && since == Since(SamplesOf(loads, threshold), |loads|)
  }

  /** The events after an address was seen: one more if it is a change. */
  function AfterAddress(es: seq<Event>, prev: Option<string>, iface: string, ip: string): seq<Event> {
    if prev.Some? && prev.value != "" && prev.value != ip
    then es + [Event(WANIPChange, WANIPPayload(prev.value, ip, iface))] else es
  }

  lemma AddressHere(es: seq<Event>, prev: Option<string>, seen: seq<Address>, iface: string, ip: Address)
    requires WanTrue(es, prev, seen, iface)
    ensures WanTrue(AfterAddress(es, prev, iface, ip), Some(ip), seen + [ip], iface)
  {
    MovesOne(seen, ip);
    if prev.Some? { MovesOfOne(es, Event(WANIPChange, WANIPPayload(prev.value, ip, iface)), iface); }
  }

  lemma AddressElsewhere(es: seq<Event>, prev: Option<string>, seen: seq<Address>, iface: string, e: Event)
    requires WanTrue(es, prev, seen, iface) && !(e.payload.WANIPPayload? && e.payload.iface == iface)
    ensures WanTrue(es + [e], prev, seen, iface)
  {
    MovesOfOne(es, e, iface);
  }

  lemma AddressAt(es: seq<Event>, prev: map<string, string>, seen: map<string, seq<Address>>,
                  iface: string, ip: Address, i: string)
    requires WanTrue(es, Known(prev, i), ListOf(seen, i), i)
    ensures WanTrue(AfterAddress(es, Known(prev, iface), iface, ip), Known(prev[iface := ip], i),
                    ListOf(seen[iface := ListOf(seen, iface) + [ip]], i), i)
  {
    if i == iface {
      AddressHere(es, Known(prev, i), ListOf(seen, i), iface, ip);
    } else if Known(prev, iface).Some? {
      AddressElsewhere(es, Known(prev, i), ListOf(seen, i), i,
                       Event(WANIPChange, WANIPPayload(prev[iface], ip, iface)));
    }
  }

  lemma OneAddress(es: seq<Event>, prev: map<string, string>, seen: map<string, seq<Address>>,
                   iface: string, ip: Address)
    requires WanTold(es, prev, seen)
    ensures WanTold(AfterAddress(es, Known(prev, iface), iface, ip), prev[iface := ip],
                    seen[iface := ListOf(seen, iface) + [ip]])
  {
    var after, told := prev[iface := ip], seen[iface := ListOf(seen, iface) + [ip]];
    forall i ensures WanTrue(AfterAddress(es, Known(prev, iface), iface, ip), Known(after, i), ListOf(told, i), i) {
      AddressAt(es, prev, seen, iface, ip, i);
    }
  }

  /** Of addresses, which are never empty, the changes form a chain. */
  lemma WanChained(es: seq<Event>, prev: map<string, string>, seen: map<string, seq<Address>>, iface: string)
    requires WanTold(es, prev, seen) && iface in prev
    ensures var all := ListOf(seen, iface);
            && all != [] && prev[iface] == all[|all| - 1]
            && Chained(all[0], MovesOf(es, iface)) && Follow(all[0], MovesOf(es, iface)) == prev[iface]
  {
    var all := ListOf(seen, iface);
    assert WanTrue(es, Known(prev, iface), all, iface);
    assert forall i :: 0 <= i < |all| ==> all[i] != "";
    MovesChain(all, |all|);
  }

  function ServiceEvent(svc: string, running: bool): Event {
    Event(if running then ServiceUp else ServiceDown, ServicePayload(svc))
  }

  function AfterCheck(es: seq<Event>, prev: Option<bool>, svc: string, running: bool): seq<Event> {
    if prev.Some? && prev.value != running then es + [ServiceEvent(svc, running)] else es
  }

  lemma CheckHere(es: seq<Event>, prev: Option<bool>, seen: seq<bool>, svc: string, running: bool)
    requires ServiceTrue(es, prev, seen, svc)
    ensures ServiceTrue(AfterCheck(es, prev, svc, running), Some(running), seen + [running], svc)
  {
    FlipsOne(seen, running);
    FlipsOfOne(es, ServiceEvent(svc, running), svc);
  }

  lemma CheckElsewhere(es: seq<Event>, prev: Option<bool>, seen: seq<bool>, svc: string, e: Event)
    requires ServiceTrue(es, prev, seen, svc) && e.payload != ServicePayload(svc)
    ensures ServiceTrue(es + [e], prev, seen, svc)
  {
    FlipsOfOne(es, e, svc);
  }

  lemma CheckAt(es: seq<Event>, prev: map<string, bool>, seen: map<string, seq<bool>>, svc: string, running: bool,
                s: string)
    requires ServiceTrue(es, Known(prev, s), ListOf(seen, s), s)
    ensures ServiceTrue(AfterCheck(es, Known(prev, svc), svc, running), Known(prev[svc := running], s),
                        ListOf(seen[svc := ListOf(seen, svc) + [running]], s), s)
  {
    if s == svc {
      CheckHere(es, Known(prev, s), ListOf(seen, s), svc, running);
    } else {
      CheckElsewhere(es, Known(prev, s), ListOf(seen, s), s, ServiceEvent(svc, running));
    }
  }

  lemma OneCheck(es: seq<Event>, prev: map<string, bool>, seen: map<string, seq<bool>>, svc: string, running: bool)
    requires ServicesTold(es, prev, seen)
    ensures ServicesTold(AfterCheck(es, Known(prev, svc), svc, running), prev[svc := running],
                         seen[svc := ListOf(seen, svc) + [running]])
  {
    var after, told := prev[svc := running], seen[svc := ListOf(seen, svc) + [running]];
    forall s ensures ServiceTrue(AfterCheck(es, Known(prev, svc), svc, running), Known(after, s), ListOf(told, s), s) {
      CheckAt(es, prev, seen, svc, running, s);
    }
  }

  lemma OneLoad(times: seq<Time>, since: Option<Time>, loads: seq<Load>, load: Load, threshold: real)
    requires AlertsTold(times, since, loads, threshold)
    ensures var after := Sustained.Step(since, SampleOf(load, threshold));
            AlertsTold(if after.1 then times + [load.at] else times, after.0, loads + [load], threshold)
  {
    var samples := SamplesOf(loads, threshold);
    SamplesOne(loads, load, threshold);
    SincePrefix(samples, SampleOf(load, threshold), |samples|);
    AlertTimesPrefix(samples, SampleOf(load, threshold), |samples|);
  }

  /** What one reading does, by the readings before it: whether it alerts, and what was remembered then. */
  lemma LoadMeans(since: Option<Time>, loads: seq<Load>, load: Load, threshold: real)
    requires Sustained.InOrder(loads + [load]) && since == Since(SamplesOf(loads, threshold), |loads|)
    ensures var all := loads + [load];
            && (Sustained.Step(since, SampleOf(load, threshold)).1 <==> AlertedAt(all, threshold, |loads|))
            && (since.Some? ==> HighSince(all, threshold, |loads|, since.value))
  {
    var all, samples := loads + [load], SamplesOf(loads, threshold);
    SamplesOne(loads, load, threshold);
    SincePrefix(samples, SampleOf(load, threshold), |samples|);
    AlertedIs(all, threshold, |loads|);
    SinceIsStart(all, threshold, |loads|);
  }

  // ---------------------------------------------------------------- all detectors together

  /** What the detectors remember, and the histories it stands for. */
  datatype View = View(
    devices: map<string, Device>,
    wanIPs: map<string, string>, wanSeen: map<string, seq<Address>>,
    services: map<string, bool>, serviceSeen: map<string, seq<bool>>,
    ifaces: map<string, string>, ifaceReadings: seq<Reading>,
    cpu: Option<Time>, cpuLoads: seq<Load>,
    mem: Option<Time>, memLoads: seq<Load>
  )

  /** The publications sorted by what they are about. */
  datatype Digest = Digest(
    devices: seq<Event>, wan: seq<Event>, services: seq<Event>, ifaces: seq<Event>,
    cpu: seq<Event>, cpuAt: seq<Time>,
    mem: seq<Event>, memAt: seq<Time>,
    others: seq<Publication>,
    single: bool  // every publication was made with one clock reading
  )

  const NOTHING := Digest([], [], [], [], [], [], [], [], [], true)

  /** The digest after one more publication: it goes to the list of its kind and to no other. */
  function Filed(was: Digest, p: Publication): Digest {
    var d := was.(single := was.single && SingleReading(p));
    var e, kind := p.event, p.event.kind;
    if kind in DEVICES then d.(devices := d.devices + [e])
    else if kind in WAN then d.(wan := d.wan + [e])
    else if kind in SERVICES then d.(services := d.services + [e])
    else if kind in IFACES then d.(ifaces := d.ifaces + [e])
    else if kind == HighCPU then d.(cpu := d.cpu + [e], cpuAt := d.cpuAt + [p.testAt])
    else if kind == HighMemory then d.(mem := d.mem + [e], memAt := d.memAt + [p.testAt])
    else d.(others := d.others + [p])
  }

  function DigestOf(published: seq<Publication>): Digest {
    if published == [] then NOTHING
    else Filed(DigestOf(published[..|published| - 1]), published[|published| - 1])
  }

  lemma DigestOne(published: seq<Publication>, p: Publication)
    ensures DigestOf(published + [p]) == Filed(DigestOf(published), p)
  {
    assert (published + [p])[..|published|] == published;
  }

  /** Each list of the digest is the sublist of the publications of its kinds. */
  lemma DigestLists(published: seq<Publication>)
    ensures var d := DigestOf(published);
            && d.devices == PublishedOf(published, DEVICES) && d.wan == PublishedOf(published, WAN)
            && d.services == PublishedOf(published, SERVICES) && d.ifaces == PublishedOf(published, IFACES)
  {
    DigestNetwork(published);
    DigestServices(published);
  }

  lemma WanDelivered(cooldowns: Cooldowns, published: seq<Publication>, cooldownSecs: int)
    requires cooldowns == DefaultCooldowns(cooldownSecs)
    ensures DeliveredOf(Deliveries(cooldowns, published), WAN) == DigestOf(published).wan
  {
    NothingDropped(cooldowns, published, WAN);
    DigestNetwork(published);
  }

  lemma {:induction false} DigestNetwork(published: seq<Publication>)
    ensures DigestOf(published).devices == PublishedOf(published, DEVICES)
    ensures DigestOf(published).wan == PublishedOf(published, WAN)
    decreases |published|
  {
    if published != [] { DigestNetwork(published[..|published| - 1]); }
  }

  lemma {:induction false} DigestServices(published: seq<Publication>)
    ensures DigestOf(published).services == PublishedOf(published, SERVICES)
    ensures DigestOf(published).ifaces == PublishedOf(published, IFACES)
    decreases |published|
  {
    if published != [] { DigestServices(published[..|published| - 1]); }
  }

  lemma {:induction false} DigestTimes(published: seq<Publication>)
    ensures DigestOf(published).cpuAt == TimesOf(published, HighCPU)
    ensures DigestOf(published).memAt == TimesOf(published, HighMemory)
    decreases |published|
  {
    if published != [] { DigestTimes(published[..|published| - 1]); }
  }

  lemma {:induction false} DigestSingle(published: seq<Publication>, p: Publication)
    requires DigestOf(published).single && p in published
    ensures SingleReading(p)
    decreases |published|
  {
    var rest, last := published[..|published| - 1], published[|published| - 1];
    if p != last {
      assert published == rest + [last];
      DigestSingle(rest, p);
    }
  }

  /** The publications tell exactly what was observed, apart from devices. */
  ghost predicate RestTold(d: Digest, v: View) {
    && d.single
    && WanTold(d.wan, v.wanIPs, v.wanSeen)
    && ServicesTold(d.services, v.services, v.serviceSeen)
    && IfacesTold(d.ifaces, v.ifaces, v.ifaceReadings)
    && AlertsTold(d.cpuAt, v.cpu, v.cpuLoads, CPU_THRESHOLD)
    && AlertsTold(d.memAt, v.mem, v.memLoads, MEM_THRESHOLD)
  }

  ghost predicate Told(d: Digest, v: View) {
    DevicesTold(d.devices, v.devices) && RestTold(d, v)
  }

  lemma RestStays(d: Digest, v: View, es: seq<Event>, cur: map<string, Device>)
    requires Told(d, v) && DevicesTold(es, cur)
    ensures Told(d.(devices := es), v.(devices := cur))
  {
  }

  lemma AddressStep(d: Digest, v: View, iface: string, ip: Address)
    requires Told(d, v)
    ensures Told(d.(wan := AfterAddress(d.wan, Known(v.wanIPs, iface), iface, ip)),
                 v.(wanIPs := v.wanIPs[iface := ip],
                    wanSeen := v.wanSeen[iface := ListOf(v.wanSeen, iface) + [ip]]))
  {
    OneAddress(d.wan, v.wanIPs, v.wanSeen, iface, ip);
  }

  lemma CheckStep(d: Digest, v: View, svc: string, running: bool)
    requires Told(d, v)
    ensures Told(d.(services := AfterCheck(d.services, Known(v.services, svc), svc, running)),
                 v.(services := v.services[svc := running],
                    serviceSeen := v.serviceSeen[svc := ListOf(v.serviceSeen, svc) + [running]]))
  {
    OneCheck(d.services, v.services, v.serviceSeen, svc, running);
  }

  lemma IfaceStep(d: Digest, v: View, name: string, cur: string)
    requires Told(d, v) && Upper(cur) == cur
    ensures Told(d.(ifaces := AfterIface(d.ifaces, Known(v.ifaces, name), name, cur)),
                 v.(ifaces := v.ifaces[name := cur], ifaceReadings := v.ifaceReadings + [Reading(name, cur)]))
  {
    OneIface(d.ifaces, v.ifaces, v.ifaceReadings, Reading(name, cur));
  }

  /** One reading: the digest after it, and that it still tells the truth. */
  function AfterCpu(d: Digest, since: Option<Time>, load: Load): Digest {
    if Sustained.Step(since, SampleOf(load, CPU_THRESHOLD)).1 then Alerted(d, load, since.value) else d
  }

  function CpuAfter(v: View, load: Load): View {
    v.(cpu := Sustained.Step(v.cpu, SampleOf(load, CPU_THRESHOLD)).0, cpuLoads := v.cpuLoads + [load])
  }

  lemma CpuStep(d: Digest, v: View, load: Load)
    requires Told(d, v) && Dated(v, load.at)
    ensures Told(AfterCpu(d, v.cpu, load), CpuAfter(v, load)) && Dated(CpuAfter(v, load), load.at)
    ensures CpuSaid(d, v.cpuLoads + [load], AfterCpu(d, v.cpu, load))
  {
    OneLoad(d.cpuAt, v.cpu, v.cpuLoads, load, CPU_THRESHOLD);
    OnTimeOne(v.cpuLoads, load);
    CpuIsSaid(d, v.cpu, v.cpuLoads, load);
  }

  lemma CpuIsSaid(d: Digest, since: Option<Time>, loads: seq<Load>, load: Load)
    requires OnTime(loads + [load], load.at) && since == Since(SamplesOf(loads, CPU_THRESHOLD), |loads|)
    ensures CpuSaid(d, loads + [load], AfterCpu(d, since, load))
  {
    var all := loads + [load];
    assert all[|all| - 1] == load;
    OnTimeOrdered(all, load.at);
    LoadMeans(since, loads, load, CPU_THRESHOLD);
    if Sustained.Step(since, SampleOf(load, CPU_THRESHOLD)).1 {
      AlertIsSaid(d, all, since.value);
    } else {
      SilenceIsSaid(d, all);
    }
  }

  lemma AlertIsSaid(d: Digest, loads: seq<Load>, start: Time)
    requires loads != [] && AlertedAt(loads, 85.0, |loads| - 1) && HighSince(loads, 85.0, |loads| - 1, start)
    ensures CpuSaid(d, loads, Alerted(d, loads[|loads| - 1], start))
  {
  }

  lemma SilenceIsSaid(d: Digest, loads: seq<Load>)
    requires loads != [] && !AlertedAt(loads, 85.0, |loads| - 1)
    ensures CpuSaid(d, loads, d)
  {
  }

  /** The digest with one more alert for a load that has been high since `start`. */
  function Alerted(d: Digest, load: Load, start: Time): Digest {
    d.(cpu := d.cpu + [Event(HighCPU, CPUPayload(load.percent, load.at - start))], cpuAt := d.cpuAt + [load.at])
  }

  /** What is published for the latest reading of the CPU: an alert exactly when the rule of 60 s at 85 % raises
      one there, with the reading's percentage and the time since the load went high or was last alerted. */
  ghost predicate CpuSaid(before: Digest, loads: seq<Load>, after: Digest)
    requires loads != []
  {
    var i := |loads| - 1;
    if AlertedAt(loads, 85.0, i)
    then exists start: Time :: HighSince(loads, 85.0, i, start) && after == Alerted(before, loads[i], start)
    else after == before
  }

  /** One reading: the digest after it, and that it still tells the truth. */
  function AfterMem(d: Digest, since: Option<Time>, m: MemInfo, now: Time): Digest {
    if Sustained.Step(since, SampleOf(Load(m.usedPct, now), MEM_THRESHOLD)).1
    then d.(mem := d.mem + [MemEvent(m)], memAt := d.memAt + [now]) else d
  }

  function MemAfter(v: View, load: Load): View {
    v.(mem := Sustained.Step(v.mem, SampleOf(load, MEM_THRESHOLD)).0, memLoads := v.memLoads + [load])
  }

  lemma MemStep(d: Digest, v: View, m: MemInfo, now: Time)
    requires Told(d, v) && Dated(v, now)
    ensures var load := Load(m.usedPct, now);
            && Told(AfterMem(d, v.mem, m, now), MemAfter(v, load)) && Dated(MemAfter(v, load), now)
            && MemSaid(d, v.memLoads + [load], m, AfterMem(d, v.mem, m, now))
  {
    var load := Load(m.usedPct, now);
    OneLoad(d.memAt, v.mem, v.memLoads, load, MEM_THRESHOLD);
    OnTimeOne(v.memLoads, load);
    OnTimeOrdered(v.memLoads + [load], now);
    LoadMeans(v.mem, v.memLoads, load, MEM_THRESHOLD);
  }

  /** The same of memory: an alert exactly when the rule of 60 s at 90 % raises one, with the percentage in use
      and the free memory in whole megabytes. */
  ghost predicate MemSaid(before: Digest, loads: seq<Load>, m: MemInfo, after: Digest)
    requires loads != []
  {
    var i := |loads| - 1;
    after ==
    if AlertedAt(loads, 90.0, i)
    then before.(mem := before.mem + [Event(HighMemory, MemPayload(m.usedPct, m.freeKB / 1024))],
                 memAt := before.memAt + [loads[i].at])
    else before
  }

  /** The readings were taken in order, none after `clock`. */
  ghost predicate OnTime(loads: seq<Load>, clock: Time) {
    loads == [] ||
    var rest, last := loads[..|loads| - 1], loads[|loads| - 1];
    last.at <= clock && OnTime(rest, last.at)
  }

  /** Both histories of readings are on time. */
  ghost predicate Dated(v: View, clock: Time) {
    OnTime(v.cpuLoads, clock) && OnTime(v.memLoads, clock)
  }

  lemma DatedLater(v: View, clock: Time, now: Time)
    requires Dated(v, clock) && clock <= now
    ensures Dated(v, now)
  {
  }

  lemma OnTimeOne(loads: seq<Load>, load: Load)
    requires OnTime(loads, load.at)
    ensures OnTime(loads + [load], load.at)
  {
    assert (loads + [load])[..|loads|] == loads;
  }

  lemma {:induction false} OnTimeOrdered(loads: seq<Load>, clock: Time)
    requires OnTime(loads, clock)
    ensures Sustained.InOrder(loads) && forall i :: 0 <= i < |loads| ==> loads[i].at <= clock
    decreases |loads|
  {
    if loads != [] {
      var rest, last := loads[..|loads| - 1], loads[|loads| - 1];
      OnTimeOrdered(rest, last.at);
    }
  }

  /** The load is at the threshold or above from reading j, where that begins, to reading i, read at least every
      `gap`. */
  ghost predicate HighFor(loads: seq<Load>, threshold: real, j: nat, i: nat, gap: Time) {
    && j <= i < |loads| && gap >= 0 && Above(loads, threshold, j, i)
    && (j == 0 || loads[j - 1].percent < threshold)
    && forall k :: j < k <= i ==> loads[k].at - loads[k - 1].at <= gap
  }

  /** Alerts number `from` to `to` are those published for a stretch from time lo to time hi: between
      floor(d / (60 s + gap)) and floor(d / 60 s) of them, where d is its length, all from that time. */
  ghost predicate PublishedFor(times: seq<Time>, from: nat, to: nat, lo: Time, hi: Time, gap: Time)
    requires gap >= 0
  {
    && from <= to <= |times| && (forall k :: from <= k < to ==> lo <= times[k] <= hi)
    && (hi - lo) / (60_000_000_000 + gap) <= to - from <= (hi - lo) / 60_000_000_000
  }

  /** And those delivered: at least floor(d / (cooldown + 60 s + gap)). */
  ghost predicate DeliveredFor(times: seq<Time>, from: nat, to: nat, lo: Time, hi: Time, gap: Time, cooldown: Time)
    requires gap >= 0
  {
    && from <= to <= |times| && (forall k :: from <= k < to ==> lo <= times[k] <= hi)
    && (cooldown >= 0 ==> (hi - lo) / (cooldown + 60_000_000_000 + gap) <= to - from)
  }

  ghost predicate StretchPublished(times: seq<Time>, loads: seq<Load>, threshold: real, j: nat, i: nat, gap: Time)
    requires j <= i < |loads| && gap >= 0
  {
    PublishedFor(times, |AlertedTimes(loads, threshold, j + 1)|, |AlertedTimes(loads, threshold, i + 1)|,
                 loads[j].at, loads[i].at, gap)
  }

  ghost predicate StretchDelivered(times: seq<Time>, cooldown: Time, loads: seq<Load>, threshold: real,
                                   j: nat, i: nat, gap: Time)
    requires j <= i < |loads| && gap >= 0
  {
    DeliveredFor(times, |Bus.Kept(AlertedTimes(loads, threshold, j + 1), cooldown)|,
                 |Bus.Kept(AlertedTimes(loads, threshold, i + 1), cooldown)|,
                 loads[j].at, loads[i].at, gap, cooldown)
  }

  lemma {:induction false} SamplesPublished(s: seq<Sample>, j: nat, i: nat, gap: Time,
                                            before: seq<Time>, after: seq<Time>, all: seq<Time>)
    requires Sustained.ClockOrdered(s) && Stretch(s, j, i, gap)
    requires before == AlertTimes(s, j + 1) && after == AlertTimes(s, i + 1) && all == AlertTimes(s, |s|)
    ensures PublishedFor(all, |before|, |after|, s[j].at, s[i].at, gap)
  {
    AlertsInStreak(s, j, i, gap);
    CountIsTimes(s, j, i);
    AlertsBetween(s, j + 1, i + 1, |s|);
  }

  lemma {:induction false} SamplesDelivered(s: seq<Sample>, j: nat, i: nat, gap: Time, cooldown: Time,
                                            before: seq<Time>, after: seq<Time>, all: seq<Time>)
    requires Sustained.ClockOrdered(s) && Stretch(s, j, i, gap)
    requires before == AlertTimes(s, j + 1) && after == AlertTimes(s, i + 1) && all == AlertTimes(s, |s|)
    ensures DeliveredFor(Bus.Kept(all, cooldown), |Bus.Kept(before, cooldown)|, |Bus.Kept(after, cooldown)|,
                         s[j].at, s[i].at, gap, cooldown)
  {
    KeptBetween(s, j + 1, i + 1, |s|, cooldown);
    if cooldown >= 0 { KeptInStreak(s, j, i, gap, cooldown); }
  }

  lemma HighIsStretch(loads: seq<Load>, threshold: real, j: nat, i: nat, gap: Time)
    requires HighFor(loads, threshold, j, i, gap) && Sustained.InOrder(loads)
    ensures var s := SamplesOf(loads, threshold); Stretch(s, j, i, gap) && Sustained.ClockOrdered(s)
  {
  }

  /** The alerts of the samples are those of the readings. */
  lemma AlertsMatch(loads: seq<Load>, threshold: real, j: nat, i: nat)
    requires Sustained.InOrder(loads) && j <= i < |loads|
    ensures var s := SamplesOf(loads, threshold);
            && AlertTimes(s, j + 1) == AlertedTimes(loads, threshold, j + 1)
            && AlertTimes(s, i + 1) == AlertedTimes(loads, threshold, i + 1)
            && AlertTimes(s, |s|) == AlertedTimes(loads, threshold, |loads|)
  {
    AlertedTimesAre(loads, threshold, j + 1);
    AlertedTimesAre(loads, threshold, i + 1);
    AlertedTimesAre(loads, threshold, |loads|);
  }

  lemma {:induction false} LoadsPublished(loads: seq<Load>, threshold: real, j: nat, i: nat, gap: Time)
    requires Sustained.InOrder(loads) && HighFor(loads, threshold, j, i, gap)
    ensures StretchPublished(AlertedTimes(loads, threshold, |loads|), loads, threshold, j, i, gap)
  {
    HighIsStretch(loads, threshold, j, i, gap);
    AlertsMatch(loads, threshold, j, i);
    SamplesPublished(SamplesOf(loads, threshold), j, i, gap, AlertedTimes(loads, threshold, j + 1),
                     AlertedTimes(loads, threshold, i + 1), AlertedTimes(loads, threshold, |loads|));
  }

  lemma {:induction false} LoadsDelivered(loads: seq<Load>, threshold: real, j: nat, i: nat, gap: Time, cooldown: Time)
    requires Sustained.InOrder(loads) && HighFor(loads, threshold, j, i, gap)
    ensures StretchDelivered(Bus.Kept(AlertedTimes(loads, threshold, |loads|), cooldown), cooldown,
                             loads, threshold, j, i, gap)
  {
    HighIsStretch(loads, threshold, j, i, gap);
    AlertsMatch(loads, threshold, j, i);
    SamplesDelivered(SamplesOf(loads, threshold), j, i, gap, cooldown, AlertedTimes(loads, threshold, j + 1),
                     AlertedTimes(loads, threshold, i + 1), AlertedTimes(loads, threshold, |loads|));
  }

  function MemEvent(m: MemInfo): Event {
    Event(HighMemory, MemPayload(m.usedPct, m.freeKB / 1024))
  }

  class Collector {
    const bus: EventBus
    const watchedServices: seq<string>
    var prevDevices: map<string, Device>
    var prevWANIPs: map<string, string>
    var prevServiceState: map<string, bool>
    var prevIfaceState: map<string, string>
    var cpuHighSince: Option<Time>
    var memHighSince: Option<Time>
    /** Complete histories of what was observed. */
    ghost var cpuLoads: seq<Load>
    ghost var memLoads: seq<Load>
    ghost var wanSeen: map<string, seq<Address>>
    ghost var serviceSeen: map<string, seq<bool>>
    ghost var ifaceReadings: seq<Reading>
    /** The last clock reading. */
    ghost var clock: Time

    ghost function Now(): View
      reads this
    {
      View(prevDevices, prevWANIPs, wanSeen, prevServiceState, serviceSeen, prevIfaceState, ifaceReadings,
           cpuHighSince, cpuLoads, memHighSince, memLoads)
    }

    /** The events published so far tell exactly what was observed. */
    ghost predicate Valid()
      reads this, bus
    {
      && bus.Valid() && bus.clock <= clock && Told(Published(), Now())
      && Dated(Now(), clock)
    }

    ghost function Published(): Digest
      reads this, bus
    {
      DigestOf(bus.published)
    }

    constructor (bus: EventBus, watchedServices: seq<string>)
      requires bus.Valid() && bus.published == []
      ensures Valid() && this.bus == bus && this.watchedServices == watchedServices
      ensures Now() == View(map[], map[], map[], map[], map[], map[], [], None, [], None, []) && clock == bus.clock
    {
      this.bus := bus;
      this.watchedServices := watchedServices;
      prevDevices, prevWANIPs, prevServiceState, prevIfaceState := map[], map[], map[], map[];
      cpuHighSince, memHighSince := None, None;
      cpuLoads, memLoads, wanSeen, serviceSeen, ifaceReadings := [], [], map[], map[], [];
      clock := bus.clock;
    }

    /** Publishing adds the event to the list of its kind and to no other. */
    method Tell(e: Event, now: Time)
      requires bus.Valid() && bus.clock <= now
      modifies bus
      ensures bus.Valid() && bus.clock == now && bus.handlers == old(bus.handlers)
      ensures Published() == Filed(old(Published()), Publication(e, now, now))
    {
      DigestOne(bus.published, Publication(e, now, now));
      bus.Publish(e, now, now);
    }

    /** Time passes. */
    ghost method Tick(now: Time)
      requires Valid() && clock <= now
      modifies this`clock
      ensures Valid() && clock == now
    {
      DatedLater(Now(), clock, now);
      clock := now;
    }

    /** One CPU reading: the published alerts stay exactly those the readings call for. */
    method DetectCPUAlert(percent: real, now: Time)
      requires Valid() && clock <= now
      modifies this`clock, this`cpuHighSince, this`cpuLoads, bus
      ensures Valid() && clock == now
      ensures cpuLoads == old(cpuLoads) + [Load(percent, now)]
      ensures CpuSaid(old(Published()), cpuLoads, Published())
    {
      Tick(now);
      ghost var v := Now();
      CpuStep(Published(), v, Load(percent, now));
      SampleCPU(percent, now);
      assert Now() == CpuAfter(v, Load(percent, now));
    }

    /** The detector itself: what it publishes and what it remembers. */
    method SampleCPU(percent: real, now: Time)
      requires bus.Valid() && bus.clock <= now
      modifies this`cpuHighSince, this`cpuLoads, bus
      ensures bus.Valid() && bus.clock <= now
      ensures Published() == AfterCpu(old(Published()), old(cpuHighSince), Load(percent, now))
      ensures cpuLoads == old(cpuLoads) + [Load(percent, now)]
      ensures cpuHighSince == Sustained.Step(old(cpuHighSince), SampleOf(Load(percent, now), CPU_THRESHOLD)).0
    {
      cpuLoads := cpuLoads + [Load(percent, now)];
      if percent >= CPU_THRESHOLD {
        if cpuHighSince.None? {
          cpuHighSince := Some(now);
        } else if now - cpuHighSince.value >= HOLD {
          Tell(Event(HighCPU, CPUPayload(percent, now - cpuHighSince.value)), now);
          cpuHighSince := Some(now);
        }
      } else {
        cpuHighSince := None;
      }
    }

    /** One memory reading, by the same rule. */
    method DetectMemAlert(m: MemInfo, now: Time)
      requires Valid() && clock <= now
      modifies this`clock, this`memHighSince, this`memLoads, bus
      ensures Valid() && clock == now
      ensures memLoads == old(memLoads) + [Load(m.usedPct, now)]
      ensures MemSaid(old(Published()), memLoads, m, Published())
    {
      Tick(now);
      ghost var v := Now();
      MemStep(Published(), v, m, now);
      SampleMem(m, now);
      assert Now() == MemAfter(v, Load(m.usedPct, now));
    }

    /** The detector itself: what it publishes and what it remembers. */
    method SampleMem(m: MemInfo, now: Time)
      requires bus.Valid() && bus.clock <= now
      modifies this`memHighSince, this`memLoads, bus
      ensures bus.Valid() && bus.clock <= now
      ensures Published() == AfterMem(old(Published()), old(memHighSince), m, now)
      ensures memLoads == old(memLoads) + [Load(m.usedPct, now)]
      ensures memHighSince == Sustained.Step(old(memHighSince), SampleOf(Load(m.usedPct, now), MEM_THRESHOLD)).0
    {
      memLoads := memLoads + [Load(m.usedPct, now)];
      if m.usedPct >= MEM_THRESHOLD {
        if memHighSince.None? {
          memHighSince := Some(now);
        } else if now - memHighSince.value >= HOLD {
          Tell(MemEvent(m), now);
          memHighSince := Some(now);
        }
      } else {
        memHighSince := None;
      }
    }

    /** One scan: whatever order the two maps are walked in, the events published for it are exactly the
        differences to the scan before, each once, so that replaying all of them gives this scan. */
    method DetectDeviceChanges(current: seq<Device>, now: Time)
      requires Valid() && clock <= now
      modifies this`clock, this`prevDevices, bus
      ensures Valid() && clock == now
      ensures prevDevices == ByMAC(current) && ScanIndex(current, prevDevices)
      ensures Replay(Published().devices) == prevDevices.Keys
      ensures old(Published().devices) <= Published().devices
      ensures Differences(Published().devices, |old(Published().devices)|, old(prevDevices), ByMAC(current))
      ensures Published() == old(Published()).(devices := Published().devices)
    {
      Tick(now);
      ghost var d, v := Published(), Now();
      var cur := IndexByMAC(current);
      ByMACIndexed(current);
      ByMACIsIndex(current);
      Announce(cur, now);
      RestStays(d, v, Published().devices, cur);
      prevDevices := cur;
      assert Now() == v.(devices := cur);
    }

    /** The differences to the scan before: new devices, then gone ones. */
    method Announce(cur: map<string, Device>, now: Time)
      requires bus.Valid() && bus.clock <= now && Indexed(cur) && DevicesTold(Published().devices, prevDevices)
      modifies bus
      ensures bus.Valid() && bus.clock <= now
      ensures DevicesTold(Published().devices, cur) && old(Published().devices) <= Published().devices
      ensures Differences(Published().devices, |old(Published().devices)|, prevDevices, cur)
      ensures Published() == old(Published()).(devices := Published().devices)
    {
      ghost var start := Published().devices;
      JoinsBegin(start, prevDevices, cur);
      AnnounceJoins(cur, now);
      JoinsThenLeaves(Published().devices, start, prevDevices, cur);
      AnnounceLeaves(cur, start, now);
      LeavesDone(Published().devices, start, prevDevices, cur);
    }

    /** New devices. */
    method AnnounceJoins(cur: map<string, Device>, now: Time)
      requires bus.Valid() && bus.clock <= now && Indexed(cur)
      requires Joining(Published().devices, Published().devices, prevDevices, cur, cur.Keys)
      modifies bus
      ensures bus.Valid() && bus.clock <= now
      ensures Joining(Published().devices, old(Published().devices), prevDevices, cur, {})
      ensures Published() == old(Published()).(devices := Published().devices)
    {
      ghost var start := Published().devices;
      var todo := cur.Keys;
      while todo != {}
        invariant todo <= cur.Keys && bus.Valid() && bus.clock <= now
        invariant Joining(Published().devices, start, prevDevices, cur, todo)
        invariant Published() == old(Published()).(devices := Published().devices)
        decreases |todo|
      {
        var mac :| mac in todo;
        JoinStep(Published().devices, start, prevDevices, cur, todo, mac);
        todo := todo - {mac};
        if mac !in prevDevices {
          Tell(DeviceEvent(DeviceJoin, cur[mac]), now);
        }
      }
    }

    /** Gone devices. */
    method AnnounceLeaves(cur: map<string, Device>, ghost start: seq<Event>, now: Time)
      requires bus.Valid() && bus.clock <= now && Indexed(prevDevices)
      requires Leaving(Published().devices, start, prevDevices, cur, prevDevices.Keys)
      modifies bus
      ensures bus.Valid() && bus.clock <= now
      ensures Leaving(Published().devices, start, prevDevices, cur, {})
      ensures Published() == old(Published()).(devices := Published().devices)
    {
      var todo := prevDevices.Keys;
      while todo != {}
        invariant todo <= prevDevices.Keys && bus.Valid() && bus.clock <= now
        invariant Leaving(Published().devices, start, prevDevices, cur, todo)
        invariant Published() == old(Published()).(devices := Published().devices)
        decreases |todo|
      {
        var mac :| mac in todo;
        LeaveStep(Published().devices, start, prevDevices, cur, todo, mac);
        todo := todo - {mac};
        if mac !in cur {
          Tell(DeviceEvent(DeviceLeave, prevDevices[mac]), now);
        }
      }
    }

    /** One address list: per interface the published changes stay exactly the moves of its history. */
    method DetectWANIPChanges(addrs: seq<AddrInfo>, now: Time)
      requires Valid() && clock <= now
      modifies this`clock, this`prevWANIPs, this`wanSeen, bus
      ensures Valid() && clock == now
      ensures wanSeen == Observe(old(wanSeen), addrs)
      ensures Published() == old(Published()).(wan := Published().wan)
    {
      var wanIfaces := ["eth0", "eth1", "pppoe-wan", "wan", "wan6"];
      Tick(now);
      for i := 0 to |addrs|
        invariant Valid() && clock == now
        invariant wanSeen == Observe(old(wanSeen), addrs[..i])
        invariant Published() == old(Published()).(wan := Published().wan)
      {
        assert addrs[..i + 1][..i] == addrs[..i];
        var wan := IsWANIface(addrs[i].iface, wanIfaces);
        if !wan || |addrs[i].addrs| == 0 {
          continue;
        }
        DetectAddress(addrs[i].iface, addrs[i].addrs[0], now);
      }
      assert addrs[..|addrs|] == addrs;
    }

    method DetectAddress(iface: string, newIP: Address, now: Time)
      requires Valid() && clock == now
      modifies this`prevWANIPs, this`wanSeen, bus
      ensures Valid() && clock == now
      ensures wanSeen == old(wanSeen)[iface := ListOf(old(wanSeen), iface) + [newIP]]
      ensures Published() == old(Published()).(wan := Published().wan)
    {
      ghost var v := Now();
      AddressStep(Published(), v, iface, newIP);
      NoteAddress(iface, newIP, now);
      assert Now() == v.(wanIPs := prevWANIPs, wanSeen := wanSeen);
    }

    /** One address on a WAN interface: what is published and what is remembered. */
    method NoteAddress(iface: string, newIP: Address, now: Time)
      requires bus.Valid() && bus.clock <= now
      modifies this`prevWANIPs, this`wanSeen, bus
      ensures bus.Valid() && bus.clock <= now
      ensures var d := old(Published());
              Published() == d.(wan := AfterAddress(d.wan, Known(old(prevWANIPs), iface), iface, newIP))
      ensures prevWANIPs == old(prevWANIPs)[iface := newIP]
      ensures wanSeen == old(wanSeen)[iface := ListOf(old(wanSeen), iface) + [newIP]]
    {
      var oldIP := if iface in prevWANIPs then prevWANIPs[iface] else "";
      if oldIP != "" && oldIP != newIP {
        Tell(Event(WANIPChange, WANIPPayload(oldIP, newIP, iface)), now);
      }
      prevWANIPs := prevWANIPs[iface := newIP];
      wanSeen := wanSeen[iface := ListOf(wanSeen, iface) + [newIP]];
    }

    /** One round of service checks, with their outcomes. */
    method DetectServiceChanges(running: seq<bool>, now: Time)
      requires Valid() && clock <= now && |running| == |watchedServices|
      modifies this`clock, this`prevServiceState, this`serviceSeen, bus
      ensures Valid() && clock == now
      ensures serviceSeen == Check(old(serviceSeen), watchedServices, running)
      ensures Published() == old(Published()).(services := Published().services)
    {
      Tick(now);
      for i := 0 to |watchedServices|
        invariant Valid() && clock == now
        invariant serviceSeen == Check(old(serviceSeen), watchedServices[..i], running[..i])
        invariant Published() == old(Published()).(services := Published().services)
      {
        assert watchedServices[..i + 1][..i] == watchedServices[..i] && running[..i + 1][..i] == running[..i];
        DetectState(watchedServices[i], running[i], now);
      }
      assert watchedServices[..|watchedServices|] == watchedServices && running[..|running|] == running;
    }

    method DetectState(svc: string, running: bool, now: Time)
      requires Valid() && clock == now
      modifies this`prevServiceState, this`serviceSeen, bus
      ensures Valid() && clock == now
      ensures serviceSeen == old(serviceSeen)[svc := ListOf(old(serviceSeen), svc) + [running]]
      ensures Published() == old(Published()).(services := Published().services)
    {
      ghost var v := Now();
      CheckStep(Published(), v, svc, running);
      NoteState(svc, running, now);
      assert Now() == v.(services := prevServiceState, serviceSeen := serviceSeen);
    }

    /** One check of a service: what is published and what is remembered. */
    method NoteState(svc: string, running: bool, now: Time)
      requires bus.Valid() && bus.clock <= now
      modifies this`prevServiceState, this`serviceSeen, bus
      ensures bus.Valid() && bus.clock <= now
      ensures var d := old(Published());
              Published() == d.(services := AfterCheck(d.services, Known(old(prevServiceState), svc), svc, running))
      ensures prevServiceState == old(prevServiceState)[svc := running]
      ensures serviceSeen == old(serviceSeen)[svc := ListOf(old(serviceSeen), svc) + [running]]
    {
      if svc in prevServiceState && prevServiceState[svc] != running {
        Tell(ServiceEvent(svc, running), now);
      }
      prevServiceState := prevServiceState[svc := running];
      serviceSeen := serviceSeen[svc := ListOf(serviceSeen, svc) + [running]];
    }

    /** One reading of the interfaces: the published interface events stay exactly those the complete history
        of readings leads to. */
    method DetectIfaceChanges(ifaces: seq<IfaceInfo>, now: Time)
      requires Valid() && clock <= now
      modifies this`clock, this`prevIfaceState, this`ifaceReadings, bus
      ensures Valid() && clock == now
      ensures ifaceReadings == old(ifaceReadings) + ReadingsOf(ifaces)
      ensures Published() == old(Published()).(ifaces := Published().ifaces)
    {
      Tick(now);
      ghost var start := ifaceReadings;
      for i := 0 to |ifaces|
        invariant Valid() && clock == now
        invariant ifaceReadings == start + ReadingsOf(ifaces[..i])
        invariant Published() == old(Published()).(ifaces := Published().ifaces)
      {
        ReadingsOne(start, ifaces, i);
        DetectIface(ifaces[i], now);
      }
      assert ifaces[..|ifaces|] == ifaces;
    }

    method DetectIface(iface: IfaceInfo, now: Time)
      requires Valid() && clock == now
      modifies this`prevIfaceState, this`ifaceReadings, bus
      ensures Valid() && clock == now
      ensures ifaceReadings == old(ifaceReadings) + [Reading(iface.name, Upper(iface.state))]
      ensures Published() == old(Published()).(ifaces := Published().ifaces)
    {
      ghost var v, cur := Now(), Upper(iface.state);
      UpperTwice(iface.state);
      IfaceStep(Published(), v, iface.name, cur);
      NoteIface(iface.name, Upper(iface.state), now);
      assert Now() == v.(ifaces := prevIfaceState, ifaceReadings := ifaceReadings);
    }

    /** One interface state: what is published and what is remembered. */
    method NoteIface(name: string, cur: string, now: Time)
      requires bus.Valid() && bus.clock <= now
      modifies this`prevIfaceState, this`ifaceReadings, bus
      ensures bus.Valid() && bus.clock <= now
      ensures var d := old(Published());
              Published() == d.(ifaces := AfterIface(d.ifaces, Known(old(prevIfaceState), name), name, cur))
      ensures prevIfaceState == old(prevIfaceState)[name := cur]
      ensures ifaceReadings == old(ifaceReadings) + [Reading(name, cur)]
    {
      var prev := if name in prevIfaceState then prevIfaceState[name] else "";
      if prev != "" && prev != cur {
        Tell(IfaceEvent(name, cur), now);
      }
      prevIfaceState := prevIfaceState[name := cur];
      ifaceReadings := ifaceReadings + [Reading(name, cur)];
    }

    /** On every interface with an address: the published changes, and after the bus the delivered ones, form
        a chain from the first address seen to the current one. */
    lemma AddressChain(iface: string, cooldownSecs: int)
      requires Valid() && bus.cooldowns == DefaultCooldowns(cooldownSecs) && iface in prevWANIPs
      ensures var seen := ListOf(wanSeen, iface);
              && seen != [] && prevWANIPs[iface] == seen[|seen| - 1]
              && Chained(seen[0], MovesOf(Published().wan, iface))
              && Follow(seen[0], MovesOf(Published().wan, iface)) == prevWANIPs[iface]
      ensures DeliveredOf(Deliveries(bus.cooldowns, bus.published), WAN) == Published().wan
    {
      WanChained(Published().wan, prevWANIPs, wanSeen, iface);
      WanDelivered(bus.cooldowns, bus.published, cooldownSecs);
    }

    /** After every reading the delivered interface events show the stored state of every interface, if and
        only if no state of an interface ever followed an empty one, and no two events of one type came within
        30 s of each other, on whatever interfaces. */
    lemma IfacesShown(cooldownSecs: int)
      requires Valid() && bus.cooldowns == DefaultCooldowns(cooldownSecs)
      ensures forall name :: Known(prevIfaceState, name) == Stored(ifaceReadings, name)
      ensures PublishedOf(bus.published, IFACES) == EventsOf(ifaceReadings)
      ensures AlwaysShown(bus.cooldowns, bus.published, ifaceReadings) <==>
              && NoReturns(ifaceReadings)
              && FarApart(bus.published, IfaceUp, 30_000_000_000)
              && FarApart(bus.published, IfaceDown, 30_000_000_000)
      ensures forall e :: e in EventsOf(ifaceReadings) ==>
                && e.payload.IfacePayload? && (e.kind == IfaceUp || e.kind == IfaceDown)
                && (e.kind == IfaceUp <==> e.payload.state == "up")
    {
      forall e | e in EventsOf(ifaceReadings)
        ensures && e.payload.IfacePayload? && (e.kind == IfaceUp || e.kind == IfaceDown)
                && (e.kind == IfaceUp <==> e.payload.state == "up")
      {
        UpSaysUp(ifaceReadings, e);
      }
      DigestLists(bus.published);
      AlwaysShownIff(bus.cooldowns, bus.published, ifaceReadings);
    }

    /** The bus drops none of the device, address and service events: replaying what was delivered gives
        the latest scan, and what was delivered per interface and service is its whole history. */
    lemma NothingLost(cooldownSecs: int, iface: string, svc: string)
      requires Valid() && bus.cooldowns == DefaultCooldowns(cooldownSecs)
      ensures var log := Deliveries(bus.cooldowns, bus.published);
              && Consistent(DeliveredOf(log, DEVICES)) && Replay(DeliveredOf(log, DEVICES)) == prevDevices.Keys
              && MovesOf(DeliveredOf(log, WAN), iface) == Moves(ListOf(wanSeen, iface), |ListOf(wanSeen, iface)|)
              && var states := ListOf(serviceSeen, svc);
                 FlipsOf(DeliveredOf(log, SERVICES), svc) == Flips(states, |states|)
    {
      NothingDropped(bus.cooldowns, bus.published, DEVICES);
      NothingDropped(bus.cooldowns, bus.published, WAN);
      NothingDropped(bus.cooldowns, bus.published, SERVICES);
      DigestLists(bus.published);
      assert WanTrue(PublishedOf(bus.published, WAN), Known(prevWANIPs, iface), ListOf(wanSeen, iface), iface);
      assert ServiceTrue(PublishedOf(bus.published, SERVICES), Known(prevServiceState, svc), ListOf(serviceSeen, svc),
                         svc);
    }

    /** A stretch of length d with the CPU at 85 % or above, read at least every `gap`: it publishes between
        floor(d / (60 s + gap)) and floor(d / 60 s) alerts, of which at least
        floor(d / (cooldown + 60 s + gap)) are delivered, at least the cooldown apart. */
    lemma CpuAlerts(j: nat, i: nat, gap: Time)
      requires Valid() && HighCPU in bus.cooldowns && HighFor(cpuLoads, 85.0, j, i, gap)
      ensures TimesOf(bus.published, HighCPU) == AlertedTimes(cpuLoads, 85.0, |cpuLoads|)
      ensures StretchPublished(TimesOf(bus.published, HighCPU), cpuLoads, 85.0, j, i, gap)
      ensures var log := Deliveries(bus.cooldowns, bus.published);
              && StretchDelivered(DeliveredTimes(log, HighCPU), bus.cooldowns[HighCPU], cpuLoads, 85.0, j, i, gap)
              && Bus.Spaced(log, HighCPU, bus.cooldowns[HighCPU])
    {
      AlertsOnBus(HighCPU, cpuLoads, CPU_THRESHOLD, j, i, gap);
    }

    /** The same of memory in use, at 90 %. */
    lemma MemAlerts(j: nat, i: nat, gap: Time)
      requires Valid() && HighMemory in bus.cooldowns && HighFor(memLoads, 90.0, j, i, gap)
      ensures TimesOf(bus.published, HighMemory) == AlertedTimes(memLoads, 90.0, |memLoads|)
      ensures StretchPublished(TimesOf(bus.published, HighMemory), memLoads, 90.0, j, i, gap)
      ensures var log := Deliveries(bus.cooldowns, bus.published);
              && StretchDelivered(DeliveredTimes(log, HighMemory), bus.cooldowns[HighMemory], memLoads, 90.0, j, i, gap)
              && Bus.Spaced(log, HighMemory, bus.cooldowns[HighMemory])
    {
      AlertsOnBus(HighMemory, memLoads, MEM_THRESHOLD, j, i, gap);
    }

    lemma AlertsOnBus(kind: Kind, loads: seq<Load>, threshold: real, j: nat, i: nat, gap: Time)
      requires Valid() && kind in bus.cooldowns && HighFor(loads, threshold, j, i, gap)
      requires (kind == HighCPU && loads == cpuLoads && threshold == CPU_THRESHOLD)
               || (kind == HighMemory && loads == memLoads && threshold == MEM_THRESHOLD)
      ensures TimesOf(bus.published, kind) == AlertedTimes(loads, threshold, |loads|)
      ensures StretchPublished(TimesOf(bus.published, kind), loads, threshold, j, i, gap)
      ensures var log := Deliveries(bus.cooldowns, bus.published);
              && StretchDelivered(DeliveredTimes(log, kind), bus.cooldowns[kind], loads, threshold, j, i, gap)
              && Bus.Spaced(log, kind, bus.cooldowns[kind])
    {
      DigestTimes(bus.published);
      forall p | p in bus.published ensures SingleReading(p) { DigestSingle(bus.published, p); }
      OnTimeOrdered(loads, clock);
      AlertedTimesAre(loads, threshold, |loads|);
      LoadsPublished(loads, threshold, j, i, gap);
      LoadsDelivered(loads, threshold, j, i, gap, bus.cooldowns[kind]);
      DeliveredIsKept(bus.cooldowns, bus.published, kind, bus.clock);
      DeliveriesSpaced(bus.cooldowns, bus.published, kind);
    }
  }
}
