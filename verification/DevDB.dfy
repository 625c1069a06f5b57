/** The device database: one record per MAC, merged from every scan, against the complete history of
    sightings. */
module DevDB {
  import opened Options
  import opened Text
  import opened Devices

  type Time = int

  datatype DevRecord = DevRecord(
    mac: string,
    hostname: string,
    vendor: string,
    deviceType: string,
    note: string,
    firstSeen: Time,
    lastSeen: Time,
    lastIP: string,
    randomMAC: bool
  )

  datatype Sighting = Sighting(device: Device, at: Time)

  // ---------------------------------------------------------------- what a record must say

  /** The last of the values that is not empty; empty if there is none. */
  ghost predicate IsLast(v: string, xs: seq<string>) {
    || (v == "" && forall i :: 0 <= i < |xs| ==> xs[i] == "")
    || (v != "" && exists i :: 0 <= i < |xs| && xs[i] == v && forall j :: i < j < |xs| ==> xs[j] == "")
  }

  /** The first of the values that is neither empty nor `unknown`; empty if there is none. */
  ghost predicate IsFirstKnown(v: string, xs: seq<string>, unknown: string) {
    || (v == "" && forall i :: 0 <= i < |xs| ==> xs[i] == "" || xs[i] == unknown)
    || (v != "" && v != unknown
        && exists i :: 0 <= i < |xs| && xs[i] == v && forall j :: 0 <= j < i ==> xs[j] == "" || xs[j] == unknown)
  }

  /** The earliest of the longest values. */
  ghost predicate IsLongest(v: string, xs: seq<string>) {
    && (forall j :: 0 <= j < |xs| ==> |xs[j]| <= |v|)
    && (v == "" || exists i :: 0 <= i < |xs| && xs[i] == v && forall j :: 0 <= j < i ==> |xs[j]| < |v|)
  }

  lemma LastStep(v: string, xs: seq<string>, x: string)
    requires IsLast(v, xs)
    ensures IsLast(if x != "" then x else v, xs + [x])
  {
    if x != "" {
      assert (xs + [x])[|xs|] == x;
    } else if v != "" {
      var i :| 0 <= i < |xs| && xs[i] == v && forall j :: i < j < |xs| ==> xs[j] == "";
      assert (xs + [x])[i] == v;
    }
  }

  lemma FirstKnownStep(v: string, xs: seq<string>, x: string, unknown: string)
    requires IsFirstKnown(v, xs, unknown)
    ensures IsFirstKnown(if v == "" && x != unknown then x else v, xs + [x], unknown)
  {
    if v != "" {
      var i :| 0 <= i < |xs| && xs[i] == v && forall j :: 0 <= j < i ==> xs[j] == "" || xs[j] == unknown;
      assert (xs + [x])[i] == v;
    } else if x != "" && x != unknown {
      assert (xs + [x])[|xs|] == x;
    }
  }

  lemma LongestStep(v: string, xs: seq<string>, x: string)
    requires IsLongest(v, xs)
    ensures IsLongest(if |x| > |v| then x else v, xs + [x])
  {
    if |x| > |v| {
      assert (xs + [x])[|xs|] == x;
    } else if v != "" {
      var i :| 0 <= i < |xs| && xs[i] == v && forall j :: 0 <= j < i ==> |xs[j]| < |v|;
      assert (xs + [x])[i] == v;
    }
  }

  function Hostnames(s: seq<Sighting>): seq<string> { seq(|s|, i requires 0 <= i < |s| => s[i].device.hostname) }
  function Vendors(s: seq<Sighting>): seq<string> { seq(|s|, i requires 0 <= i < |s| => s[i].device.vendor) }
  function Types(s: seq<Sighting>): seq<string> { seq(|s|, i requires 0 <= i < |s| => s[i].device.deviceType) }
  function IPs(s: seq<Sighting>): seq<string> { seq(|s|, i requires 0 <= i < |s| => s[i].device.ip) }

  /** The record is the summary of these sightings, oldest first, and of the notes set on it. */
  ghost predicate Summarises(r: DevRecord, mac: string, s: seq<Sighting>, notes: seq<string>) {
    && s != [] && r.mac == mac
    && r.firstSeen == s[0].at && r.lastSeen == s[|s| - 1].at
    && IsLast(r.lastIP, IPs(s))
    && IsLongest(r.hostname, Hostnames(s))
    && IsFirstKnown(r.vendor, Vendors(s), "")
    && IsFirstKnown(r.deviceType, Types(s), "unknown")
    && (r.randomMAC <==> exists i :: 0 <= i < |s| && s[i].device.randomMAC)
    && r.note == if notes == [] then "" else notes[|notes| - 1]
  }

  lemma LastUnique(v: string, w: string, xs: seq<string>)
    requires IsLast(v, xs) && IsLast(w, xs)
    ensures v == w
  {
  }

  lemma FirstKnownUnique(v: string, w: string, xs: seq<string>, unknown: string)
    requires IsFirstKnown(v, xs, unknown) && IsFirstKnown(w, xs, unknown)
    ensures v == w
  {
    if v != "" && w != "" {
      var i :| 0 <= i < |xs| && xs[i] == v && forall j :: 0 <= j < i ==> xs[j] == "" || xs[j] == unknown;
      var k :| 0 <= k < |xs| && xs[k] == w && forall j :: 0 <= j < k ==> xs[j] == "" || xs[j] == unknown;
      assert i == k;
    }
  }

  lemma LongestUnique(v: string, w: string, xs: seq<string>)
    requires IsLongest(v, xs) && IsLongest(w, xs)
    ensures v == w
  {
    if v != "" && w != "" {
      var i :| 0 <= i < |xs| && xs[i] == v && forall j :: 0 <= j < i ==> |xs[j]| < |v|;
      var k :| 0 <= k < |xs| && xs[k] == w && forall j :: 0 <= j < k ==> |xs[j]| < |w|;
      assert i == k;
    }
  }

  /** The history determines the record. */
  lemma SummaryUnique(r: DevRecord, q: DevRecord, mac: string, s: seq<Sighting>, notes: seq<string>)
    requires Summarises(r, mac, s, notes) && Summarises(q, mac, s, notes)
    ensures r == q
  {
    LastUnique(r.lastIP, q.lastIP, IPs(s));
    LongestUnique(r.hostname, q.hostname, Hostnames(s));
    FirstKnownUnique(r.vendor, q.vendor, Vendors(s), "");
    FirstKnownUnique(r.deviceType, q.deviceType, Types(s), "unknown");
  }

  /** A record exists exactly for what has been sighted. */
  ghost predicate Recorded(r: Option<DevRecord>, mac: string, s: seq<Sighting>, notes: seq<string>) {
    match r
    case None => s == [] && notes == []
    case Some(r) => mac != "" && Summarises(r, mac, s, notes)
  }

  /** What one sighting does to a record. */
  function Merge(r: DevRecord, d: Device, now: Time): DevRecord {
    r.(lastSeen := now,
       lastIP := if d.ip != "" then d.ip else r.lastIP,
       hostname := if |d.hostname| > |r.hostname| then d.hostname else r.hostname,
       vendor := if r.vendor == "" && d.vendor != "" then d.vendor else r.vendor,
       deviceType := if r.deviceType == "" && d.deviceType != UNKNOWN then d.deviceType else r.deviceType,
       randomMAC := r.randomMAC || d.randomMAC)
  }

  const NO_RECORD := DevRecord("", "", "", "", "", 0, 0, "", false)

  lemma FirstSighting(mac: string, d: Device, now: Time)
    requires mac != ""
    ensures Summarises(Merge(NO_RECORD.(mac := mac, firstSeen := now), d, now), mac, [Sighting(d, now)], [])
  {
    LastStep("", [], d.ip);
    LongestStep("", [], d.hostname);
    FirstKnownStep("", [], d.vendor, "");
    FirstKnownStep("", [], d.deviceType, UNKNOWN);
    var s := [Sighting(d, now)];
    assert IPs(s) == [] + [d.ip] && Hostnames(s) == [] + [d.hostname];
    assert Vendors(s) == [] + [d.vendor] && Types(s) == [] + [d.deviceType];
  }

  lemma NextSighting(r: DevRecord, mac: string, s: seq<Sighting>, notes: seq<string>, d: Device, now: Time)
    requires Summarises(r, mac, s, notes)
    ensures Summarises(Merge(r, d, now), mac, s + [Sighting(d, now)], notes)
  {
    LastStep(r.lastIP, IPs(s), d.ip);
    LongestStep(r.hostname, Hostnames(s), d.hostname);
    FirstKnownStep(r.vendor, Vendors(s), d.vendor, "");
    FirstKnownStep(r.deviceType, Types(s), d.deviceType, UNKNOWN);
    var t := s + [Sighting(d, now)];
    assert IPs(t) == IPs(s) + [d.ip] && Hostnames(t) == Hostnames(s) + [d.hostname];
    assert Vendors(t) == Vendors(s) + [d.vendor] && Types(t) == Types(s) + [d.deviceType];
    SomeRandom(s, Sighting(d, now));
  }

  lemma SomeRandom(s: seq<Sighting>, x: Sighting)
    ensures (exists i :: 0 <= i < |s + [x]| && (s + [x])[i].device.randomMAC) <==>
            x.device.randomMAC || exists i :: 0 <= i < |s| && s[i].device.randomMAC
  {
    if x.device.randomMAC { assert (s + [x])[|s|].device.randomMAC; }
    if i :| 0 <= i < |s| && s[i].device.randomMAC { assert (s + [x])[i].device.randomMAC; }
  }

  // ---------------------------------------------------------------- the whole database

  /** The sightings after a scan; a device without a MAC is not one. */
  function Sight(seen: map<string, seq<Sighting>>, devices: seq<Device>, now: Time): map<string, seq<Sighting>> {
    if devices == [] then seen
    else
      var rest, d := Sight(seen, devices[..|devices| - 1], now), devices[|devices| - 1];
      if d.mac == "" then rest
      else rest[Lower(d.mac) := ListOf(rest, Lower(d.mac)) + [Sighting(d, now)]]
  }

  /** A scan adds one sighting to the history of a MAC that one of its devices has, and none to others. */
  lemma {:induction false} SightMeans(seen: map<string, seq<Sighting>>, devices: seq<Device>, now: Time, k: nat)
    requires k < |devices| && devices[k].mac != ""
    requires forall i :: 0 <= i < |devices| && i != k ==> Lower(devices[i].mac) != Lower(devices[k].mac)
    ensures var mac := Lower(devices[k].mac);
            ListOf(Sight(seen, devices, now), mac) == ListOf(seen, mac) + [Sighting(devices[k], now)]
    decreases |devices|
  {
    var n := |devices| - 1;
    if k < n {
      SightMeans(seen, devices[..n], now, k);
    } else {
      UnsightedStays(seen, devices[..n], now, Lower(devices[n].mac));
    }
  }

  lemma {:induction false} UnsightedStays(seen: map<string, seq<Sighting>>, devices: seq<Device>, now: Time,
                                          mac: string)
    requires forall i :: 0 <= i < |devices| ==> Lower(devices[i].mac) != mac
    ensures ListOf(Sight(seen, devices, now), mac) == ListOf(seen, mac)
    decreases |devices|
  {
    if devices != [] { UnsightedStays(seen, devices[..|devices| - 1], now, mac); }
  }

  ghost predicate AllRecorded(recs: map<string, DevRecord>, seen: map<string, seq<Sighting>>,
                              notes: map<string, seq<string>>)
  {
    forall mac :: Recorded(Known(recs, mac), mac, ListOf(seen, mac), ListOf(notes, mac))
  }

  function Merged(r: Option<DevRecord>, mac: string, d: Device, now: Time): DevRecord {
    Merge(if r.Some? then r.value else NO_RECORD.(mac := mac, firstSeen := now), d, now)
  }

  lemma SightingRecorded(recs: map<string, DevRecord>, seen: map<string, seq<Sighting>>,
                         notes: map<string, seq<string>>, mac: string, d: Device, now: Time)
    requires AllRecorded(recs, seen, notes) && mac != ""
    ensures AllRecorded(recs[mac := Merged(Known(recs, mac), mac, d, now)],
                        seen[mac := ListOf(seen, mac) + [Sighting(d, now)]], notes)
  {
    var r, s, n := Known(recs, mac), ListOf(seen, mac), ListOf(notes, mac);
    assert Recorded(r, mac, s, n);
    if r.None? {
      FirstSighting(mac, d, now);
      assert s + [Sighting(d, now)] == [Sighting(d, now)];
    } else {
      NextSighting(r.value, mac, s, n, d, now);
    }
    Elsewhere(recs, seen, notes, mac, Merged(r, mac, d, now), s + [Sighting(d, now)], n);
  }

  lemma NoteRecorded(recs: map<string, DevRecord>, seen: map<string, seq<Sighting>>, notes: map<string, seq<string>>,
                     mac: string, note: string)
    requires AllRecorded(recs, seen, notes) && mac in recs
    ensures AllRecorded(recs[mac := recs[mac].(note := note)], seen, notes[mac := ListOf(notes, mac) + [note]])
  {
    assert Recorded(Known(recs, mac), mac, ListOf(seen, mac), ListOf(notes, mac));
    var s := ListOf(seen, mac);
    Elsewhere(recs, seen, notes, mac, recs[mac].(note := note), s, ListOf(notes, mac) + [note]);
    assert mac in seen;
    assert seen[mac := s] == seen;
  }

  /** Replacing one record leaves the others recorded. */
  lemma Elsewhere(recs: map<string, DevRecord>, seen: map<string, seq<Sighting>>, notes: map<string, seq<string>>,
                  mac: string, r: DevRecord, s: seq<Sighting>, n: seq<string>)
    requires AllRecorded(recs, seen, notes) && Recorded(Some(r), mac, s, n)
    ensures AllRecorded(recs[mac := r], seen[mac := s], notes[mac := n])
    ensures n == ListOf(notes, mac) ==> AllRecorded(recs[mac := r], seen[mac := s], notes)
  {
    var recs', seen', notes' := recs[mac := r], seen[mac := s], notes[mac := n];
    forall m ensures Recorded(Known(recs', m), m, ListOf(seen', m), ListOf(notes', m)) {
      assert Recorded(Known(recs, m), m, ListOf(seen, m), ListOf(notes, m));
    }
    if n == ListOf(notes, mac) {
      forall m ensures Recorded(Known(recs', m), m, ListOf(seen', m), ListOf(notes, m)) {
        assert Recorded(Known(recs, m), m, ListOf(seen, m), ListOf(notes, m));
      }
    }
  }

  /** What a scan learns of a device by name; the note and the random-MAC flag are stored beside it. */
  function Named(r: DevRecord): (string, string, string) {
    (r.hostname, r.vendor, r.deviceType)
  }

  /** A record is new, or one of its names has changed. */
  ghost predicate Renamed(before: map<string, DevRecord>, after: map<string, DevRecord>) {
    exists mac :: mac in after && (mac in before ==> Named(after[mac]) != Named(before[mac]))
  }

  /** The sighting adds a record or assigns one of its names. */
  predicate Improves(r: Option<DevRecord>, d: Device) {
    || r.None?
    || |d.hostname| > |r.value.hostname|
    || (d.vendor != "" && r.value.vendor == "")
    || (d.deviceType != UNKNOWN && r.value.deviceType == "")
  }

  /** The records after a scan. */
  function Scanned(recs: map<string, DevRecord>, devices: seq<Device>, now: Time): map<string, DevRecord> {
    if devices == [] then recs
    else
      var rest, d := Scanned(recs, devices[..|devices| - 1], now), devices[|devices| - 1];
      if d.mac == "" then rest else rest[Lower(d.mac) := Merged(Known(rest, Lower(d.mac)), Lower(d.mac), d, now)]
  }

  /** Some sighting of the scan improves the record it finds. */
  predicate ScanImproves(recs: map<string, DevRecord>, devices: seq<Device>, now: Time) {
    devices != [] &&
    var before, d := devices[..|devices| - 1], devices[|devices| - 1];
    ScanImproves(recs, before, now)
    || (d.mac != "" && Improves(Known(Scanned(recs, before, now), Lower(d.mac)), d))
  }

  /** Names only ever become longer or known. */
  predicate Grown(r: DevRecord, q: DevRecord) {
    && (q.hostname == r.hostname || |q.hostname| > |r.hostname|)
    && (r.vendor != "" ==> q.vendor == r.vendor)
    && (r.deviceType != "" ==> q.deviceType == r.deviceType)
  }

  lemma {:induction false} ScanGrows(recs: map<string, DevRecord>, devices: seq<Device>, now: Time, mac: string)
    requires mac in recs
    ensures mac in Scanned(recs, devices, now) && Grown(recs[mac], Scanned(recs, devices, now)[mac])
    decreases |devices|
  {
    if devices != [] { ScanGrows(recs, devices[..|devices| - 1], now, mac); }
  }

  /** A change that has happened is not undone by the next sighting. */
  lemma StaysRenamed(recs: map<string, DevRecord>, devices: seq<Device>, now: Time)
    requires devices != [] && Renamed(recs, Scanned(recs, devices[..|devices| - 1], now))
    ensures Renamed(recs, Scanned(recs, devices, now))
  {
    var rest := Scanned(recs, devices[..|devices| - 1], now);
    var mac :| mac in rest && (mac in recs ==> Named(rest[mac]) != Named(recs[mac]));
    if mac in recs { ScanGrows(recs, devices[..|devices| - 1], now, mac); }
  }

  lemma LastRenames(recs: map<string, DevRecord>, devices: seq<Device>, now: Time)
    requires devices != [] && devices[|devices| - 1].mac != ""
    requires var rest, d := Scanned(recs, devices[..|devices| - 1], now), devices[|devices| - 1];
             var r := Known(rest, Lower(d.mac));
             r.None? || Named(Merged(r, Lower(d.mac), d, now)) != Named(r.value)
    ensures Renamed(recs, Scanned(recs, devices, now))
  {
    var mac := Lower(devices[|devices| - 1].mac);
    if mac in recs { ScanGrows(recs, devices[..|devices| - 1], now, mac); }
    assert mac in Scanned(recs, devices, now);
  }

  /** The last sighting is the only one that can rename. */
  lemma OnlyLastRenames(recs: map<string, DevRecord>, devices: seq<Device>, now: Time)
    requires devices != [] && Renamed(recs, Scanned(recs, devices, now))
    requires !Renamed(recs, Scanned(recs, devices[..|devices| - 1], now))
    ensures var rest, d := Scanned(recs, devices[..|devices| - 1], now), devices[|devices| - 1];
            var r := Known(rest, Lower(d.mac));
            d.mac != "" && (r.None? || Named(Merged(r, Lower(d.mac), d, now)) != Named(r.value))
  {
    var all := Scanned(recs, devices, now);
    var mac :| mac in all && (mac in recs ==> Named(all[mac]) != Named(recs[mac]));
    var rest := Scanned(recs, devices[..|devices| - 1], now);
    assert mac in rest ==> mac in recs && Named(rest[mac]) == Named(recs[mac]);
  }

  /** Exactly when a scan asks for a save: a record is new or renamed afterwards. */
  lemma {:induction false} SavesIff(recs: map<string, DevRecord>, devices: seq<Device>, now: Time)
    ensures ScanImproves(recs, devices, now) <==> Renamed(recs, Scanned(recs, devices, now))
    decreases |devices|
  {
    if devices != [] {
      var before, d := devices[..|devices| - 1], devices[|devices| - 1];
      SavesIff(recs, before, now);
      var r := Known(Scanned(recs, before, now), Lower(d.mac));
      if Renamed(recs, Scanned(recs, before, now)) {
        StaysRenamed(recs, devices, now);
      } else if Renamed(recs, Scanned(recs, devices, now)) {
        OnlyLastRenames(recs, devices, now);
        RenamesIff(r, Lower(d.mac), d, now);
      } else if d.mac != "" && Improves(r, d) {
        RenamesIff(r, Lower(d.mac), d, now);
        LastRenames(recs, devices, now);
      }
    }
  }

  lemma RenamesIff(r: Option<DevRecord>, mac: string, d: Device, now: Time)
    ensures Improves(r, d) <==>
            || r.None?
            || Named(Merged(r, mac, d, now)) != Named(r.value)
  {
  }

  class Database {
    var recs: map<string, DevRecord>
    /** Complete histories: the sightings of each MAC and the notes that were set on it. */
    ghost var seen: map<string, seq<Sighting>>
    ghost var notes: map<string, seq<string>>

    /** Every record is the summary of its history. */
    ghost predicate Valid()
      reads this
    {
      AllRecorded(recs, seen, notes)
    }

    constructor ()
      ensures Valid() && recs == map[] && seen == map[] && notes == map[]
    {
      recs, seen, notes := map[], map[], map[];
    }

    /** One scan: every record stays the summary of its history, now with this scan's sightings; the file
        is written if and only if a record is new or renamed. */
    method UpsertDevices(devices: seq<Device>, now: Time) returns (save: bool)
      requires Valid()
      modifies this
      ensures Valid() && notes == old(notes)
      ensures seen == Sight(old(seen), devices, now)
      ensures recs == Scanned(old(recs), devices, now)
      ensures save <==> Renamed(old(recs), recs)
    {
      save := false;
      for i := 0 to |devices|
        invariant Valid() && notes == old(notes)
        invariant seen == Sight(old(seen), devices[..i], now)
        invariant recs == Scanned(old(recs), devices[..i], now)
        invariant save <==> ScanImproves(old(recs), devices[..i], now)
      {
        assert devices[..i + 1][..i] == devices[..i];
        if devices[i].mac == "" {
          continue;
        }
        var changed := Upsert(devices[i], now);
        save := save || changed;
      }
      assert devices[..|devices|] == devices;
      SavesIff(old(recs), devices, now);
    }

    /** The body of the loop: the record of one device, created if need be and merged field by field. */
    method Upsert(d: Device, now: Time) returns (changed: bool)
      requires Valid() && d.mac != ""
      modifies this
      ensures Valid() && notes == old(notes)
      ensures seen == old(seen)[Lower(d.mac) := ListOf(old(seen), Lower(d.mac)) + [Sighting(d, now)]]
      ensures recs == old(recs)[Lower(d.mac) := Merged(Known(old(recs), Lower(d.mac)), Lower(d.mac), d, now)]
      ensures changed <==> Improves(Known(old(recs), Lower(d.mac)), d)
    {
      var mac := Lower(d.mac);
      changed := false;
      SightingRecorded(recs, seen, notes, mac, d, now);
      seen := seen[mac := ListOf(seen, mac) + [Sighting(d, now)]];
      var r := NO_RECORD;
      if mac in recs {
        r := recs[mac];
      } else {
        r := r.(mac := mac, firstSeen := now);
        changed := true;
      }
      r := r.(lastSeen := now);
      if d.ip != "" {
        r := r.(lastIP := d.ip);
      }
      if d.hostname != "" && |d.hostname| > |r.hostname| {
        r := r.(hostname := d.hostname);
        changed := true;
      }
      if d.vendor != "" && r.vendor == "" {
        r := r.(vendor := d.vendor);
        changed := true;
      }
      if d.deviceType != UNKNOWN && r.deviceType == "" {
        r := r.(deviceType := d.deviceType);
        changed := true;
      }
      if d.randomMAC {
        r := r.(randomMAC := true);
      }
      recs := recs[mac := r];
    }

    /** Sets the note of one record: the one with that MAC, or else any one with that last address. The
        answer is its MAC, or empty when there is neither. */
    method SetNote(macOrIP: string, note: string) returns (mac: string)
      requires Valid()
      modifies this
      ensures Valid() && seen == old(seen)
      ensures mac == "" <==>
              Lower(macOrIP) !in old(recs) && forall m :: m in old(recs) ==> old(recs)[m].lastIP != macOrIP
      ensures mac == "" ==> recs == old(recs) && notes == old(notes)
      ensures mac != "" ==>
                && mac in old(recs)
                && (if Lower(macOrIP) in old(recs) then mac == Lower(macOrIP) else old(recs)[mac].lastIP == macOrIP)
                && recs == old(recs)[mac := old(recs)[mac].(note := note)]
                && notes == old(notes)[mac := ListOf(old(notes), mac) + [note]]
    {
      var key := Lower(macOrIP);
      if key in recs {
        Annotate(key, note);
        return key;
      }
      var todo := recs.Keys;
      while todo != {}
        invariant todo <= recs.Keys && recs == old(recs) && seen == old(seen) && notes == old(notes)
        invariant forall m :: m in recs && m !in todo ==> recs[m].lastIP != macOrIP
        decreases |todo|
      {
        var m :| m in todo;
        todo := todo - {m};
        if recs[m].lastIP == macOrIP {
          Annotate(m, note);
          return m;
        }
      }
      return "";
    }

    method Annotate(mac: string, note: string)
      requires Valid() && mac in recs
      modifies this
      ensures Valid() && seen == old(seen) && mac != "" && old(recs)[mac].mac == mac
      ensures recs == old(recs)[mac := old(recs)[mac].(note := note)]
      ensures notes == old(notes)[mac := ListOf(old(notes), mac) + [note]]
    {
      NoteRecorded(recs, seen, notes, mac, note);
      assert Recorded(Known(recs, mac), mac, ListOf(seen, mac), ListOf(notes, mac));
      notes := notes[mac := ListOf(notes, mac) + [note]];
      recs := recs[mac := recs[mac].(note := note)];
    }

    /** A scan completed from the database; the scan itself is copied, not changed. */
    method EnrichDevices(devices: seq<Device>) returns (out: seq<Device>)
      ensures |out| == |devices|
      ensures forall i :: 0 <= i < |devices| ==> out[i] == Enriched(recs, devices[i])
    {
      out := devices;
      for i := 0 to |devices|
        invariant |out| == |devices|
        invariant forall j :: 0 <= j < i ==> out[j] == Enriched(recs, devices[j])
        invariant forall j :: i <= j < |devices| ==> out[j] == devices[j]
      {
        var d := out[i];
        if d.mac == "" || Lower(d.mac) !in recs {
          continue;
        }
        var r := recs[Lower(d.mac)];
        if r.note != "" {
          out := out[i := out[i].(note := r.note)];
        }
        if r.hostname != "" && |r.hostname| > |d.hostname| {
          out := out[i := out[i].(hostname := r.hostname)];
        }
        if out[i].deviceType == UNKNOWN && r.deviceType != "" {
          out := out[i := out[i].(deviceType := r.deviceType)];
        }
      }
    }

    /** What a completed device says, against the complete histories. */
    lemma EnrichedKnowsHistory(d: Device)
      requires Valid()
      ensures var mac := Lower(d.mac);
              if d.mac == "" || ListOf(seen, mac) == [] then Enriched(recs, d) == d
              else Completed(Enriched(recs, d), d, ListOf(seen, mac), ListOf(notes, mac))
    {
      EnrichedIsHistory(recs, seen, notes, d);
    }
  }

  /** A device completed from the history of its MAC: the note is the last one set, unless that is empty; the
      hostname is the longest one sighted if that is longer; an unknown type becomes the first known one
      sighted; and nothing else changes. */
  ghost predicate Completed(out: Device, d: Device, s: seq<Sighting>, notes: seq<string>) {
    && out.note == (if notes != [] && notes[|notes| - 1] != "" then notes[|notes| - 1] else d.note)
    && (exists h :: IsLongest(h, Hostnames(s)) && out.hostname == if |h| > |d.hostname| then h else d.hostname)
    && (exists t :: IsFirstKnown(t, Types(s), "unknown")
                    && out.deviceType == if d.deviceType == "unknown" && t != "" then t else d.deviceType)
    && out.ip == d.ip && out.mac == d.mac && out.vendor == d.vendor && out.iface == d.iface
    && out.leaseEnd == d.leaseEnd && out.randomMAC == d.randomMAC
  }

  lemma EnrichedIsHistory(recs: map<string, DevRecord>, seen: map<string, seq<Sighting>>,
                          notes: map<string, seq<string>>, d: Device)
    requires AllRecorded(recs, seen, notes)
    ensures var mac := Lower(d.mac);
            if d.mac == "" || ListOf(seen, mac) == [] then Enriched(recs, d) == d
            else Completed(Enriched(recs, d), d, ListOf(seen, mac), ListOf(notes, mac))
  {
    var mac := Lower(d.mac);
    assert Recorded(Known(recs, mac), mac, ListOf(seen, mac), ListOf(notes, mac));
    if d.mac != "" && mac in recs { RecordCompletes(recs, d, ListOf(seen, mac), ListOf(notes, mac)); }
  }

  lemma RecordCompletes(recs: map<string, DevRecord>, d: Device, s: seq<Sighting>, notes: seq<string>)
    requires d.mac != "" && Lower(d.mac) in recs && Summarises(recs[Lower(d.mac)], Lower(d.mac), s, notes)
    ensures Completed(Enriched(recs, d), d, s, notes)
  {
    var r, out := recs[Lower(d.mac)], Enriched(recs, d);
    assert out.hostname == if |r.hostname| > |d.hostname| then r.hostname else d.hostname;
    assert out.deviceType == if d.deviceType == "unknown" && r.deviceType != "" then r.deviceType else d.deviceType;
  }

  function Enriched(recs: map<string, DevRecord>, d: Device): (out: Device)
    ensures |out.hostname| >= |d.hostname|
    ensures out == d.(note := out.note, hostname := out.hostname, deviceType := out.deviceType)
    ensures d.mac == "" || Lower(d.mac) !in recs ==> out == d
  {
    if d.mac == "" || Lower(d.mac) !in recs then d
    else
      var r := recs[Lower(d.mac)];
      d.(note := if r.note != "" then r.note else d.note,
         hostname := if |r.hostname| > |d.hostname| then r.hostname else d.hostname,
         deviceType := if d.deviceType == UNKNOWN && r.deviceType != "" then r.deviceType else d.deviceType)
  }

  /** Completing twice is completing once. */
  lemma EnrichIdempotent(recs: map<string, DevRecord>, d: Device)
    ensures Enriched(recs, Enriched(recs, d)) == Enriched(recs, d)
  {
    var e := Enriched(recs, d);
    assert e.mac == d.mac;
  }
}
