/** The values that travel from a sensor to a client: one device state per PCI address. */
module Devices {

  /** DEVICE_TYPE of the wire protocol. */
  datatype DeviceType = UnspecifiedType | VF | PF

  /** DEVICE_STATE of the wire protocol. */
  datatype Health =
    | UnspecifiedState
    | Offline
    | Booting
    | ShuttingDown
    | Online
    | RunningDiagnostics
    | InError
    | Removed

  const PRIORITY_LSPCI := 1
  const PRIORITY_CARDMGMT := 5
  const PRIORITY_RAS := 10

  /** One reporter's opinion about the device at a PCI address. */
  datatype Device = Device(addr: string, kind: DeviceType, state: Health, source: string, priority: int)

  /** What a client receives for a device: no source and no priority. */
  datatype PbDevice = PbDevice(addr: string, kind: DeviceType, state: Health)

  function ToPb(devices: seq<Device>): seq<PbDevice> {
    seq(|devices|, i requires 0 <= i < |devices| => PbDevice(devices[i].addr, devices[i].kind, devices[i].state))
  }

  function Addrs(devices: seq<Device>): set<string> {
    set d | d in devices :: d.addr
  }

  predicate Distinct(devices: seq<Device>) {
    forall i, j :: 0 <= i < j < |devices| ==> devices[i].addr != devices[j].addr
  }

  /** `devices` lists every entry of `entries` exactly once, in some order. */
  ghost predicate Lists(devices: seq<Device>, entries: map<string, Device>) {
    && Distinct(devices)
    && Addrs(devices) == entries.Keys
    && forall i :: 0 <= i < |devices| ==> devices[i].addr in entries && entries[devices[i].addr] == devices[i]
  }

  function Stamp(d: Device, source: string, priority: int): Device {
    d.(source := source, priority := priority)
  }

  lemma ListedAt(devices: seq<Device>, entries: map<string, Device>, a: string) returns (i: nat)
    requires Lists(devices, entries)
    requires a in entries
    ensures i < |devices| && devices[i] == entries[a] && devices[i].addr == a
  {
    assert a in Addrs(devices);
    i :| 0 <= i < |devices| && devices[i].addr == a;
  }

  /** Changing listed entries one by one, but not their addresses, lists the changed map. */
  lemma ListsEntrywise(devices: seq<Device>, entries: map<string, Device>, r: seq<Device>, changed: map<string, Device>)
    requires Lists(devices, entries) && changed.Keys == entries.Keys
    requires |r| == |devices|
    requires forall i :: 0 <= i < |r| ==> r[i].addr == devices[i].addr && changed[r[i].addr] == r[i]
    ensures Lists(r, changed)
  {
    forall a | a in entries
      ensures a in Addrs(r)
    {
      var i := ListedAt(devices, entries, a);
      assert r[i] in r;
    }
    forall a | a in Addrs(r)
      ensures a in entries
    {
      var i :| 0 <= i < |r| && r[i].addr == a;
      assert devices[i].addr == a;
    }
  }

  /** An array that lists a map, whatever order the map is walked in. */
  method ListValues(entries: map<string, Device>) returns (result: array<Device>)
    requires forall a :: a in entries ==> entries[a].addr == a
    ensures fresh(result)
    ensures Lists(result[..], entries)
  {
    var listed: seq<Device> := [];
    var rest := entries.Keys;
    while rest != {}
      invariant rest <= entries.Keys
      invariant Distinct(listed)
      invariant Addrs(listed) == entries.Keys - rest
      invariant forall i :: 0 <= i < |listed| ==> listed[i].addr in entries && entries[listed[i].addr] == listed[i]
    {
      var a :| a in rest;
      assert forall i :: 0 <= i < |listed| ==> listed[i].addr in Addrs(listed);
      AddrsAppend(listed, entries[a]);
      listed, rest := listed + [entries[a]], rest - {a};
    }
    result := new Device[|listed|](i requires 0 <= i < |listed| => listed[i]);
    assert result[..] == listed;
  }

  lemma AddrsAppend(devices: seq<Device>, d: Device)
    ensures Addrs(devices + [d]) == Addrs(devices) + {d.addr}
  {
    assert forall e :: e in devices + [d] <==> e in devices || e == d;
    forall a | a in Addrs(devices) + {d.addr}
      ensures a in Addrs(devices + [d])
    {
      if a == d.addr {
        assert d in devices + [d];
      } else {
        var e :| e in devices && e.addr == a;
        assert e in devices + [d];
      }
    }
  }
}
