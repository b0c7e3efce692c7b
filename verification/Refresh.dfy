/** The device list's refresh (server/device_list.c) and the bus ids it is keyed by (server/usb_host_win32.c). */
module Refresh {
  import opened Bytes
  import opened Config
  import opened Ownership
  import opened OwnershipInvariant

  // ---- The list operations ----

  /** `device_list_add`: a known bus id gets the new device information, a new one an entry at the head. */
  function AddDevice(entries: seq<Entry>, d: Device): seq<Entry> {
    var j := Find(entries, d.busid);
    if j < |entries| then SetDevice(entries, j, d) else [Entry(d, Available, 0, [], true)] + entries
  }

  function AddAll(entries: seq<Entry>, devices: seq<Device>): seq<Entry>
    decreases |devices|
  {
    if devices == [] then entries else AddDevice(AddAll(entries, devices[..|devices| - 1]), devices[|devices| - 1])
  }

  /** An export remembered across a refresh. */
  datatype Export = Export(busid: seq<byte>, clientId: uint32, clientIp: seq<byte>)

  /** The exports of a list, in order. */
  function Exports(entries: seq<Entry>): seq<Export> {
    if entries == [] then []
    else
      var last := entries[|entries| - 1];
      var front := Exports(entries[..|entries| - 1]);
      if last.state == Exported then
        front + [Export(Truncate(last.device.busid, BUSID_MAX), last.clientId, Truncate(last.clientIp, IP_MAX))]
      else front
  }

  /** What fits in the table of 32. */
  function Saved(entries: seq<Entry>): seq<Export> {
    var all := Exports(entries);
    if |all| <= MAX_DEVICES then all else all[..MAX_DEVICES]
  }

  function RestoreOne(entries: seq<Entry>, x: Export): seq<Entry> {
    var j := Find(entries, x.busid);
    if j == |entries| then entries
    else entries[j := entries[j].(state := Exported, clientId := x.clientId, clientIp := Truncate(x.clientIp, IP_MAX))]
  }

  function RestoreAll(entries: seq<Entry>, saved: seq<Export>): seq<Entry>
    decreases |saved|
  {
    if saved == [] then entries else RestoreOne(RestoreAll(entries, saved[..|saved| - 1]), saved[|saved| - 1])
  }

  function Refreshed(entries: seq<Entry>, devices: seq<Device>): seq<Entry> {
    RestoreAll(AddAll([], devices), Saved(entries))
  }

  /** The last enumerated device with a bus id. */
  function LastDevice(devices: seq<Device>, busid: seq<byte>): Option<Device> {
    if devices == [] then None
    else
      var last := devices[|devices| - 1];
      if last.busid == busid then Some(last) else LastDevice(devices[..|devices| - 1], busid)
  }

  /** The reported devices without those that would have needed an entry when there was no memory for it. */
  function Kept(devices: seq<Device>, fits: seq<bool>): (kept: seq<Device>)
    requires |fits| == |devices|
    ensures forall d | d in kept :: d in devices
    ensures (forall i | 0 <= i < |fits| :: fits[i]) ==> kept == devices
    decreases |devices|
  {
    if devices == [] then []
    else
      var n := |devices| - 1;
      var front := Kept(devices[..n], fits[..n]);
      assert devices == devices[..n] + [devices[n]];
      if fits[n] || LastDevice(front, devices[n].busid).Some? then front + [devices[n]] else front
  }

  lemma KeptNext(devices: seq<Device>, fits: seq<bool>, n: nat)
    requires n < |devices| == |fits|
    ensures
      var front := Kept(devices[..n], fits[..n]);
      var kept := Kept(devices[..n + 1], fits[..n + 1]);
      && AddAll([], kept) == (if fits[n] || LastDevice(front, devices[n].busid).Some?
                              then AddDevice(AddAll([], front), devices[n]) else AddAll([], front))
  {
    assert devices[..n + 1][..n] == devices[..n] && fits[..n + 1][..n] == fits[..n];
    var front := Kept(devices[..n], fits[..n]);
    assert (front + [devices[n]])[..|front|] == front;
  }

  /** `device_list_t`. */
  class DeviceList {
    var entries: seq<Entry>
    var count: int

    ghost predicate Valid()
      reads this
    {
      count == |entries|
    }

    constructor ()
      ensures Valid() && entries == []
    {
      entries, count := [], 0;
    }

    method FindIndex(busid: seq<byte>) returns (j: nat)
      ensures j == Find(entries, busid)
    {
      j := 0;
      while j < |entries| && entries[j].device.busid != busid
        invariant j <= |entries| && forall k | 0 <= k < j :: entries[k].device.busid != busid
      {
        j := j + 1;
      }
    }

    /** `device_list_add`; `fits` tells whether a new entry can be allocated. */
    method Add(d: Device, fits: bool) returns (error: Option<Error>)
      requires Valid()
      modifies this
      ensures error == if fits || Find(old(entries), d.busid) < |old(entries)| then None else Some(OutOfMemory)
      ensures Valid() && entries == if error == None then AddDevice(old(entries), d) else old(entries)
    {
      var j := FindIndex(d.busid);
      if j < |entries| {
        entries := entries[j := entries[j].(device := d)];
        return None;
      }
      if !fits {
        return Some(OutOfMemory);
      }
      entries, count := [Entry(d, Available, 0, [], true)] + entries, count + 1;
      error := None;
    }

    method Clear()
      modifies this
      ensures Valid() && entries == []
    {
      entries, count := [], 0;
    }

    /** The loop that fills the table of exports. */
    method SaveExports() returns (saved: seq<Export>)
      ensures saved == Saved(entries)
    {
      saved := [];
      var k: nat := 0;
      while k < |entries| && |saved| < MAX_DEVICES
        invariant k <= |entries| && saved == Exports(entries[..k]) && |saved| <= MAX_DEVICES
      {
        var e := entries[k];
        assert entries[..k + 1][..k] == entries[..k];
        if e.state == Exported {
          saved := saved + [Export(Truncate(e.device.busid, BUSID_MAX), e.clientId, Truncate(e.clientIp, IP_MAX))];
        }
        k := k + 1;
      }
      ExportsPrefix(entries, k);
      assert entries[..|entries|] == entries;
    }

    /** The enumeration with `enum_callback`, which ignores the result of the addition. */
    method Enumerate(devices: seq<Device>, fits: seq<bool>)
      requires Valid() && entries == [] && |fits| == |devices|
      modifies this
      ensures Valid() && entries == AddAll([], Kept(devices, fits))
    {
      var n: nat := 0;
      while n < |devices|
        invariant n <= |devices| && Valid() && entries == AddAll([], Kept(devices[..n], fits[..n]))
      {
        KeptNext(devices, fits, n);
        AddAllLookup(Kept(devices[..n], fits[..n]), devices[n].busid);
        var _ := Add(devices[n], fits[n]);
        n := n + 1;
      }
      assert devices[..n] == devices && fits[..n] == fits;
    }

    /** The loop over the table of exports. */
    method Restore(saved: seq<Export>)
      requires Valid()
      modifies this
      ensures Valid() && entries == RestoreAll(old(entries), saved)
    {
      var i: nat := 0;
      while i < |saved|
        invariant i <= |saved| && Valid() && entries == RestoreAll(old(entries), saved[..i])
      {
        assert saved[..i + 1][..i] == saved[..i];
        var j := FindIndex(saved[i].busid);
        if j < |entries| {
          entries := entries[j := entries[j].(state := Exported, clientId := saved[i].clientId,
                                              clientIp := Truncate(saved[i].clientIp, IP_MAX))];
        }
        i := i + 1;
      }
      assert saved[..|saved|] == saved;
    }

    /**
     * `device_list_refresh` for the devices the enumeration reports; those whose entry cannot be allocated
     * are as good as not reported.
     */
    method Refresh(devices: seq<Device>, fits: seq<bool>)
      requires Valid() && |fits| == |devices|
      modifies this
      ensures Valid() && entries == Refreshed(old(entries), Kept(devices, fits))
    {
      var saved := SaveExports();
      Clear();
      Enumerate(devices, fits);
      Restore(saved);
    }
  }

  lemma {:induction false} ExportsPrefix(entries: seq<Entry>, k: nat)
    requires k <= |entries|
    ensures Exports(entries[..k]) <= Exports(entries)
    decreases |entries|
  {
    if k == |entries| {
      assert entries[..k] == entries;
    } else {
      var front := entries[..|entries| - 1];
      ExportsPrefix(front, k);
      assert front[..k] == entries[..k];
    }
  }

  // ---- What a refreshed list contains ----

  function LastExport(saved: seq<Export>, busid: seq<byte>): Option<Export> {
    if saved == [] then None
    else
      var last := saved[|saved| - 1];
      if last.busid == busid then Some(last) else LastExport(saved[..|saved| - 1], busid)
  }

  lemma FindInLonger(entries: seq<Entry>, e: Entry, busid: seq<byte>)
    ensures Find([e] + entries, busid) == if e.device.busid == busid then 0 else 1 + Find(entries, busid)
  {
    assert ([e] + entries)[1..] == entries;
  }

  lemma {:induction false} AddAllLookup(devices: seq<Device>, busid: seq<byte>)
    ensures
      var r := AddAll([], devices);
      var j := Find(r, busid);
      && (j < |r| <==> LastDevice(devices, busid).Some?)
      && (j < |r| ==> r[j] == Entry(LastDevice(devices, busid).value, Available, 0, [], true))
    decreases |devices|
  {
    if devices != [] {
      var front, d := devices[..|devices| - 1], devices[|devices| - 1];
      AddAllLookup(front, busid);
      var r := AddAll([], front);
      var k := Find(r, d.busid);
      if k < |r| {
        FindAfterUpdate(r, k, r[k].(device := d), busid);
        if busid == d.busid {
          AddAllLookup(front, d.busid);
        }
      } else {
        FindInLonger(r, Entry(d, Available, 0, [], true), busid);
      }
    }
  }

  lemma {:induction false} AddAllDistinct(devices: seq<Device>)
    ensures DistinctBusids(AddAll([], devices))
    decreases |devices|
  {
    if devices != [] {
      AddAllDistinct(devices[..|devices| - 1]);
    }
  }

  lemma {:induction false} RestoreAllLookup(entries: seq<Entry>, saved: seq<Export>, busid: seq<byte>)
    ensures
      var r := RestoreAll(entries, saved);
      var j := Find(entries, busid);
      && |r| == |entries| && (forall k | 0 <= k < |r| :: r[k].device == entries[k].device) && Find(r, busid) == j
      && (j < |r| ==>
            r[j] == match LastExport(saved, busid)
                    case None => entries[j]
                    case Some(x) => entries[j].(state := Exported, clientId := x.clientId,
                                                clientIp := Truncate(x.clientIp, IP_MAX)))
    decreases |saved|
  {
    if saved != [] {
      var front, x := saved[..|saved| - 1], saved[|saved| - 1];
      RestoreAllLookup(entries, front, busid);
      RestoreAllLookup(entries, front, x.busid);
      var r := RestoreAll(entries, front);
      var k := Find(r, x.busid);
      if k < |r| {
        FindAfterUpdate(r, k, RestoreAll(entries, saved)[k], busid);
      }
    }
  }

  /**
   * A refreshed list has distinct bus ids, exactly those enumerated. The entry of a bus id holds the last
   * device enumerated with it and is shared; it is exported, to the client noted before, exactly if the
   * bus id is among the saved exports.
   */
  lemma RefreshedLookup(entries: seq<Entry>, devices: seq<Device>, busid: seq<byte>)
    ensures
      var r := Refreshed(entries, devices);
      var j := Find(r, busid);
      && DistinctBusids(r)
      && (j < |r| <==> LastDevice(devices, busid).Some?)
      && (j < |r| ==>
            r[j] == match LastExport(Saved(entries), busid)
                    case None => Entry(LastDevice(devices, busid).value, Available, 0, [], true)
                    case Some(x) => Entry(LastDevice(devices, busid).value, Exported, x.clientId,
                                          Truncate(x.clientIp, IP_MAX), true))
  {
    AddAllDistinct(devices);
    AddAllLookup(devices, busid);
    RestoreAllLookup(AddAll([], devices), Saved(entries), busid);
  }

  // ---- Which exports survive ----

  /** The strings of an entry fit the fields they are copied to. */
  predicate FitsFields(e: Entry) {
    |e.device.busid| < BUSID_MAX && |e.clientIp| < IP_MAX
  }

  predicate AllFit(entries: seq<Entry>) {
    forall k | 0 <= k < |entries| :: FitsFields(entries[k])
  }

  lemma {:induction false} ExportsFrom(entries: seq<Entry>, i: nat) returns (k: nat)
    requires AllFit(entries) && i < |Exports(entries)|
    ensures k < |entries| && entries[k].state == Exported
    ensures Exports(entries)[i] == Export(entries[k].device.busid, entries[k].clientId, entries[k].clientIp)
    decreases |entries|
  {
    var front, last := entries[..|entries| - 1], entries[|entries| - 1];
    if i < |Exports(front)| {
      k := ExportsFrom(front, i);
    } else {
      k := |entries| - 1;
    }
  }

  lemma {:induction false} ExportsDistinct(entries: seq<Entry>)
    requires AllFit(entries) && DistinctBusids(entries)
    ensures forall i, j | 0 <= i < j < |Exports(entries)| :: Exports(entries)[i].busid != Exports(entries)[j].busid
    decreases |entries|
  {
    if entries != [] {
      var front := entries[..|entries| - 1];
      ExportsDistinct(front);
      forall i | 0 <= i < |Exports(front)| ensures Exports(front)[i].busid != entries[|entries| - 1].device.busid {
        var k := ExportsFrom(front, i);
        assert front[k] == entries[k];
      }
    }
  }

  /** Looking up the exports of a list finds each exported entry's, and nothing else. */
  lemma {:induction false} ExportsLookup(entries: seq<Entry>, busid: seq<byte>)
    requires AllFit(entries) && DistinctBusids(entries)
    ensures
      var j := Find(entries, busid);
      LastExport(Exports(entries), busid) ==
        if j < |entries| && entries[j].state == Exported
        then Some(Export(busid, entries[j].clientId, entries[j].clientIp)) else None
    decreases |entries|
  {
    if entries != [] {
      var front, last := entries[..|entries| - 1], entries[|entries| - 1];
      ExportsLookup(front, busid);
      FindWithLast(front, last, busid);
      assert entries == front + [last] && FitsFields(entries[|entries| - 1]);
      ExportsNext(front, last);
      LookupWithLast(Exports(front), Export(last.device.busid, last.clientId, last.clientIp), busid);
      if last.device.busid == busid {
        FindEntry(entries, |front|);
      }
    }
  }

  lemma ExportsNext(front: seq<Entry>, last: Entry)
    requires FitsFields(last)
    ensures Exports(front + [last]) ==
      Exports(front) + if last.state == Exported then [Export(last.device.busid, last.clientId, last.clientIp)] else []
  {
    assert (front + [last])[..|front|] == front;
  }

  lemma FindWithLast(front: seq<Entry>, last: Entry, busid: seq<byte>)
    ensures
      Find(front + [last], busid) ==
      if Find(front, busid) < |front| then Find(front, busid)
      else if last.device.busid == busid then |front| else |front| + 1
    decreases |front|
  {
    if front != [] {
      assert (front + [last])[1..] == front[1..] + [last];
      FindWithLast(front[1..], last, busid);
    }
  }

  lemma LookupWithLast(front: seq<Export>, last: Export, busid: seq<byte>)
    ensures LastExport(front + [last], busid) == if last.busid == busid then Some(last) else LastExport(front, busid)
  {
    assert (front + [last])[..|front|] == front;
  }

  /** Each export whose device is enumerated again is as before. */
  predicate Restores(entries: seq<Entry>, devices: seq<Device>) {
    var r := Refreshed(entries, devices);
    forall k | 0 <= k < |entries| && entries[k].state == Exported
               && LastDevice(devices, entries[k].device.busid).Some? ::
      var j := Find(r, entries[k].device.busid);
      j < |r| && r[j].state == Exported && r[j].clientId == entries[k].clientId && r[j].clientIp == entries[k].clientIp
  }

  /** A refresh exports nothing that was not exported, to that client, before. */
  lemma NoNewExports(entries: seq<Entry>, devices: seq<Device>, busid: seq<byte>)
    requires AllFit(entries) && DistinctBusids(entries)
    ensures
      var r := Refreshed(entries, devices);
      var j, k := Find(r, busid), Find(entries, busid);
      j < |r| && r[j].state == Exported ==>
        k < |entries| && entries[k].state == Exported && r[j].clientId == entries[k].clientId
        && r[j].clientIp == entries[k].clientIp
  {
    RefreshedLookup(entries, devices, busid);
    ExportsLookup(entries, busid);
    SavedLookup(entries, busid);
  }

  /** The table finds an export or nothing. */
  lemma SavedLookup(entries: seq<Entry>, busid: seq<byte>)
    requires AllFit(entries) && DistinctBusids(entries)
    ensures LastExport(Saved(entries), busid) == None
            || LastExport(Saved(entries), busid) == LastExport(Exports(entries), busid)
    ensures |Exports(entries)| <= MAX_DEVICES ==> Saved(entries) == Exports(entries)
  {
    ExportsDistinct(entries);
    var all := Exports(entries);
    if |all| > MAX_DEVICES {
      LookupInPrefix(all, MAX_DEVICES, busid);
    }
  }

  lemma {:induction false} LookupAt(saved: seq<Export>, i: nat)
    requires i < |saved| && forall k, l | 0 <= k < l < |saved| :: saved[k].busid != saved[l].busid
    ensures LastExport(saved, saved[i].busid) == Some(saved[i])
    decreases |saved|
  {
    if i < |saved| - 1 {
      LookupAt(saved[..|saved| - 1], i);
    }
  }

  lemma {:induction false} LookupMember(saved: seq<Export>, busid: seq<byte>)
    ensures LastExport(saved, busid).Some? ==>
      LastExport(saved, busid).value in saved && LastExport(saved, busid).value.busid == busid
    decreases |saved|
  {
    if saved != [] {
      LookupMember(saved[..|saved| - 1], busid);
    }
  }

  lemma LookupInPrefix(all: seq<Export>, n: nat, busid: seq<byte>)
    requires n <= |all| && forall k, l | 0 <= k < l < |all| :: all[k].busid != all[l].busid
    ensures LastExport(all[..n], busid) == None || LastExport(all[..n], busid) == LastExport(all, busid)
  {
    LookupMember(all[..n], busid);
    var x := LastExport(all[..n], busid);
    if x.Some? {
      var i :| 0 <= i < n && all[..n][i] == x.value;
      LookupAt(all, i);
    }
  }

  lemma FewExportsRestored(entries: seq<Entry>, devices: seq<Device>)
    requires AllFit(entries) && DistinctBusids(entries) && |Exports(entries)| <= MAX_DEVICES
    ensures Restores(entries, devices)
  {
    var r := Refreshed(entries, devices);
    forall k | 0 <= k < |entries| && entries[k].state == Exported && LastDevice(devices, entries[k].device.busid).Some?
      ensures
        var j := Find(r, entries[k].device.busid);
        j < |r| && r[j].state == Exported && r[j].clientId == entries[k].clientId
        && r[j].clientIp == entries[k].clientIp
    {
      RefreshedLookup(entries, devices, entries[k].device.busid);
      ExportsLookup(entries, entries[k].device.busid);
      SavedLookup(entries, entries[k].device.busid);
      FindEntry(entries, k);
      assert FitsFields(entries[k]);
    }
  }

  function DevicesOf(entries: seq<Entry>): (ds: seq<Device>)
    ensures |ds| == |entries| && forall k | 0 <= k < |entries| :: ds[k] == entries[k].device
  {
    seq(|entries|, k requires 0 <= k < |entries| => entries[k].device)
  }

  lemma {:induction false} LastDeviceAmong(devices: seq<Device>, k: nat)
    requires k < |devices|
    ensures LastDevice(devices, devices[k].busid).Some?
    decreases |devices|
  {
    if k < |devices| - 1 && devices[|devices| - 1].busid != devices[k].busid {
      LastDeviceAmong(devices[..|devices| - 1], k);
    }
  }

  /** The 33rd export is lost even if all devices are found again. */
  lemma ManyExportsLost(entries: seq<Entry>)
    requires AllFit(entries) && DistinctBusids(entries) && |Exports(entries)| > MAX_DEVICES
    ensures !Restores(entries, DevicesOf(entries))
  {
    var all, devices := Exports(entries), DevicesOf(entries);
    var k := ExportsFrom(entries, MAX_DEVICES);
    var busid := entries[k].device.busid;
    ExportsDistinct(entries);
    LookupMember(Saved(entries), busid);
    assert LastExport(Saved(entries), busid) == None by {
      assert all[MAX_DEVICES].busid == busid;
    }
    LastDeviceAmong(devices, k);
    RefreshedLookup(entries, devices, busid);
  }

  /** A refresh restores all exports whose devices are found again, whichever they are, exactly if at most 32 are. */
  lemma RestoresIff(entries: seq<Entry>)
    requires AllFit(entries) && DistinctBusids(entries)
    ensures (forall devices :: Restores(entries, devices)) <==> |Exports(entries)| <= 32
  {
    if |Exports(entries)| <= MAX_DEVICES {
      forall devices ensures Restores(entries, devices) {
        FewExportsRestored(entries, devices);
      }
    } else {
      ManyExportsLost(entries);
    }
  }

  /** How many of the first k entries are exported. */
  function ExportsBefore(entries: seq<Entry>, k: nat): nat
    requires k <= |entries|
  {
    if k == 0 then 0 else ExportsBefore(entries, k - 1) + if entries[k - 1].state == Exported then 1 else 0
  }

  lemma {:induction false} ExportAt(entries: seq<Entry>, k: nat)
    requires AllFit(entries) && k < |entries|
    ensures |Exports(entries[..k])| == ExportsBefore(entries, k)
    ensures entries[k].state == Exported ==>
      && ExportsBefore(entries, k) < |Exports(entries)|
      && Exports(entries)[ExportsBefore(entries, k)]
         == Export(entries[k].device.busid, entries[k].clientId, entries[k].clientIp)
  {
    if k > 0 {
      ExportAt(entries, k - 1);
      assert entries[..k][..k - 1] == entries[..k - 1];
    }
    if entries[k].state == Exported {
      assert entries[..k + 1][..k] == entries[..k];
      assert FitsFields(entries[k]);
      ExportsPrefix(entries, k + 1);
    }
  }

  /** The export with a bus id of its own is found among the first n exactly if it is one of them. */
  lemma {:induction false} FoundAmongFirst(all: seq<Export>, i: nat, n: nat)
    requires i < |all| && n <= |all| && forall j, k | 0 <= j < k < |all| :: all[j].busid != all[k].busid
    ensures LastExport(all[..n], all[i].busid) == if i < n then Some(all[i]) else None
    decreases n
  {
    if n > 0 {
      assert all[..n][..n - 1] == all[..n - 1];
      FoundAmongFirst(all, i, n - 1);
    }
  }

  /** An export whose device is found again survives exactly if fewer than 32 exported entries come before it. */
  lemma SurvivesIff(entries: seq<Entry>, devices: seq<Device>, k: nat)
    requires AllFit(entries) && DistinctBusids(entries) && k < |entries| && entries[k].state == Exported
    requires LastDevice(devices, entries[k].device.busid).Some?
    ensures
      var r := Refreshed(entries, devices);
      var j := Find(r, entries[k].device.busid);
      && j < |r|
      && (ExportsBefore(entries, k) < 32 ==>
            r[j].state == Exported && r[j].clientId == entries[k].clientId && r[j].clientIp == entries[k].clientIp)
      && (ExportsBefore(entries, k) >= 32 ==> r[j].state == Available && r[j].clientId == 0)
  {
    var all, i := Exports(entries), ExportsBefore(entries, k);
    ExportAt(entries, k);
    ExportsDistinct(entries);
    var n := if |all| <= MAX_DEVICES then |all| else MAX_DEVICES;
    assert all[..|all|] == all;
    FoundAmongFirst(all, i, n);
    RefreshedLookup(entries, devices, entries[k].device.busid);
    assert FitsFields(entries[k]);
  }

  // ---- How many devices can be exported ----

  function ClientBusids(clients: seq<Client>): (ids: set<seq<byte>>)
    ensures |ids| <= |clients|
    ensures forall i | 0 <= i < |clients| :: clients[i].busid in ids
  {
    if clients == [] then {} else {clients[0].busid} + ClientBusids(clients[1..])
  }

  lemma {:induction false} DistinctWithin(ids: seq<seq<byte>>, all: set<seq<byte>>)
    requires (forall i, j | 0 <= i < j < |ids| :: ids[i] != ids[j]) && forall i | 0 <= i < |ids| :: ids[i] in all
    ensures |ids| <= |all|
    decreases |ids|
  {
    if ids != [] {
      DistinctWithin(ids[1..], all - {ids[0]});
    }
  }

  /** Never more devices are exported than there are clients, so at most 16, and the table of 32 always suffices. */
  lemma ExportsAtMostClients(s: Server)
    requires Inv(s)
    ensures |Exports(s.entries)| <= |s.clients| <= 16
    ensures forall devices :: Restores(s.entries, devices)
  {
    var all := Exports(s.entries);
    forall k | 0 <= k < |s.entries| ensures FitsFields(s.entries[k]) {
      assert EntryOk(s.entries[k]);
      OwnerIpFits(s, k);
    }
    ExportsDistinct(s.entries);
    var ids := seq(|all|, i requires 0 <= i < |all| => all[i].busid);
    forall i | 0 <= i < |ids| ensures ids[i] in ClientBusids(s.clients) {
      var k := ExportsFrom(s.entries, i);
      assert Owned(s.clients, s.entries[k].device.busid);
    }
    DistinctWithin(ids, ClientBusids(s.clients));
    RestoresIff(s.entries);
  }

  lemma OwnerIpFits(s: Server, k: nat)
    requires Inv(s) && k < |s.entries|
    ensures |s.entries[k].clientIp| < IP_MAX
  {
    assert EntryOk(s.entries[k]);
    if s.entries[k].state == Exported {
      assert Owned(s.clients, s.entries[k].device.busid);
      var i :| 0 <= i < |s.clients| && s.clients[i].busid == s.entries[k].device.busid;
      assert ClientOk(s.entries, s.clients[i]);
      FindEntry(s.entries, k);
    }
  }
}
