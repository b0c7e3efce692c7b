/** In which order a refreshed device list stands (server/device_list.c): new entries go to the head. */
module ListOrder {
  import opened Bytes
  import opened Ownership
  import opened OwnershipInvariant
  import opened Refresh

  /** The bus id has been reported by then. */
  predicate ReportedBy(devices: seq<Device>, n: int, busid: seq<byte>) {
    exists i | 0 <= i < |devices| && i < n :: devices[i].busid == busid
  }

  /** An entry stands before another if its bus id was first reported later. */
  ghost predicate LaterFirst(entries: seq<Entry>, devices: seq<Device>) {
    forall j, k, n: int | 0 <= j < k < |entries| && ReportedBy(devices, n, entries[j].device.busid) ::
      ReportedBy(devices, n, entries[k].device.busid)
  }

  lemma ReportedByMore(devices: seq<Device>, d: Device, n: int, busid: seq<byte>)
    ensures n <= |devices| ==> (ReportedBy(devices + [d], n, busid) <==> ReportedBy(devices, n, busid))
    ensures n > |devices| ==>
      (ReportedBy(devices + [d], n, busid) <==> ReportedBy(devices, |devices|, busid) || d.busid == busid)
  {
    var more := devices + [d];
    if ReportedBy(devices, n, busid) {
      var i :| 0 <= i < |devices| && i < n && devices[i].busid == busid;
      assert more[i].busid == busid;
    }
    if n > |devices| && d.busid == busid {
      assert more[|devices|].busid == busid;
    }
    if n > |devices| && ReportedBy(devices, |devices|, busid) {
      var i :| 0 <= i < |devices| && devices[i].busid == busid;
      assert more[i].busid == busid;
    }
    if ReportedBy(more, n, busid) {
      var i :| 0 <= i < |more| && i < n && more[i].busid == busid;
      assert i < |devices| ==> devices[i].busid == busid;
    }
  }

  /** The list has an entry exactly for each bus id reported. */
  ghost predicate Complete(entries: seq<Entry>, devices: seq<Device>) {
    forall busid :: Find(entries, busid) < |entries| <==> ReportedBy(devices, |devices|, busid)
  }

  lemma {:induction false} AddAllComplete(devices: seq<Device>)
    ensures Complete(AddAll([], devices), devices)
    decreases |devices|
  {
    forall busid
      ensures Find(AddAll([], devices), busid) < |AddAll([], devices)| <==> ReportedBy(devices, |devices|, busid)
    {
      AddAllLookup(devices, busid);
      ReportedIffLast(devices, busid);
    }
  }

  lemma {:induction false} ReportedIffLast(devices: seq<Device>, busid: seq<byte>)
    ensures ReportedBy(devices, |devices|, busid) <==> LastDevice(devices, busid).Some?
    decreases |devices|
  {
    if devices != [] {
      var front, last := devices[..|devices| - 1], devices[|devices| - 1];
      assert devices == front + [last];
      ReportedIffLast(front, busid);
      ReportedByMore(front, last, |devices|, busid);
    }
  }

  lemma NewEntryFirst(entries: seq<Entry>, devices: seq<Device>, d: Device)
    requires Complete(entries, devices) && LaterFirst(entries, devices)
    ensures LaterFirst(AddDevice(entries, d), devices + [d])
  {
    var r, more := AddDevice(entries, d), devices + [d];
    forall j, k, n: int | 0 <= j < k < |r| && ReportedBy(more, n, r[j].device.busid)
      ensures ReportedBy(more, n, r[k].device.busid)
    {
      var known := Find(entries, d.busid) < |entries|;
      var oldK := if known then k else k - 1;
      assert r[k].device.busid == entries[oldK].device.busid;
      ReportedByMore(devices, d, n, r[j].device.busid);
      ReportedByMore(devices, d, n, r[k].device.busid);
      ListedIsReported(entries, devices, oldK);
      if known || j > 0 {
        var oldJ := if known then j else j - 1;
        assert r[j].device.busid == entries[oldJ].device.busid;
      }
    }
  }

  lemma ListedIsReported(entries: seq<Entry>, devices: seq<Device>, k: nat)
    requires Complete(entries, devices) && k < |entries|
    ensures ReportedBy(devices, |devices|, entries[k].device.busid)
  {
    assert Find(entries, entries[k].device.busid) < |entries|;
  }

  lemma {:induction false} AddedLaterFirst(devices: seq<Device>)
    ensures LaterFirst(AddAll([], devices), devices)
    decreases |devices|
  {
    if devices != [] {
      var front, last := devices[..|devices| - 1], devices[|devices| - 1];
      assert devices == front + [last];
      AddedLaterFirst(front);
      AddAllComplete(front);
      NewEntryFirst(AddAll([], front), front, last);
    }
  }

  /** After a refresh the entries stand in the reverse order in which their bus ids were first reported. */
  lemma RefreshedInOrder(entries: seq<Entry>, devices: seq<Device>, j: nat, k: nat)
    requires j < k < |Refreshed(entries, devices)|
    ensures
      var r := Refreshed(entries, devices);
      && r[j].device.busid != r[k].device.busid
      && exists n: int :: ReportedBy(devices, n, r[k].device.busid) && !ReportedBy(devices, n, r[j].device.busid)
  {
    var r, added := Refreshed(entries, devices), AddAll([], devices);
    RefreshedLookup(entries, devices, r[k].device.busid);
    RestoreAllLookup(added, Saved(entries), []);
    assert r[j].device == added[j].device && r[k].device == added[k].device;
    AddedLaterFirst(devices);
    AddAllComplete(devices);
    ListedIsReported(added, devices, k);
    var i :| 0 <= i < |devices| && devices[i].busid == r[k].device.busid;
    FirstApartFrom(devices, r[j].device.busid, r[k].device.busid, i, added, j, k);
  }

  lemma {:induction false} FirstApartFrom(devices: seq<Device>, first: seq<byte>, second: seq<byte>, i: nat,
                                          added: seq<Entry>, j: nat, k: nat)
    requires i < |devices| && devices[i].busid == second && first != second
    requires j < k < |added| && added[j].device.busid == first && added[k].device.busid == second
    requires LaterFirst(added, devices)
    ensures exists n: int :: ReportedBy(devices, n, second) && !ReportedBy(devices, n, first)
    decreases i
  {
    if ReportedBy(devices, i, first) {
      assert ReportedBy(devices, i, added[k].device.busid);
      var l :| 0 <= l < |devices| && l < i && devices[l].busid == second;
      FirstApartFrom(devices, first, second, l, added, j, k);
    } else {
      assert ReportedBy(devices, i + 1, second);
      assert !ReportedBy(devices, i + 1, first);
    }
  }
}
