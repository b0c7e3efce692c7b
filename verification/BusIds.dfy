/** The bus ids made up for enumerated devices (server/usb_host_win32.c) and how few of them there are. */
module BusIds {
  import opened Bytes
  import opened Config
  import opened Ownership
  import opened OwnershipInvariant
  import opened OwnershipRuns
  import opened Refresh
  import opened Seqs

  const FNV_OFFSET: nat := 0x811c9dc5
  const FNV_PRIME: nat := 0x01000193
  const WORD: nat := 0x1_0000_0000

  /** FNV-1a over a string, in 32 bits. */
  function Hash(s: seq<byte>): nat {
    if s == [] then FNV_OFFSET else Xor(Hash(s[..|s| - 1]), s[|s| - 1]) * FNV_PRIME % WORD
  }

  /** `%u` for numbers of at most two digits. */
  function Decimal(n: nat): (s: seq<byte>)
    requires n < 100
    ensures 1 <= |s| <= 2 && forall i | 0 <= i < |s| :: 48 <= s[i] < 58
  {
    if n < 10 then [48 + n] else [48 + n / 10, 48 + n % 10]
  }

  /** "<bus>-<port>". */
  function Format(bus: nat, port: nat): (s: seq<byte>)
    requires bus < 100 && port < 100
    ensures 3 <= |s| <= 5
  {
    Decimal(bus) + [45] + Decimal(port)
  }

  /** The bus id of an instance id. */
  function BusId(instance: seq<byte>): (s: seq<byte>)
    ensures 3 <= |s| <= 5
  {
    var h := Hash(instance);
    Format(h / 0x100 % 8 + 1, h % 16 + 1)
  }

  /** `parse_busid_from_path`. */
  method ParseBusId(instance: seq<byte>) returns (busid: seq<byte>)
    ensures busid == BusId(instance)
  {
    var hash := FNV_OFFSET;
    var p: nat := 0;
    while p < |instance|
      invariant p <= |instance| && hash == Hash(instance[..p])
    {
      assert instance[..p + 1][..p] == instance[..p];
      hash := Xor(hash, instance[p]) * FNV_PRIME % WORD;
      p := p + 1;
    }
    assert instance[..|instance|] == instance;
    busid := Format(hash / 0x100 % 8 + 1, hash % 16 + 1);
  }

  /** The k-th of the 8 by 16 possible bus ids. */
  function Possible(k: nat): seq<byte>
    requires k < 128
  {
    Format(k / 16 + 1, k % 16 + 1)
  }

  function AllBusIds(n: nat): set<seq<byte>>
    requires n <= 128
  {
    set k: nat | k < n :: Possible(k)
  }

  lemma {:induction false} AtMost(n: nat)
    requires n <= 128
    ensures |AllBusIds(n)| <= n
  {
    if n > 0 {
      AtMost(n - 1);
      assert AllBusIds(n) == AllBusIds(n - 1) + {Possible(n - 1)};
    }
  }

  lemma PossibleAt(bus: nat, port: nat)
    requires bus < 8 && port < 16
    ensures bus * 16 + port < 128 && Possible(bus * 16 + port) == Format(bus + 1, port + 1)
  {
    assert (bus * 16 + port) / 16 == bus && (bus * 16 + port) % 16 == port;
  }

  lemma BusIdPossible(instance: seq<byte>)
    ensures BusId(instance) in AllBusIds(128)
  {
    var bus, port: nat := Hash(instance) / 0x100 % 8, Hash(instance) % 16;
    PossibleAt(bus, port);
    assert BusId(instance) == Possible(bus * 16 + port);
  }

  /**
   * The text of a bus id: a digit from 1 to 8 that shows bits 8 to 10 of the hash, a hyphen, and a number from 1 to 16
   * that shows bits 0 to 3, without leading zero.
   */
  lemma BusIdText(instance: seq<byte>)
    ensures
      var s, bus, port := BusId(instance), Hash(instance) / 256 % 8 + 1, Hash(instance) % 16 + 1;
      && s[0] == 48 + bus && s[1] == 45
      && (port < 10 ==> s[2..] == [48 + port]) && (port >= 10 ==> s[2..] == [49, 38 + port])
  {
    FormatText(Hash(instance) / 256 % 8 + 1, Hash(instance) % 16 + 1);
  }

  lemma FormatText(bus: nat, port: nat)
    requires 1 <= bus <= 8 && 1 <= port <= 16
    ensures
      var s := Format(bus, port);
      && s[0] == 48 + bus && s[1] == 45
      && (port < 10 ==> s[2..] == [48 + port]) && (port >= 10 ==> s[2..] == [49, 38 + port])
  {
    assert Format(bus, port) == [48 + bus, 45] + Decimal(port);
    TwoParts([48 + bus, 45], Decimal(port));
    if port >= 10 {
      assert port / 10 == 1;
    }
  }

  // ---- Which instance ids share a bus id ----

  /** The seven bits of the hashes that the bus id shows agree. */
  predicate Collide(p: seq<byte>, q: seq<byte>) {
    Hash(p) / 0x100 % 8 == Hash(q) / 0x100 % 8 && Hash(p) % 16 == Hash(q) % 16
  }

  lemma DecimalInjective(m: nat, n: nat)
    requires m < 100 && n < 100 && Decimal(m) == Decimal(n)
    ensures m == n
  {
    assert Decimal(m)[0] == Decimal(n)[0];
    if m >= 10 {
      assert Decimal(m)[1] == Decimal(n)[1];
    }
  }

  lemma FormatInjective(bus: nat, port: nat, bus': nat, port': nat)
    requires bus < 10 && bus' < 10 && port < 100 && port' < 100 && Format(bus, port) == Format(bus', port')
    ensures bus == bus' && port == port'
  {
    assert Format(bus, port)[0] == Format(bus', port')[0];
    TwoParts([48 + bus, 45], Decimal(port));
    TwoParts([48 + bus', 45], Decimal(port'));
    assert Format(bus, port) == [48 + bus, 45] + Decimal(port);
    assert Format(bus', port') == [48 + bus', 45] + Decimal(port');
    DecimalInjective(port, port');
  }

  /** Two devices get the same bus id exactly if those bits of their hashes agree. */
  lemma SameBusIdIff(p: seq<byte>, q: seq<byte>)
    ensures BusId(p) == BusId(q) <==> Collide(p, q)
  {
    SameFormatIff(Hash(p), Hash(q));
  }

  lemma SameFormatIff(h: nat, k: nat)
    ensures Format(h / 0x100 % 8 + 1, h % 16 + 1) == Format(k / 0x100 % 8 + 1, k % 16 + 1) <==>
      h / 0x100 % 8 == k / 0x100 % 8 && h % 16 == k % 16
  {
    var b, p, c, q := h / 0x100 % 8, h % 16, k / 0x100 % 8, k % 16;
    if Format(b + 1, p + 1) == Format(c + 1, q + 1) {
      FormatInjective(b + 1, p + 1, c + 1, q + 1);
    }
  }

  /** Whatever 129 devices are plugged in, two of them get the same bus id. */
  lemma SiblingsCollide(instances: seq<seq<byte>>)
    requires |instances| > 128
    ensures exists i, j | 0 <= i < j < |instances| :: BusId(instances[i]) == BusId(instances[j])
  {
    var ids := seq(|instances|, i requires 0 <= i < |instances| => BusId(instances[i]));
    if forall i, j | 0 <= i < j < |instances| :: BusId(instances[i]) != BusId(instances[j]) {
      forall i | 0 <= i < |ids| ensures ids[i] in AllBusIds(128) {
        BusIdPossible(instances[i]);
      }
      AtMost(128);
      DistinctWithin(ids, AllBusIds(128));
    }
  }

  /** The serial numbers "A0" to "M8". */
  function Serial(n: nat): (s: seq<byte>)
    requires n <= 128
    ensures |s| == 2 && var letter: int, digit: int := s[0], s[1]; 10 * (letter - 65) + (digit - 48) == n
  {
    [65 + n / 10, 48 + n % 10]
  }

  lemma SerialInjective(stem: seq<byte>, m: nat, n: nat)
    requires m <= 128 && n <= 128 && stem + Serial(m) == stem + Serial(n)
    ensures m == n
  {
    TwoParts(stem, Serial(m));
    TwoParts(stem, Serial(n));
  }

  /** Of any model of device, two of those with the serial numbers "A0" to "M8" collide. */
  lemma SerialsCollide(stem: seq<byte>)
    ensures exists m: nat, n: nat | m < n <= 128 ::
      stem + Serial(m) != stem + Serial(n) && Collide(stem + Serial(m), stem + Serial(n))
  {
    var ids := seq(129, n requires 0 <= n < 129 => stem + Serial(n));
    SiblingsCollide(ids);
    var m: nat, n: nat :| m < n < |ids| && BusId(ids[m]) == BusId(ids[n]);
    SameBusIdIff(ids[m], ids[n]);
    assert ids[m] == stem + Serial(m) && ids[n] == stem + Serial(n);
    if stem + Serial(m) == stem + Serial(n) {
      SerialInjective(stem, m, n);
    }
  }

  // ---- Two ids that collide ----

  /** The number with one more binary digit. */
  function Longer(q: nat, bit: bool): nat {
    2 * q + if bit then 1 else 0
  }

  /** Four binary digits, the most significant first. */
  datatype Nibble = Nibble(b3: bool, b2: bool, b1: bool, b0: bool)
  {
    /** The number that has these digits after those of q. */
    function After(q: nat): nat {
      Longer(Longer(Longer(Longer(q, b3), b2), b1), b0)
    }
  }

  function Mixed(a: Nibble, b: Nibble): Nibble {
    Nibble(a.b3 != b.b3, a.b2 != b.b2, a.b1 != b.b1, a.b0 != b.b0)
  }

  datatype Octet = Octet(high: Nibble, low: Nibble)
  {
    function After(q: nat): nat {
      low.After(high.After(q))
    }
  }

  /** Eight binary digits, the most significant first. */
  function Bits(b7: bool, b6: bool, b5: bool, b4: bool, b3: bool, b2: bool, b1: bool, b0: bool): Octet {
    Octet(Nibble(b7, b6, b5, b4), Nibble(b3, b2, b1, b0))
  }

  function Differ(a: Octet, b: Octet): Octet {
    Octet(Mixed(a.high, b.high), Mixed(a.low, b.low))
  }

  lemma XorUnfold(u: nat, v: nat)
    ensures Xor(u, v) == (u + v) % 2 + 2 * Xor(u / 2, v / 2)
  {
    if u == 0 && v == 0 {
      assert u / 2 == 0 && v / 2 == 0;
    }
  }

  lemma Halved(u: nat, q: nat, bit: bool)
    requires u == Longer(q, bit)
    ensures u / 2 == q && u % 2 == if bit then 1 else 0
  {
  }

  lemma SumParity(u: nat, v: nat)
    ensures (u + v) % 2 == if u % 2 == v % 2 then 0 else 1
  {
  }

  lemma XorBit(u: nat, v: nat, q: nat, r: nat, a: bool, b: bool)
    requires u == Longer(q, a) && v == Longer(r, b)
    ensures Xor(u, v) == Longer(Xor(q, r), a != b)
  {
    Halved(u, q, a);
    Halved(v, r, b);
    SumParity(u, v);
    XorUnfold(u, v);
  }

  lemma {:induction false} XorNothing(q: nat)
    ensures Xor(q, 0) == q
  {
    if q > 0 {
      XorNothing(q / 2);
    }
  }

  /** A function that works on each binary digit, as the exclusive or does. */
  ghost predicate Digitwise(f: (nat, nat) -> nat) {
    && (forall q: nat, r: nat, a, b :: f(Longer(q, a), Longer(r, b)) == Longer(f(q, r), a != b))
    && forall q: nat :: f(q, 0) == q
  }

  lemma XorDigitwise()
    ensures Digitwise(Xor)
  {
    forall q: nat, r: nat, a, b ensures Xor(Longer(q, a), Longer(r, b)) == Longer(Xor(q, r), a != b) {
      XorBit(Longer(q, a), Longer(r, b), q, r, a, b);
    }
    forall q: nat ensures Xor(q, 0) == q {
      XorNothing(q);
    }
  }

  /** A function that works on each group of four binary digits. */
  ghost predicate Nibblewise(f: (nat, nat) -> nat) {
    && (forall q: nat, r: nat, a: Nibble, b: Nibble :: f(a.After(q), b.After(r)) == Mixed(a, b).After(f(q, r)))
    && forall q: nat :: f(q, 0) == q
  }

  lemma OnNibbles(f: (nat, nat) -> nat)
    requires Digitwise(f)
    ensures Nibblewise(f)
  {
    forall q: nat, r: nat, a: Nibble, b: Nibble ensures f(a.After(q), b.After(r)) == Mixed(a, b).After(f(q, r)) {
      OnNibble(f, q, r, a, b);
    }
  }

  lemma OnNibble(f: (nat, nat) -> nat, q: nat, r: nat, a: Nibble, b: Nibble)
    requires Digitwise(f)
    ensures f(a.After(q), b.After(r)) == Mixed(a, b).After(f(q, r))
  {
  }

  lemma OnOctets(f: (nat, nat) -> nat, q: nat, a: Octet, b: Octet)
    requires Nibblewise(f)
    ensures f(a.After(q), b.After(0)) == Differ(a, b).After(q)
  {
    assert f(a.high.After(q), b.high.After(0)) == Mixed(a.high, b.high).After(q);
  }

  lemma XorOctets(q: nat, a: Octet, b: Octet)
    ensures Xor(a.After(q), b.After(0)) == Differ(a, b).After(q)
  {
    XorDigitwise();
    OnNibbles(Xor);
    OnOctets(Xor, q, a, b);
  }

  lemma Remainder(y: nat, k: nat, r: nat)
    requires y == WORD * k + r && r < WORD
    ensures y % WORD == r
  {
    var q := y / WORD;
    assert y == WORD * q + y % WORD;
    assert q < k + 1 && k < q + 1;
  }

  lemma HashMore(s: seq<byte>, c: byte, x: nat)
    requires x == Xor(Hash(s), c)
    ensures Hash(s + [c]) == x * FNV_PRIME % WORD
  {
    assert (s + [c])[..|s|] == s;
  }

  /** One turn of the hash loop, computed digit by digit: q and a make up the hash, b is the byte. */
  lemma HashStep(s: seq<byte>, c: byte, q: nat, a: Octet, b: Octet, k: nat, next: nat)
    requires Hash(s) == a.After(q) && c == b.After(0) && next < WORD
    requires Differ(a, b).After(q) * FNV_PRIME == WORD * k + next
    ensures Hash(s + [c]) == next
  {
    XorOctets(q, a, b);
    HashMore(s, c, Differ(a, b).After(q));
    Remainder(Differ(a, b).After(q) * FNV_PRIME, k, next);
  }

  /** A hash of which the bus id shows nothing but zeros. */
  lemma Parts(h: nat, high: nat, low: nat)
    requires h == 0x800 * high + 0x10 * low && low < 16
    ensures h / 0x100 % 8 == 0 && h % 16 == 0
  {
    assert h / 0x100 == 8 * high;
  }

  lemma HashOfFirst()
    ensures Hash([66, 85]) == 668821616
  {
    HashStep([], 66, 8461469, Bits(true, true, false, false, false, true, false, true),
             Bits(false, true, false, false, false, false, true, false), 8461672, 3339451269);
    HashStep([66], 85, 13044731, Bits(true, false, false, false, false, true, false, true),
             Bits(false, true, false, true, false, true, false, true), 13045045, 668821616);
    assert [66] + [85] == [66, 85];
  }

  lemma HashOfSecond()
    ensures Hash([67, 66]) == 1960448016
  {
    HashStep([], 67, 8461469, Bits(true, true, false, false, false, true, false, true),
             Bits(false, true, false, false, false, false, true, true), 8461672, 3322673650);
    HashStep([67], 66, 12979193, Bits(true, true, true, true, false, false, true, false),
             Bits(false, true, false, false, false, false, true, false), 12979505, 1960448016);
    assert [67] + [66] == [67, 66];
  }

  /** The instance ids "BU" and "CB" collide: both get the bus id "1-1". */
  lemma CollidingPair()
    ensures Collide([66, 85], [67, 66]) && BusId([66, 85]) == BusId([67, 66]) == [49, 45, 49]
  {
    HashOfFirst();
    HashOfSecond();
    Parts(Hash([66, 85]), 326573, 7);
    Parts(Hash([67, 66]), 957250, 1);
    SameBusIdIff([66, 85], [67, 66]);
    FirstOfAll([66, 85]);
  }

  lemma FirstOfAll(instance: seq<byte>)
    requires Hash(instance) / 0x100 % 8 == 0 && Hash(instance) % 16 == 0
    ensures BusId(instance) == [49, 45, 49]
  {
    assert Decimal(1) == [49];
  }

  /**
   * What the enumeration says of every device: one interface, whose slot in the zeroed table it leaves
   * alone, and one configuration.
   */
  predicate EnumeratedDescriptor(n: Descriptor) {
    && 1 <= n.busnum <= 8 && 1 <= n.devnum <= 127
    && n.bcdDevice == 0 && n.deviceClass == 0 && n.subclass == 0 && n.protocol == 0
    && n.configuration == 1 && n.configurations == 1 && n.numInterfaces == 1
    && |n.interfaces| == MAX_INTERFACES && forall k | 0 <= k < MAX_INTERFACES :: n.interfaces[k] == [0, 0, 0]
  }

  /** A device as the enumeration reports it: named after its instance id, closed and unclaimed. */
  predicate Enumerated(d: Device) {
    && |d.path| < PATH_MAX && d.busid == BusId(d.path) && EnumeratedDescriptor(d.descriptor)
    && d.Closed() && d.claimedInterface == 0
  }

  predicate AllEnumerated(devices: seq<Device>) {
    forall d | d in devices :: Enumerated(d)
  }

  lemma {:induction false} LastDeviceMember(devices: seq<Device>, busid: seq<byte>)
    ensures LastDevice(devices, busid).Some? ==> LastDevice(devices, busid).value in devices
    decreases |devices|
  {
    if devices != [] {
      LastDeviceMember(devices[..|devices| - 1], busid);
    }
  }

  lemma RefreshedDevice(entries: seq<Entry>, devices: seq<Device>, j: nat)
    requires j < |Refreshed(entries, devices)|
    ensures Refreshed(entries, devices)[j].device in devices && Refreshed(entries, devices)[j].isShared
  {
    var r := Refreshed(entries, devices);
    var busid := r[j].device.busid;
    RefreshedLookup(entries, devices, busid);
    FindEntry(r, j);
    LastDeviceMember(devices, busid);
  }

  // ---- Which devices are listed ----

  predicate Listed(entries: seq<Entry>, d: Device) {
    exists j | 0 <= j < |entries| :: entries[j].device == d
  }

  /** A reported device is listed exactly if it is the last one reported under its bus id. */
  lemma ListedIff(entries: seq<Entry>, devices: seq<Device>, d: Device)
    ensures Listed(Refreshed(entries, devices), d) <==> LastDevice(devices, d.busid) == Some(d)
  {
    var r := Refreshed(entries, devices);
    RefreshedLookup(entries, devices, d.busid);
    if Listed(r, d) {
      var j :| 0 <= j < |r| && r[j].device == d;
      FindEntry(r, j);
    }
  }

  lemma {:induction false} LastIffNoneLater(devices: seq<Device>, i: nat)
    requires i < |devices| && forall j, k | 0 <= j < k < |devices| :: devices[j] != devices[k]
    ensures LastDevice(devices, devices[i].busid) == Some(devices[i]) <==>
      forall k | i < k < |devices| :: devices[k].busid != devices[i].busid
    decreases |devices|
  {
    var front, last := devices[..|devices| - 1], devices[|devices| - 1];
    if i < |front| && last.busid != devices[i].busid {
      LastIffNoneLater(front, i);
      assert forall k | i < k < |front| :: front[k] == devices[k];
    }
  }

  /** The system gives each device an instance id of its own. */
  predicate DistinctPaths(devices: seq<Device>) {
    forall j, k | 0 <= j < k < |devices| :: devices[j].path != devices[k].path
  }

  /** An enumerated device loses its entry exactly if its id collides with that of a device reported later. */
  lemma LosesEntryIff(entries: seq<Entry>, devices: seq<Device>, i: nat)
    requires AllEnumerated(devices) && DistinctPaths(devices) && i < |devices|
    ensures !Listed(Refreshed(entries, devices), devices[i]) <==>
      exists k | i < k < |devices| :: Collide(devices[i].path, devices[k].path)
  {
    ListedIff(entries, devices, devices[i]);
    LastIffNoneLater(devices, i);
    forall k | i < k < |devices|
      ensures devices[k].busid == devices[i].busid <==> Collide(devices[i].path, devices[k].path)
    {
      assert Enumerated(devices[i]) && Enumerated(devices[k]);
      SameBusIdIff(devices[i].path, devices[k].path);
    }
  }

  /** All siblings are kept distinct, that is listed, exactly if no two of their ids collide. */
  lemma AllListedIff(entries: seq<Entry>, devices: seq<Device>)
    requires AllEnumerated(devices) && DistinctPaths(devices)
    ensures (forall i | 0 <= i < |devices| :: Listed(Refreshed(entries, devices), devices[i])) <==>
      forall i, k | 0 <= i < k < |devices| :: !Collide(devices[i].path, devices[k].path)
  {
    forall i | 0 <= i < |devices|
      ensures !Listed(Refreshed(entries, devices), devices[i]) <==>
        exists k | i < k < |devices| :: Collide(devices[i].path, devices[k].path)
    {
      LosesEntryIff(entries, devices, i);
    }
  }

  /** A refreshed list never has more than 128 entries. */
  lemma RefreshedIsSmall(entries: seq<Entry>, devices: seq<Device>)
    requires AllEnumerated(devices)
    ensures |Refreshed(entries, devices)| <= 128
  {
    var r := Refreshed(entries, devices);
    var ids := seq(|r|, j requires 0 <= j < |r| => r[j].device.busid);
    RefreshedLookup(entries, devices, []);
    forall j | 0 <= j < |ids| ensures ids[j] in AllBusIds(128) {
      RefreshedDevice(entries, devices, j);
      assert Enumerated(r[j].device);
      BusIdPossible(r[j].device.path);
    }
    AtMost(128);
    DistinctWithin(ids, AllBusIds(128));
  }

  lemma NothingSaved(busid: seq<byte>)
    ensures LastExport(Saved([]), busid) == None
  {
  }

  /** The refresh at start-up yields a list the server can start from. */
  lemma RefreshStartsUp(devices: seq<Device>, nextId: uint32)
    requires AllEnumerated(devices)
    ensures Startup(Server(Refreshed([], devices), [], nextId))
  {
    var r := Refreshed([], devices);
    RefreshedLookup([], devices, []);
    forall j | 0 <= j < |r| ensures EntryOk(r[j]) && r[j].state == Available {
      RefreshedDevice([], devices, j);
      RefreshedLookup([], devices, r[j].device.busid);
      FindEntry(r, j);
      NothingSaved(r[j].device.busid);
      assert Enumerated(r[j].device);
    }
  }

  // ---- The server at start-up ----

  /** `device_list_unshare_all`. */
  function UnshareAll(entries: seq<Entry>): (r: seq<Entry>)
    ensures |r| == |entries| && forall k | 0 <= k < |r| :: r[k] == entries[k].(isShared := false)
  {
    seq(|entries|, k requires 0 <= k < |entries| => entries[k].(isShared := false))
  }

  /** `server_init`: the enumerated devices, of which a device filter shares only one. */
  function Started(devices: seq<Device>, filter: seq<byte>): Server {
    var r := Refreshed([], devices);
    Server(if filter == [] then r else Share(UnshareAll(r), filter, true), [], 1)
  }

  lemma StartedLikeRefreshed(devices: seq<Device>, filter: seq<byte>)
    ensures
      var r, t := Refreshed([], devices), Started(devices, filter).entries;
      |t| == |r| && forall k | 0 <= k < |r| :: t[k] == r[k].(isShared := t[k].isShared)
  {
  }

  lemma StartsUp(devices: seq<Device>, filter: seq<byte>)
    requires AllEnumerated(devices)
    ensures Startup(Started(devices, filter))
  {
    var r, t := Refreshed([], devices), Started(devices, filter).entries;
    RefreshStartsUp(devices, 1);
    StartedLikeRefreshed(devices, filter);
    forall j | 0 <= j < |t| ensures EntryOk(t[j]) && t[j].state == Available {
      assert EntryOk(r[j]) && r[j].state == Available;
    }
  }

  /** With a device filter an entry is shared exactly if it has the bus id given; without one all are. */
  lemma SharedByFilter(devices: seq<Device>, filter: seq<byte>, k: nat)
    requires k < |Started(devices, filter).entries|
    ensures
      var e := Started(devices, filter).entries[k];
      e.isShared <==> filter == [] || e.device.busid == filter
  {
    var r, t := Refreshed([], devices), Started(devices, filter).entries;
    StartedLikeRefreshed(devices, filter);
    if filter == [] {
      RefreshedDevice([], devices, k);
    } else {
      RefreshedLookup([], devices, filter);
      var u := UnshareAll(r);
      assert u[k].device == r[k].device;
      var j := Find(u, filter);
      if r[k].device.busid == filter {
        FindEntry(u, k);
      }
    }
  }

  /** The server starts with at most 128 devices, all of them enumerated. */
  lemma StartedDevices(devices: seq<Device>, filter: seq<byte>)
    requires AllEnumerated(devices)
    ensures |Started(devices, filter).entries| <= 128
    ensures forall k | 0 <= k < |Started(devices, filter).entries| ::
      Enumerated(Started(devices, filter).entries[k].device)
  {
    var r, t := Refreshed([], devices), Started(devices, filter).entries;
    RefreshedIsSmall([], devices);
    StartedLikeRefreshed(devices, filter);
    forall k | 0 <= k < |t| ensures Enumerated(t[k].device) {
      RefreshedDevice([], devices, k);
      assert t[k].device == r[k].device;
    }
  }
}
