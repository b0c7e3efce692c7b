/** In-place byte-order conversion of the packed USB/IP structures (common/protocol.c). */
module Structs {
  import opened Bytes

  const HEADER_BASIC_SIZE: nat := 8
  const DEVICE_SIZE: nat := 312
  const INTERFACE_SIZE: nat := 4
  const ISO_PACKET_SIZE: nat := 16
  const URB_HEADER_SIZE: nat := 48

  const USBIP_CMD_SUBMIT: uint32 := 1
  const USBIP_CMD_UNLINK: uint32 := 2
  const USBIP_RET_SUBMIT: uint32 := 3
  const USBIP_RET_UNLINK: uint32 := 4

  const USBIP_DIR_OUT: uint32 := 0
  const USBIP_DIR_IN: uint32 := 1

  // ---- Byte swaps ----

  /** The start of the aligned 4-byte group that holds position i. */
  function Word(i: nat): (w: nat)
    ensures w <= i < w + 4
  {
    4 * (i / 4)
  }

  /** The start of the aligned 2-byte group that holds position i. */
  function Half(i: nat): (h: nat)
    ensures h <= i < h + 2
  {
    2 * (i / 2)
  }

  lemma WordIs(i: nat, k: nat)
    requires 4 * k <= i < 4 * k + 4
    ensures Word(i) == 4 * k
  {
    assert i / 4 == k;
  }

  lemma HalfIs(i: nat, k: nat)
    requires 2 * k <= i < 2 * k + 2
    ensures Half(i) == 2 * k
  {
    assert i / 2 == k;
  }

  /** An aligned offset starts the group of exactly the positions in it. */
  lemma WordAt(i: nat, w: nat)
    requires w % 4 == 0
    ensures Word(i) == w <==> w <= i < w + 4
  {
    if w <= i < w + 4 {
      var k := w / 4;
      assert w == 4 * k;
      WordIs(i, k);
    }
  }

  lemma HalfAt(i: nat, h: nat)
    requires h % 2 == 0
    ensures Half(i) == h <==> h <= i < h + 2
  {
    if h <= i < h + 2 {
      var k := h / 2;
      assert h == 2 * k;
      HalfIs(i, k);
    }
  }

  lemma HalfWithinWord(i: nat)
    ensures Word(Half(i)) == Word(i)
    ensures Half(i) == Word(i) || Half(i) == Word(i) + 2
  {
    var k := i / 4;
    assert Word(i) == 4 * k;
    if i < 4 * k + 2 {
      HalfIs(i, 2 * k);
    } else {
      HalfIs(i, 2 * k + 1);
    }
    WordIs(Half(i), k);
  }

  /** Where the byte at position i comes from when the groups are reversed. */
  function Source(i: nat, words: set<nat>, halves: set<nat>): nat {
    if Word(i) in words then Word(i) + 3 - (i - Word(i))
    else if Half(i) in halves then Half(i) + 1 - (i - Half(i))
    else i
  }

  lemma SourceInWord(i: nat, words: set<nat>, halves: set<nat>)
    ensures Word(Source(i, words, halves)) == Word(i)
  {
    HalfWithinWord(i);
    WordIs(Source(i, words, halves), i / 4);
  }

  lemma WordFits(i: nat, n: nat)
    requires i < n && n % 4 == 0
    ensures Word(i) + 4 <= n
  {
    assert n == 4 * (n / 4) && i / 4 < n / 4;
  }

  lemma SourceInRange(i: nat, n: nat, words: set<nat>, halves: set<nat>)
    requires i < n && n % 4 == 0
    ensures Source(i, words, halves) < n
  {
    SourceInWord(i, words, halves);
    WordFits(i, n);
  }

  lemma SourceTwice(i: nat, words: set<nat>, halves: set<nat>)
    ensures Source(Source(i, words, halves), words, halves) == i
  {
    var j := Source(i, words, halves);
    SourceInWord(i, words, halves);
    if Word(i) !in words && Half(i) in halves {
      HalfIs(j, i / 2);
    }
  }

  /** Reverses the 4-byte groups that start at the offsets in `words` and the 2-byte groups at those in `halves`. */
  function Swap(s: seq<byte>, words: set<nat>, halves: set<nat>): (t: seq<byte>)
    requires |s| % 4 == 0
    ensures |t| == |s|
    ensures forall i: nat | i < |s| :: Source(i, words, halves) < |s| && t[i] == s[Source(i, words, halves)]
  {
    assert forall i: nat | i < |s| :: Source(i, words, halves) < |s| by {
      forall i: nat | i < |s| ensures Source(i, words, halves) < |s| {
        SourceInRange(i, |s|, words, halves);
      }
    }
    seq(|s|, i requires 0 <= i < |s| => s[Source(i, words, halves)])
  }

  /** Swapping the same groups twice gives back the original bytes. */
  lemma SwapInvolution(s: seq<byte>, words: set<nat>, halves: set<nat>)
    requires |s| % 4 == 0
    ensures Swap(Swap(s, words, halves), words, halves) == s
  {
    forall i: nat | i < |s| ensures Swap(Swap(s, words, halves), words, halves)[i] == s[i] {
      SourceTwice(i, words, halves);
    }
  }

  lemma WordReversed(s: seq<byte>, words: set<nat>, halves: set<nat>, off: nat)
    requires |s| % 4 == 0 && off + 4 <= |s| && off % 4 == 0 && off in words
    ensures
      var t := Swap(s, words, halves);
      t[off] == s[off + 3] && t[off + 1] == s[off + 2] && t[off + 2] == s[off + 1] && t[off + 3] == s[off]
  {
    WordAt(off, off);
    WordAt(off + 1, off);
    WordAt(off + 2, off);
    WordAt(off + 3, off);
  }

  /** A swapped 4-byte group reads big-endian what it read little-endian before. */
  lemma SwapWord(s: seq<byte>, words: set<nat>, halves: set<nat>, off: nat)
    requires |s| % 4 == 0 && off + 4 <= |s| && off % 4 == 0 && off in words
    ensures Be32(Swap(s, words, halves)[off..off + 4]) == Le32(s[off..off + 4])
  {
    var t := Swap(s, words, halves);
    WordReversed(s, words, halves, off);
    assert [t[off + 3], t[off + 2], t[off + 1], t[off]] == s[off..off + 4];
  }

  /** A swapped 2-byte group reads big-endian what it read little-endian before. */
  lemma SwapHalf(s: seq<byte>, words: set<nat>, halves: set<nat>, off: nat)
    requires |s| % 4 == 0 && off + 2 <= |s| && off % 2 == 0 && off in halves && Word(off) !in words
    ensures Be16(Swap(s, words, halves)[off..off + 2]) == Le16(s[off..off + 2])
  {
    var t := Swap(s, words, halves);
    forall i: nat | off <= i < off + 2 ensures t[i] == s[off + 1 - (i - off)] {
      HalfAt(i, off);
      HalfWithinWord(i);
    }
    var u := t[off..off + 2];
    assert [u[1], u[0]] == s[off..off + 2];
  }

  /** The four bytes from a position on in reverse order. */
  predicate Reversed4(s: seq<byte>, t: seq<byte>, at: nat) {
    && at + 4 <= |s| && at + 4 <= |t|
    && t[at] == s[at + 3] && t[at + 1] == s[at + 2] && t[at + 2] == s[at + 1] && t[at + 3] == s[at]
  }

  predicate Reversed2(s: seq<byte>, t: seq<byte>, at: nat) {
    at + 2 <= |s| && at + 2 <= |t| && t[at] == s[at + 1] && t[at + 1] == s[at]
  }

  predicate Kept(s: seq<byte>, t: seq<byte>, from: nat, to: nat) {
    to <= |s| && to <= |t| && forall i | from <= i < to :: t[i] == s[i]
  }

  lemma HalfReversed(s: seq<byte>, words: set<nat>, halves: set<nat>, off: nat)
    requires |s| % 4 == 0 && off + 2 <= |s| && off % 2 == 0 && off in halves && Word(off) !in words
    ensures Reversed2(s, Swap(s, words, halves), off)
  {
    var t := Swap(s, words, halves);
    forall i: nat | off <= i < off + 2 ensures t[i] == s[off + 1 - (i - off)] {
      HalfAt(i, off);
      HalfWithinWord(i);
    }
  }

  lemma UntouchedKept(s: seq<byte>, words: set<nat>, halves: set<nat>, from: nat, to: nat)
    requires |s| % 4 == 0 && to <= |s|
    requires forall i: nat | from <= i < to :: Word(i) !in words && Half(i) !in halves
    ensures Kept(s, Swap(s, words, halves), from, to)
  {
  }

  /** Swapping one more group after the others is swapping them all. */
  lemma SwapOneMore(s: seq<byte>, words: set<nat>, halves: set<nat>, off: nat)
    requires |s| % 4 == 0
    requires off % 4 == 0 && off !in words && off !in halves && off + 2 !in halves
    ensures Swap(Swap(s, words, halves), {off}, {}) == Swap(s, words + {off}, halves)
  {
    forall i: nat | i < |s|
      ensures Source(Source(i, {off}, {}), words, halves) == Source(i, words + {off}, halves)
    {
      SourceInWord(i, {off}, {});
      HalfWithinWord(Source(i, {off}, {}));
    }
  }

  lemma SwapOneMoreHalf(s: seq<byte>, words: set<nat>, halves: set<nat>, off: nat)
    requires |s| % 4 == 0
    requires off % 2 == 0 && off !in halves && Word(off) !in words
    ensures Swap(Swap(s, words, halves), {}, {off}) == Swap(s, words, halves + {off})
  {
    forall i: nat | i < |s|
      ensures Source(Source(i, {}, {off}), words, halves) == Source(i, words, halves + {off})
    {
      SourceInWord(i, {}, {off});
      HalfWithinWord(i);
      if Half(i) == off {
        HalfAt(Source(i, {}, {off}), off);
      }
    }
  }

  lemma SourceOfWord(i: nat, off: nat)
    requires off % 4 == 0
    ensures Source(i, {off}, {}) == if off <= i < off + 4 then 2 * off + 3 - i else i
  {
    WordAt(i, off);
  }

  lemma SourceOfHalf(i: nat, off: nat)
    requires off % 2 == 0
    ensures Source(i, {}, {off}) == if off <= i < off + 2 then 2 * off + 1 - i else i
  {
    HalfAt(i, off);
  }

  method Swap32(a: array<byte>, off: nat)
    requires a.Length % 4 == 0 && off % 4 == 0 && off + 4 <= a.Length
    modifies a
    ensures a[..] == Swap(old(a[..]), {off}, {})
  {
    ghost var s := a[..];
    a[off], a[off + 1], a[off + 2], a[off + 3] := a[off + 3], a[off + 2], a[off + 1], a[off];
    forall i: nat | i < |s| ensures a[i] == Swap(s, {off}, {})[i] {
      SourceOfWord(i, off);
    }
  }

  method Swap16(a: array<byte>, off: nat)
    requires a.Length % 4 == 0 && off % 2 == 0 && off + 2 <= a.Length
    modifies a
    ensures a[..] == Swap(old(a[..]), {}, {off})
  {
    ghost var s := a[..];
    a[off], a[off + 1] := a[off + 1], a[off];
    forall i: nat | i < |s| ensures a[i] == Swap(s, {}, {off})[i] {
      SourceOfHalf(i, off);
    }
  }

  /** Swapping two families of words one after the other swaps the words that are in exactly one of them. */
  lemma SwapCompose(s: seq<byte>, first: set<nat>, second: set<nat>)
    requires |s| % 4 == 0
    ensures Swap(Swap(s, first, {}), second, {}) == Swap(s, (first - second) + (second - first), {})
  {
    forall i: nat | i < |s|
      ensures Source(Source(i, second, {}), first, {}) == Source(i, (first - second) + (second - first), {})
    {
      SourceInWord(i, second, {});
    }
  }

  lemma SwapNothing(s: seq<byte>)
    requires |s| % 4 == 0
    ensures Swap(s, {}, {}) == s
  {
  }

  predicate Palindrome(s: seq<byte>, off: nat) {
    off + 4 <= |s| && s[off] == s[off + 3] && s[off + 1] == s[off + 2]
  }

  lemma PalindromeIfUnchanged(s: seq<byte>, words: set<nat>, off: nat)
    requires |s| % 4 == 0 && Swap(s, words, {}) == s
    requires off in words && off % 4 == 0 && off + 4 <= |s|
    ensures Palindrome(s, off)
  {
    WordReversed(s, words, {}, off);
  }

  lemma UnchangedIfPalindromes(s: seq<byte>, words: set<nat>)
    requires |s| % 4 == 0
    requires forall off | off in words :: Palindrome(s, off)
    ensures Swap(s, words, {}) == s
  {
    var t := Swap(s, words, {});
    forall i: nat | i < |s| ensures t[i] == s[i] {
      if Word(i) in words {
        assert Palindrome(s, Word(i));
        var k := i - Word(i);
        assert Source(i, words, {}) == Word(i) + 3 - k;
        assert k == 0 || k == 1 || k == 2 || k == 3;
      }
    }
  }

  /** Swapping words changes nothing exactly when each of them is a palindrome. */
  lemma SwapIdentity(s: seq<byte>, words: set<nat>)
    requires |s| % 4 == 0
    requires forall off | off in words :: off % 4 == 0 && off + 4 <= |s|
    ensures Swap(s, words, {}) == s <==> forall off | off in words :: Palindrome(s, off)
  {
    if Swap(s, words, {}) == s {
      forall off | off in words ensures Palindrome(s, off) {
        PalindromeIfUnchanged(s, words, off);
      }
    }
    if forall off | off in words :: Palindrome(s, off) {
      UnchangedIfPalindromes(s, words);
    }
  }

  // ---- The fixed-layout structures ----

  method PackHeaderBasic(a: array<byte>)
    requires a.Length == HEADER_BASIC_SIZE
    modifies a
    ensures a[..] == Swap(old(a[..]), {4}, {0, 2})
    ensures Reversed2(old(a[..]), a[..], 0) && Reversed2(old(a[..]), a[..], 2) && Reversed4(old(a[..]), a[..], 4)
  {
    ghost var s := a[..];
    Swap16(a, 0);
    Swap16(a, 2);
    SwapOneMoreHalf(s, {}, {0}, 2);
    Swap32(a, 4);
    assert {0} + {2} == {0, 2};
    SwapOneMore(s, {}, {0, 2}, 4);
    assert {} + {4} == {4};
    BasicReversed(s);
  }

  lemma BasicReversed(s: seq<byte>)
    requires |s| == HEADER_BASIC_SIZE
    ensures
      var t := Swap(s, {4}, {0, 2});
      Reversed2(s, t, 0) && Reversed2(s, t, 2) && Reversed4(s, t, 4)
  {
    WordIs(0, 0);
    WordIs(2, 0);
    HalfReversed(s, {4}, {0, 2}, 0);
    HalfReversed(s, {4}, {0, 2}, 2);
    WordReversed(s, {4}, {0, 2}, 4);
  }

  const DEVICE_WORDS: set<nat> := {288, 292, 296}
  const DEVICE_HALVES: set<nat> := {300, 302, 304}

  method PackDevice(a: array<byte>)
    requires a.Length == DEVICE_SIZE
    modifies a
    ensures a[..] == Swap(old(a[..]), DEVICE_WORDS, DEVICE_HALVES)
    ensures DeviceReversed(old(a[..]), a[..])
  {
    ghost var s := a[..];
    Swap32(a, 288);
    Swap32(a, 292);
    SwapOneMore(s, {288}, {}, 292);
    Swap32(a, 296);
    SwapOneMore(s, {288} + {292}, {}, 296);
    ghost var words := {288} + {292} + {296};
    Swap16(a, 300);
    SwapOneMoreHalf(s, words, {}, 300);
    Swap16(a, 302);
    SwapOneMoreHalf(s, words, {} + {300}, 302);
    Swap16(a, 304);
    SwapOneMoreHalf(s, words, {} + {300} + {302}, 304);
    assert words == DEVICE_WORDS;
    assert {} + {300} + {302} + {304} == DEVICE_HALVES;
    DeviceSwapped(s);
  }

  /** Three words and three half words change byte order, and nothing else does. */
  predicate DeviceReversed(s: seq<byte>, t: seq<byte>) {
    && Kept(s, t, 0, 288)
    && Reversed4(s, t, 288) && Reversed4(s, t, 292) && Reversed4(s, t, 296)
    && Reversed2(s, t, 300) && Reversed2(s, t, 302) && Reversed2(s, t, 304)
    && Kept(s, t, 306, 312)
  }

  lemma OutsideNumbers(i: nat)
    requires i < 288 || i >= 306
    ensures Word(i) !in DEVICE_WORDS && Half(i) !in DEVICE_HALVES
  {
    HalfWithinWord(i);
  }

  lemma HalvesApart(at: nat)
    requires at in DEVICE_HALVES
    ensures at % 2 == 0 && at + 2 <= DEVICE_SIZE && Word(at) !in DEVICE_WORDS
  {
    WordIs(300, 75);
    WordIs(302, 75);
    WordIs(304, 76);
  }

  lemma DeviceSwapped(s: seq<byte>)
    requires |s| == DEVICE_SIZE
    ensures DeviceReversed(s, Swap(s, DEVICE_WORDS, DEVICE_HALVES))
  {
    WordReversed(s, DEVICE_WORDS, DEVICE_HALVES, 288);
    WordReversed(s, DEVICE_WORDS, DEVICE_HALVES, 292);
    WordReversed(s, DEVICE_WORDS, DEVICE_HALVES, 296);
    WordIs(300, 75);
    WordIs(302, 75);
    WordIs(304, 76);
    HalfReversed(s, DEVICE_WORDS, DEVICE_HALVES, 300);
    HalfReversed(s, DEVICE_WORDS, DEVICE_HALVES, 302);
    HalfReversed(s, DEVICE_WORDS, DEVICE_HALVES, 304);
    forall i: nat | i < 288 || 306 <= i < 312 ensures Word(i) !in DEVICE_WORDS && Half(i) !in DEVICE_HALVES {
      OutsideNumbers(i);
    }
    UntouchedKept(s, DEVICE_WORDS, DEVICE_HALVES, 0, 288);
    UntouchedKept(s, DEVICE_WORDS, DEVICE_HALVES, 306, 312);
  }

  method PackIsoPacket(a: array<byte>)
    requires a.Length == ISO_PACKET_SIZE
    modifies a
    ensures a[..] == Swap(old(a[..]), {0, 4, 8, 12}, {})
    ensures Reversed4(old(a[..]), a[..], 0) && Reversed4(old(a[..]), a[..], 4)
    ensures Reversed4(old(a[..]), a[..], 8) && Reversed4(old(a[..]), a[..], 12)
  {
    ghost var s := a[..];
    Swap32(a, 0);
    Swap32(a, 4);
    SwapOneMore(s, {0}, {}, 4);
    Swap32(a, 8);
    SwapOneMore(s, {0} + {4}, {}, 8);
    Swap32(a, 12);
    SwapOneMore(s, {0} + {4} + {8}, {}, 12);
    assert {0} + {4} + {8} + {12} == {0, 4, 8, 12};
    IsoSwapped(s, {0, 4, 8, 12});
  }

  lemma IsoSwapped(s: seq<byte>, words: set<nat>)
    requires |s| == ISO_PACKET_SIZE && words >= {0, 4, 8, 12}
    ensures
      var t := Swap(s, words, {});
      Reversed4(s, t, 0) && Reversed4(s, t, 4) && Reversed4(s, t, 8) && Reversed4(s, t, 12)
  {
    WordReversed(s, words, {}, 0);
    WordReversed(s, words, {}, 4);
    WordReversed(s, words, {}, 8);
    WordReversed(s, words, {}, 12);
  }

  // ---- The URB header ----

  const COMMON_WORDS: set<nat> := {0, 4, 8, 12, 16}

  /** The words of the command-specific part that are in network order, by command. */
  function ArmWords(command: uint32): set<nat> {
    if command == USBIP_CMD_SUBMIT || command == USBIP_RET_SUBMIT then {20, 24, 28, 32, 36}
    else if command == USBIP_CMD_UNLINK || command == USBIP_RET_UNLINK then {20}
    else {}
  }

  /** The command field of a header in host memory. */
  function HostCommand(s: seq<byte>): uint32
    requires |s| == URB_HEADER_SIZE
  {
    Le32(s[0..4])
  }

  /** The bytes that `usbip_pack_header` leaves in memory. */
  function Packed(s: seq<byte>, command: uint32): (t: seq<byte>)
    requires |s| == URB_HEADER_SIZE
    ensures |t| == URB_HEADER_SIZE
  {
    Swap(s, COMMON_WORDS + ArmWords(command), {})
  }

  /** The bytes that `usbip_unpack_header` leaves in memory: the arm is chosen by the command just unpacked. */
  function Unpacked(s: seq<byte>): (t: seq<byte>)
    requires |s| == URB_HEADER_SIZE
    ensures |t| == URB_HEADER_SIZE
  {
    var t := Swap(s, COMMON_WORDS, {});
    Swap(t, ArmWords(HostCommand(t)), {})
  }

  method SwapCommon(a: array<byte>)
    requires a.Length == URB_HEADER_SIZE
    modifies a
    ensures a[..] == Swap(old(a[..]), COMMON_WORDS, {})
  {
    ghost var s := a[..];
    Swap32(a, 0);
    Swap32(a, 4);
    SwapOneMore(s, {0}, {}, 4);
    Swap32(a, 8);
    SwapOneMore(s, {0} + {4}, {}, 8);
    Swap32(a, 12);
    SwapOneMore(s, {0} + {4} + {8}, {}, 12);
    Swap32(a, 16);
    SwapOneMore(s, {0} + {4} + {8} + {12}, {}, 16);
    assert {0} + {4} + {8} + {12} + {16} == COMMON_WORDS;
  }

  /** The `switch` on the command. */
  method SwapArm(a: array<byte>, command: uint32)
    requires a.Length == URB_HEADER_SIZE
    modifies a
    ensures a[..] == Swap(old(a[..]), ArmWords(command), {})
  {
    ghost var s := a[..];
    if command == USBIP_CMD_SUBMIT || command == USBIP_RET_SUBMIT {
      Swap32(a, 20);
      Swap32(a, 24);
      SwapOneMore(s, {20}, {}, 24);
      Swap32(a, 28);
      SwapOneMore(s, {20} + {24}, {}, 28);
      Swap32(a, 32);
      SwapOneMore(s, {20} + {24} + {28}, {}, 32);
      Swap32(a, 36);
      SwapOneMore(s, {20} + {24} + {28} + {32}, {}, 36);
      assert {20} + {24} + {28} + {32} + {36} == ArmWords(command);
    } else if command == USBIP_CMD_UNLINK || command == USBIP_RET_UNLINK {
      Swap32(a, 20);
    } else {
      SwapNothing(s);
    }
  }

  method PackHeader(a: array<byte>, command: uint32)
    requires a.Length == URB_HEADER_SIZE
    modifies a
    ensures a[..] == Packed(old(a[..]), command)
    ensures HeaderReversed(old(a[..]), a[..], command)
  {
    ghost var s := a[..];
    SwapCommon(a);
    SwapArm(a, command);
    SwapCompose(s, COMMON_WORDS, ArmWords(command));
    assert COMMON_WORDS - ArmWords(command) + (ArmWords(command) - COMMON_WORDS) == COMMON_WORDS + ArmWords(command);
    PackedReversed(s, command);
  }

  method UnpackHeader(a: array<byte>)
    requires a.Length == URB_HEADER_SIZE
    modifies a
    ensures a[..] == Unpacked(old(a[..]))
    ensures HeaderReversed(old(a[..]), a[..], Be32(old(a[0..4])))
  {
    ghost var s := a[..];
    SwapCommon(a);
    var command := Le32(a[0..4]);
    assert a[..][0..4] == a[0..4];
    SwapArm(a, command);
    UnpackedReversed(s);
    assert s[0..4] == old(a[0..4]);
  }

  /** The words after the common ones: five of a submission or its answer, one of an unlink or its answer. */
  predicate ArmReversed(s: seq<byte>, t: seq<byte>, command: uint32) {
    if command == 1 || command == 3 then
      && Reversed4(s, t, 20) && Reversed4(s, t, 24) && Reversed4(s, t, 28) && Reversed4(s, t, 32)
      && Reversed4(s, t, 36)
    else if command == 2 || command == 4 then Reversed4(s, t, 20) && Kept(s, t, 24, 40)
    else Kept(s, t, 20, 40)
  }

  /** Which bytes of a header change places when it is packed for a command, or unpacked. */
  predicate HeaderReversed(s: seq<byte>, t: seq<byte>, command: uint32) {
    && Reversed4(s, t, 0) && Reversed4(s, t, 4) && Reversed4(s, t, 8) && Reversed4(s, t, 12)
    && Reversed4(s, t, 16) && ArmReversed(s, t, command) && Kept(s, t, 40, 48)
  }

  lemma WordsKept(s: seq<byte>, words: set<nat>, from: nat, to: nat)
    requires |s| % 4 == 0 && 4 * to <= |s| && forall k: nat | from <= k < to :: 4 * k !in words
    ensures Kept(s, Swap(s, words, {}), 4 * from, 4 * to)
  {
    forall i: nat | 4 * from <= i < 4 * to ensures Word(i) !in words {
      assert from <= i / 4 < to;
    }
    UntouchedKept(s, words, {}, 4 * from, 4 * to);
  }

  lemma ArmSwapped(s: seq<byte>, words: set<nat>, command: uint32)
    requires |s| == URB_HEADER_SIZE
    requires forall k: nat | 5 <= k < 10 :: 4 * k in words <==> 4 * k in ArmWords(command)
    ensures ArmReversed(s, Swap(s, words, {}), command)
  {
    if command == 1 || command == 3 {
      WordReversed(s, words, {}, 4 * 5);
      WordReversed(s, words, {}, 4 * 6);
      WordReversed(s, words, {}, 4 * 7);
      WordReversed(s, words, {}, 4 * 8);
      WordReversed(s, words, {}, 4 * 9);
    } else {
      WordsKept(s, words, 6, 10);
      if command == 2 || command == 4 {
        WordReversed(s, words, {}, 4 * 5);
      } else {
        WordsKept(s, words, 5, 10);
      }
    }
  }

  lemma CommonSwapped(s: seq<byte>, words: set<nat>)
    requires |s| == URB_HEADER_SIZE && words >= {0, 4, 8, 12, 16}
    ensures
      var t := Swap(s, words, {});
      && Reversed4(s, t, 0) && Reversed4(s, t, 4) && Reversed4(s, t, 8) && Reversed4(s, t, 12) && Reversed4(s, t, 16)
  {
    WordReversed(s, words, {}, 0);
    WordReversed(s, words, {}, 4);
    WordReversed(s, words, {}, 8);
    WordReversed(s, words, {}, 12);
    WordReversed(s, words, {}, 16);
  }

  lemma PackedReversed(s: seq<byte>, command: uint32)
    requires |s| == URB_HEADER_SIZE
    ensures HeaderReversed(s, Packed(s, command), command)
  {
    var words := COMMON_WORDS + ArmWords(command);
    CommonSwapped(s, words);
    ArmSwapped(s, words, command);
    WordsKept(s, words, 10, 12);
  }

  /** Unpacking reverses what packing for the command in the received bytes does. */
  lemma UnpackedIsPacked(s: seq<byte>)
    requires |s| == URB_HEADER_SIZE
    ensures Unpacked(s) == Packed(s, Be32(s[0..4]))
  {
    var arm := ArmWords(Be32(s[0..4]));
    CommandReceived(s, COMMON_WORDS);
    SwapCompose(s, COMMON_WORDS, arm);
    assert COMMON_WORDS - arm + (arm - COMMON_WORDS) == COMMON_WORDS + arm;
  }

  lemma CommandReceived(s: seq<byte>, words: set<nat>)
    requires |s| == URB_HEADER_SIZE && 0 in words
    ensures HostCommand(Swap(s, words, {})) == Be32(s[0..4])
  {
    var t := Swap(s, words, {});
    SwapInvolution(s, words, {});
    SwapWord(t, words, {}, 0);
  }

  lemma UnpackedReversed(s: seq<byte>)
    requires |s| == URB_HEADER_SIZE
    ensures HeaderReversed(s, Unpacked(s), Be32(s[0..4]))
  {
    UnpackedIsPacked(s);
    PackedReversed(s, Be32(s[0..4]));
  }

  /** The words that exactly one of the arms of two commands swaps. */
  function DisputedWords(c: uint32, d: uint32): set<nat> {
    (ArmWords(c) - ArmWords(d)) + (ArmWords(d) - ArmWords(c))
  }

  lemma SwapKeepsCommand(s: seq<byte>, words: set<nat>)
    requires |s| == URB_HEADER_SIZE && 0 !in words
    ensures HostCommand(Swap(s, words, {})) == HostCommand(s)
  {
    var t := Swap(s, words, {});
    forall i: nat | i < 4 ensures t[i] == s[i] {
      WordAt(i, 0);
    }
    assert t[0..4] == s[0..4];
  }

  /** Packing for one command and unpacking reverses the words on which the two arms disagree. */
  lemma UnpackAfterPack(s: seq<byte>, command: uint32)
    requires |s| == URB_HEADER_SIZE
    ensures Unpacked(Packed(s, command)) == Swap(s, DisputedWords(command, HostCommand(s)), {})
  {
    var given := ArmWords(command);
    SwapCompose(s, COMMON_WORDS + given, COMMON_WORDS);
    assert (COMMON_WORDS + given - COMMON_WORDS) + (COMMON_WORDS - (COMMON_WORDS + given)) == given;
    SwapKeepsCommand(s, given);
    SwapCompose(s, given, ArmWords(HostCommand(s)));
  }

  /** Every 48-byte header survives packing for its own command and unpacking, known command or not. */
  lemma UrbHeaderRoundTrip(s: seq<byte>)
    requires |s| == URB_HEADER_SIZE
    ensures Unpacked(Packed(s, HostCommand(s))) == s
  {
    UnpackAfterPack(s, HostCommand(s));
    assert DisputedWords(HostCommand(s), HostCommand(s)) == {};
    SwapNothing(s);
  }

  lemma DisputedInRange(c: uint32, d: uint32)
    ensures forall off | off in DisputedWords(c, d) :: off % 4 == 0 && off + 4 <= URB_HEADER_SIZE
  {
  }

  /** Packing for any command is undone exactly when the words that only one of the arms swaps are palindromes. */
  lemma UrbHeaderRoundTripIff(s: seq<byte>, command: uint32)
    requires |s| == URB_HEADER_SIZE
    ensures Unpacked(Packed(s, command)) == s <==>
      forall off | off in DisputedWords(command, HostCommand(s)) :: Palindrome(s, off)
  {
    UnpackAfterPack(s, command);
    DisputedInRange(command, HostCommand(s));
    SwapIdentity(s, DisputedWords(command, HostCommand(s)));
  }

  /** On the wire the packed words are the big-endian encodings of the host values; setup and padding are untouched. */
  lemma PackedFields(s: seq<byte>, command: uint32, off: nat)
    requires |s| == URB_HEADER_SIZE
    ensures off in COMMON_WORDS + ArmWords(command) ==>
      Be32(Packed(s, command)[off..off + 4]) == Le32(s[off..off + 4])
    ensures off < |s| && Word(off) !in COMMON_WORDS + ArmWords(command) ==> Packed(s, command)[off] == s[off]
  {
    if off in COMMON_WORDS + ArmWords(command) {
      SwapWord(s, COMMON_WORDS + ArmWords(command), {}, off);
    }
  }

  // ---- Typed view of the URB header ----

  /** The fields of `usbip_header_t`; `arm` holds the five words of the union and `setup` its last eight bytes. */
  datatype UrbHeader = UrbHeader(command: uint32, seqnum: uint32, devid: uint32, direction: uint32, ep: uint32,
                                 arm: seq<uint32>, setup: seq<byte>)
  {
    predicate Valid() {
      |arm| == 5 && |setup| == 8
    }
    function Words(): seq<uint32> {
      [command, seqnum, devid, direction, ep] + arm
    }
  }

  function WordsImage(w: seq<uint32>): (s: seq<byte>)
    ensures |s| == 4 * |w|
  {
    if w == [] then [] else ToLe32(w[0]) + WordsImage(w[1..])
  }

  function WordsOf(s: seq<byte>): (w: seq<uint32>)
    requires |s| % 4 == 0
    ensures |s| == 4 * |w|
  {
    if s == [] then [] else [Le32(s[..4])] + WordsOf(s[4..])
  }

  lemma {:induction false} WordsOfImage(w: seq<uint32>)
    ensures WordsOf(WordsImage(w)) == w
  {
    if w != [] {
      var s := WordsImage(w);
      assert s[..4] == ToLe32(w[0]) && s[4..] == WordsImage(w[1..]);
      WordsOfImage(w[1..]);
    }
  }

  lemma {:induction false} ImageOfWords(s: seq<byte>)
    requires |s| % 4 == 0
    ensures WordsImage(WordsOf(s)) == s
  {
    if s != [] {
      ImageOfWords(s[4..]);
      assert WordsOf(s)[1..] == WordsOf(s[4..]);
      Le32Injective(ToLe32(Le32(s[..4])), s[..4]);
      assert s == s[..4] + s[4..];
    }
  }

  /** The header as it lies in host memory. */
  function Image(h: UrbHeader): (s: seq<byte>)
    requires h.Valid()
    ensures |s| == URB_HEADER_SIZE
  {
    WordsImage(h.Words()) + h.setup
  }

  function HeaderOf(s: seq<byte>): (h: UrbHeader)
    requires |s| == URB_HEADER_SIZE
    ensures h.Valid()
  {
    var w := WordsOf(s[..40]);
    UrbHeader(w[0], w[1], w[2], w[3], w[4], w[5..], s[40..])
  }

  lemma HeaderOfImage(h: UrbHeader)
    requires h.Valid()
    ensures HeaderOf(Image(h)) == h
    ensures HostCommand(Image(h)) == h.command
  {
    var s := Image(h);
    assert s[..40] == WordsImage(h.Words()) && s[40..] == h.setup;
    WordsOfImage(h.Words());
    assert h.Words()[5..] == h.arm;
    assert s[0..4] == s[..40][..4];
  }

  /** A header as it travels: packed for its own command, as `usbip_send_urb_header` does. */
  function Wire(h: UrbHeader): (s: seq<byte>)
    requires h.Valid()
    ensures |s| == URB_HEADER_SIZE
  {
    Packed(Image(h), h.command)
  }

  /** The fields that `usbip_recv_urb_header` finds in 48 received bytes. */
  function Unwire(s: seq<byte>): (h: UrbHeader)
    requires |s| == URB_HEADER_SIZE
    ensures h.Valid()
  {
    HeaderOf(Unpacked(s))
  }

  lemma UnwireOfWire(h: UrbHeader)
    requires h.Valid()
    ensures Unwire(Wire(h)) == h
  {
    HeaderOfImage(h);
    UrbHeaderRoundTrip(Image(h));
  }

  lemma ImageOfHeader(s: seq<byte>)
    requires |s| == URB_HEADER_SIZE
    ensures Image(HeaderOf(s)) == s
  {
    ImageOfWords(s[..40]);
    assert HeaderOf(s).Words() == WordsOf(s[..40]);
    assert s == s[..40] + s[40..];
  }

  /** Any 48 bytes are the wire form of the header they are read as. */
  lemma WireOfUnwire(s: seq<byte>)
    requires |s| == URB_HEADER_SIZE
    ensures Wire(Unwire(s)) == s
  {
    var t := Swap(s, COMMON_WORDS, {});
    var arm := ArmWords(HostCommand(t));
    SwapCompose(s, COMMON_WORDS, arm);
    assert (COMMON_WORDS - arm) + (arm - COMMON_WORDS) == COMMON_WORDS + arm;
    SwapKeepsCommand(t, arm);
    ImageOfHeader(Unpacked(s));
    HeaderOfImage(Unwire(s));
    SwapInvolution(s, COMMON_WORDS + arm, {});
  }

  // ---- The 8-byte operation header ----

  datatype BasicHeader = BasicHeader(version: uint16, command: uint16, status: uint32)

  function BasicImage(h: BasicHeader): (s: seq<byte>)
    ensures |s| == HEADER_BASIC_SIZE
  {
    ToLe16(h.version) + ToLe16(h.command) + ToLe32(h.status)
  }

  function BasicWire(h: BasicHeader): (s: seq<byte>)
    ensures |s| == HEADER_BASIC_SIZE
  {
    Swap(BasicImage(h), {4}, {0, 2})
  }

  function BasicHeaderOf(s: seq<byte>): BasicHeader
    requires |s| == HEADER_BASIC_SIZE
  {
    BasicHeader(Le16(s[..2]), Le16(s[2..4]), Le32(s[4..]))
  }

  function BasicUnwire(s: seq<byte>): BasicHeader
    requires |s| == HEADER_BASIC_SIZE
  {
    BasicHeaderOf(Swap(s, {4}, {0, 2}))
  }

  lemma BasicUnwireOfWire(h: BasicHeader)
    ensures BasicUnwire(BasicWire(h)) == h
  {
    SwapInvolution(BasicImage(h), {4}, {0, 2});
    var s := BasicImage(h);
    assert s[..2] == ToLe16(h.version) && s[2..4] == ToLe16(h.command) && s[4..] == ToLe32(h.status);
  }
}
