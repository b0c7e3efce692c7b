/**
 * The headers of every message byte by byte, with the numbers of the message format written out: what is sent and
 * what is read is held against these layouts, which use none of the functions that pack or read.
 */
module Layout {
  import opened Bytes
  import opened Seqs
  import opened Structs

  // ---- The URB header ----

  /** Five words most significant byte first. */
  predicate BigArm(s: seq<byte>, arm: seq<uint32>)
    requires |arm| == 5
  {
    && Big32(s, 20, arm[0]) && Big32(s, 24, arm[1]) && Big32(s, 28, arm[2])
    && Big32(s, 32, arm[3]) && Big32(s, 36, arm[4])
  }

  /** The last four words as they lie in the memory of the sender. */
  predicate HostRest(s: seq<byte>, arm: seq<uint32>)
    requires |arm| == 5
  {
    && Little32(s, 24, arm[1]) && Little32(s, 28, arm[2])
    && Little32(s, 32, arm[3]) && Little32(s, 36, arm[4])
  }

  predicate CommonPart(s: seq<byte>, h: UrbHeader) {
    && Big32(s, 0, h.command) && Big32(s, 4, h.seqnum) && Big32(s, 8, h.devid)
    && Big32(s, 12, h.direction) && Big32(s, 16, h.ep)
  }

  /** The other words: all five of a submission and its answer, the first of an unlink and its answer. */
  predicate ArmPart(s: seq<byte>, h: UrbHeader)
    requires h.Valid()
  {
    if h.command == 1 || h.command == 3 then BigArm(s, h.arm)
    else if h.command == 2 || h.command == 4 then Big32(s, 20, h.arm[0]) && HostRest(s, h.arm)
    else Little32(s, 20, h.arm[0]) && HostRest(s, h.arm)
  }

  predicate IsUrbHeader(s: seq<byte>, h: UrbHeader)
    requires h.Valid()
  {
    |s| == 48 && CommonPart(s, h) && ArmPart(s, h) && s[40..] == h.setup
  }

  lemma {:induction false} WordInImage(w: seq<uint32>, k: nat)
    requires k < |w|
    ensures WordsImage(w)[4 * k..4 * k + 4] == ToLe32(w[k])
  {
    var first, rest := ToLe32(w[0]), WordsImage(w[1..]);
    if k == 0 {
      TwoParts(first, rest);
    } else {
      var from := 4 * (k - 1);
      WordInImage(w[1..], k - 1);
      SliceBehind(first, rest, from, from + 4);
    }
  }

  /** The k-th word of a header in host memory. */
  lemma WordOfHeader(h: UrbHeader, k: nat)
    requires h.Valid() && k < 10
    ensures Image(h)[4 * k..4 * k + 4] == ToLe32(h.Words()[k])
  {
    WordInImage(h.Words(), k);
    assert Image(h)[4 * k..4 * k + 4] == WordsImage(h.Words())[4 * k..4 * k + 4];
  }

  lemma SwappedWord(h: UrbHeader, k: nat)
    requires h.Valid() && k < 10 && 4 * k in COMMON_WORDS + ArmWords(h.command)
    ensures Big32(Wire(h), 4 * k, h.Words()[k])
  {
    WordOfHeader(h, k);
    PackedFields(Image(h), h.command, 4 * k);
    Be32IsBig(Wire(h), 4 * k);
  }

  lemma KeptByte(h: UrbHeader, i: nat)
    requires h.Valid() && i < 48 && Word(i) !in COMMON_WORDS + ArmWords(h.command)
    ensures Wire(h)[i] == Image(h)[i]
  {
    PackedFields(Image(h), h.command, i);
  }

  lemma KeptWord(h: UrbHeader, k: nat)
    requires h.Valid() && k < 10 && 4 * k !in COMMON_WORDS + ArmWords(h.command)
    ensures Little32(Wire(h), 4 * k, h.Words()[k])
  {
    WordOfHeader(h, k);
    forall i: nat | 4 * k <= i < 4 * k + 4 ensures Wire(h)[i] == Image(h)[i] {
      WordIs(i, k);
      KeptByte(h, i);
    }
    Le32IsLittle(Image(h), 4 * k);
  }

  lemma CommonLaidOut(h: UrbHeader)
    requires h.Valid()
    ensures CommonPart(Wire(h), h)
  {
    SwappedWord(h, 0);
    SwappedWord(h, 1);
    SwappedWord(h, 2);
    SwappedWord(h, 3);
    SwappedWord(h, 4);
  }

  lemma BigArmLaidOut(h: UrbHeader)
    requires h.Valid() && (h.command == 1 || h.command == 3)
    ensures BigArm(Wire(h), h.arm)
  {
    SwappedWord(h, 5);
    SwappedWord(h, 6);
    SwappedWord(h, 7);
    SwappedWord(h, 8);
    SwappedWord(h, 9);
  }

  lemma HostRestLaidOut(h: UrbHeader)
    requires h.Valid() && h.command != 1 && h.command != 3
    ensures HostRest(Wire(h), h.arm)
  {
    KeptWord(h, 6);
    KeptWord(h, 7);
    KeptWord(h, 8);
    KeptWord(h, 9);
  }

  lemma SetupLaidOut(h: UrbHeader)
    requires h.Valid()
    ensures Wire(h)[40..] == h.setup
  {
    forall i: nat | 40 <= i < 48 ensures Wire(h)[i] == h.setup[i - 40] {
      WordIs(i, if i < 44 then 10 else 11);
      KeptByte(h, i);
    }
  }

  /** What is sent for a header is that header in the layout of the message format, whatever the command. */
  lemma WireLaidOut(h: UrbHeader)
    requires h.Valid()
    ensures IsUrbHeader(Wire(h), h)
  {
    CommonLaidOut(h);
    if h.command == 1 || h.command == 3 {
      BigArmLaidOut(h);
    } else {
      HostRestLaidOut(h);
      if h.command == 2 || h.command == 4 {
        SwappedWord(h, 5);
      } else {
        KeptWord(h, 5);
      }
    }
    SetupLaidOut(h);
  }

  /** Whatever 48 bytes arrive, the header read from them is the one laid out in them. */
  lemma UnwireLaidOut(s: seq<byte>)
    requires |s| == 48
    ensures IsUrbHeader(s, Unwire(s))
  {
    WireOfUnwire(s);
    WireLaidOut(Unwire(s));
  }

  // ---- Swapped numbers in other structures ----

  lemma SwappedBig32(s: seq<byte>, words: set<nat>, halves: set<nat>, at: nat, v: uint32)
    requires |s| % 4 == 0 && at + 4 <= |s| && at % 4 == 0 && at in words && s[at..at + 4] == ToLe32(v)
    ensures Big32(Swap(s, words, halves), at, v)
  {
    SwapWord(s, words, halves, at);
    Be32IsBig(Swap(s, words, halves), at);
  }

  lemma SwappedBig16(s: seq<byte>, words: set<nat>, halves: set<nat>, at: nat, v: uint16)
    requires |s| % 4 == 0 && at + 2 <= |s| && at % 2 == 0 && at in halves && Word(at) !in words
    requires s[at..at + 2] == ToLe16(v)
    ensures Big16(Swap(s, words, halves), at, v)
  {
    SwapHalf(s, words, halves, at);
    Be16IsBig(Swap(s, words, halves), at);
  }

  // ---- The 8-byte header ----

  predicate IsBasicHeader(s: seq<byte>, version: uint16, command: uint16, status: uint32) {
    Big16(s, 0, version) && Big16(s, 2, command) && Big32(s, 4, status)
  }

  lemma BasicSwapped(s: seq<byte>)
    requires |s| == 8
    ensures
      var t := Swap(s, {4}, {0, 2});
      IsBasicHeader(t, Le16(s[..2]), Le16(s[2..4]), Le32(s[4..]))
  {
    var t := Swap(s, {4}, {0, 2});
    WordIs(0, 0);
    WordIs(2, 0);
    SwapHalf(s, {4}, {0, 2}, 0);
    SwapHalf(s, {4}, {0, 2}, 2);
    SwapWord(s, {4}, {0, 2}, 4);
    Be16IsBig(t, 0);
    Be16IsBig(t, 2);
    Be32IsBig(t, 4);
    assert s[0..2] == s[..2] && s[4..8] == s[4..];
  }

  lemma BasicWireLaidOut(h: BasicHeader)
    ensures IsBasicHeader(BasicWire(h), h.version, h.command, h.status)
  {
    var s := BasicImage(h);
    BasicSwapped(s);
    assert s[..2] == ToLe16(h.version) && s[2..4] == ToLe16(h.command) && s[4..] == ToLe32(h.status);
  }

  lemma BasicUnwireLaidOut(s: seq<byte>)
    requires |s| == 8
    ensures IsBasicHeader(s, BasicUnwire(s).version, BasicUnwire(s).command, BasicUnwire(s).status)
  {
    var t := Swap(s, {4}, {0, 2});
    BasicSwapped(t);
    SwapInvolution(s, {4}, {0, 2});
  }

  /** A header at the start of a longer stream. */
  lemma BasicInFront(s: seq<byte>, rest: seq<byte>, version: uint16, command: uint16, status: uint32)
    requires |s| == 8 && IsBasicHeader(s, version, command, status)
    ensures IsBasicHeader(s + rest, version, command, status)
  {
    var t := s + rest;
    assert t[..8] == s;
    assert forall i | 0 <= i < 8 :: t[i] == s[i];
  }
}
