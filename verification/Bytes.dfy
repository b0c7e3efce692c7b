/** Machine integers, byte order and C strings. */
module Bytes {
  type byte = x: int | 0 <= x < 0x100
  type uint16 = x: int | 0 <= x < 0x1_0000
  type uint32 = x: int | 0 <= x < 0x1_0000_0000

  datatype Option<+T> = None | Some(value: T)

  /** The value of two bytes, least significant first: a `uint16_t` in host memory. */
  function Le16(s: seq<byte>): uint16
    requires |s| == 2
  {
    var lo: int, hi: int := s[0], s[1];
    lo + 0x100 * hi
  }

  /** The value of two bytes, most significant first: a `uint16_t` on the wire. */
  function Be16(s: seq<byte>): uint16
    requires |s| == 2
  {
    Le16([s[1], s[0]])
  }

  function Le32(s: seq<byte>): uint32
    requires |s| == 4
  {
    var lo: int, hi: int := Le16(s[..2]), Le16(s[2..]);
    lo + 0x1_0000 * hi
  }

  function Be32(s: seq<byte>): uint32
    requires |s| == 4
  {
    Le32([s[3], s[2], s[1], s[0]])
  }

  function ToLe16(v: uint16): (s: seq<byte>)
    ensures |s| == 2 && Le16(s) == v
  {
    [v % 0x100, v / 0x100]
  }

  function ToLe32(v: uint32): (s: seq<byte>)
    ensures |s| == 4 && Le32(s) == v
  {
    var s := ToLe16(v % 0x1_0000) + ToLe16(v / 0x1_0000);
    assert s[..2] == ToLe16(v % 0x1_0000) && s[2..] == ToLe16(v / 0x1_0000);
    s
  }

  function ToBe32(v: uint32): (s: seq<byte>)
    ensures |s| == 4 && Be32(s) == v
  {
    var s := ToLe32(v);
    assert s == [s[0], s[1], s[2], s[3]];
    [s[3], s[2], s[1], s[0]]
  }

  lemma Le16Injective(s: seq<byte>, t: seq<byte>)
    requires |s| == 2 && |t| == 2 && Le16(s) == Le16(t)
    ensures s == t
  {
    var a: int, b: int, c: int, d: int := s[0], s[1], t[0], t[1];
    assert a + 0x100 * b == c + 0x100 * d;
    assert b == d && a == c;
  }

  /** Four bytes are determined by the value they hold. */
  lemma Le32Injective(s: seq<byte>, t: seq<byte>)
    requires |s| == 4 && |t| == 4 && Le32(s) == Le32(t)
    ensures s == t
  {
    var a: int, b: int, c: int, d: int := Le16(s[..2]), Le16(s[2..]), Le16(t[..2]), Le16(t[2..]);
    assert a + 0x1_0000 * b == c + 0x1_0000 * d;
    assert b == d && a == c;
    Le16Injective(s[..2], t[..2]);
    Le16Injective(s[2..], t[2..]);
    assert s == s[..2] + s[2..] && t == t[..2] + t[2..];
  }

  // ---- Numbers at a position, by their bytes ----

  /** A 16-bit number, most significant byte first. */
  predicate Big16(s: seq<byte>, at: nat, v: int) {
    at + 2 <= |s| && var hi: int, lo: int := s[at], s[at + 1]; v == 0x100 * hi + lo
  }

  /** A 32-bit number, most significant byte first. */
  predicate Big32(s: seq<byte>, at: nat, v: int) {
    && at + 4 <= |s|
    && var a: int, b: int, c: int, d: int := s[at], s[at + 1], s[at + 2], s[at + 3];
    v == 0x100_0000 * a + 0x1_0000 * b + 0x100 * c + d
  }

  /** A 32-bit number, least significant byte first. */
  predicate Little32(s: seq<byte>, at: nat, v: int) {
    && at + 4 <= |s|
    && var a: int, b: int, c: int, d: int := s[at], s[at + 1], s[at + 2], s[at + 3];
    v == a + 0x100 * b + 0x1_0000 * c + 0x100_0000 * d
  }

  lemma Be16IsBig(s: seq<byte>, at: nat)
    requires at + 2 <= |s|
    ensures Big16(s, at, Be16(s[at..at + 2]))
  {
  }

  lemma Le32IsLittle(s: seq<byte>, at: nat)
    requires at + 4 <= |s|
    ensures Little32(s, at, Le32(s[at..at + 4]))
  {
    var t := s[at..at + 4];
    assert t[..2] == [s[at], s[at + 1]] && t[2..] == [s[at + 2], s[at + 3]];
  }

  lemma Be32IsBig(s: seq<byte>, at: nat)
    requires at + 4 <= |s|
    ensures Big32(s, at, Be32(s[at..at + 4]))
  {
    var t := s[at..at + 4];
    var r := [t[3], t[2], t[1], t[0]];
    assert r[..2] == [t[3], t[2]] && r[2..] == [t[1], t[0]];
  }

  /** Bitwise exclusive or. */
  function Xor(a: nat, b: nat): nat {
    if a == 0 && b == 0 then 0 else (a + b) % 2 + 2 * Xor(a / 2, b / 2)
  }

  /** Bitwise or. */
  function Or(a: nat, b: nat): nat {
    if a == 0 && b == 0 then 0 else (if a % 2 == 1 || b % 2 == 1 then 1 else 0) + 2 * Or(a / 2, b / 2)
  }

  lemma {:induction false} XorZero(a: nat, b: nat)
    ensures Xor(a, b) == 0 <==> a == b
  {
    if a != 0 || b != 0 {
      XorZero(a / 2, b / 2);
      assert a == 2 * (a / 2) + a % 2 && b == 2 * (b / 2) + b % 2;
    }
  }

  lemma {:induction false} OrZero(a: nat, b: nat)
    ensures Or(a, b) == 0 <==> a == 0 && b == 0
  {
    if a != 0 || b != 0 {
      OrZero(a / 2, b / 2);
    }
  }

  function Zeros(n: nat): (z: seq<byte>)
    ensures |z| == n && forall i | 0 <= i < n :: z[i] == 0
  {
    seq(n, i => 0)
  }

  predicate NulFree(s: seq<byte>) {
    0 !in s
  }

  /** The C string held in a buffer: the bytes before the first NUL. */
  function CStr(buf: seq<byte>): (s: seq<byte>)
    ensures NulFree(s) && s <= buf
    ensures |s| < |buf| ==> buf[|s|] == 0
  {
    if buf == [] || buf[0] == 0 then [] else [buf[0]] + CStr(buf[1..])
  }

  /** What `str_copy` and `strncpy(dst, src, n - 1)` keep of a string in an n-byte buffer. */
  function Truncate(s: seq<byte>, n: nat): (t: seq<byte>)
    requires n > 0
    ensures t <= s && |t| < n
    ensures |s| < n ==> t == s
    ensures |s| >= n ==> |t| == n - 1
  {
    if |s| < n then s else s[..n - 1]
  }

  /** A zeroed n-byte buffer after a string has been copied into it. */
  function Pad(s: seq<byte>, n: nat): (buf: seq<byte>)
    requires n > 0
    ensures |buf| == n
    ensures forall i | 0 <= i < n :: buf[i] == if i < |s| && i < n - 1 then s[i] else 0
  {
    Truncate(s, n) + Zeros(n - |Truncate(s, n)|)
  }

  lemma {:induction false} CStrUntilNul(s: seq<byte>, rest: seq<byte>)
    requires NulFree(s) && |rest| > 0 && rest[0] == 0
    ensures CStr(s + rest) == s
  {
    if s == [] {
      assert s + rest == rest;
    } else {
      assert (s + rest)[0] == s[0] && (s + rest)[1..] == s[1..] + rest;
      CStrUntilNul(s[1..], rest);
    }
  }

  /** Reading back a string copied into an n-byte buffer yields its first n - 1 bytes. */
  lemma CStrOfPad(s: seq<byte>, n: nat)
    requires NulFree(s) && n > 0
    ensures CStr(Pad(s, n)) == Truncate(s, n)
  {
    CStrUntilNul(Truncate(s, n), Zeros(n - |Truncate(s, n)|));
  }
}
