/** The send and receive loops of common/network_win32.c over a socket that may move any part of what is asked. */
module Net {
  import opened Bytes

  /** What the network does on one call: offer n bytes of room or data, have none yet, fail, or run out of time. */
  datatype Outcome = Ready(n: nat) | WouldBlock | Failed | TimedOut

  datatype CallResult = Moved(data: seq<byte>) | Blocked | Error | Expired

  /**
   * A connected stream socket. `incoming` is what the peer has sent and this side has not read yet;
   * `script` says how the next calls behave, and once it is used up every call moves all it can.
   */
  class Socket {
    var incoming: seq<byte>
    var outgoing: seq<byte>
    var script: seq<Outcome>

    constructor (incoming: seq<byte>, script: seq<Outcome>)
      ensures this.incoming == incoming && this.outgoing == [] && this.script == script
    {
      this.incoming, this.outgoing, this.script := incoming, [], script;
    }

    /** What the next call meets; `all` is the most it could move. */
    method NextOutcome(all: nat) returns (o: Outcome)
      modifies `script
      ensures old(script) == [] ==> o == Ready(all) && script == []
      ensures old(script) != [] ==> o == old(script)[0] && script == old(script)[1..]
    {
      if script == [] {
        o := Ready(all);
      } else {
        o, script := script[0], script[1..];
      }
    }

    /** One `recv` call: at least one byte if any is left, none exactly at the end of the stream. */
    method Recv(want: nat) returns (r: CallResult)
      requires want > 0
      modifies `incoming, `script
      ensures |script| <= |old(script)| && (forall o | o in script :: o in old(script))
      ensures !r.Moved? ==> incoming == old(incoming) && |script| < |old(script)|
      ensures r.Moved? ==>
        |r.data| <= want && old(incoming) == r.data + incoming && (r.data == [] <==> old(incoming) == [])
      ensures r.Error? ==> Failed in old(script)
      ensures r.Expired? ==> TimedOut in old(script)
    {
      var o := NextOutcome(want);
      match o {
        case WouldBlock => r := Blocked;
        case Failed => r := Error;
        case TimedOut => r := Expired;
        case Ready(n) =>
          var room := if 0 < n < want then n else want;
          var k := if room < |incoming| then room else |incoming|;
          r, incoming := Moved(incoming[..k]), incoming[k..];
      }
    }

    /** One `send` call: takes any prefix of the data, possibly none. */
    method Send(data: seq<byte>) returns (r: CallResult)
      modifies `outgoing, `script
      ensures |script| <= |old(script)| && (forall o | o in script :: o in old(script))
      ensures !r.Moved? ==> outgoing == old(outgoing) && |script| < |old(script)|
      ensures r.Moved? ==> r.data <= data && outgoing == old(outgoing) + r.data
      ensures r.Moved? && r.data == [] && data != [] ==> Ready(0) in old(script)
      ensures r.Error? ==> Failed in old(script)
      ensures r.Expired? ==> TimedOut in old(script)
      ensures r.Moved? && r.data == [] && data != [] ==> |script| < |old(script)|
    {
      var o := NextOutcome(|data|);
      match o {
        case WouldBlock => r := Blocked;
        case Failed => r := Error;
        case TimedOut => r := Expired;
        case Ready(n) =>
          var k := if n < |data| then n else |data|;
          r, outgoing := Moved(data[..k]), outgoing + data[..k];
      }
    }
  }

  /** No call on this socket fails or refuses all data; calls may still be partial or find nothing yet. */
  predicate Reliable(script: seq<Outcome>) {
    Failed !in script && Ready(0) !in script
  }

  /**
   * `net_recv_all`: the next `len` bytes, whatever pieces they arrive in. A result below `len` means the
   * peer closed after exactly that many bytes; -1 means a call failed.
   */
  method NetRecvAll(sock: Socket, buf: array<byte>, len: nat) returns (n: int)
    requires len <= buf.Length
    modifies sock`incoming, sock`script, buf
    ensures forall o | o in sock.script :: o in old(sock.script)
    ensures -1 <= n <= len
    ensures n == -1 ==> Failed in old(sock.script)
    ensures n >= 0 ==> buf[..n] + sock.incoming == old(sock.incoming)
    ensures 0 <= n < len ==> sock.incoming == []
    ensures buf[len..] == old(buf[len..])
  {
    var ptr: nat, remaining: nat := 0, len;
    while remaining > 0
      invariant ptr + remaining == len
      invariant buf[..ptr] + sock.incoming == old(sock.incoming)
      invariant buf[len..] == old(buf[len..])
      invariant forall o | o in sock.script :: o in old(sock.script)
      decreases |sock.script| + remaining
    {
      var r := sock.Recv(remaining);
      match r {
        case Blocked =>
        case Expired =>
        case Error => return -1;
        case Moved(data) =>
          if data == [] {
            return len - remaining;
          }
          ghost var done := buf[..ptr];
          Store(buf, ptr, data);
          assert buf[..ptr + |data|] == done + data;
          ptr, remaining := ptr + |data|, remaining - |data|;
      }
    }
    n := len;
  }

  /** `net_recv_all_timeout`: as above, but running out of time at any point also gives -1. */
  method NetRecvAllTimeout(sock: Socket, buf: array<byte>, len: nat) returns (n: int)
    requires len <= buf.Length
    modifies sock`incoming, sock`script, buf
    ensures forall o | o in sock.script :: o in old(sock.script)
    ensures -1 <= n <= len
    ensures n == -1 ==> Failed in old(sock.script) || TimedOut in old(sock.script)
    ensures n >= 0 ==> buf[..n] + sock.incoming == old(sock.incoming)
    ensures 0 <= n < len ==> sock.incoming == []
    ensures buf[len..] == old(buf[len..])
  {
    var ptr: nat, remaining: nat := 0, len;
    while remaining > 0
      invariant ptr + remaining == len
      invariant buf[..ptr] + sock.incoming == old(sock.incoming)
      invariant buf[len..] == old(buf[len..])
      invariant forall o | o in sock.script :: o in old(sock.script)
      decreases |sock.script| + remaining
    {
      var r := sock.Recv(remaining);
      match r {
        case Blocked =>
        case Expired => return -1;
        case Error => return -1;
        case Moved(data) =>
          if data == [] {
            return len - remaining;
          }
          ghost var done := buf[..ptr];
          Store(buf, ptr, data);
          assert buf[..ptr + |data|] == done + data;
          ptr, remaining := ptr + |data|, remaining - |data|;
      }
    }
    n := len;
  }

  /** Copies received bytes to their place in the caller's buffer. */
  method Store(buf: array<byte>, ptr: nat, data: seq<byte>)
    requires ptr + |data| <= buf.Length
    modifies buf
    ensures buf[..] == old(buf[..ptr]) + data + old(buf[ptr + |data|..])
  {
    forall k | 0 <= k < |data| {
      buf[ptr + k] := data[k];
    }
  }

  /**
   * `net_send_all`: on the result |data| exactly `data` has been appended to the stream; on any other
   * result only a proper prefix has.
   */
  method NetSendAll(sock: Socket, data: seq<byte>) returns (n: int)
    modifies sock`outgoing, sock`script
    ensures forall o | o in sock.script :: o in old(sock.script)
    ensures -1 <= n <= |data|
    ensures n == |data| ==> sock.outgoing == old(sock.outgoing) + data
    ensures n != |data| ==> exists k | 0 <= k < |data| :: sock.outgoing == old(sock.outgoing) + data[..k]
    ensures Reliable(old(sock.script)) ==> n == |data|
  {
    var ptr: nat, remaining: nat := 0, |data|;
    while remaining > 0
      invariant ptr + remaining == |data|
      invariant sock.outgoing == old(sock.outgoing) + data[..ptr]
      invariant forall o | o in sock.script :: o in old(sock.script)
      decreases |sock.script| + remaining
    {
      var r := sock.Send(data[ptr..]);
      match r {
        case Blocked =>
        case Expired =>
        case Error => return -1;
        case Moved(sent) =>
          if sent == [] {
            return |data| - remaining;
          }
          assert data[..ptr] + sent == data[..ptr + |sent|];
          ptr, remaining := ptr + |sent|, remaining - |sent|;
      }
    }
    assert data[..ptr] == data;
    n := |data|;
  }

  /**
   * `net_send_all_timeout`: all of the data or -1, which a failing call or running out of time causes;
   * a call that takes nothing is repeated.
   */
  method NetSendAllTimeout(sock: Socket, data: seq<byte>) returns (n: int)
    modifies sock`outgoing, sock`script
    ensures forall o | o in sock.script :: o in old(sock.script)
    ensures n == |data| || n == -1
    ensures n == |data| ==> sock.outgoing == old(sock.outgoing) + data
    ensures n == -1 ==> Failed in old(sock.script) || TimedOut in old(sock.script)
    ensures n == -1 ==> exists k | 0 <= k < |data| :: sock.outgoing == old(sock.outgoing) + data[..k]
  {
    var ptr: nat, remaining: nat := 0, |data|;
    while remaining > 0
      invariant ptr + remaining == |data|
      invariant sock.outgoing == old(sock.outgoing) + data[..ptr]
      invariant forall o | o in sock.script :: o in old(sock.script)
      decreases |sock.script| + remaining
    {
      var r := sock.Send(data[ptr..]);
      match r {
        case Blocked =>
        case Expired => return -1;
        case Error => return -1;
        case Moved(sent) =>
          assert data[..ptr] + sent == data[..ptr + |sent|];
          ptr, remaining := ptr + |sent|, remaining - |sent|;
      }
    }
    assert data[..ptr] == data;
    n := |data|;
  }
}
