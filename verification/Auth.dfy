/** The preshared-token handshake of common/auth.c. */
module Auth {
  import opened Bytes
  import opened Net

  const AUTH_TOKEN_MAX_LEN: nat := 64
  const AUTH_WIRE_MAGIC: uint32 := 0x55424F4E
  const AUTH_WIRE_HEADER_LEN: nat := 5

  predicate Enabled(token: seq<byte>) {
    token != []
  }

  /** The bytes a client presents: magic, one length byte, the token. */
  function Handshake(token: seq<byte>): seq<byte>
    requires |token| <= AUTH_TOKEN_MAX_LEN
  {
    ToBe32(AUTH_WIRE_MAGIC) + [|token|] + token
  }

  /** What the comparison of `exp_len ^ tlen` folded to 8 bits and the OR-ed byte differences amounts to. */
  predicate Matches(expected: seq<byte>, got: seq<byte>) {
    |expected| % 0x100 == |got| && got <= expected
  }

  /** The length of the token field announced by a stream that starts with a well-formed handshake. */
  predicate Announces(stream: seq<byte>, tlen: nat) {
    && |stream| >= AUTH_WIRE_HEADER_LEN + tlen
    && Be32(stream[..4]) == AUTH_WIRE_MAGIC
    && stream[4] == tlen
    && 0 < tlen <= AUTH_TOKEN_MAX_LEN
  }

  /** The streams on which the server lets the peer through, and what it leaves unread. */
  predicate Accepts(expected: seq<byte>, stream: seq<byte>, rest: seq<byte>) {
    if !Enabled(expected) then rest == stream
    else
      && |stream| >= AUTH_WIRE_HEADER_LEN
      && var tlen := stream[4];
      && Announces(stream, tlen)
      && Matches(expected, stream[AUTH_WIRE_HEADER_LEN..AUTH_WIRE_HEADER_LEN + tlen])
      && rest == stream[AUTH_WIRE_HEADER_LEN + tlen..]
  }

  /** The constant-time comparison loop. */
  method CompareTokens(expected: seq<byte>, got: seq<byte>) returns (same: bool)
    requires 0 < |got| <= AUTH_TOKEN_MAX_LEN
    ensures same <==> Matches(expected, got)
  {
    var diff := Xor(|expected| % 0x100, |got|);
    XorZero(|expected| % 0x100, |got|);
    var i: nat := 0;
    while i < |expected| && i < |got|
      invariant i <= |expected| && i <= |got|
      invariant diff == 0 <==> |expected| % 0x100 == |got| && got[..i] == expected[..i]
    {
      XorZero(expected[i], got[i]);
      OrZero(diff, Xor(expected[i], got[i]));
      diff := Or(diff, Xor(expected[i], got[i]));
      assert got[..i + 1] == got[..i] + [got[i]] && expected[..i + 1] == expected[..i] + [expected[i]];
      i := i + 1;
    }
    same := diff == 0;
    if |expected| % 0x100 == |got| {
      assert i == |got| && got[..i] == got;
    }
  }

  /**
   * `auth_server_handshake`: lets the peer through only on an accepted stream, having read exactly the
   * handshake; turns an accepted stream away only if a call failed or the time ran out.
   */
  method ServerHandshake(sock: Socket, expected: seq<byte>) returns (ok: bool)
    modifies sock`incoming, sock`script
    ensures ok ==> Accepts(expected, old(sock.incoming), sock.incoming)
    ensures !ok && Failed !in old(sock.script) && TimedOut !in old(sock.script) ==>
      forall rest :: !Accepts(expected, old(sock.incoming), rest)
  {
    if !Enabled(expected) {
      return true;
    }
    ghost var stream := sock.incoming;
    var header := new byte[AUTH_WIRE_HEADER_LEN];
    var got := NetRecvAllTimeout(sock, header, AUTH_WIRE_HEADER_LEN);
    if got != AUTH_WIRE_HEADER_LEN {
      return false;
    }
    assert header[..] == header[..got] && header[..4] == stream[..4] && stream == header[..] + sock.incoming;
    if Be32(header[..4]) != AUTH_WIRE_MAGIC {
      return false;
    }
    var tlen := header[4];
    if tlen == 0 || tlen > AUTH_TOKEN_MAX_LEN {
      return false;
    }
    var token := new byte[AUTH_TOKEN_MAX_LEN + 1];
    got := NetRecvAllTimeout(sock, token, tlen);
    if got != tlen {
      return false;
    }
    assert stream[AUTH_WIRE_HEADER_LEN..] == token[..tlen] + sock.incoming;
    assert stream[AUTH_WIRE_HEADER_LEN..AUTH_WIRE_HEADER_LEN + tlen] == token[..tlen];
    ok := CompareTokens(expected, token[..tlen]);
  }

  /** `build_handshake`: the length written, 0 when there is nothing to send. */
  method BuildHandshake(buf: array<byte>, token: seq<byte>) returns (n: nat)
    modifies buf
    ensures n > 0 <==> 0 < |token| <= 64 && 5 + |token| <= buf.Length
    ensures n > 0 ==> n <= buf.Length && buf[..n] == Handshake(token)
  {
    if !Enabled(token) {
      return 0;
    }
    var tlen := |token|;
    if tlen > AUTH_TOKEN_MAX_LEN || AUTH_WIRE_HEADER_LEN + tlen > buf.Length {
      return 0;
    }
    var magic := ToBe32(AUTH_WIRE_MAGIC);
    buf[0], buf[1], buf[2], buf[3] := magic[0], magic[1], magic[2], magic[3];
    buf[4] := tlen;
    Store(buf, AUTH_WIRE_HEADER_LEN, token);
    n := AUTH_WIRE_HEADER_LEN + tlen;
    assert buf[..5] == magic + [tlen];
  }

  datatype ClientResult = Presented | InvalidParam | SendError

  /** `auth_client_handshake`: one handshake on the wire, or nothing when the token is empty or too long. */
  method ClientHandshake(sock: Socket, token: seq<byte>) returns (r: ClientResult)
    modifies sock`outgoing, sock`script
    ensures |token| > 64 <==> r.InvalidParam?
    ensures r.Presented? ==> sock.outgoing == old(sock.outgoing) + if Enabled(token) then Handshake(token) else []
    ensures r.InvalidParam? ==> sock.outgoing == old(sock.outgoing)
    ensures Reliable(old(sock.script)) ==> !r.SendError?
  {
    if !Enabled(token) {
      return Presented;
    }
    var buf := new byte[AUTH_WIRE_HEADER_LEN + AUTH_TOKEN_MAX_LEN];
    var len := BuildHandshake(buf, token);
    if len == 0 {
      return InvalidParam;
    }
    var sent := NetSendAll(sock, buf[..len]);
    r := if sent != len then SendError else Presented;
  }

  /** The handshake starts with the bytes of "UBON" and one with the length of the token. */
  lemma HandshakeLaidOut(token: seq<byte>)
    requires |token| <= AUTH_TOKEN_MAX_LEN
    ensures Handshake(token) == [0x55, 0x42, 0x4F, 0x4E, |token|] + token
  {
    MagicBytes(ToBe32(AUTH_WIRE_MAGIC));
    assert ToBe32(AUTH_WIRE_MAGIC) + [|token|] == [0x55, 0x42, 0x4F, 0x4E, |token|];
  }

  lemma MagicBytes(s: seq<byte>)
    requires |s| == 4
    ensures Be32(s) == AUTH_WIRE_MAGIC <==> s == [0x55, 0x42, 0x4F, 0x4E]
  {
    assert s[0..4] == s;
    Be32IsBig(s, 0);
    if Be32(s) == AUTH_WIRE_MAGIC {
      assert s[0] == 0x55 && s[1] == 0x42 && s[2] == 0x4F && s[3] == 0x4E;
    }
  }

  /**
   * The streams let through: all, unread, when no token is configured; otherwise exactly those that start with those
   * five bytes and a token of 1 to 64 bytes that the configured one starts with, of the same length up to 8 bits.
   */
  lemma AcceptsIff(expected: seq<byte>, stream: seq<byte>, rest: seq<byte>)
    ensures expected == [] ==> (Accepts(expected, stream, rest) <==> rest == stream)
    ensures expected != [] ==>
      (Accepts(expected, stream, rest) <==>
         exists token: seq<byte> | 0 < |token| <= 64 ::
           && token <= expected && |token| == |expected| % 0x100
           && stream == [0x55, 0x42, 0x4F, 0x4E, |token|] + token + rest)
  {
    if expected != [] && Accepts(expected, stream, rest) {
      var tlen := stream[4];
      var token := stream[5..5 + tlen];
      MagicBytes(stream[..4]);
      assert stream == stream[..4] + [tlen] + token + rest;
      assert stream[..4] + [tlen] == [0x55, 0x42, 0x4F, 0x4E, |token|];
    }
    if expected != [] {
      forall token: seq<byte> | 0 < |token| <= 64 && token <= expected && |token| == |expected| % 0x100
                                && stream == [0x55, 0x42, 0x4F, 0x4E, |token|] + token + rest
        ensures Accepts(expected, stream, rest)
      {
        assert stream[..4] == [0x55, 0x42, 0x4F, 0x4E];
        MagicBytes(stream[..4]);
        assert stream[5..5 + |token|] == token && stream[5 + |token|..] == rest;
      }
    }
  }

  /** A configured token of up to 256 bytes is matched by itself alone. */
  lemma MatchesIsEquality(expected: seq<byte>, got: seq<byte>)
    requires 0 < |expected| <= 0x100 && 0 < |got| <= AUTH_TOKEN_MAX_LEN
    ensures Matches(expected, got) <==> got == expected
  {
    if Matches(expected, got) {
      assert |expected| == |got|;
    }
  }

  /** Presenting a valid token gets through exactly when it is the configured one, leaving what follows unread. */
  lemma HandshakeRoundTrip(expected: seq<byte>, token: seq<byte>, rest: seq<byte>)
    requires 0 < |expected| <= 64 && 0 < |token| <= 64
    ensures token == expected ==> Accepts(expected, Handshake(token) + rest, rest)
    ensures token != expected ==> forall left :: !Accepts(expected, Handshake(token) + rest, left)
  {
    var stream := Handshake(token) + rest;
    assert stream[..4] == ToBe32(AUTH_WIRE_MAGIC);
    assert stream[AUTH_WIRE_HEADER_LEN..AUTH_WIRE_HEADER_LEN + |token|] == token;
    assert stream[AUTH_WIRE_HEADER_LEN + |token|..] == rest;
    MatchesIsEquality(expected, token);
  }

  /** The 8-bit length fold is an equality test for exactly these configured lengths. */
  predicate FoldIsExact(expected: seq<byte>) {
    |expected| <= 0x100 || |expected| % 0x100 == 0 || |expected| % 0x100 > AUTH_TOKEN_MAX_LEN
  }

  /** Only the configured token gets through if and only if the fold cannot confuse its length with a shorter one. */
  lemma OnlyTheTokenIff(expected: seq<byte>)
    requires Enabled(expected)
    ensures FoldIsExact(expected) <==>
      forall got: seq<byte> | 0 < |got| <= AUTH_TOKEN_MAX_LEN :: Matches(expected, got) ==> got == expected
  {
    if FoldIsExact(expected) {
      forall got: seq<byte> | 0 < |got| <= AUTH_TOKEN_MAX_LEN && Matches(expected, got) ensures got == expected {
        assert |expected| == |got|;
      }
    } else {
      var got := expected[..|expected| % 0x100];
      assert Matches(expected, got) && got != expected;
    }
  }
}
