/** The frame that crosses the DTLS session: the 4-tuple a datagram had, then its payload. */
module Frame {
  newtype Byte = x: int | 0 <= x < 256

  type Port = x: int | 0 <= x < 65536

  datatype Quad = Quad(a: Byte, b: Byte, c: Byte, d: Byte)

  /** A `netip.Addr`: the zero value, IPv4, IPv4 mapped into IPv6, or any other IPv6. */
  datatype Addr = NoAddr | V4(quad: Quad) | Mapped(quad: Quad) | V6(bits: nat)

  datatype Endpoint = Endpoint(addr: Addr, port: Port)

  const NOWHERE := Endpoint(NoAddr, 0)

  datatype Datagram = Datagram(src: Endpoint, dst: Endpoint, payload: seq<Byte>)

  datatype Decoded = Short | Frame(datagram: Datagram)

  const HEADER: nat := 12
  const MAX_UDP_PAYLOAD: nat := 65507    // 65535 less the IPv4 and UDP headers
  const READ_BUFFER: nat := 65535
  const FRAME_CAPACITY: nat := READ_BUFFER + HEADER

  /** `As4` is defined; on the zero address and on other IPv6 addresses it panics. */
  predicate HasAs4(a: Addr) {
    a.V4? || a.Mapped?
  }

  predicate Encodable(d: Datagram) {
    HasAs4(d.src.addr) && HasAs4(d.dst.addr)
  }

  function Unmap(e: Endpoint): Endpoint {
    if e.addr.Mapped? then e.(addr := V4(e.addr.quad)) else e
  }

  function Unmapped(d: Datagram): Datagram {
    Datagram(Unmap(d.src), Unmap(d.dst), d.payload)
  }

  /** An address and a port as they stand in the header. */
  function EndpointBytes(e: Endpoint): (r: seq<Byte>)
    requires HasAs4(e.addr)
    ensures |r| == 6
  {
    var q := e.addr.quad;
    [q.a, q.b, q.c, q.d, (e.port / 256) as Byte, (e.port % 256) as Byte]
  }

  function EndpointAt(b: seq<Byte>): Endpoint
    requires |b| == 6
  {
    Endpoint(V4(Quad(b[0], b[1], b[2], b[3])), (b[4] as int) * 256 + b[5] as int)
  }

  function Encode(d: Datagram): (r: seq<Byte>)
    requires Encodable(d)
    ensures |r| == HEADER + |d.payload|
  {
    EndpointBytes(d.src) + EndpointBytes(d.dst) + d.payload
  }

  function Decode(b: seq<Byte>): Decoded {
    if |b| < HEADER then Short
    else Frame(Datagram(EndpointAt(b[0..6]), EndpointAt(b[6..12]), b[HEADER..]))
  }

  lemma EndpointRoundTrip(e: Endpoint)
    requires HasAs4(e.addr)
    ensures EndpointAt(EndpointBytes(e)) == Unmap(e)
  {
  }

  lemma EndpointBytesRoundTrip(b: seq<Byte>)
    requires |b| == 6
    ensures EndpointBytes(EndpointAt(b)) == b
  {
    var port := (b[4] as int) * 256 + b[5] as int;
    assert port / 256 == b[4] as int && port % 256 == b[5] as int;
  }

  /** Decoding inverts encoding; a mapped address comes back as the IPv4 one. */
  lemma DecodeEncode(d: Datagram)
    requires Encodable(d)
    ensures Decode(Encode(d)) == Frame(Unmapped(d))
  {
    var b := Encode(d);
    assert b[0..6] == EndpointBytes(d.src);
    assert b[6..12] == EndpointBytes(d.dst);
    assert b[HEADER..] == d.payload;
    EndpointRoundTrip(d.src);
    EndpointRoundTrip(d.dst);
  }

  /** The bytes on the wire: source, then destination, ports big-endian, then the payload. */
  lemma HeaderLayout(d: Datagram)
    requires Encodable(d)
    ensures var b := Encode(d);
            && d.src.addr.quad == Quad(b[0], b[1], b[2], b[3])
            && d.src.port == (b[4] as int) * 256 + b[5] as int
            && d.dst.addr.quad == Quad(b[6], b[7], b[8], b[9])
            && d.dst.port == (b[10] as int) * 256 + b[11] as int
            && d.payload == b[12..]
  {
  }

  /** A record decodes if and only if it holds a header, and re-encoding restores it. */
  lemma EncodeDecode(b: seq<Byte>)
    ensures Decode(b).Frame? <==> |b| >= HEADER
    ensures Decode(b).Frame? ==> Encodable(Decode(b).datagram) && Encode(Decode(b).datagram) == b
    ensures Decode(b).Frame? ==> Unmapped(Decode(b).datagram) == Decode(b).datagram
  {
    if |b| >= HEADER {
      EndpointBytesRoundTrip(b[0..6]);
      EndpointBytesRoundTrip(b[6..12]);
      assert b == b[0..6] + b[6..12] + b[HEADER..];
    }
  }

  /** Two datagrams share a frame exactly when they differ at most in how they are mapped. */
  lemma EncodeInjective(d: Datagram, d': Datagram)
    requires Encodable(d) && Encodable(d')
    ensures Encode(d) == Encode(d') <==> Unmapped(d) == Unmapped(d')
  {
    DecodeEncode(d);
    DecodeEncode(d');
    if Unmapped(d) == Unmapped(d') {
      assert EndpointBytes(d.src) == EndpointBytes(d'.src);
      assert EndpointBytes(d.dst) == EndpointBytes(d'.dst);
    }
  }

  /** Whatever a UDP socket can hand over fits the sender's and the receiver's buffers. */
  lemma FrameFits(d: Datagram)
    requires Encodable(d) && |d.payload| <= MAX_UDP_PAYLOAD
    ensures |Encode(d)| <= FRAME_CAPACITY && |Encode(d)| <= READ_BUFFER
  {
  }

  /** Writes `e` at `at`, leaving the rest of the buffer alone. */
  method PutEndpoint(out: array<Byte>, at: nat, e: Endpoint)
    requires HasAs4(e.addr) && at + 6 <= out.Length
    modifies out
    ensures out[at..at + 6] == EndpointBytes(e)
    ensures out[..at] == old(out[..at]) && out[at + 6..] == old(out[at + 6..])
  {
    var q := e.addr.quad;
    out[at], out[at + 1], out[at + 2], out[at + 3] := q.a, q.b, q.c, q.d;
    out[at + 4], out[at + 5] := (e.port / 256) as Byte, (e.port % 256) as Byte;
  }

  /**
   * `encodeFrame`: overwrites the caller's buffer from its start when the frame fits, and
   * otherwise leaves the frame in a new one. Nothing of an earlier frame shows through.
   */
  method EncodeFrame(dst: array<Byte>, src: Endpoint, to: Endpoint, payload: array<Byte>, n: nat)
    returns (out: array<Byte>, len: nat)
    requires HasAs4(src.addr) && HasAs4(to.addr)
    requires n <= payload.Length && payload != dst
    modifies dst
    ensures len <= out.Length && out[..len] == Encode(Datagram(src, to, payload[..n]))
    ensures if HEADER + n <= dst.Length then out == dst else fresh(out)
  {
    len := HEADER + n;
    out := dst;
    if dst.Length < len {
      out := new Byte[len](_ => 0);
    }
    PutEndpoint(out, 0, src);
    assert out[0..6] == out[..6];
    PutEndpoint(out, 6, to);
    ghost var header := EndpointBytes(src) + EndpointBytes(to);
    assert out[..12] == out[..6] + out[6..12] == header;
    for i := 0 to n
      invariant out[..12] == header
      invariant out[12..12 + i] == payload[..i]
      modifies out
    {
      out[12 + i] := payload[i];
      assert out[12..12 + i + 1] == out[12..12 + i] + [payload[i]];
    }
    assert out[..len] == out[..12] + out[12..12 + n];
  }
}
