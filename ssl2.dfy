/**
 * The SSL 2.0 probe: one fixed CLIENT-HELLO is sent, and the SERVER-HELLO
 * that comes back lists every cipher spec the server supports together with
 * its certificate. Message layouts are those of the Netscape SSL 2.0 draft
 * (draft-hickman-netscape-ssl-00); the CLIENT-HELLO is also the V2
 * CLIENT-HELLO of Appendix E.2 of RFC 5246.
 */
module Ssl2 {
  import opened Wrappers
  import opened M
  import opened IO

  // ---------------------------------------------------------------------------
  // Cipher-spec lists: 3-byte big-endian entries, one after the other

  predicate AllCipherSpecs(suites: seq<int>) {
    forall k :: 0 <= k < |suites| ==> 0 <= suites[k] < 0x100_0000
  }

  /** Entry k is the 24-bit value of bytes 3k .. 3k + 2; a trailing partial entry is ignored. */
  function DecodeCipherSpecs(cs: seq<byte>): (r: seq<int>)
    ensures |r| == |cs| / 3 && AllCipherSpecs(r)
  {
    seq(|cs| / 3, k requires 0 <= k < |cs| / 3 => Dec24be(cs, 3 * k))
  }

  function EncodeCipherSpecs(suites: seq<int>): (r: seq<byte>)
    requires AllCipherSpecs(suites)
    ensures |r| == 3 * |suites|
  {
    if suites == [] then [] else Enc24be(suites[0]) + EncodeCipherSpecs(suites[1..])
  }

  /** Decoding an encoded list of cipher specs gives the list back, in order. */
  lemma {:induction false} CipherSpecsRoundTrip(suites: seq<int>)
    requires AllCipherSpecs(suites)
    ensures DecodeCipherSpecs(EncodeCipherSpecs(suites)) == suites
  {
    if suites != [] {
      var tail := EncodeCipherSpecs(suites[1..]);
      var r := EncodeCipherSpecs(suites);
      CipherSpecsRoundTrip(suites[1..]);
      var d := DecodeCipherSpecs(r);
      forall k | 0 <= k < |suites| ensures d[k] == suites[k] {
        if k == 0 {
          assert Dec24be(r, 0) == Dec24be(Enc24be(suites[0]), 0);
        } else {
          assert Dec24be(r, 3 * k) == Dec24be(tail, 3 * (k - 1));
          assert DecodeCipherSpecs(tail)[k - 1] == suites[1..][k - 1];
        }
      }
    }
  }

  // ---------------------------------------------------------------------------
  // CLIENT-HELLO

  /** The seven SSL 2.0 cipher kinds offered, from SSL_CK_RC4_128_WITH_MD5 to SSL_CK_DES_192_EDE3_CBC_WITH_MD5. */
  const OfferedCipherSpecs: seq<int> :=
    [0x010080, 0x020080, 0x030080, 0x040080, 0x050080, 0x060040, 0x0700C0]

  /** The SSL2_CLIENT_HELLO constant. */
  const ClientHello: seq<byte> :=
    [0x80, 0x2E, 0x01, 0x00, 0x02, 0x00, 0x15, 0x00, 0x00, 0x00, 0x10]
    + [ 0x01, 0x00, 0x80,
        0x02, 0x00, 0x80,
        0x03, 0x00, 0x80,
        0x04, 0x00, 0x80,
        0x05, 0x00, 0x80,
        0x06, 0x00, 0x40,
        0x07, 0x00, 0xC0 ]
    + [ 0x54, 0x54, 0x54, 0x54,
        0x54, 0x54, 0x54, 0x54,
        0x54, 0x54, 0x54, 0x54,
        0x54, 0x54, 0x54, 0x54 ]

  /** The record header: high bit set, and the length of the rest of the message. */
  lemma ClientHelloRecord()
    ensures |ClientHello| == 48 && ClientHello[0] >= 0x80
    ensures Dec16be(ClientHello, 0) - 0x8000 == |ClientHello| - 2
  {
  }

  /** Message type 1 (CLIENT-HELLO) and version 0x0002. */
  lemma ClientHelloTypeAndVersion()
    ensures ClientHello[2] == 0x01 && Dec16be(ClientHello, 3) == 0x0002
  {
  }

  /**
   * The three lengths: 21 bytes of cipher specs (seven entries), no session
   * id, a 16-byte challenge; together with the 11 fixed bytes they fill the
   * message exactly.
   */
  lemma ClientHelloLengths()
    ensures Dec16be(ClientHello, 5) == 3 * |OfferedCipherSpecs| == 21
    ensures Dec16be(ClientHello, 7) == 0 && Dec16be(ClientHello, 9) == 16
    ensures 11 + Dec16be(ClientHello, 5) + Dec16be(ClientHello, 7) + Dec16be(ClientHello, 9) == |ClientHello|
  {
  }

  /** The cipher-spec list decodes to the seven offered kinds, and the challenge is sixteen 0x54 bytes. */
  lemma ClientHelloBody()
    ensures DecodeCipherSpecs(ClientHello[11..32]) == OfferedCipherSpecs
    ensures ClientHello[32..] == seq(16, _ => 0x54)
  {
  }

  // ---------------------------------------------------------------------------
  // SERVER-HELLO, as a function of the bytes the server sends

  /** Why the constructor gives up: a short read, or the message it names in its IOException. */
  datatype Failure = EndOfStream | NotSsl2Record | NotServerHello

  /** What a SERVER-HELLO tells the client. */
  datatype ServerHello = ServerHello(certificate: seq<byte>, cipherSuites: seq<int>)

  /** The three lengths of the fixed part of a SERVER-HELLO. */
  datatype Lengths = Lengths(certLen: nat, csLen: nat, connIdLen: nat)

  /** The result of parsing, and how many bytes were read from the stream meanwhile. */
  datatype Outcome<T> = Outcome(result: Result<T, Failure>, consumed: nat)

  /**
   * The first two reads of the SSL2(Stream) constructor: the 2-byte record
   * header and the 11 fixed bytes of the message, with each check in source
   * order and the bytes read up to the point where it stops (a short read
   * consumes everything that is left).
   */
  function ParsePrefix(data: seq<byte>): (o: Outcome<Lengths>)
    ensures o.consumed <= |data|
    ensures o.result.Success? ==> o.consumed == 13
  {
    if |data| < 2 then Outcome(Failure(EndOfStream), |data|)
    else
      var header := Dec16be(data, 0);
      // (header & 0x8000) == 0
      if header < 0x8000 then Outcome(Failure(NotSsl2Record), 2)
      else
        // header & 0x7FFF
        var len := header - 0x8000;
        if len < 11 then Outcome(Failure(NotServerHello), 2)
        else if |data| < 13 then Outcome(Failure(EndOfStream), |data|)
        else if data[2] != 0x04 then Outcome(Failure(NotServerHello), 13)
        else
          var certLen := Dec16be(data, 7);
          var csLen := Dec16be(data, 9);
          var connIdLen := Dec16be(data, 11);
          if len != 11 + certLen + csLen + connIdLen then Outcome(Failure(NotServerHello), 13)
          else if csLen == 0 || csLen % 3 != 0 then Outcome(Failure(NotServerHello), 13)
          else Outcome(Success(Lengths(certLen, csLen, connIdLen)), 13)
  }

  /**
   * The last three reads of the SSL2(Stream) constructor, on the bytes after
   * the prefix: certificate, cipher specs and connection id (a short read
   * consumes everything that is left).
   */
  function ParseBody(rest: seq<byte>, n: Lengths): (o: Outcome<ServerHello>)
    ensures o.consumed <= |rest|
    ensures o.result.Success? <==> n.certLen + n.csLen + n.connIdLen <= |rest|
    ensures o.result.Failure? ==> o.result.error == EndOfStream && o.consumed == |rest|
    ensures o.result.Success? ==>
      && o.consumed == n.certLen + n.csLen + n.connIdLen
      && |o.result.value.certificate| == n.certLen
      && |o.result.value.cipherSuites| == n.csLen / 3
  {
    if |rest| < n.certLen + n.csLen + n.connIdLen then Outcome(Failure(EndOfStream), |rest|)
    else
      var hello := ServerHello(rest[..n.certLen], DecodeCipherSpecs(rest[n.certLen..n.certLen + n.csLen]));
      Outcome(Success(hello), n.certLen + n.csLen + n.connIdLen)
  }

  /** The whole SSL2(Stream) constructor on the bytes the server sends. */
  function ParseServerHello(data: seq<byte>): (o: Outcome<ServerHello>)
    ensures o.consumed <= |data|
  {
    var p := ParsePrefix(data);
    if p.result.Failure? then Outcome(Failure(p.result.error), p.consumed)
    else
      var b := ParseBody(data[13..], p.result.value);
      Outcome(b.result, 13 + b.consumed)
  }

  /** The 13-byte prefix is there, the high bit is set, the length is at least 11 and the type is 4. */
  predicate PrefixShape(data: seq<byte>) {
    |data| >= 13 && data[0] >= 0x80 && Dec16be(data, 0) - 0x8000 >= 11 && data[2] == 0x04
  }

  /** Each reason the source gives for rejecting a response, with the exception it throws. */
  lemma ServerHelloRejections(data: seq<byte>)
    ensures |data| < 2 ==> ParseServerHello(data).result == Failure(EndOfStream)
    ensures |data| >= 2 && data[0] < 0x80 ==> ParseServerHello(data).result == Failure(NotSsl2Record)
    ensures |data| >= 2 && data[0] >= 0x80 && Dec16be(data, 0) - 0x8000 < 11 ==>
      ParseServerHello(data).result == Failure(NotServerHello)
    ensures 2 <= |data| < 13 && data[0] >= 0x80 && Dec16be(data, 0) - 0x8000 >= 11 ==>
      ParseServerHello(data).result == Failure(EndOfStream)
    ensures |data| >= 13 && data[0] >= 0x80 && Dec16be(data, 0) - 0x8000 >= 11 && data[2] != 0x04 ==>
      ParseServerHello(data).result == Failure(NotServerHello)
    ensures PrefixShape(data) && Dec16be(data, 0) - 0x8000 != 11 + Dec16be(data, 7) + Dec16be(data, 9) + Dec16be(data, 11) ==>
      ParseServerHello(data).result == Failure(NotServerHello)
    ensures PrefixShape(data) && (Dec16be(data, 9) == 0 || Dec16be(data, 9) % 3 != 0) ==>
      ParseServerHello(data).result == Failure(NotServerHello)
    ensures PrefixShape(data) && |data| < 2 + (Dec16be(data, 0) - 0x8000) ==>
      ParseServerHello(data).result.Failure?
  {
  }

  /**
   * What an accepted response consists of: the high bit set, message type 4,
   * exactly 2 + (header & 0x7FFF) bytes consumed, the certLen bytes after the
   * 13-byte prefix as certificate, and csLen / 3 cipher specs, each the 24-bit
   * value of the next three bytes of the list, in wire order.
   */
  lemma ServerHelloAccepted(data: seq<byte>)
    requires ParseServerHello(data).result.Success?
    ensures |data| >= 13 && data[0] >= 0x80 && data[2] == 0x04
    ensures var o := ParseServerHello(data);
      var certLen := Dec16be(data, 7);
      var csLen := Dec16be(data, 9);
      && o.consumed == 2 + Dec16be(data, 0) % 0x8000 <= |data|
      && o.consumed == 13 + certLen + csLen + Dec16be(data, 11)
      && o.result.value.certificate == data[13..13 + certLen]
      && csLen > 0 && csLen % 3 == 0
      && |o.result.value.cipherSuites| == csLen / 3 >= 1
      && (forall k :: 0 <= k < csLen / 3 ==>
            o.result.value.cipherSuites[k] == Dec24be(data, 13 + certLen + 3 * k) < 0x100_0000)
  {
    var certLen := Dec16be(data, 7);
    var csLen := Dec16be(data, 9);
    var cs := data[13 + certLen..13 + certLen + csLen];
    forall k | 0 <= k < csLen / 3
      ensures DecodeCipherSpecs(cs)[k] == Dec24be(data, 13 + certLen + 3 * k)
    {
      assert cs[3 * k] == data[13 + certLen + 3 * k];
      assert cs[3 * k + 1] == data[13 + certLen + 3 * k + 1];
      assert cs[3 * k + 2] == data[13 + certLen + 3 * k + 2];
    }
  }

  /** Bytes after the record are never looked at. */
  lemma ServerHelloIgnoresTrailing(data: seq<byte>, extra: seq<byte>)
    requires ParseServerHello(data).result.Success?
    ensures ParseServerHello(data + extra) == ParseServerHello(data)
  {
    var d := data + extra;
    assert ParsePrefix(d) == ParsePrefix(data);
    var n := ParsePrefix(data).result.value;
    var rest := data[13..];
    assert d[13..] == rest + extra;
    assert (rest + extra)[..n.certLen] == rest[..n.certLen];
    assert (rest + extra)[n.certLen..n.certLen + n.csLen] == rest[n.certLen..n.certLen + n.csLen];
  }

  // ---------------------------------------------------------------------------
  // Building a SERVER-HELLO: the partner of the parser

  predicate FitsServerHello(certificate: seq<byte>, suites: seq<int>, connId: seq<byte>) {
    1 <= |suites| && AllCipherSpecs(suites)
    && 11 + |certificate| + 3 * |suites| + |connId| < 0x8000
  }

  /**
   * The 13 fixed bytes of a SERVER-HELLO: the record header, message type 4,
   * session-id-hit, certificate type, version and the three lengths.
   */
  function ServerHelloPrefix(hit: byte, certType: byte, version: int,
                             certLen: nat, csLen: nat, connIdLen: nat): (h: seq<byte>)
    requires 0 <= version < 0x1_0000 && 11 + certLen + csLen + connIdLen < 0x8000
    ensures |h| == 13 && h[2] == 0x04
    ensures Dec16be(h, 0) == 0x8000 + 11 + certLen + csLen + connIdLen
    ensures Dec16be(h, 7) == certLen && Dec16be(h, 9) == csLen && Dec16be(h, 11) == connIdLen
  {
    var n := Enc16be(0x8000 + 11 + certLen + csLen + connIdLen);
    var v := Enc16be(version);
    var c := Enc16be(certLen);
    var s := Enc16be(csLen);
    var i := Enc16be(connIdLen);
    [n[0], n[1], 0x04, hit, certType, v[0], v[1], c[0], c[1], s[0], s[1], i[0], i[1]]
  }

  /** A SERVER-HELLO: the fixed bytes, then certificate, cipher specs and connection id. */
  function EncodeServerHello(hit: byte, certType: byte, version: int,
                             certificate: seq<byte>, suites: seq<int>, connId: seq<byte>): (r: seq<byte>)
    requires 0 <= version < 0x1_0000 && FitsServerHello(certificate, suites, connId)
    ensures |r| == 13 + |certificate| + 3 * |suites| + |connId|
  {
    ServerHelloPrefix(hit, certType, version, |certificate|, 3 * |suites|, |connId|)
      + (certificate + EncodeCipherSpecs(suites) + connId)
  }

  /** The fixed bytes read the same whatever follows them. */
  lemma PrefixFieldsStay(h: seq<byte>, t: seq<byte>)
    requires |h| == 13
    ensures (h + t)[2] == h[2] && Dec16be(h + t, 0) == Dec16be(h, 0)
    ensures Dec16be(h + t, 7) == Dec16be(h, 7) && Dec16be(h + t, 9) == Dec16be(h, 9)
    ensures Dec16be(h + t, 11) == Dec16be(h, 11)
  {
  }

  lemma SlicesOfConcat<X>(h: seq<X>, a: seq<X>, b: seq<X>, c: seq<X>)
    ensures (h + (a + b + c))[|h|..|h| + |a|] == a
    ensures (h + (a + b + c))[|h| + |a|..|h| + |a| + |b|] == b
  {
    var e := h + (a + b + c);
    assert e[|h|..] == a + b + c;
  }

  /** The fixed part of an encoded SERVER-HELLO carries the lengths the parser reads back. */
  lemma ServerHelloFields(hit: byte, certType: byte, version: int,
                          certificate: seq<byte>, suites: seq<int>, connId: seq<byte>)
    requires 0 <= version < 0x1_0000 && FitsServerHello(certificate, suites, connId)
    ensures var e := EncodeServerHello(hit, certType, version, certificate, suites, connId);
      && Dec16be(e, 0) == 0x8000 + 11 + |certificate| + 3 * |suites| + |connId|
      && e[2] == 0x04
      && Dec16be(e, 7) == |certificate| && Dec16be(e, 9) == 3 * |suites| && Dec16be(e, 11) == |connId|
      && e[13..13 + |certificate|] == certificate
      && e[13 + |certificate|..13 + |certificate| + |EncodeCipherSpecs(suites)|] == EncodeCipherSpecs(suites)
  {
    var h := ServerHelloPrefix(hit, certType, version, |certificate|, 3 * |suites|, |connId|);
    var cs := EncodeCipherSpecs(suites);
    var e := EncodeServerHello(hit, certType, version, certificate, suites, connId);
    assert e == h + (certificate + cs + connId);
    SlicesOfConcat(h, certificate, cs, connId);
    assert e[13..13 + |certificate|] == certificate;
    assert e[13 + |certificate|..13 + |certificate| + |cs|] == cs;
    PrefixFieldsStay(h, certificate + cs + connId);
  }

  /** A SERVER-HELLO given to the parser is read back exactly, whatever follows it. */
  lemma ServerHelloRoundTrip(hit: byte, certType: byte, version: int,
                             certificate: seq<byte>, suites: seq<int>, connId: seq<byte>, rest: seq<byte>)
    requires 0 <= version < 0x1_0000 && FitsServerHello(certificate, suites, connId)
    ensures var e := EncodeServerHello(hit, certType, version, certificate, suites, connId);
      ParseServerHello(e + rest) == Outcome(Success(ServerHello(certificate, suites)), |e|)
  {
    var e := EncodeServerHello(hit, certType, version, certificate, suites, connId);
    ServerHelloFields(hit, certType, version, certificate, suites, connId);
    CipherSpecsRoundTrip(suites);
    var cs := EncodeCipherSpecs(suites);
    assert ParsePrefix(e).result == Success(Lengths(|certificate|, |cs|, |connId|));
    assert e[13..][..|certificate|] == e[13..13 + |certificate|];
    assert e[13..][|certificate|..|certificate| + |cs|] == e[13 + |certificate|..13 + |certificate| + |cs|];
    assert ParseServerHello(e) == Outcome(Success(ServerHello(certificate, suites)), |e|);
    ServerHelloIgnoresTrailing(e, rest);
  }

  /**
   * A server that speaks only SSL 2.0, offering cipher specs 0x010080 and
   * 0x020080 with a 5-byte certificate: the probe reports exactly those two
   * specs, in that order, and that certificate.
   */
  lemma LegacyOnlyServer(certificate: seq<byte>, connId: seq<byte>, rest: seq<byte>)
    requires |certificate| == 5 && |connId| == 16
    ensures var e := EncodeServerHello(0, 1, 0x0002, certificate, [0x010080, 0x020080], connId);
      |e| == 40 && ParseServerHello(e + rest) == Outcome(Success(ServerHello(certificate, [0x010080, 0x020080])), 40)
  {
    ServerHelloRoundTrip(0, 1, 0x0002, certificate, [0x010080, 0x020080], connId, rest);
  }

  // ---------------------------------------------------------------------------
  // The SSL2 class

  class SSL2 {
    var cipherSuites: array<int>
    var certificate: array<byte>

    /** What a parsed SERVER-HELLO guarantees: at least one 24-bit cipher spec, and lengths that fit the record. */
    ghost predicate Valid()
      reads this, cipherSuites
    {
      && 1 <= cipherSuites.Length
      && 11 + certificate.Length + 3 * cipherSuites.Length < 0x8000
      && forall k :: 0 <= k < cipherSuites.Length ==> 0 <= cipherSuites[k] < 0x100_0000
    }

    /**
     * Stores the two arrays the parser built; Read below is the source's
     * parsing constructor and calls this one once every check has passed.
     */
    constructor (certificate: array<byte>, cipherSuites: array<int>)
      requires 1 <= cipherSuites.Length
      requires 11 + certificate.Length + 3 * cipherSuites.Length < 0x8000
      requires forall k :: 0 <= k < cipherSuites.Length ==> 0 <= cipherSuites[k] < 0x100_0000
      ensures this.certificate == certificate && this.cipherSuites == cipherSuites
      ensures Valid()
    {
      this.certificate := certificate;
      this.cipherSuites := cipherSuites;
    }

    /** The CipherSuites property: the server's cipher specs, each a 24-bit value. */
    function CipherSuites(): (r: array<int>)
      reads this, cipherSuites
      requires Valid()
      ensures r == cipherSuites && 1 <= r.Length
      ensures forall k :: 0 <= k < r.Length ==> 0 <= r[k] < 0x100_0000
    {
      cipherSuites
    }

    /** The Certificate property: the certificate bytes, which fit in one record with the cipher specs. */
    function Certificate(): (r: array<byte>)
      reads this, cipherSuites
      requires Valid()
      ensures r == certificate && 11 + r.Length + 3 * cipherSuites.Length < 0x8000
    {
      certificate
    }

    /** The first two reads and their checks; a Failure stands for the exception thrown. */
    static method ReadPrefix(ss: Stream) returns (r: Result<Lengths, Failure>)
      requires ss.Valid()
      modifies ss
      ensures ss.Valid() && ss.input == old(ss.input) && ss.output == old(ss.output)
      ensures r == ParsePrefix(old(ss.Remaining())).result
      ensures ss.pos == old(ss.pos) + ParsePrefix(old(ss.Remaining())).consumed
    {
      ghost var data := ss.Remaining();
      // Record length
      var buf := new byte[2];
      var ok := ss.ReadFully(buf);
      if !ok {
        return Failure(EndOfStream);
      }
      assert buf[..] == data[..2];
      var len := Dec16be(buf[..], 0);
      if len < 0x8000 {
        return Failure(NotSsl2Record);
      }
      len := len - 0x8000;
      if len < 11 {
        return Failure(NotServerHello);
      }
      buf := new byte[11];
      ok := ss.ReadFully(buf);
      if !ok {
        return Failure(EndOfStream);
      }
      assert buf[..] == data[2..13];
      if buf[0] != 0x04 {
        return Failure(NotServerHello);
      }
      var certLen := Dec16be(buf[..], 5);
      var csLen := Dec16be(buf[..], 7);
      var connIdLen := Dec16be(buf[..], 9);
      if len != 11 + certLen + csLen + connIdLen {
        return Failure(NotServerHello);
      }
      if csLen == 0 || csLen % 3 != 0 {
        return Failure(NotServerHello);
      }
      return Success(Lengths(certLen, csLen, connIdLen));
    }

    /** The reads of certificate, cipher specs and connection id, once the prefix has passed. */
    static method ReadBody(ss: Stream, n: Lengths) returns (r: Result<SSL2, Failure>)
      requires ss.Valid() && 1 <= n.csLen && n.csLen % 3 == 0
      requires 11 + n.certLen + n.csLen + n.connIdLen < 0x8000
      modifies ss
      ensures ss.Valid() && ss.input == old(ss.input) && ss.output == old(ss.output)
      ensures ss.pos == old(ss.pos) + ParseBody(old(ss.Remaining()), n).consumed
      ensures r.Failure? <==> ParseBody(old(ss.Remaining()), n).result.Failure?
      ensures r.Failure? ==> r.error == EndOfStream
      ensures r.Success? ==>
        && fresh(r.value) && fresh(r.value.certificate) && fresh(r.value.cipherSuites)
        && r.value.Valid()
        && ParseBody(old(ss.Remaining()), n).result.value
             == ServerHello(r.value.certificate[..], r.value.cipherSuites[..])
    {
      ghost var p0 := ss.pos;
      ghost var rest := ss.Remaining();
      var certificate := new byte[n.certLen];
      var ok := ss.ReadFully(certificate);
      if !ok {
        return Failure(EndOfStream);
      }
      var cs := new byte[n.csLen];
      ok := ss.ReadFully(cs);
      if !ok {
        return Failure(EndOfStream);
      }
      var connId := new byte[n.connIdLen];
      ok := ss.ReadFully(connId);
      if !ok {
        return Failure(EndOfStream);
      }
      ghost var c := certificate[..];
      ghost var b := cs[..];
      assert c == rest[..n.certLen] by {
        assert rest[..n.certLen] == ss.input[p0..p0 + n.certLen];
      }
      assert b == rest[n.certLen..n.certLen + n.csLen] by {
        assert rest[n.certLen..n.certLen + n.csLen] == ss.input[p0 + n.certLen..p0 + n.certLen + n.csLen];
      }
      var cipherSuites := DecodeCipherSpecArray(cs);
      var hello := new SSL2(certificate, cipherSuites);
      assert ParseBody(rest, n).result.value == ServerHello(c, DecodeCipherSpecs(b));
      return Success(hello);
    }

    /**
     * The SSL2(Stream) constructor: reads and checks a SERVER-HELLO from the
     * stream. A Failure stands for the exception the constructor throws.
     */
    static method Read(ss: Stream) returns (r: Result<SSL2, Failure>)
      requires ss.Valid()
      modifies ss
      ensures ss.Valid() && ss.input == old(ss.input) && ss.output == old(ss.output)
      ensures ss.pos == old(ss.pos) + ParseServerHello(old(ss.Remaining())).consumed
      ensures r.Failure? <==> ParseServerHello(old(ss.Remaining())).result.Failure?
      ensures r.Failure? ==> ParseServerHello(old(ss.Remaining())).result == Failure(r.error)
      ensures r.Success? ==>
        && fresh(r.value) && fresh(r.value.certificate) && fresh(r.value.cipherSuites)
        && r.value.Valid()
        && ParseServerHello(old(ss.Remaining())).result.value
             == ServerHello(r.value.certificate[..], r.value.cipherSuites[..])
    {
      ghost var data := ss.Remaining();
      var pre := ReadPrefix(ss);
      if pre.Failure? {
        return Failure(pre.error);
      }
      assert ss.Remaining() == data[13..];
      r := ReadBody(ss, pre.value);
    }

    /** The loop that turns the cipher-spec bytes into 24-bit values, three bytes at a time. */
    static method DecodeCipherSpecArray(cs: array<byte>) returns (suites: array<int>)
      requires cs.Length % 3 == 0
      ensures fresh(suites) && suites[..] == DecodeCipherSpecs(cs[..])
      ensures 3 * suites.Length == cs.Length
      ensures forall k :: 0 <= k < suites.Length ==> 0 <= suites[k] < 0x100_0000
    {
      suites := new int[cs.Length / 3];
      var i, j := 0, 0;
      while i < cs.Length
        invariant 0 <= j <= cs.Length / 3 && i == 3 * j
        invariant forall k :: 0 <= k < j ==> suites[k] == Dec24be(cs[..], 3 * k)
        modifies suites
      {
        suites[j] := Dec24be(cs[..], i);
        i, j := i + 3, j + 1;
      }
    }

    /**
     * TestServer: writes the CLIENT-HELLO, then parses the answer; any failure
     * gives null.
     */
    static method TestServer(ss: Stream) returns (r: SSL2?)
      requires ss.Valid()
      modifies ss
      ensures ss.Valid() && ss.input == old(ss.input)
      ensures ss.output == old(ss.output) + ClientHello
      ensures ss.pos == old(ss.pos) + ParseServerHello(old(ss.Remaining())).consumed
      ensures r == null <==> ParseServerHello(old(ss.Remaining())).result.Failure?
      ensures r != null ==>
        && fresh(r) && fresh(r.certificate) && fresh(r.cipherSuites) && r.Valid()
        && ParseServerHello(old(ss.Remaining())).result.value
             == ServerHello(r.certificate[..], r.cipherSuites[..])
    {
      ss.Write(ClientHello);
      var hello := Read(ss);
      match hello
      case Success(h) => return h;
      case Failure(_) => return null;
    }
  }
}
