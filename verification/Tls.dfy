/** The TLS 1.3 key schedule, handshake messages and record framing the NIC produces.
    SHA-384, HMAC, HKDF-Expand-Label and AES-256-GCM are parameters (`Prims`). */
module Tls {
  import opened Bytes
  import opened Bits
  import opened Hkdf

  datatype Prims = Prims(sha: bytes -> bytes,
                         hmac: Hmac,
                         expand: (bytes, Label, bytes, nat) -> bytes,          // secret, label, context, length
                         seal: (bytes, bytes, bytes, bytes) -> bytes,          // key, nonce, aad, plaintext
                         open: (bytes, bytes, bytes, bytes) -> Option<bytes>)  // key, nonce, aad, ciphertext

  const TAG: nat := 16

  /** What the proofs use of the primitives: output lengths, and that decryption undoes encryption. */
  ghost predicate Sound(p: Prims)
  {
    && HmacLength(p.hmac, HASH48)
    && (forall m: bytes :: |p.sha(m)| == HASH48)
    && (forall s: bytes, l: Label, c: bytes, n: nat :: |p.expand(s, l, c, n)| == n)
    && (forall k: bytes, n: bytes, a: bytes, m: bytes :: |p.seal(k, n, a, m)| == |m| + TAG)
    && (forall k: bytes, n: bytes, a: bytes, m: bytes :: p.open(k, n, a, p.seal(k, n, a, m)) == Some(m))
  }

  /** The expansion hkdf_expand_label computes over a given HMAC has the length `Sound` asks for. */
  lemma ExpandLabelIsSound(hmac: Hmac, secret: bytes, name: Label, context: bytes, length: nat)
    requires HmacLength(hmac, HASH48)
    ensures |ExpandLabel(hmac, secret, LabelText(name), context, length)| == length
  {
    ExpandLength(hmac, secret, HkdfLabel(length, LabelText(name), context), length, HASH48);
  }

  // ---------------------------------------------------------------- key schedule, section 7.1 of RFC 8446

  datatype Label = Derived | ClientHs | ServerHs | ClientAp | ServerAp | Key | Iv | FinishedKey

  /** "derived", "c hs traffic", "s hs traffic", "c ap traffic", "s ap traffic", "key", "iv", "finished" */
  function LabelText(l: Label): bytes
  {
    match l
    case Derived => [0x64, 0x65, 0x72, 0x69, 0x76, 0x65, 0x64]
    case ClientHs => [0x63, 0x20, 0x68, 0x73] + TRAFFIC
    case ServerHs => [0x73, 0x20, 0x68, 0x73] + TRAFFIC
    case ClientAp => [0x63, 0x20, 0x61, 0x70] + TRAFFIC
    case ServerAp => [0x73, 0x20, 0x61, 0x70] + TRAFFIC
    case Key => [0x6b, 0x65, 0x79]
    case Iv => [0x69, 0x76]
    case FinishedKey => [0x66, 0x69, 0x6e, 0x69, 0x73, 0x68, 0x65, 0x64]
  }

  /** The labels are the strings the RFC names, which the code passes as C strings. */
  lemma LabelsAreAscii()
    ensures LabelText(Derived) == Ascii("derived")
    ensures LabelText(ClientHs) == Ascii("c hs traffic") && LabelText(ServerHs) == Ascii("s hs traffic")
    ensures LabelText(ClientAp) == Ascii("c ap traffic") && LabelText(ServerAp) == Ascii("s ap traffic")
    ensures LabelText(Key) == Ascii("key") && LabelText(Iv) == Ascii("iv")
    ensures LabelText(FinishedKey) == Ascii("finished")
  {
    assert TRAFFIC == Ascii(" traffic");
  }

  const TRAFFIC: bytes := [0x20, 0x74, 0x72, 0x61, 0x66, 0x66, 0x69, 0x63]

  /** No two of the labels give the same HkdfLabel, whatever the length and the context. */
  lemma LabelsSeparate(l1: Label, n1: nat, c1: bytes, l2: Label, n2: nat, c2: bytes)
    requires n1 < 0x1_0000 && n2 < 0x1_0000 && |c1| <= 255 && |c2| <= 255
    requires HkdfLabel(n1, LabelText(l1), c1) == HkdfLabel(n2, LabelText(l2), c2)
    ensures l1 == l2 && n1 == n2 && c1 == c2
  {
    HkdfLabelInjective(n1, LabelText(l1), c1, n2, LabelText(l2), c2);
    var t1, t2 := LabelText(l1), LabelText(l2);
    assert t1[0] == t2[0] && t1[1] == t2[1] && (|t1| == 12 ==> t1[2] == t2[2]);
  }

  function DeriveSecret(p: Prims, secret: bytes, name: Label, messages: bytes): bytes
  {
    p.expand(secret, name, p.sha(messages), HASH48)
  }

  function EarlySecret(p: Prims): bytes
  {
    Extract(p.hmac, Zeros(HASH48), Zeros(HASH48))
  }

  function HandshakeSecret(p: Prims, dhe: bytes): bytes
  {
    Extract(p.hmac, DeriveSecret(p, EarlySecret(p), Derived, []), dhe)
  }

  function MasterSecret(p: Prims, dhe: bytes): bytes
  {
    Extract(p.hmac, DeriveSecret(p, HandshakeSecret(p, dhe), Derived, []), Zeros(HASH48))
  }

  function TrafficKey(p: Prims, secret: bytes): bytes
  {
    p.expand(secret, Key, [], 32)
  }

  function TrafficIv(p: Prims, secret: bytes): bytes
  {
    p.expand(secret, Iv, [], 12)
  }

  datatype HandshakeKeys = HandshakeKeys(secret: bytes, clientSecret: bytes, serverSecret: bytes,
                                         clientKey: bytes, serverKey: bytes, clientIv: bytes, serverIv: bytes)

  datatype AppKeys = AppKeys(clientKey: bytes, serverKey: bytes, clientIv: bytes, serverIv: bytes)

  /** The handshake traffic keys the RFC derives from the (EC)DHE secret and ClientHello..ServerHello. */
  function RfcHandshakeKeys(p: Prims, dhe: bytes, hellos: bytes): HandshakeKeys
  {
    var hs := HandshakeSecret(p, dhe);
    var c, s := DeriveSecret(p, hs, ClientHs, hellos), DeriveSecret(p, hs, ServerHs, hellos);
    HandshakeKeys(hs, c, s, TrafficKey(p, c), TrafficKey(p, s), TrafficIv(p, c), TrafficIv(p, s))
  }

  /** The application traffic keys over ClientHello..server Finished. */
  function RfcAppKeys(p: Prims, dhe: bytes, flight: bytes): AppKeys
  {
    var ms := MasterSecret(p, dhe);
    var c, s := DeriveSecret(p, ms, ClientAp, flight), DeriveSecret(p, ms, ServerAp, flight);
    AppKeys(TrafficKey(p, c), TrafficKey(p, s), TrafficIv(p, c), TrafficIv(p, s))
  }

  /** verify_data of section 4.4.4 of RFC 8446. */
  function FinishedMac(p: Prims, baseSecret: bytes, messages: bytes): bytes
  {
    p.hmac(p.expand(baseSecret, FinishedKey, [], HASH48), p.sha(messages))
  }

  // ---------------------------------------------------------------- per-record nonce, section 5.3

  function U64(n: nat): (b: bytes)
    requires n < TWO32 * TWO32
    ensures |b| == 8
  {
    U32(n / TWO32) + U32(n % TWO32)
  }

  lemma U64Injective(m: nat, n: nat)
    requires m < TWO32 * TWO32 && n < TWO32 * TWO32
    requires U64(m) == U64(n)
    ensures m == n
  {
    assert U64(m)[..4] == U32(m / TWO32) && U64(n)[..4] == U32(n / TWO32);
    assert U64(m)[4..] == U32(m % TWO32) && U64(n)[4..] == U32(n % TWO32);
    Get32U32(m / TWO32);
    Get32U32(n / TWO32);
    Get32U32(m % TWO32);
    Get32U32(n % TWO32);
  }

  /** The IV with its last eight bytes exclusive-ored with the big-endian sequence number. */
  function Nonce(iv: bytes, seqNum: nat): (n: bytes)
    requires |iv| == 12 && seqNum < TWO32 * TWO32
    ensures |n| == 12
  {
    iv[..4] + XorBytes(iv[4..], U64(seqNum))
  }

  lemma NonceInjective(iv: bytes, m: nat, n: nat)
    requires |iv| == 12 && m < TWO32 * TWO32 && n < TWO32 * TWO32
    requires Nonce(iv, m) == Nonce(iv, n)
    ensures m == n
  {
    assert Nonce(iv, m)[4..] == XorBytes(iv[4..], U64(m));
    assert Nonce(iv, n)[4..] == XorBytes(iv[4..], U64(n));
    XorBytesInjective(iv[4..], U64(m), U64(n));
    U64Injective(m, n);
  }

  /** The number big-endian bytes stand for. */
  function Number(b: bytes): nat
  {
    if b == [] then 0 else Number(b[..|b| - 1]) * 256 + b[|b| - 1]
  }

  /** Section 5.3 of RFC 8446 read backwards: the nonce combined with the IV is the sequence number, big-endian
      and padded on the left to the IV's length. */
  lemma NonceReadsBack(iv: bytes, n: nat)
    requires |iv| == 12 && n < TWO32 * TWO32
    ensures XorBytes(iv, Nonce(iv, n)) == Zeros(4) + U64(n)
    ensures Number(XorBytes(iv, Nonce(iv, n))) == n
  {
    var nonce := Nonce(iv, n);
    var x := XorBytes(iv, nonce);
    forall i | 0 <= i < 12
      ensures x[i] == (Zeros(4) + U64(n))[i]
    {
      if i < 4 {
        XorSelf(iv[i]);
      } else {
        assert nonce[i] == XorByte(iv[4..][i - 4], U64(n)[i - 4]);
        XorCancels(iv[i], U64(n)[i - 4]);
      }
    }
    NumberOfU64(n);
  }

  lemma NumberSnoc(b: bytes, x: byte)
    ensures Number(b + [x]) == Number(b) * 256 + x
  {
    assert (b + [x])[..|b|] == b;
  }

  lemma NumberOfU64(n: nat)
    requires n < TWO32 * TWO32
    ensures Number(Zeros(4) + U64(n)) == n
  {
    var hi, lo := n / TWO32, n % TWO32;
    var z: bytes := [0, 0, 0, 0];
    assert Number(z) == 0 by {
      assert [0, 0, 0, 0][..3] == [0, 0, 0] && [0, 0, 0][..2] == [0, 0] && [0, 0][..1] == [0] && [0][..0] == [];
    }
    NumberOfU32(z, hi);
    NumberOfU32(z + U32(hi), lo);
    assert Zeros(4) + U64(n) == z + U32(hi) + U32(lo);
  }

  lemma NumberOfU32(b: bytes, n: u32)
    ensures Number(b + U32(n)) == Number(b) * TWO32 + n
  {
    var u := U32(n);
    NumberSnoc(b, u[0]);
    NumberSnoc(b + [u[0]], u[1]);
    NumberSnoc(b + [u[0]] + [u[1]], u[2]);
    NumberSnoc(b + [u[0]] + [u[1]] + [u[2]], u[3]);
    assert b + u == b + [u[0]] + [u[1]] + [u[2]] + [u[3]];
  }

  // ---------------------------------------------------------------- handshake messages

  const HELLO_REQUEST := 0
  const CLIENT_HELLO := 1
  const SERVER_HELLO := 2
  const ENCRYPTED_EXTENSIONS := 8
  const CERTIFICATE := 11
  const CERTIFICATE_VERIFY := 15
  const CLIENT_CIPHER_SPEC := 17
  const FINISHED := 20

  /** The order in which section 4.4.1 of RFC 8446 hashes a server-authenticated handshake. */
  function FlightType(i: nat): byte
  {
    if i == 0 then 1 else if i == 1 then 2 else if i == 2 then 8 else if i == 3 then 11 else if i == 4 then 15 else 20
  }

  function ServerHelloMsg(version: bytes, random: bytes, sessionId: bytes, cipher: bytes, pub: bytes): (m: bytes)
    requires |version| == 2 && |random| == 32 && |sessionId| == 32 && |cipher| == 2 && |pub| == 32
    ensures |m| == 122 && m[0] == 2
  {
    [2] + U24(118) + version + random + [32] + sessionId + cipher + [0] + U16(46)
    + [0, 0x2b, 0, 2, 3, 4] + [0, 0x33, 0, 0x24, 0, 0x1d, 0, 0x20] + pub
  }

  function EncryptedExtensionsMsg(): (m: bytes)
    ensures |m| == 6 && m[0] == 8
  {
    [8] + U24(2) + U16(0)
  }

  function CertificateMsg(cert: bytes): (m: bytes)
    ensures |m| == |cert| + 13 && m[0] == 11
  {
    [11] + U24(|cert| + 9) + [0] + U24(|cert| + 5) + U24(|cert|) + cert + U16(0)
  }

  function CertificateVerifyMsg(algorithm: bytes, signature: bytes): (m: bytes)
    requires |algorithm| == 2
    ensures |m| == |signature| + 8 && m[0] == 15
  {
    [15] + U24(|signature| + 4) + algorithm + U16(|signature| % 0x1_0000) + signature
  }

  /** EncryptedExtensions with no extension, and Finished: header, length and body. */
  lemma EncryptedExtensionsReadsBack()
    ensures var m := EncryptedExtensionsMsg(); m[0] == 8 && Get24(m[1..4]) == |m| - 4 && Get16(m[4..6]) == |m| - 6
  {
    var m := EncryptedExtensionsMsg();
    assert m[1..4] == U24(2) && m[4..6] == U16(0);
  }

  lemma FinishedReadsBack(verifyData: bytes)
    requires |verifyData| < 0x100_0000
    ensures var m := FinishedMsg(verifyData); m[0] == 20 && Get24(m[1..4]) == |m| - 4 && m[4..] == verifyData
  {
    LengthField(20, |verifyData|, verifyData);
  }

  function FinishedMsg(verifyData: bytes): (m: bytes)
    ensures |m| == |verifyData| + 4 && m[0] == 20
  {
    [20] + U24(|verifyData|) + verifyData
  }

  function Get24(b: bytes): nat
    requires |b| == 3
  {
    (b[0] as int) * 65536 + (b[1] as int) * 256 + b[2] as int
  }

  lemma Get24U24(n: nat)
    requires n < 0x100_0000
    ensures Get24(U24(n)) == n
  {}

  /** The handshake header names the length of what follows it. */
  lemma LengthField(kind: byte, n: nat, body: bytes)
    requires n == |body| < 0x100_0000
    ensures var m := [kind] + U24(n) + body; m[0] == kind && Get24(m[1..4]) == |m| - 4 && m[4..] == body
  {
    var m := [kind] + U24(n) + body;
    assert m[1..4] == U24(n);
    Get24U24(n);
  }

  /** The ServerHello in the layout of section 4.1.3 of RFC 8446: every field where a client reads it. */
  lemma ServerHelloReadsBack(version: bytes, random: bytes, sessionId: bytes, cipher: bytes, pub: bytes)
    requires |version| == 2 && |random| == 32 && |sessionId| == 32 && |cipher| == 2 && |pub| == 32
    ensures var m := ServerHelloMsg(version, random, sessionId, cipher, pub);
            && Get24(m[1..4]) == |m| - 4
            && m[4..6] == version && m[6..38] == random && m[38] == 32 && m[39..71] == sessionId
            && m[71..73] == cipher && m[73] == 0 && Get16(m[74..76]) == |m| - 76
            && m[76..82] == [0, 0x2b, 0, 2, 3, 4]
            && m[82..90] == [0, 0x33, 0, 0x24, 0, 0x1d, 0, 0x20] && m[90..122] == pub
  {
    var m := ServerHelloMsg(version, random, sessionId, cipher, pub);
    assert m[1..4] == U24(118);
    assert m[74..76] == U16(46);
    Get24U24(118);
  }

  /** Certificate and CertificateVerify: every length field names the length of what it covers. */
  lemma CertificateReadsBack(cert: bytes)
    requires |cert| + 9 < 0x100_0000
    ensures var m := CertificateMsg(cert);
            && Get24(m[1..4]) == |m| - 4 && m[4] == 0 && Get24(m[5..8]) == |m| - 8
            && Get24(m[8..11]) == |cert| && m[11..11 + |cert|] == cert && m[11 + |cert|..] == [0, 0]
  {
    var m := CertificateMsg(cert);
    assert m[1..4] == U24(|cert| + 9) && m[5..8] == U24(|cert| + 5) && m[8..11] == U24(|cert|);
    Get24U24(|cert| + 9);
    Get24U24(|cert| + 5);
    Get24U24(|cert|);
  }

  lemma CertificateVerifyReadsBack(algorithm: bytes, signature: bytes)
    requires |algorithm| == 2 && |signature| < 0x1_0000
    ensures var m := CertificateVerifyMsg(algorithm, signature);
            && Get24(m[1..4]) == |m| - 4 && m[4..6] == algorithm
            && Get16(m[6..8]) == |signature| && m[8..] == signature
  {
    var m := CertificateVerifyMsg(algorithm, signature);
    assert m[1..4] == U24(|signature| + 4) && m[6..8] == U16(|signature|);
    Get24U24(|signature| + 4);
    Get16U16(|signature|);
  }

  // ---------------------------------------------------------------- record framing

  const HANDSHAKE: byte := 0x16
  const APPLICATION_DATA: byte := 0x17

  function RecordHeader(kind: byte, version: bytes, length: nat): (b: bytes)
    requires |version| == 2
    ensures |b| == 5
  {
    [kind] + version + U16(length % 0x1_0000)
  }

  /** The header in the layout of section 5.1 of RFC 8446. */
  lemma HeaderReadsBack(kind: byte, version: bytes, length: nat)
    requires |version| == 2 && length < 0x1_0000
    ensures var b := RecordHeader(kind, version, length); b[0] == kind && b[1..3] == version && Get16(b[3..5]) == length
  {
    var b := RecordHeader(kind, version, length);
    assert b[3..5] == U16(length);
    Get16U16(length);
  }

  /** A record in the clear: the ServerHello, or anything when no cipher was negotiated. */
  function PlainRecord(kind: byte, version: bytes, content: bytes): (b: bytes)
    requires |version| == 2
    ensures |b| == |content| + 5
  {
    RecordHeader(kind, version, |content|) + content
  }

  /** encrypt_record: TLSInnerPlaintext is the message followed by its content type. */
  function SealedRecord(p: Prims, key: bytes, nonce: bytes, version: bytes, msg: bytes): (b: bytes)
    requires |version| == 2
  {
    var inner := msg + [HANDSHAKE];
    var header := RecordHeader(APPLICATION_DATA, version, |inner| + TAG);
    header + p.seal(key, nonce, header, inner)
  }
}
