/** The transformations a file goes through, with the laws the pipeline relies on. */
module Codec {
  import opened Basics

  type Nonce = n: bytes | |n| == 12 witness [0, 0, 0, 0, 0, 0, 0, 0, 0, 0, 0, 0]

  datatype EncryptedData = EncryptedData(content: bytes, nonce: Nonce)

  /** gzip, the owner's cipher, and the JSON form of an encrypted file. */
  datatype Codec = Codec(
    gzip: bytes -> bytes,
    gunzip: bytes -> Option<bytes>,
    encrypt: (bytes, Nonce) -> bytes,
    decrypt: (bytes, Nonce) -> Option<bytes>,
    toJson: EncryptedData -> bytes,
    fromJson: bytes -> Option<EncryptedData>)

  const OPEN_BRACE: byte := 0x7b
  const GZIP_ID1: byte := 0x1f

  /** Every decoder undoes its encoder; a gzip stream begins with its identification byte
      (section 2.3.1 of RFC 1952) and a JSON object with a brace. */
  ghost predicate Lawful(c: Codec) {
    && (forall x :: c.gunzip(c.gzip(x)) == Some(x))
    && (forall x, n :: c.decrypt(c.encrypt(x, n), n) == Some(x))
    && (forall e :: c.fromJson(c.toJson(e)) == Some(e))
    && (forall e :: |c.toJson(e)| > 0 && c.toJson(e)[0] == OPEN_BRACE)
    && (forall b :: c.gunzip(b).Some? ==> |b| > 0 && b[0] == GZIP_ID1)
  }

  // A codec that adds and strips headers, and packs one long file into two bytes: enough to
  // show the laws consistent with compression.

  function Zeros(n: nat): bytes {
    seq(n, _ => 0)
  }

  function Pack(n: nat, x: bytes): bytes {
    if x == Zeros(n) then [GZIP_ID1, 1] else [GZIP_ID1, 0] + x
  }

  function Unpack(n: nat, b: bytes): Option<bytes> {
    if |b| < 2 || b[0] != GZIP_ID1 then None
    else if b[1] == 1 then Some(Zeros(n))
    else Some(b[2..])
  }

  function WriteEnvelope(e: EncryptedData): bytes {
    [OPEN_BRACE] + e.nonce + e.content
  }

  function ReadEnvelope(b: bytes): Option<EncryptedData> {
    if |b| >= 13 then Some(EncryptedData(b[13..], b[1..13])) else None
  }

  function SmallCodec(n: nat): Codec {
    Codec(x => Pack(n, x), b => Unpack(n, b), (x, nonce) => x, (x, nonce) => Some(x), WriteEnvelope, ReadEnvelope)
  }

  /** The laws are consistent, with a file as long as one likes that packs into two bytes. */
  lemma SmallCodecIsLawful(n: nat)
    ensures Lawful(SmallCodec(n))
    ensures SmallCodec(n).gzip(Zeros(n)) == [GZIP_ID1, 1] && |Zeros(n)| == n
  {
  }
}
