/** A file's way through four handlers: packed by the uploader, stored by the provider,
    fetched after any other traffic, and unpacked by the receiver. */
module FilePipeline {
  import opened Basics
  import opened Codec
  import opened StorageProvider
  import KeyOrder

  datatype ReceiveError = BadEnvelope | DecryptionFailed | BadArchive

  /** What `upload_file` sends: the gzip stream, or its encryption as a JSON envelope. */
  function Packed(codec: Codec, contents: bytes, encrypt: bool, nonce: Nonce): bytes {
    var compressed := codec.gzip(contents);
    if encrypt then codec.toJson(EncryptedData(codec.encrypt(compressed, nonce), nonce)) else compressed
  }

  function Unpacked(codec: Codec, contents: bytes): Result<bytes, ReceiveError> {
    match codec.gunzip(contents)
    case None => Err(BadArchive)
    case Some(b) => Ok(b)
  }

  /** What `handle_file_data` makes of the file it receives. */
  function Received(codec: Codec, d: FileData): Result<bytes, ReceiveError> {
    if d.encrypted then
      match codec.fromJson(d.contents)
      case None => Err(BadEnvelope)
      case Some(e) =>
        match codec.decrypt(e.content, e.nonce)
        case None => Err(DecryptionFailed)
        case Some(plain) => if d.compressed then Unpacked(codec, plain) else Ok(plain)
    else if d.compressed && d.autoDecompress then Unpacked(codec, d.contents)
    else Ok(d.contents)
  }

  /** The envelope of an encrypted file opens with the receiver's key. */
  predicate Opens(codec: Codec, contents: bytes, plain: bytes) {
    codec.fromJson(contents).Some? &&
    var e := codec.fromJson(contents).value;
    codec.decrypt(e.content, e.nonce) == Some(plain)
  }

  /** Each way a received file can be kept or lost: an encrypted one is opened and, if compressed,
      unpacked; any other is unpacked if it is compressed and to be unpacked, and else kept as it is.
      The failure is that of the first step that fails. */
  lemma DecodesExactly(codec: Codec, d: FileData, plain: bytes, result: bytes)
    ensures d.encrypted && Opens(codec, d.contents, plain) ==>
      && (d.compressed ==> (Received(codec, d) == Ok(result) <==> codec.gunzip(plain) == Some(result)))
      && (d.compressed ==> (Received(codec, d) == Err(BadArchive) <==> codec.gunzip(plain).None?))
      && (!d.compressed ==> Received(codec, d) == Ok(plain))
    ensures Received(codec, d) == Err(BadEnvelope) <==> d.encrypted && codec.fromJson(d.contents).None?
    ensures Received(codec, d) == Err(DecryptionFailed) <==>
      d.encrypted && codec.fromJson(d.contents).Some? && forall p :: !Opens(codec, d.contents, p)
    ensures !d.encrypted && d.compressed && d.autoDecompress ==>
      && (Received(codec, d) == Ok(result) <==> codec.gunzip(d.contents) == Some(result))
      && (Received(codec, d) == Err(BadArchive) <==> codec.gunzip(d.contents).None?)
    ensures !d.encrypted && !(d.compressed && d.autoDecompress) ==> Received(codec, d) == Ok(d.contents)
  {
    if d.encrypted && codec.fromJson(d.contents).Some? {
      var e := codec.fromJson(d.contents).value;
      if codec.decrypt(e.content, e.nonce).Some? {
        assert Opens(codec, d.contents, codec.decrypt(e.content, e.nonce).value);
      }
    }
  }

  /** The receiving node's directory of received files. */
  class Receiver {
    const codec: Codec
    var receivedFiles: map<string, bytes>

    constructor (codec: Codec)
      ensures this.codec == codec && receivedFiles == map[]
    {
      this.codec := codec;
      receivedFiles := map[];
    }

    /** The file is created before the contents are decoded, so a failure leaves it empty. */
    method HandleFileData(d: FileData) returns (r: Option<ReceiveError>)
      modifies this`receivedFiles
      ensures match Received(codec, d)
        case Ok(contents) => r == None && receivedFiles == old(receivedFiles)[d.filename := contents]
        case Err(e) => r == Some(e) && receivedFiles == old(receivedFiles)[d.filename := []]
    {
      receivedFiles := receivedFiles[d.filename := []];
      var finalContents := d.contents;
      if d.encrypted {
        var json := codec.fromJson(d.contents);
        if json.None? {
          return Some(BadEnvelope);
        }
        var decrypted := codec.decrypt(json.value.content, json.value.nonce);
        if decrypted.None? {
          return Some(DecryptionFailed);
        }
        finalContents := decrypted.value;
      }
      if d.compressed && (d.encrypted || d.autoDecompress) {
        var unpacked := codec.gunzip(finalContents);
        if unpacked.None? {
          return Some(BadArchive);
        }
        finalContents := unpacked.value;
      }
      receivedFiles := receivedFiles[d.filename := finalContents];
      return None;
    }
  }

  // --- What the provider keeps --------------------------------------------

  predicate Touches(p: Packet, hash: string) {
    match p
    case Upload(d) => d.fileHash == hash
    case Delete(ref, _) => ref.fileHash == hash
    case FileSaved(saved) => saved.hashFile == hash
    case _ => false
  }

  /** The blob of `d` and what its row says about decoding it and who may fetch it. */
  ghost predicate Keeps(config: Config, s: Store, d: UploadFile) {
    && d.fileHash in s.rows && d.fileHash in s.blobs
    && s.blobs[d.fileHash] == StoredContents(config.codec, d)
    && var row, uploaded := s.rows[d.fileHash], UploadedRow(config, d);
      row == uploaded.(filename := row.filename, public := row.public)
  }

  lemma StepKeeps(config: Config, s: Store, d: UploadFile, p: Packet)
    requires Keeps(config, s, d) && !Touches(p, d.fileHash)
    ensures Keeps(config, After(config, s, p), d)
  {
  }

  /** Moves and access changes of the file itself and any traffic about others leave it alone. */
  lemma {:induction false} RunKeeps(config: Config, s: Store, d: UploadFile, packets: seq<Packet>, end: Store)
    requires Keeps(config, s, d) && Run(config, s, packets, end)
    requires forall i :: 0 <= i < |packets| ==> !Touches(packets[i], d.fileHash)
    ensures Keeps(config, end, d)
    decreases |packets|
  {
    if packets != [] {
      StepKeeps(config, s, d, packets[0]);
      RunKeeps(config, After(config, s, packets[0]), d, packets[1..], end);
    }
  }

  // --- Which file a get finds ---------------------------------------------

  /** No row in front of the file's own carries the hash as its owner or file name. */
  ghost predicate InFront(rows: map<string, Row>, hash: string) {
    forall key :: key in MatchingKeys(rows, hash) ==> KeyOrder.AtMost(hash, key)
  }

  /** The packet gives another row, in front of the hash in the table, the hash as its owner or
      file name. */
  predicate Shadows(p: Packet, hash: string) {
    match p
    case Upload(d) => d.fileHash != hash && KeyOrder.AtMost(d.fileHash, hash) && hash in {d.filename, d.peerId}
    case FileSaved(d) => d.hashFile != hash && KeyOrder.AtMost(d.hashFile, hash) && hash in {d.filename, d.ownerKey}
    case Move(ref, newPath, _) => ref.fileHash != hash && KeyOrder.AtMost(ref.fileHash, hash) && newPath == hash
    case _ => false
  }

  lemma StepStaysInFront(config: Config, s: Store, p: Packet, hash: string)
    requires Agree(config, s) && Possible(config, p) && InFront(s.rows, hash) && !Shadows(p, hash)
    ensures InFront(After(config, s, p).rows, hash)
  {
    var rows := After(config, s, p).rows;
    forall key | key in MatchingKeys(rows, hash) ensures KeyOrder.AtMost(hash, key) {
      KeyOrder.Total(hash, key);
      if key in s.rows && Matches(s.rows[key], hash) {
        assert key in MatchingKeys(s.rows, hash);
      }
    }
  }

  lemma {:induction false} RunStaysInFront(config: Config, s: Store, packets: seq<Packet>, end: Store, hash: string)
    requires Agree(config, s) && Run(config, s, packets, end) && InFront(s.rows, hash)
    requires forall i :: 0 <= i < |packets| ==> !Shadows(packets[i], hash)
    ensures InFront(end.rows, hash)
    decreases |packets|
  {
    if packets != [] {
      StepAgrees(config, s, packets[0]);
      StepStaysInFront(config, s, packets[0], hash);
      RunStaysInFront(config, After(config, s, packets[0]), packets[1..], end, hash);
    }
  }

  /** With no matching row in front, the first match is the file's own row. */
  lemma OwnRowIsFirst(rows: map<string, Row>, hash: string)
    requires hash in rows && rows[hash].fileHash == hash && InFront(rows, hash)
    ensures FirstMatch(rows, hash) == Some(rows[hash])
  {
    assert hash in MatchingKeys(rows, hash);
    KeyOrder.LeastIsUnique(hash, MatchingKeys(rows, hash));
  }

  /** A get by hash returns the kept file exactly when no matching row stands in front of it. */
  lemma GetReturnsFileExactly(config: Config, s: Store, d: UploadFile, get: FileGet)
    requires Agree(config, s) && Keeps(config, s, d) && get.fileHash == d.fileHash
    requires get.token.Some? && !d.public ==> get.token.value == d.token
    ensures FirstMatch(s.rows, d.fileHash).Some?
    ensures (Got(s, get).Sent? && Got(s, get).file.hashFile == d.fileHash) <==> InFront(s.rows, d.fileHash)
    ensures InFront(s.rows, d.fileHash) ==> FirstMatch(s.rows, d.fileHash).value == s.rows[d.fileHash]
  {
    assert d.fileHash in MatchingKeys(s.rows, d.fileHash);
    if InFront(s.rows, d.fileHash) {
      OwnRowIsFirst(s.rows, d.fileHash);
    }
  }

  /** An accepted public upload under a smaller hash with `hash` as its name comes first. */
  lemma ShadowIsFirst(config: Config, s: Store, hash: string, u: UploadFile)
    requires InFront(s.rows, hash) && UploadRefusal(config, s, u).None?
    requires hash == u.filename && u.fileHash != hash && KeyOrder.AtMost(u.fileHash, hash)
    ensures FirstMatch(AfterUpload(config, s, u).rows, hash) == Some(UploadedRow(config, u))
  {
    var keys := MatchingKeys(AfterUpload(config, s, u).rows, hash);
    assert u.fileHash in keys;
    forall key | key in keys ensures KeyOrder.AtMost(u.fileHash, key) {
      if key == u.fileHash {
        KeyOrder.Total(key, key);
      } else {
        assert key in MatchingKeys(s.rows, hash);
        KeyOrder.Transitive(u.fileHash, hash, key);
      }
    }
    KeyOrder.LeastIsUnique(u.fileHash, keys);
  }

  /** It does happen: a public upload by anyone, under a smaller hash and with the file's hash as
      its name, takes the file's place for every get. */
  lemma StrangerShadows(config: Config, s: Store, d: UploadFile, u: UploadFile, get: FileGet)
    requires Keeps(config, s, d) && InFront(s.rows, d.fileHash)
    requires get.fileHash == d.fileHash == u.filename && u.fileHash != d.fileHash && KeyOrder.AtMost(u.fileHash, d.fileHash)
    requires u.public && UploadRefusal(config, s, u).None?
    ensures Keeps(config, AfterUpload(config, s, u), d)
    ensures var r := Got(AfterUpload(config, s, u), get);
      r.Sent? && r.file.hashFile == u.fileHash && r.file.contents == StoredContents(config.codec, u)
  {
    ShadowIsFirst(config, s, d.fileHash, u);
  }

  // --- Who may delete a file ----------------------------------------------

  /** The packet shows the valid token of a peer known here; it need not be the sender. */
  predicate HasToken(config: Config, s: Store, ref: FileRef) {
    ref.peerId in s.tokens && s.tokens[ref.peerId] == ref.token && config.validToken(ref.token).Some?
  }

  /** Delete, move and access change look at the row found first and act on the row of the hash. As
      long as no matching row stands in front, that is the owner's right and nobody else's. */
  lemma OwnersDelete(config: Config, s: Store, ref: FileRef, from: string)
    requires Agree(config, s) && ref.fileHash in s.rows && InFront(s.rows, ref.fileHash)
    ensures var after := AfterDelete(config, s, ref, from);
      if s.rows[ref.fileHash].ownerKey == from && HasToken(config, s, ref)
      then after == Store(s.blobs - {ref.fileHash}, s.rows - {ref.fileHash}, s.tokens)
      else after == s
  {
    OwnRowIsFirst(s.rows, ref.fileHash);
  }

  /** Such a row hands the right to its own owner: after the upload the file's owner is refused,
      and whoever uploaded it removes the file with any valid token. */
  lemma StrangerDeletes(config: Config, s: Store, u: UploadFile, ref: FileRef, owner: string)
    requires ref.fileHash in s.rows && InFront(s.rows, ref.fileHash) && HasToken(config, s, ref)
    requires ref.fileHash == u.filename && u.fileHash != u.filename && KeyOrder.AtMost(u.fileHash, u.filename)
    requires u.public && UploadRefusal(config, s, u).None?
    ensures var s' := AfterUpload(config, s, u);
      && ref.fileHash in s'.rows && s'.rows[ref.fileHash] == s.rows[ref.fileHash]
      && (owner != u.peerId ==> OwnerRefusal(config, s', ref, owner) == Some(NotOwner))
      && AfterDelete(config, s', ref, u.peerId) == Store(s'.blobs - {ref.fileHash}, s'.rows - {ref.fileHash}, s'.tokens)
  {
    ShadowIsFirst(config, s, ref.fileHash, u);
  }

  // --- End to end ---------------------------------------------------------

  /** `d` is the packet `upload_file` makes of the contents. */
  predicate Uploads(codec: Codec, d: UploadFile, contents: bytes, encrypt: bool, autoDecompress: bool, nonce: Nonce) {
    && d.contents == Packed(codec, contents, encrypt, nonce)
    && d.encrypted == encrypt && d.compressed && d.autoDecompress == autoDecompress
  }

  /** What a get sends of a kept file decodes to the original, unless the file was neither
      encrypted nor unpacked by the provider: then the gzip stream itself arrives. */
  lemma KeptDecodes(config: Config, s: Store, d: UploadFile, contents: bytes, encrypt: bool, autoDecompress: bool,
                    nonce: Nonce, get: FileGet)
    requires Lawful(config.codec) && Uploads(config.codec, d, contents, encrypt, autoDecompress, nonce)
    requires !(encrypt && autoDecompress) && Keeps(config, s, d) && get.fileHash == d.fileHash
    requires get.token.Some? && !d.public ==> get.token.value == d.token
    requires FirstMatch(s.rows, d.fileHash) == Some(s.rows[d.fileHash])
    ensures var r := Got(s, get);
      r.Sent? && Received(config.codec, r.file) == Ok(if encrypt || autoDecompress then contents else config.codec.gzip(contents))
  {
  }

  /** Any traffic, upload, any other traffic, get, receive: as long as no packet puts a row with
      the hash as its owner or name in front of the file, the bytes that arrive are the original
      ones for (encrypt, unpack) = (no, yes) and (yes, no), and their gzip stream for (no, no). */
  lemma EndToEnd(config: Config, before: seq<Packet>, s: Store, d: UploadFile, contents: bytes, encrypt: bool,
                 autoDecompress: bool, nonce: Nonce, packets: seq<Packet>, end: Store, get: FileGet)
    requires Lawful(config.codec) && Uploads(config.codec, d, contents, encrypt, autoDecompress, nonce)
    requires Run(config, Store(map[], map[], map[]), before, s) && UploadRefusal(config, s, d).None?
    requires Run(config, AfterUpload(config, s, d), packets, end)
    requires forall i :: 0 <= i < |before| ==> !Shadows(before[i], d.fileHash)
    requires forall i :: 0 <= i < |packets| ==> !Shadows(packets[i], d.fileHash) && !Touches(packets[i], d.fileHash)
    requires get.fileHash == d.fileHash && (get.token.Some? && !d.public ==> get.token.value == d.token)
    ensures var r := Got(end, get);
      r.Sent? && Received(config.codec, r.file) == Ok(if encrypt || autoDecompress then contents else config.codec.gzip(contents))
  {
    if encrypt && autoDecompress {
      EnvelopeIsRefused(config, s, d, contents, nonce);
    } else {
      var empty := Store(map[], map[], map[]);
      RunAgrees(config, empty, before, s);
      RunStaysInFront(config, empty, before, s, d.fileHash);
      StepAgrees(config, s, Upload(d));
      StepStaysInFront(config, s, Upload(d), d.fileHash);
      RunKeeps(config, AfterUpload(config, s, d), d, packets, end);
      RunAgrees(config, AfterUpload(config, s, d), packets, end);
      RunStaysInFront(config, AfterUpload(config, s, d), packets, end, d.fileHash);
      GetReturnsFileExactly(config, end, d, get);
      KeptDecodes(config, end, d, contents, encrypt, autoDecompress, nonce, get);
    }
  }

  /** (yes, yes) is always refused and stores nothing: the envelope is not a gzip stream. */
  lemma EnvelopeIsRefused(config: Config, s: Store, d: UploadFile, contents: bytes, nonce: Nonce)
    requires Lawful(config.codec) && Uploads(config.codec, d, contents, true, true, nonce)
    ensures UploadRefusal(config, s, d).Some? && AfterUpload(config, s, d) == s
  {
  }
}
