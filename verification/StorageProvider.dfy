/** The storage provider: a blob directory and a metadata table, changed by the file
    handlers one packet at a time. */
module StorageProvider {
  import opened Basics
  import opened Codec
  import KeyOrder
  import MapSums

  /** A row of the storage table. */
  datatype Row = Row(
    fileHash: string, filename: string, mime: string, public: bool, encrypted: bool, compressed: bool,
    autoDecompress: bool, ownerKey: string, storagePeerKey: string, uploadedViaToken: Option<string>,
    token: string, size: nat, isContract: bool)

  datatype UploadFile = UploadFile(
    peerId: string, fileHash: string, filename: string, contents: bytes, token: string, mime: string,
    public: bool, encrypted: bool, compressed: bool, autoDecompress: bool, isContract: bool)

  /** What delete, move and access-change packets share. */
  datatype FileRef = FileRef(fileHash: string, peerId: string, token: string)

  /** A provider's report that it stored a file. */
  datatype SavedFile = SavedFile(
    filename: string, token: string, storagePeerKey: string, ownerKey: string, hashFile: string, encrypted: bool,
    compressed: bool, autoDecompress: bool, public: bool, size: nat, mime: string, isContract: bool)

  datatype FileGet = FileGet(fileHash: string, token: Option<string>)

  datatype FileData = FileData(filename: string, contents: bytes, hashFile: string, encrypted: bool,
                               compressed: bool, public: bool, autoDecompress: bool, mime: string)

  datatype Refusal =
    | TokenNotFound | TokenMismatch | TokenInvalid | FileTooLarge | NotEnoughSpace | CorruptArchive
    | FileNotFound | NotOwner

  /** `validToken` gives the file size a correctly signed token grants. */
  datatype Config = Config(myKey: string, storageSize: u64, codec: Codec, validToken: string -> Option<nat>)

  /** Blob directory, storage table, and the token each peer was given. */
  datatype Store = Store(blobs: map<string, bytes>, rows: map<string, Row>, tokens: map<string, string>)

  // --- Space --------------------------------------------------------------

  function Sizes(blobs: map<string, bytes>): map<string, nat> {
    map hash | hash in blobs :: |blobs[hash]|
  }

  ghost function Used(blobs: map<string, bytes>): nat {
    MapSums.Sum(Sizes(blobs))
  }

  function SizeOf(blobs: map<string, bytes>, hash: string): nat {
    if hash in blobs then |blobs[hash]| else 0
  }

  /** `config.storage_size - get_storage_size()` on `u64`. */
  ghost function FreeSpace(config: Config, blobs: map<string, bytes>): u64 {
    Wrap64(config.storageSize - Used(blobs))
  }

  lemma UsedWith(blobs: map<string, bytes>, hash: string, contents: bytes)
    ensures Used(blobs[hash := contents]) + SizeOf(blobs, hash) == Used(blobs) + |contents|
  {
    MapSums.SumWith(Sizes(blobs), hash, |contents|);
    assert Sizes(blobs[hash := contents]) == Sizes(blobs)[hash := |contents|];
  }

  lemma UsedWithout(blobs: map<string, bytes>, hash: string)
    ensures Used(blobs - {hash}) + SizeOf(blobs, hash) == Used(blobs)
  {
    MapSums.SumWithout(Sizes(blobs), hash);
    assert Sizes(blobs - {hash}) == Sizes(blobs) - {hash};
  }

  // --- Uploads ------------------------------------------------------------

  /** The checks before anything is written, first failure first. */
  ghost function UploadRefusal(config: Config, s: Store, d: UploadFile): Option<Refusal> {
    if !d.public && d.peerId !in s.tokens then Some(TokenNotFound)
    else if !d.public && s.tokens[d.peerId] != d.token then Some(TokenMismatch)
    else if !d.public && config.validToken(d.token).None? then Some(TokenInvalid)
    else if !d.public && |d.contents| > config.validToken(d.token).value then Some(FileTooLarge)
    else if FreeSpace(config, s.blobs) < |d.contents| then Some(NotEnoughSpace)
    else if d.compressed && d.autoDecompress && config.codec.gunzip(d.contents).None? then Some(CorruptArchive)
    else None
  }

  /** What is written: the contents, unpacked if they are to be stored unpacked. */
  function StoredContents(codec: Codec, d: UploadFile): bytes {
    if d.compressed && d.autoDecompress && codec.gunzip(d.contents).Some? then codec.gunzip(d.contents).value
    else d.contents
  }

  function UploadedRow(config: Config, d: UploadFile): Row {
    Row(d.fileHash, d.filename, d.mime, d.public, d.encrypted, d.compressed && !d.autoDecompress, d.autoDecompress,
        d.peerId, config.myKey, if d.public then None else Some(d.token), if d.public then "" else d.token,
        |StoredContents(config.codec, d)|, d.isContract)
  }

  ghost function AfterUpload(config: Config, s: Store, d: UploadFile): Store {
    if UploadRefusal(config, s, d).Some? then s
    else Store(s.blobs[d.fileHash := StoredContents(config.codec, d)], s.rows[d.fileHash := UploadedRow(config, d)], s.tokens)
  }

  // --- Looking up, deleting, changing -------------------------------------

  /** The search matches owner, hash and file name alike. */
  predicate Matches(row: Row, identifier: string) {
    identifier in {row.ownerKey, row.fileHash, row.filename}
  }

  function MatchingKeys(rows: map<string, Row>, identifier: string): set<string> {
    set key | key in rows && Matches(rows[key], identifier)
  }

  /** The first matching row in the order of the table. */
  ghost function FirstMatch(rows: map<string, Row>, identifier: string): Option<Row> {
    var keys := MatchingKeys(rows, identifier);
    if keys == {} then None else Some(rows[KeyOrder.Least(keys)])
  }

  ghost function OwnerRefusal(config: Config, s: Store, d: FileRef, from: string): Option<Refusal> {
    var row := FirstMatch(s.rows, d.fileHash);
    if row.None? then Some(FileNotFound)
    else if row.value.ownerKey != from then Some(NotOwner)
    else if d.peerId !in s.tokens then Some(TokenNotFound)
    else if s.tokens[d.peerId] != d.token then Some(TokenMismatch)
    else if config.validToken(d.token).None? then Some(TokenInvalid)
    else None
  }

  ghost function AfterDelete(config: Config, s: Store, d: FileRef, from: string): Store {
    if OwnerRefusal(config, s, d, from).Some? then s
    else Store(s.blobs - {d.fileHash}, s.rows - {d.fileHash}, s.tokens)
  }

  ghost function MoveRefusal(config: Config, s: Store, d: FileRef, from: string): Option<Refusal> {
    if OwnerRefusal(config, s, d, from).Some? then OwnerRefusal(config, s, d, from)
    else if d.fileHash !in s.rows then Some(FileNotFound)
    else None
  }

  ghost function AfterMove(config: Config, s: Store, d: FileRef, newPath: string, from: string): Store {
    if MoveRefusal(config, s, d, from).Some? then s
    else s.(rows := s.rows[d.fileHash := s.rows[d.fileHash].(filename := newPath)])
  }

  ghost function AfterAccessChange(config: Config, s: Store, d: FileRef, public: bool, from: string): Store {
    if MoveRefusal(config, s, d, from).Some? then s
    else s.(rows := s.rows[d.fileHash := s.rows[d.fileHash].(public := public)])
  }

  /** `BlobMissing` is the panic of opening a file that is not there. */
  datatype GetOutcome = Nothing | TokenNotValid | BlobMissing | Sent(file: FileData)

  ghost function Got(s: Store, d: FileGet): GetOutcome {
    match FirstMatch(s.rows, d.fileHash)
    case None => Nothing
    case Some(row) =>
      if !row.public && row.uploadedViaToken.Some? && d.token.Some? && d.token.value != row.token then TokenNotValid
      else if row.fileHash !in s.blobs then BlobMissing
      else Sent(FileData(row.filename, s.blobs[row.fileHash], row.fileHash, row.encrypted, row.compressed, row.public,
                         row.autoDecompress, row.mime))
  }

  function SavedRow(d: SavedFile): Row {
    Row(d.hashFile, d.filename, d.mime, d.public, d.encrypted, d.compressed, d.autoDecompress, d.ownerKey,
        d.storagePeerKey, Some(d.token), d.token, d.size, d.isContract)
  }

  class Provider {
    const config: Config
    var blobs: map<string, bytes>
    var rows: map<string, Row>
    var tokens: map<string, string>

    ghost function Now(): Store
      reads this
    {
      Store(blobs, rows, tokens)
    }

    constructor (config: Config)
      ensures this.config == config && Now() == Store(map[], map[], map[])
    {
      this.config := config;
      blobs, rows, tokens := map[], map[], map[];
    }

    method GetStorageSize() returns (total: nat)
      ensures total == Used(blobs)
    {
      total := 0;
      var entries := blobs.Keys;
      ghost var sizes := Sizes(blobs);
      assert sizes.Keys == entries;
      while entries != {}
        invariant entries <= blobs.Keys
        invariant total + MapSums.SumOver(sizes, entries) == Used(blobs)
        decreases entries
      {
        var entry :| entry in entries;
        MapSums.TakeOut(sizes, entries, entry);
        total := total + |blobs[entry]|;
        entries := entries - {entry};
      }
    }

    method GetStorageFreeSpace() returns (free: u64)
      ensures free == FreeSpace(config, blobs)
    {
      var size := GetStorageSize();
      free := Wrap64(config.storageSize - size);
    }

    method HandleFileUpload(d: UploadFile) returns (r: Option<Refusal>)
      modifies this`blobs, this`rows
      ensures r == UploadRefusal(config, old(Now()), d)
      ensures Now() == AfterUpload(config, old(Now()), d)
    {
      if !d.public {
        if d.peerId !in tokens {
          return Some(TokenNotFound);
        }
        if tokens[d.peerId] != d.token {
          return Some(TokenMismatch);
        }
        var validated := config.validToken(d.token);
        if validated.None? {
          return Some(TokenInvalid);
        }
        if |d.contents| > validated.value {
          return Some(FileTooLarge);
        }
      }
      var freeSpace := GetStorageFreeSpace();
      if freeSpace < |d.contents| {
        return Some(NotEnoughSpace);
      }
      var finalContents := d.contents;
      if d.compressed && d.autoDecompress {
        var unpacked := config.codec.gunzip(d.contents);
        if unpacked.None? {
          return Some(CorruptArchive);
        }
        finalContents := unpacked.value;
      }
      blobs := blobs[d.fileHash := finalContents];
      var fileIsCompressed := if d.autoDecompress then false else d.compressed;
      rows := rows[d.fileHash := Row(
        d.fileHash, d.filename, d.mime, d.public, d.encrypted, fileIsCompressed, d.autoDecompress, d.peerId, config.myKey,
        if d.public then None else Some(d.token), if d.public then "" else d.token, |finalContents|, d.isContract)];
      return None;
    }

    /** `search_fragment_in_virtual_storage(identifier, None)`, then `first()`. The table is
        read in the order of its keys. */
    method SearchFirst(identifier: string) returns (r: Option<Row>)
      ensures r == FirstMatch(rows, identifier)
    {
      var fragments: seq<Row> := [];
      ghost var found: seq<string> := [];
      var keys := rows.Keys;
      while keys != {}
        invariant keys <= rows.Keys
        invariant |found| == |fragments|
        invariant fragments == [] ==> MatchingKeys(rows, identifier) <= keys
        invariant fragments != [] ==> KeyOrder.IsLeast(found[0], MatchingKeys(rows, identifier))
        invariant fragments != [] ==> found[0] in rows && fragments[0] == rows[found[0]]
        decreases keys
      {
        KeyOrder.LeastExists(keys);
        var key :| key in keys && forall other :: other in keys ==> KeyOrder.AtMost(key, other);
        if Matches(rows[key], identifier) {
          fragments := fragments + [rows[key]];
          found := found + [key];
        }
        keys := keys - {key};
      }
      if fragments == [] {
        return None;
      }
      KeyOrder.LeastIsUnique(found[0], MatchingKeys(rows, identifier));
      return Some(fragments[0]);
    }

    /** The checks that delete, move and access change share, on the row found first. */
    method CheckOwner(d: FileRef, from: string) returns (r: Option<Refusal>)
      ensures r == OwnerRefusal(config, Now(), d, from)
    {
      var fragment := SearchFirst(d.fileHash);
      if fragment.None? {
        return Some(FileNotFound);
      }
      if fragment.value.ownerKey != from {
        return Some(NotOwner);
      }
      if d.peerId !in tokens {
        return Some(TokenNotFound);
      }
      if tokens[d.peerId] != d.token {
        return Some(TokenMismatch);
      }
      if config.validToken(d.token).None? {
        return Some(TokenInvalid);
      }
      return None;
    }

    method HandleFileDelete(d: FileRef, from: string) returns (r: Option<Refusal>)
      modifies this`blobs, this`rows
      ensures r == OwnerRefusal(config, old(Now()), d, from)
      ensures Now() == AfterDelete(config, old(Now()), d, from)
    {
      r := CheckOwner(d, from);
      if r.Some? {
        return;
      }
      if d.fileHash in blobs {
        blobs := blobs - {d.fileHash};
      }
      rows := rows - {d.fileHash};
    }

    method HandleFileMove(d: FileRef, newPath: string, from: string) returns (r: Option<Refusal>)
      modifies this`rows
      ensures r == MoveRefusal(config, old(Now()), d, from)
      ensures Now() == AfterMove(config, old(Now()), d, newPath, from)
    {
      r := CheckOwner(d, from);
      if r.Some? {
        return;
      }
      if d.fileHash !in rows {
        return Some(FileNotFound);
      }
      rows := rows[d.fileHash := rows[d.fileHash].(filename := newPath)];
    }

    method HandleFileAccessChange(d: FileRef, public: bool, from: string) returns (r: Option<Refusal>)
      modifies this`rows
      ensures r == MoveRefusal(config, old(Now()), d, from)
      ensures Now() == AfterAccessChange(config, old(Now()), d, public, from)
    {
      r := CheckOwner(d, from);
      if r.Some? {
        return;
      }
      if d.fileHash !in rows {
        return Some(FileNotFound);
      }
      rows := rows[d.fileHash := rows[d.fileHash].(public := public)];
    }

    method HandleFileGet(d: FileGet) returns (r: GetOutcome)
      ensures r == Got(Now(), d)
    {
      var fragment := SearchFirst(d.fileHash);
      if fragment.None? {
        return Nothing;
      }
      var row := fragment.value;
      if !row.public && row.uploadedViaToken.Some? && d.token.Some? && d.token.value != row.token {
        return TokenNotValid;
      }
      if row.fileHash !in blobs {
        return BlobMissing;
      }
      return Sent(FileData(row.filename, blobs[row.fileHash], row.fileHash, row.encrypted, row.compressed, row.public,
                           row.autoDecompress, row.mime));
    }

    /** `handle_file_saved`: another provider reports a stored file. */
    method HandleFileSaved(d: SavedFile)
      modifies this`rows
      ensures rows == old(rows)[d.hashFile := SavedRow(d)]
    {
      rows := rows[d.hashFile := Row(
        d.hashFile, d.filename, d.mime, d.public, d.encrypted, d.compressed, d.autoDecompress, d.ownerKey,
        d.storagePeerKey, Some(d.token), d.token, d.size, d.isContract)];
    }
  }

  // --- Runs ---------------------------------------------------------------

  datatype Packet =
    | Upload(upload: UploadFile)
    | Delete(ref: FileRef, from: string)
    | Move(ref: FileRef, newPath: string, from: string)
    | AccessChange(ref: FileRef, access: bool, from: string)
    | FileSaved(saved: SavedFile)
    | TokenGiven(peer: string, token: string)

  /** Reports about stored files name other providers. */
  predicate Possible(config: Config, p: Packet) {
    p.FileSaved? ==> p.saved.storagePeerKey != config.myKey
  }

  ghost function After(config: Config, s: Store, p: Packet): Store {
    match p
    case Upload(d) => AfterUpload(config, s, d)
    case Delete(ref, from) => AfterDelete(config, s, ref, from)
    case Move(ref, newPath, from) => AfterMove(config, s, ref, newPath, from)
    case AccessChange(ref, access, from) => AfterAccessChange(config, s, ref, access, from)
    case FileSaved(d) => s.(rows := s.rows[d.hashFile := SavedRow(d)])
    case TokenGiven(peer, token) => s.(tokens := s.tokens[peer := token])
  }

  ghost predicate Run(config: Config, s: Store, packets: seq<Packet>, end: Store)
    decreases |packets|
  {
    if packets == [] then s == end
    else Possible(config, packets[0]) && Run(config, After(config, s, packets[0]), packets[1..], end)
  }

  // --- Table and directory agree ------------------------------------------

  /** Each row under its own hash, and each row that names this node backed by a blob of
      exactly the recorded size. */
  ghost predicate Agree(config: Config, s: Store) {
    forall key :: key in s.rows ==>
      && s.rows[key].fileHash == key
      && (s.rows[key].storagePeerKey == config.myKey ==> key in s.blobs && |s.blobs[key]| == s.rows[key].size)
  }

  lemma StepAgrees(config: Config, s: Store, p: Packet)
    requires Agree(config, s) && Possible(config, p)
    ensures Agree(config, After(config, s, p))
  {
  }

  /** Over every run of accepted and refused packets, table and directory agree. */
  lemma {:induction false} RunAgrees(config: Config, s: Store, packets: seq<Packet>, end: Store)
    requires Agree(config, s) && Run(config, s, packets, end)
    ensures Agree(config, end)
    decreases |packets|
  {
    if packets != [] {
      StepAgrees(config, s, packets[0]);
      RunAgrees(config, After(config, s, packets[0]), packets[1..], end);
    }
  }

  /** A report that names this node as the provider keeps the agreement exactly when the blob
      is there in the reported size. */
  lemma ReportAgreesExactly(config: Config, s: Store, d: SavedFile)
    requires Agree(config, s)
    ensures Agree(config, After(config, s, FileSaved(d)))
      <==> d.storagePeerKey != config.myKey || (d.hashFile in s.blobs && |s.blobs[d.hashFile]| == d.size)
  {
    var s' := After(config, s, FileSaved(d));
    assert s'.rows[d.hashFile] == SavedRow(d);
  }

  /** A search by owner, hash or file name gives the row with the least key that has the identifier
      in one of these places, and nothing exactly when no row has. */
  lemma SearchFindsExactly(rows: map<string, Row>, identifier: string)
    ensures FirstMatch(rows, identifier).None? <==> forall key :: key in rows ==>
      rows[key].ownerKey != identifier && rows[key].fileHash != identifier && rows[key].filename != identifier
    ensures FirstMatch(rows, identifier).Some? ==> exists key ::
      && key in rows && rows[key] == FirstMatch(rows, identifier).value
      && (rows[key].ownerKey == identifier || rows[key].fileHash == identifier || rows[key].filename == identifier)
      && forall other :: other in rows && !KeyOrder.AtMost(key, other) ==>
        rows[other].ownerKey != identifier && rows[other].fileHash != identifier && rows[other].filename != identifier
  {
    var keys := MatchingKeys(rows, identifier);
    forall key | key in rows && Matches(rows[key], identifier) ensures key in keys {
    }
    if keys != {} {
      var key := KeyOrder.Least(keys);
      assert key in keys;
    }
  }

  lemma FirstMatchIsARow(rows: map<string, Row>, identifier: string)
    requires FirstMatch(rows, identifier).Some?
    ensures exists key :: key in rows && rows[key] == FirstMatch(rows, identifier).value && Matches(rows[key], identifier)
  {
    var key := KeyOrder.Least(MatchingKeys(rows, identifier));
    assert key in MatchingKeys(rows, identifier);
  }

  /** So a get never opens a missing file for a row of this node. */
  lemma GetFindsBlob(config: Config, packets: seq<Packet>, end: Store, d: FileGet)
    requires Run(config, Store(map[], map[], map[]), packets, end)
    requires var row := FirstMatch(end.rows, d.fileHash); row.Some? && row.value.storagePeerKey == config.myKey
    ensures Got(end, d) != BlobMissing
  {
    RunAgrees(config, Store(map[], map[], map[]), packets, end);
    FirstMatchIsARow(end.rows, d.fileHash);
  }

  /** Deleting a freshly uploaded file takes back exactly what its upload did. */
  lemma DeleteUndoesUpload(config: Config, s: Store, d: UploadFile, ref: FileRef, from: string)
    requires d.fileHash !in s.rows && d.fileHash !in s.blobs && ref.fileHash == d.fileHash
    requires OwnerRefusal(config, AfterUpload(config, s, d), ref, from).None?
    ensures AfterDelete(config, AfterUpload(config, s, d), ref, from) == s
  {
  }

  // --- Capacity -----------------------------------------------------------

  predicate Unpacks(d: UploadFile) {
    d.compressed && d.autoDecompress
  }

  /** An accepted upload keeps the directory within its size exactly when what it writes,
      less what it overwrites, fits; stored verbatim it always does. */
  lemma UploadFitsExactly(config: Config, s: Store, d: UploadFile)
    requires Used(s.blobs) <= config.storageSize && UploadRefusal(config, s, d).None?
    ensures var written, replaced := |StoredContents(config.codec, d)|, SizeOf(s.blobs, d.fileHash);
      Used(AfterUpload(config, s, d).blobs) <= config.storageSize <==> Used(s.blobs) + written <= config.storageSize + replaced
    ensures !Unpacks(d) ==> Used(AfterUpload(config, s, d).blobs) <= config.storageSize
    ensures FreeSpace(config, s.blobs) == config.storageSize - Used(s.blobs)
  {
    UsedWith(s.blobs, d.fileHash, StoredContents(config.codec, d));
  }

  /** Uploads that unpack to no more than what was checked count as verbatim ones. */
  predicate Modest(config: Config, p: Packet) {
    p.Upload? ==> |StoredContents(config.codec, p.upload)| <= |p.upload.contents|
  }

  lemma StepFits(config: Config, s: Store, p: Packet)
    requires Used(s.blobs) <= config.storageSize && Modest(config, p)
    ensures Used(After(config, s, p).blobs) <= config.storageSize
  {
    match p
    case Upload(d) =>
      if UploadRefusal(config, s, d).None? {
        UploadFitsExactly(config, s, d);
      }
    case Delete(ref, _) => UsedWithout(s.blobs, ref.fileHash);
    case _ =>
  }

  /** Over every run of such packets the directory stays within its size, and the free-space
      subtraction never underflows. */
  lemma {:induction false} RunFits(config: Config, s: Store, packets: seq<Packet>, end: Store)
    requires Used(s.blobs) <= config.storageSize && Run(config, s, packets, end)
    requires forall i :: 0 <= i < |packets| ==> Modest(config, packets[i])
    ensures Used(end.blobs) <= config.storageSize
    ensures FreeSpace(config, end.blobs) == config.storageSize - Used(end.blobs)
    decreases |packets|
  {
    if packets != [] {
      StepFits(config, s, packets[0]);
      RunFits(config, After(config, s, packets[0]), packets[1..], end);
    }
  }

  /** The free-space check sees only the packed size: one small archive that unpacks to more
      than the whole directory is accepted, and afterwards the subtraction has wrapped. */
  lemma ArchiveOverflows(config: Config, d: UploadFile)
    requires d.public && Unpacks(d) && |d.contents| <= config.storageSize
    requires config.codec.gunzip(d.contents).Some?
    requires config.storageSize < |config.codec.gunzip(d.contents).value| < TWO_TO_THE_64
    ensures var empty := Store(map[], map[], map[]);
      var s := AfterUpload(config, empty, d);
      && UploadRefusal(config, empty, d).None?
      && Used(s.blobs) > config.storageSize
      && FreeSpace(config, s.blobs) > config.storageSize
  {
    var empty := Store(map[], map[], map[]);
    assert Sizes(empty.blobs) == map[];
    UsedWith(empty.blobs, d.fileHash, StoredContents(config.codec, d));
  }

  /** And there are such archives: for every capacity, a lawful codec and a two-byte upload. */
  lemma OverflowingArchiveExists(storageSize: u64)
    requires 2 <= storageSize < TWO_TO_THE_64 - 1
    ensures exists config: Config, d: UploadFile ::
      && Lawful(config.codec) && config.storageSize == storageSize
      && d.public && Unpacks(d) && |d.contents| == 2
      && UploadRefusal(config, Store(map[], map[], map[]), d).None?
      && Used(AfterUpload(config, Store(map[], map[], map[]), d).blobs) > storageSize
  {
    var n := storageSize + 1;
    SmallCodecIsLawful(n);
    var codec := SmallCodec(n);
    var config := Config("", storageSize, codec, (token: string) => None);
    var d := UploadFile("", "", "", codec.gzip(Zeros(n)), "", "", true, false, true, true, false);
    assert codec.gunzip(codec.gzip(Zeros(n))) == Some(Zeros(n));
    ArchiveOverflows(config, d);
  }
}
