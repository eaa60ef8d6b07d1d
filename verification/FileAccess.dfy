/** Who may upload a file and who gets it: the token checks of upload and get, and what the owner
    can change in between, over whole runs of a provider. */
module FileAccess {
  import opened Basics
  import opened Codec
  import opened StorageProvider
  import opened FilePipeline

  /** The token the peer was given last. */
  function Given(packets: seq<Packet>, peer: string): Option<string> {
    if packets == [] then None
    else
      var last := packets[|packets| - 1];
      if last.TokenGiven? && last.peer == peer then Some(last.token) else Given(packets[..|packets| - 1], peer)
  }

  ghost predicate TokensAre(tokens: map<string, string>, packets: seq<Packet>) {
    forall peer :: match Given(packets, peer)
      case None => peer !in tokens
      case Some(token) => peer in tokens && tokens[peer] == token
  }

  lemma {:induction false} RunGives(config: Config, before: seq<Packet>, s: Store, packets: seq<Packet>, end: Store)
    requires TokensAre(s.tokens, before) && Run(config, s, packets, end)
    ensures TokensAre(end.tokens, before + packets)
    decreases |packets|
  {
    if packets == [] {
      assert before + packets == before;
    } else {
      assert (before + [packets[0]])[..|before|] == before;
      assert before + [packets[0]] + packets[1..] == before + packets;
      RunGives(config, before + [packets[0]], After(config, s, packets[0]), packets[1..], end);
    }
  }

  /** A private upload shows the token its peer was given, signed, and large enough. */
  predicate MayUpload(config: Config, given: Option<string>, d: UploadFile) {
    d.public || (given.Some? && given.value == d.token
      && config.validToken(d.token).Some? && |d.contents| <= config.validToken(d.token).value)
  }

  ghost predicate FitsPacked(config: Config, s: Store, d: UploadFile) {
    |d.contents| <= (config.storageSize - Used(s.blobs)) % TWO_TO_THE_64
  }

  /** A file to be unpacked is an archive. */
  predicate CanUnpack(config: Config, d: UploadFile) {
    d.compressed && d.autoDecompress ==> config.codec.gunzip(d.contents).Some?
  }

  ghost predicate AcceptedExactly(config: Config, s: Store, d: UploadFile, given: Option<string>) {
    var refusal := UploadRefusal(config, s, d);
    && (refusal.None? <==> MayUpload(config, given, d) && FitsPacked(config, s, d) && CanUnpack(config, d))
    && (refusal == Some(TokenNotFound) <==> !d.public && given.None?)
    && (refusal == Some(TokenMismatch) <==> !d.public && given.Some? && given.value != d.token)
    && (refusal == Some(TokenInvalid) <==> !d.public && given.Some? && given.value == d.token && config.validToken(d.token).None?)
    && (refusal == Some(FileTooLarge) <==>
          !MayUpload(config, given, d) && given.Some? && given.value == d.token && config.validToken(d.token).Some?)
    && (refusal == Some(NotEnoughSpace) <==> MayUpload(config, given, d) && !FitsPacked(config, s, d))
    && (refusal == Some(CorruptArchive) <==> MayUpload(config, given, d) && FitsPacked(config, s, d) && !CanUnpack(config, d))
  }

  lemma RefusalIs(config: Config, s: Store, d: UploadFile, given: Option<string>)
    requires given.Some? == (d.peerId in s.tokens) && (given.Some? ==> given.value == s.tokens[d.peerId])
    ensures AcceptedExactly(config, s, d, given)
  {
  }

  /** After any traffic an upload is accepted exactly when it is public or shows the token its peer was
      given last, fits as sent, and unpacks if it is to be unpacked; and each refusal names the
      first check to fail. */
  lemma UploadAcceptedExactly(config: Config, packets: seq<Packet>, s: Store, d: UploadFile)
    requires Run(config, Store(map[], map[], map[]), packets, s)
    ensures AcceptedExactly(config, s, d, Given(packets, d.peerId))
  {
    RunGives(config, [], Store(map[], map[], map[]), packets, s);
    assert [] + packets == packets;
    RefusalIs(config, s, d, Given(packets, d.peerId));
  }

  /** What the owner can still change about a file. */
  datatype Shown = Shown(filename: string, public: bool)

  /** A move or access change counts if it comes from the owner with a valid token. */
  predicate FromOwner(config: Config, s: Store, d: UploadFile, ref: FileRef, from: string) {
    ref.fileHash == d.fileHash && from == d.peerId && HasToken(config, s, ref)
  }

  function ShownNext(config: Config, s: Store, d: UploadFile, p: Packet, shown: Shown): Shown {
    match p
    case Move(ref, newPath, from) => if FromOwner(config, s, d, ref, from) then shown.(filename := newPath) else shown
    case AccessChange(ref, access, from) => if FromOwner(config, s, d, ref, from) then shown.(public := access) else shown
    case _ => shown
  }

  /** Its last move and its last access change that count. */
  ghost function ShownAfter(config: Config, s: Store, d: UploadFile, packets: seq<Packet>, shown: Shown): Shown
    decreases |packets|
  {
    if packets == [] then shown
    else ShownAfter(config, After(config, s, packets[0]), d, packets[1..], ShownNext(config, s, d, packets[0], shown))
  }

  /** The row and blob of the file. */
  ghost predicate Shows(config: Config, s: Store, d: UploadFile, shown: Shown) {
    && d.fileHash in s.blobs && s.blobs[d.fileHash] == StoredContents(config.codec, d)
    && d.fileHash in s.rows
    && s.rows[d.fileHash] == Row(
      d.fileHash, shown.filename, d.mime, shown.public, d.encrypted, d.compressed && !d.autoDecompress, d.autoDecompress,
      d.peerId, config.myKey, if d.public then None else Some(d.token), if d.public then "" else d.token,
      |StoredContents(config.codec, d)|, d.isContract)
  }

  lemma OwnerChanges(config: Config, s: Store, d: UploadFile, ref: FileRef, from: string, shown: Shown)
    requires Shows(config, s, d, shown) && InFront(s.rows, d.fileHash) && ref.fileHash == d.fileHash
    ensures MoveRefusal(config, s, ref, from).None? <==> FromOwner(config, s, d, ref, from)
  {
    OwnRowIsFirst(s.rows, d.fileHash);
  }

  lemma StepShows(config: Config, s: Store, d: UploadFile, p: Packet, shown: Shown)
    requires Shows(config, s, d, shown) && InFront(s.rows, d.fileHash) && !Touches(p, d.fileHash)
    ensures Shows(config, After(config, s, p), d, ShownNext(config, s, d, p, shown))
  {
    match p
    case Move(ref, newPath, from) => MoveShows(config, s, d, ref, newPath, from, shown);
    case AccessChange(ref, access, from) => AccessShows(config, s, d, ref, access, from, shown);
    case _ =>
  }

  lemma MoveShows(config: Config, s: Store, d: UploadFile, ref: FileRef, newPath: string, from: string, shown: Shown)
    requires Shows(config, s, d, shown) && InFront(s.rows, d.fileHash)
    ensures Shows(config, AfterMove(config, s, ref, newPath, from), d, ShownNext(config, s, d, Move(ref, newPath, from), shown))
  {
    if ref.fileHash == d.fileHash {
      OwnerChanges(config, s, d, ref, from, shown);
    }
  }

  lemma AccessShows(config: Config, s: Store, d: UploadFile, ref: FileRef, access: bool, from: string, shown: Shown)
    requires Shows(config, s, d, shown) && InFront(s.rows, d.fileHash)
    ensures Shows(config, AfterAccessChange(config, s, ref, access, from), d,
                  ShownNext(config, s, d, AccessChange(ref, access, from), shown))
  {
    if ref.fileHash == d.fileHash {
      OwnerChanges(config, s, d, ref, from, shown);
    }
  }

  lemma {:induction false} RunShows(config: Config, s: Store, d: UploadFile, packets: seq<Packet>, end: Store, shown: Shown)
    requires Agree(config, s) && Shows(config, s, d, shown) && InFront(s.rows, d.fileHash) && Run(config, s, packets, end)
    requires forall i :: 0 <= i < |packets| ==> !Touches(packets[i], d.fileHash) && !Shadows(packets[i], d.fileHash)
    ensures Shows(config, end, d, ShownAfter(config, s, d, packets, shown)) && InFront(end.rows, d.fileHash)
    decreases |packets|
  {
    if packets != [] {
      StepShows(config, s, d, packets[0], shown);
      StepAgrees(config, s, packets[0]);
      StepStaysInFront(config, s, packets[0], d.fileHash);
      RunShows(config, After(config, s, packets[0]), d, packets[1..], end, ShownNext(config, s, d, packets[0], shown));
    }
  }

  /** Any traffic, an accepted upload, any other traffic, a get: it is refused exactly when the file
      was uploaded privately, is private now, and the get shows a token other than the upload's;
      and otherwise gets the file as uploaded, under its last name and with its last access. */
  lemma GetIsRefusedExactly(config: Config, before: seq<Packet>, s: Store, d: UploadFile, packets: seq<Packet>, end: Store, get: FileGet)
    requires Run(config, Store(map[], map[], map[]), before, s) && UploadRefusal(config, s, d).None?
    requires Run(config, AfterUpload(config, s, d), packets, end)
    requires forall i :: 0 <= i < |before| ==> !Shadows(before[i], d.fileHash)
    requires forall i :: 0 <= i < |packets| ==> !Shadows(packets[i], d.fileHash) && !Touches(packets[i], d.fileHash)
    requires get.fileHash == d.fileHash
    ensures var shown := ShownAfter(config, AfterUpload(config, s, d), d, packets, Shown(d.filename, d.public));
      var r := Got(end, get);
      && (r == TokenNotValid <==> !d.public && !shown.public && get.token.Some? && get.token.value != d.token)
      && (r != TokenNotValid ==> r == Sent(FileData(
            shown.filename, StoredContents(config.codec, d), d.fileHash, d.encrypted, d.compressed && !d.autoDecompress,
            shown.public, d.autoDecompress, d.mime)))
  {
    var empty := Store(map[], map[], map[]);
    RunAgrees(config, empty, before, s);
    RunStaysInFront(config, empty, before, s, d.fileHash);
    StepAgrees(config, s, Upload(d));
    StepStaysInFront(config, s, Upload(d), d.fileHash);
    RunShows(config, AfterUpload(config, s, d), d, packets, end, Shown(d.filename, d.public));
    OwnRowIsFirst(end.rows, d.fileHash);
  }

  /** A report makes the file known with the token that uploaded it, to be had only if it is here. */
  lemma ReportedIsRefusedExactly(config: Config, s: Store, d: SavedFile, get: FileGet)
    requires Agree(config, s) && get.fileHash == d.hashFile
    requires var s' := After(config, s, FileSaved(d)); InFront(s'.rows, d.hashFile)
    ensures var r := Got(After(config, s, FileSaved(d)), get);
      && (r == TokenNotValid <==> !d.public && get.token.Some? && get.token.value != d.token)
      && (r == BlobMissing <==> r != TokenNotValid && d.hashFile !in s.blobs)
      && (r.Sent? ==> r.file == FileData(
            d.filename, s.blobs[d.hashFile], d.hashFile, d.encrypted, d.compressed, d.public, d.autoDecompress, d.mime))
      && r != Nothing
  {
    OwnRowIsFirst(After(config, s, FileSaved(d)).rows, d.hashFile);
  }
}
