/** The uploading client's account of what it stored: the token table, the quota check
    of `upload_file`, and the loop of `upload_directory`. */
module UploadQuota {
  import opened Basics

  datatype TokenInfo = TokenInfo(token: string, freeSpace: u64, usedSpace: u64)

  type Tokens = map<string, TokenInfo>

  /** A file to upload: its size if it exists, and whether connecting, reading, packing and
      reaching the token's provider succeed. */
  datatype File = File(size: Option<u64>, ioSucceeds: bool)

  datatype UploadError =
    | FileNotFound | NoTokensAvailable | InsufficientSpace(required: u64, available: u64) | IoError

  type Outcome = Result<u64, UploadError>

  /** What listing the directory's files gives. */
  datatype Listing = NotADirectory | Unreadable | Files(files: seq<File>)

  // --- One upload ---------------------------------------------------------

  /** The scan prefers larger tokens but accepts only this node's own row. */
  function BestToken(tokens: Tokens, me: string, size: u64): Option<TokenInfo> {
    if me in tokens && tokens[me].freeSpace >= size && tokens[me].freeSpace > 0 then Some(tokens[me]) else None
  }

  /** `Ok` carries the size that was counted. */
  function OutcomeOf(tokens: Tokens, me: string, file: File, public: bool): Outcome {
    if file.size.None? then Err(FileNotFound)
    else if BestToken(tokens, me, file.size.value).None? then Err(NoTokensAvailable)
    else
      var TokenInfo(_, free, used) := tokens[me];
      if Wrap64(used + file.size.value) > free && !public then
        Err(InsufficientSpace(file.size.value, if used > free then 0 else free - used))
      else if !file.ioSucceeds then Err(IoError)
      else Ok(file.size.value)
  }

  function AfterUpload(tokens: Tokens, me: string, file: File, public: bool): Tokens {
    match OutcomeOf(tokens, me, file, public)
    case Err(_) => tokens
    case Ok(size) => tokens[me := tokens[me].(usedSpace := Wrap64(tokens[me].usedSpace + size))]
  }

  function AfterFiles(tokens: Tokens, me: string, files: seq<File>, public: bool): Tokens
    decreases |files|
  {
    if files == [] then tokens
    else AfterUpload(AfterFiles(tokens, me, files[..|files| - 1], public), me, files[|files| - 1], public)
  }

  class PeerApi {
    const myPeerId: string
    var tokens: Tokens

    constructor (myPeerId: string)
      ensures this.myPeerId == myPeerId && tokens == map[]
    {
      this.myPeerId := myPeerId;
      tokens := map[];
    }

    method AddToken(peerId: string, token: string, freeSpace: u64)
      modifies this`tokens
      ensures tokens == old(tokens)[peerId := TokenInfo(token, freeSpace, 0)]
    {
      tokens := tokens[peerId := TokenInfo(token, freeSpace, 0)];
    }

    method GetBestToken(fileSize: u64) returns (best: Option<TokenInfo>)
      ensures best == BestToken(tokens, myPeerId, fileSize)
    {
      best := None;
      var bestFreeSpace: u64 := 0;
      var keys := tokens.Keys;
      while keys != {}
        invariant keys <= tokens.Keys
        invariant best == if myPeerId in keys then None else BestToken(tokens, myPeerId, fileSize)
        invariant best.None? ==> bestFreeSpace == 0
        decreases keys
      {
        var key :| key in keys;
        keys := keys - {key};
        var info := tokens[key];
        if info.freeSpace >= fileSize {
          if info.freeSpace > bestFreeSpace && myPeerId == key {
            bestFreeSpace := info.freeSpace;
            best := Some(info);
          }
        }
      }
    }

    method GetTokenUsedSpace(peerId: string) returns (used: u64)
      ensures used == if peerId in tokens then tokens[peerId].usedSpace else 0
    {
      return if peerId in tokens then tokens[peerId].usedSpace else 0;
    }

    method UpdateTokenUsedSpace(peerId: string, usedSpace: u64) returns (ok: bool)
      modifies this`tokens
      ensures ok == (peerId in old(tokens))
      ensures tokens == if ok then old(tokens)[peerId := old(tokens)[peerId].(usedSpace := usedSpace)] else old(tokens)
    {
      if peerId !in tokens {
        return false;
      }
      tokens := tokens[peerId := tokens[peerId].(usedSpace := usedSpace)];
      return true;
    }

    method UploadFile(file: File, public: bool) returns (r: Outcome)
      modifies this`tokens
      ensures r == OutcomeOf(old(tokens), myPeerId, file, public)
      ensures tokens == AfterUpload(old(tokens), myPeerId, file, public)
    {
      if file.size.None? {
        return Err(FileNotFound);
      }
      var fileSize := file.size.value;
      var best := GetBestToken(fileSize);
      if best.None? {
        return Err(NoTokensAvailable);
      }
      var usedSpace: int := GetTokenUsedSpace(myPeerId);
      var freeSpace := best.value.freeSpace;
      if Wrap64(usedSpace + fileSize) > freeSpace && !public {
        return Err(InsufficientSpace(fileSize, if usedSpace > freeSpace then 0 else freeSpace - usedSpace));
      }
      if !file.ioSucceeds {
        return Err(IoError);
      }
      var ok := UpdateTokenUsedSpace(myPeerId, Wrap64(usedSpace + fileSize));
      return Ok(fileSize);
    }

    /** Failures of single files are reported and skipped. */
    method UploadDirectory(listing: Listing, public: bool) returns (r: Result<(), UploadError>)
      modifies this`tokens
      ensures r == match listing
        case NotADirectory => Err(FileNotFound)
        case Unreadable => Err(IoError)
        case Files(files) => if files == [] then Err(FileNotFound) else Ok(())
      ensures tokens == if listing.Files? then AfterFiles(old(tokens), myPeerId, listing.files, public) else old(tokens)
      ensures myPeerId in old(tokens) && listing.Files? ==>
        myPeerId in tokens &&
        tokens[myPeerId].usedSpace
        == Wrap64(old(tokens)[myPeerId].usedSpace + Succeeded(old(tokens), myPeerId, listing.files, public))
    {
      if listing.NotADirectory? {
        return Err(FileNotFound);
      }
      if listing.Unreadable? {
        return Err(IoError);
      }
      var files := listing.files;
      if files == [] {
        return Err(FileNotFound);
      }
      var i := 0;
      while i < |files|
        invariant 0 <= i <= |files|
        invariant tokens == AfterFiles(old(tokens), myPeerId, files[..i], public)
      {
        var outcome := UploadFile(files[i], public);
        assert files[..i + 1][..i] == files[..i];
        i := i + 1;
      }
      assert files[..|files|] == files;
      if myPeerId in old(tokens) {
        DirectoryCounts(old(tokens), myPeerId, files, public);
      }
      return Ok(());
    }
  }

  // --- Accounting ---------------------------------------------------------

  /** What an upload adds to the used space. */
  function Counted(tokens: Tokens, me: string, file: File, public: bool): nat {
    match OutcomeOf(tokens, me, file, public)
    case Ok(size) => size
    case Err(_) => 0
  }

  /** Bytes of the files of a directory whose upload succeeds. */
  function Succeeded(tokens: Tokens, me: string, files: seq<File>, public: bool): nat
    decreases |files|
  {
    if files == [] then 0 else
    var front := files[..|files| - 1];
    Succeeded(tokens, me, front, public) + Counted(AfterFiles(tokens, me, front, public), me, files[|files| - 1], public)
  }

  lemma {:induction false} DirectoryCounts(tokens: Tokens, me: string, files: seq<File>, public: bool)
    requires me in tokens
    ensures Holds(AfterFiles(tokens, me, files, public), me, tokens[me].freeSpace,
                  tokens[me].usedSpace + Succeeded(tokens, me, files, public))
    decreases |files|
  {
    if files != [] {
      var front := files[..|files| - 1];
      DirectoryCounts(tokens, me, front, public);
      UploadCounts(AfterFiles(tokens, me, front, public), me, files[|files| - 1], public, tokens[me].freeSpace,
                   tokens[me].usedSpace + Succeeded(tokens, me, front, public));
    }
  }

  // --- Runs ---------------------------------------------------------------

  datatype Event =
    | TokenAdded(peerId: string, token: string, freeSpace: u64)
    | Uploaded(file: File, public: bool)

  function After(tokens: Tokens, me: string, e: Event): Tokens {
    match e
    case TokenAdded(peerId, token, freeSpace) => tokens[peerId := TokenInfo(token, freeSpace, 0)]
    case Uploaded(file, public) => AfterUpload(tokens, me, file, public)
  }

  function AfterAll(tokens: Tokens, me: string, events: seq<Event>): Tokens
    decreases |events|
  {
    if events == [] then tokens else After(AfterAll(tokens, me, events[..|events| - 1]), me, events[|events| - 1])
  }

  /** Bytes of successful uploads; only the private ones if `privateOnly`. */
  function Bytes(tokens: Tokens, me: string, events: seq<Event>, privateOnly: bool): nat
    decreases |events|
  {
    if events == [] then 0 else
    var front, e := events[..|events| - 1], events[|events| - 1];
    var before := AfterAll(tokens, me, front);
    Bytes(tokens, me, front, privateOnly) +
    if e.Uploaded? && !(privateOnly && e.public) then Counted(before, me, e.file, e.public) else 0
  }

  /** No new token for this node. */
  predicate KeepsToken(me: string, events: seq<Event>) {
    forall i :: 0 <= i < |events| ==> !(events[i].TokenAdded? && events[i].peerId == me)
  }

  predicate Holds(tokens: Tokens, me: string, free: u64, used: nat) {
    me in tokens && tokens[me].freeSpace == free && tokens[me].usedSpace == Wrap64(used)
  }

  lemma UploadCounts(tokens: Tokens, me: string, file: File, public: bool, free: u64, used: nat)
    requires Holds(tokens, me, free, used)
    ensures Holds(AfterUpload(tokens, me, file, public), me, free, used + Counted(tokens, me, file, public))
  {
  }

  /** Since this node's last token the used space counts every successful upload, public ones
      too, modulo 2^64. */
  lemma {:induction false} UsedIsCounted(tokens: Tokens, me: string, events: seq<Event>)
    requires me in tokens && tokens[me].usedSpace == 0 && KeepsToken(me, events)
    ensures Holds(AfterAll(tokens, me, events), me, tokens[me].freeSpace, Bytes(tokens, me, events, false))
    decreases |events|
  {
    if events != [] {
      var front, e := events[..|events| - 1], events[|events| - 1];
      UsedIsCounted(tokens, me, front);
      if e.Uploaded? {
        UploadCounts(AfterAll(tokens, me, front), me, e.file, e.public, tokens[me].freeSpace, Bytes(tokens, me, front, false));
      }
    }
  }

  lemma {:induction false} PrivateIsPart(tokens: Tokens, me: string, events: seq<Event>)
    ensures Bytes(tokens, me, events, true) <= Bytes(tokens, me, events, false)
    decreases |events|
  {
    if events != [] {
      PrivateIsPart(tokens, me, events[..|events| - 1]);
    }
  }

  /** An accepted private upload has been checked against the exact sum. */
  lemma PrivateUploadFits(tokens: Tokens, me: string, file: File, free: u64, used: nat)
    requires Holds(tokens, me, free, used) && used + Counted(tokens, me, file, false) < TWO_TO_THE_64
    ensures OutcomeOf(tokens, me, file, false).Ok? ==> used + Counted(tokens, me, file, false) <= free
    ensures OutcomeOf(tokens, me, file, false).Err? ==> Counted(tokens, me, file, false) == 0
  {
  }

  /** As long as fewer than 2^64 bytes were stored in all, the used space is their exact sum and
      the private bytes stay within the token, whatever was uploaded publicly in between. */
  lemma {:induction false} PrivateWithinToken(tokens: Tokens, me: string, events: seq<Event>)
    requires me in tokens && tokens[me].usedSpace == 0 && KeepsToken(me, events)
    requires Bytes(tokens, me, events, false) < TWO_TO_THE_64
    ensures var after := AfterAll(tokens, me, events);
      me in after && after[me].usedSpace == Bytes(tokens, me, events, false)
    ensures Bytes(tokens, me, events, true) <= tokens[me].freeSpace
    decreases |events|
  {
    UsedIsCounted(tokens, me, events);
    if events != [] {
      var front, e := events[..|events| - 1], events[|events| - 1];
      PrivateWithinToken(tokens, me, front);
      if e.Uploaded? && !e.public {
        PrivateIsPart(tokens, me, front);
        UsedIsCounted(tokens, me, front);
        PrivateUploadFits(AfterAll(tokens, me, front), me, e.file, tokens[me].freeSpace, Bytes(tokens, me, front, false));
      }
    }
  }

  /** The size of this node's last token. */
  function Granted(me: string, events: seq<Event>): Option<u64> {
    if events == [] then None
    else
      var front, e := events[..|events| - 1], events[|events| - 1];
      if e.TokenAdded? && e.peerId == me then Some(e.freeSpace) else Granted(me, front)
  }

  /** Bytes of the successful uploads since. */
  function Stored(me: string, events: seq<Event>): nat
    decreases |events|
  {
    if events == [] then 0
    else
      var front, e := events[..|events| - 1], events[|events| - 1];
      match e
      case TokenAdded(peerId, _, _) => if peerId == me then 0 else Stored(me, front)
      case Uploaded(file, public) => Stored(me, front) + Counted(AfterAll(map[], me, front), me, file, public)
  }

  /** A node has exactly its last token, and has used what it stored since. */
  lemma {:induction false} AccountIs(me: string, events: seq<Event>)
    ensures var after := AfterAll(map[], me, events);
      match Granted(me, events)
      case None => me !in after
      case Some(free) => Holds(after, me, free, Stored(me, events))
    decreases |events|
  {
    if events != [] {
      var front, e := events[..|events| - 1], events[|events| - 1];
      AccountIs(me, front);
      if e.Uploaded? && Granted(me, front).Some? {
        UploadCounts(AfterAll(map[], me, front), me, e.file, e.public, Granted(me, front).value, Stored(me, front));
      }
    }
  }

  /** The outcome of uploading a readable file, in terms of the token and what is stored. */
  predicate SucceedsExactly(outcome: Outcome, free: u64, stored: nat, size: u64, public: bool) {
    && (outcome.Ok? <==> 0 < free && size <= free && (public || (stored + size) % TWO_TO_THE_64 <= free))
    && (outcome.Ok? ==> outcome.value == size)
    && (outcome == Err(NoTokensAvailable) <==> free == 0 || free < size)
    && (outcome.Err? && size <= free && 0 < free ==> outcome == Err(InsufficientSpace(
          size, if stored % TWO_TO_THE_64 > free then 0 else free - stored % TWO_TO_THE_64)))
  }

  lemma OutcomeIs(tokens: Tokens, me: string, free: u64, stored: nat, size: u64, public: bool)
    requires Holds(tokens, me, free, stored)
    ensures SucceedsExactly(OutcomeOf(tokens, me, File(Some(size), true), public), free, stored, size, public)
  {
    CountedSum(stored, size);
  }

  /** After any tokens and uploads: a readable file is uploaded exactly when this node's last token
      is not empty and as large as the file, and the upload is public or its size and what was
      stored since, summed in 64 bits, are within the token. Public uploads are counted but
      not limited. Otherwise there is no token for the file, or not enough space. */
  lemma UploadSucceedsExactly(me: string, events: seq<Event>, size: u64, public: bool)
    ensures var outcome := OutcomeOf(AfterAll(map[], me, events), me, File(Some(size), true), public);
      match Granted(me, events)
      case None => outcome == Err(NoTokensAvailable)
      case Some(free) => SucceedsExactly(outcome, free, Stored(me, events), size, public)
  {
    AccountIs(me, events);
    if Granted(me, events).Some? {
      OutcomeIs(AfterAll(map[], me, events), me, Granted(me, events).value, Stored(me, events), size, public);
    }
  }

  lemma CountedSum(bytes: nat, size: u64)
    ensures (Wrap64(bytes) + size) % TWO_TO_THE_64 == (bytes + size) % TWO_TO_THE_64
  {
  }

  /** Without a file nothing is uploaded; and a file that cannot be read or sent fails last of all. */
  lemma OtherFailures(tokens: Tokens, me: string, file: File, public: bool)
    ensures OutcomeOf(tokens, me, file, public) == Err(FileNotFound) <==> file.size.None?
    ensures OutcomeOf(tokens, me, file, public) == Err(IoError)
      <==> !file.ioSucceeds && OutcomeOf(tokens, me, file.(ioSucceeds := true), public).Ok?
    ensures !file.ioSucceeds ==> OutcomeOf(tokens, me, file, public).Err?
    ensures OutcomeOf(tokens, me, file.(ioSucceeds := true), public).Err? ==>
      OutcomeOf(tokens, me, file, public) == OutcomeOf(tokens, me, file.(ioSucceeds := true), public)
  {
  }

  /** An accepted private upload leaves the account within the token exactly when the sum it
      checked did not overflow. */
  lemma QuotaHoldsExactly(tokens: Tokens, me: string, file: File)
    requires OutcomeOf(tokens, me, file, false).Ok?
    ensures tokens[me].usedSpace + file.size.value <= tokens[me].freeSpace
      <==> tokens[me].usedSpace + file.size.value < TWO_TO_THE_64
  {
  }
}
