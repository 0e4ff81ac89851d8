/** Encrypted backup files (backend/investigation/backup.py): framing, chunked encryption and decryption. */
module BackupCipher {
  import opened Common

  const CHUNK: nat := 1024 * 1024
  const NONCE: nat := 12
  const TAG: nat := 16

  /** "PHISHCASE-BACKUP-1" and a line feed. */
  const MAGIC: Bytes :=
    [0x50, 0x48, 0x49, 0x53, 0x48, 0x43, 0x41, 0x53, 0x45, 0x2d, 0x42, 0x41, 0x43, 0x4b, 0x55, 0x50, 0x2d, 0x31, 0x0a]

  /** AES-GCM under one key, as the code uses it: a key stream that is combined with the data byte by byte,
      and a tag over the associated data and the ciphertext. */
  datatype Gcm = Gcm(stream: (Bytes, nat) -> bv8, tag: (Bytes, Bytes, Bytes) -> Bytes) {
    ghost predicate Valid() {
      forall nonce, aad, text :: |tag(nonce, aad, text)| == TAG
    }
  }

  datatype Error = Unsupported | Truncated | DestinationExists | InvalidTag

  datatype Result<+T> = Ok(value: T) | Err(error: Error)

  /** The data combined with the key stream from `offset` on. */
  function Combine(g: Gcm, nonce: Bytes, offset: nat, data: Bytes): (r: Bytes)
    ensures |r| == |data|
  {
    seq(|data|, i requires 0 <= i < |data| => data[i] ^ g.stream(nonce, offset + i))
  }

  /** The file an encryption under this nonce leaves behind. */
  function Sealed(g: Gcm, nonce: Bytes, data: Bytes): Bytes {
    var text := Combine(g, nonce, 0, data);
    MAGIC + nonce + text + g.tag(nonce, MAGIC, text)
  }

  lemma CombineSplits(g: Gcm, nonce: Bytes, offset: nat, a: Bytes, b: Bytes)
    ensures Combine(g, nonce, offset, a + b) == Combine(g, nonce, offset, a) + Combine(g, nonce, offset + |a|, b)
  {
    var c := Combine(g, nonce, offset, a) + Combine(g, nonce, offset + |a|, b);
    forall i | 0 <= i < |a + b| ensures Combine(g, nonce, offset, a + b)[i] == c[i] {
      if i >= |a| {
        assert offset + i == offset + |a| + (i - |a|);
      }
    }
  }

  lemma XorTwice(a: bv8, b: bv8)
    ensures (a ^ b) ^ b == a
  {
  }

  lemma CombineTwice(g: Gcm, nonce: Bytes, offset: nat, data: Bytes)
    ensures Combine(g, nonce, offset, Combine(g, nonce, offset, data)) == data
  {
    forall i | 0 <= i < |data| ensures Combine(g, nonce, offset, Combine(g, nonce, offset, data))[i] == data[i] {
      XorTwice(data[i], g.stream(nonce, offset + i));
    }
  }

  /** A file opened for reading. A read may return fewer bytes than asked for, but none only at the end. */
  class Source {
    const data: Bytes
    var pos: nat

    constructor (data: Bytes)
      ensures this.data == data && pos == 0
    {
      this.data := data;
      pos := 0;
    }

    method Read(n: nat) returns (r: Bytes)
      requires pos <= |data|
      modifies this
      ensures old(pos) <= pos <= |data| && r == data[old(pos)..pos] && |r| <= n
      ensures r == [] ==> n == 0 || pos == |data|
    {
      if n == 0 || pos == |data| {
        return [];
      }
      var got: nat :| 1 <= got <= n && got <= |data| - pos;
      r := data[pos..pos + got];
      pos := pos + got;
    }
  }

  /** encrypt_file: whatever pieces the data is read in, the file holds the whole of it. `out` is what is at
      the destination afterwards; a file that was there stays as it is. */
  method EncryptFile(g: Gcm, nonce: Bytes, src: Source, existing: Option<Bytes>) returns (r: Result<()>, out: Option<Bytes>)
    requires src.pos == 0
    modifies src
    ensures if existing.Some? then r == Err(DestinationExists) && out == existing
      else r == Ok(()) && out == Some(Sealed(g, nonce, src.data))
  {
    if existing.Some? {
      return Err(DestinationExists), existing;
    }
    var file := SealAll(g, nonce, src);
    return Ok(()), Some(file);
  }

  /** The chunked body of encrypt_file. */
  method SealAll(g: Gcm, nonce: Bytes, src: Source) returns (out: Bytes)
    requires src.pos == 0
    modifies src
    ensures out == Sealed(g, nonce, src.data)
  {
    out := MAGIC + nonce;
    ghost var head := out;
    var offset := 0;
    var chunk := src.Read(CHUNK);
    while chunk != []
      invariant 0 <= offset <= src.pos <= |src.data| && chunk == src.data[offset..src.pos]
      invariant chunk == [] ==> src.pos == |src.data|
      invariant out == head + Combine(g, nonce, 0, src.data[..offset])
      decreases |src.data| - offset
    {
      CombineSplits(g, nonce, 0, src.data[..offset], chunk);
      assert src.data[..src.pos] == src.data[..offset] + chunk;
      out := out + Combine(g, nonce, offset, chunk);
      offset := offset + |chunk|;
      chunk := src.Read(CHUNK);
    }
    assert src.data[..offset] == src.data;
    out := out + g.tag(nonce, MAGIC, out[|MAGIC| + |nonce|..]);
    assert (head + Combine(g, nonce, 0, src.data))[|MAGIC| + |nonce|..] == Combine(g, nonce, 0, src.data);
  }

  /** What decrypting a file yields, the file taken apart by position. */
  function Opened(g: Gcm, file: Bytes): Result<Bytes> {
    if |file| < |MAGIC| || file[..|MAGIC|] != MAGIC then Err(Unsupported)
    else if |file| < |MAGIC| + NONCE + TAG then Err(Truncated)
    else
      var nonce := file[|MAGIC|..|MAGIC| + NONCE];
      var text := file[|MAGIC| + NONCE..|file| - TAG];
      if g.tag(nonce, MAGIC, text) != file[|file| - TAG..] then Err(InvalidTag)
      else Ok(Combine(g, nonce, 0, text))
  }

  /** The destination's state after decrypt_file: the file is created, and removed after any exception, only once
      magic and length were right. The removal also hits a file that was there before. */
  function Decrypted(g: Gcm, file: Bytes, existing: Option<Bytes>): (Result<()>, Option<Bytes>) {
    match Opened(g, file)
    case Err(Unsupported) => (Err(Unsupported), existing)
    case Err(Truncated) => (Err(Truncated), existing)
    case later =>
      if existing.Some? then (Err(DestinationExists), None)
      else match later
        case Ok(data) => (Ok(()), Some(data))
        case Err(e) => (Err(e), None)
  }

  /** decrypt_file, with the destination before and after. The loop's own check for a premature end never fires,
      since the file does not change while it is read. */
  method DecryptFile(g: Gcm, src: Source, existing: Option<Bytes>) returns (r: Result<()>, out: Option<Bytes>)
    requires src.pos == 0
    modifies src
    ensures (r, out) == Decrypted(g, src.data, existing)
  {
    var file := src.data;
    if |file| < |MAGIC| || file[..|MAGIC|] != MAGIC {
      return Err(Unsupported), existing;
    }
    if |file| < |MAGIC| + NONCE + TAG {
      return Err(Truncated), existing;
    }
    var start := |MAGIC| + NONCE;
    var nonce, tag := file[|MAGIC|..start], file[|file| - TAG..];
    var remaining := |file| - start - TAG;
    src.pos := start;
    if existing.Some? {
      return Err(DestinationExists), None;
    }
    var text: Bytes, plain: Bytes := [], [];
    while remaining > 0
      invariant start <= src.pos <= |file| - TAG && remaining == |file| - TAG - src.pos
      invariant text == file[start..src.pos] && plain == Combine(g, nonce, 0, text)
      decreases remaining
    {
      var chunk := src.Read(if CHUNK < remaining then CHUNK else remaining);
      if chunk == [] {
        assert false;
      }
      CombineSplits(g, nonce, 0, text, chunk);
      plain := plain + Combine(g, nonce, |text|, chunk);
      text := text + chunk;
      remaining := remaining - |chunk|;
    }
    if g.tag(nonce, MAGIC, text) != tag {
      return Err(InvalidTag), None;
    }
    return Ok(()), Some(plain);
  }

  /** Decryption succeeds only into a free destination, for a sealed file. After a failure a file that was at the
      destination is gone exactly if the input had the form of a backup, whether or not its tag was right. */
  lemma DestinationAfterDecryption(g: Gcm, file: Bytes, existing: Option<Bytes>)
    requires g.Valid()
    ensures var (r, out) := Decrypted(g, file, existing);
      && (r.Ok? <==> existing.None? && exists nonce: Bytes, data: Bytes :: |nonce| == NONCE && file == Sealed(g, nonce, data))
      && (r.Ok? ==> out.Some? && exists nonce: Bytes :: |nonce| == NONCE && file == Sealed(g, nonce, out.value))
      && (r.Err? && existing.Some? ==>
            (out != existing <==> |file| >= |MAGIC| + NONCE + TAG && file[..|MAGIC|] == MAGIC)
            && (out != existing ==> out == None && r == Err(DestinationExists)))
      && (r.Err? && existing.None? ==> out == None)
  {
    var (r, out) := Decrypted(g, file, existing);
    if r.Ok? {
      OpensExactlySealedFiles(g, file, out.value);
    }
    if existing.None? && exists nonce: Bytes, data: Bytes :: |nonce| == NONCE && file == Sealed(g, nonce, data) {
      var nonce: Bytes, data: Bytes :| |nonce| == NONCE && file == Sealed(g, nonce, data);
      SealedOpens(g, nonce, data);
    }
  }

  /** The first thing that stands in the way of decrypting: no magic at the start, fewer than 47 bytes, a destination
      that exists, or a file that no encryption under this key produces. */
  lemma DecryptionAnswers(g: Gcm, file: Bytes, existing: Option<Bytes>)
    requires g.Valid()
    ensures var (r, out) := Decrypted(g, file, existing);
      if !(MAGIC <= file) then r == Err(Unsupported) && out == existing
      else if |file| < 47 then r == Err(Truncated) && out == existing
      else if existing.Some? then r == Err(DestinationExists) && out == None
      else if exists nonce: Bytes, data: Bytes :: |nonce| == 12 && file == Sealed(g, nonce, data) then r == Ok(())
      else r == Err(InvalidTag) && out == None
  {
    DestinationAfterDecryption(g, file, existing);
    assert MAGIC <= file <==> |file| >= |MAGIC| && file[..|MAGIC|] == MAGIC;
  }

  /** Restoring a good backup over an earlier file fails and takes the earlier file away. */
  lemma ExistingDestinationIsLost(g: Gcm, nonce: Bytes, data: Bytes, earlier: Bytes)
    requires g.Valid() && |nonce| == NONCE
    ensures Decrypted(g, Sealed(g, nonce, data), Some(earlier)) == (Err(DestinationExists), None)
  {
    SealedOpens(g, nonce, data);
  }

  /** Decryption undoes encryption, and accepts nothing that encryption cannot have produced. */
  lemma OpensExactlySealedFiles(g: Gcm, file: Bytes, data: Bytes)
    requires g.Valid()
    ensures Opened(g, file) == Ok(data) <==> exists nonce: Bytes :: |nonce| == NONCE && file == Sealed(g, nonce, data)
  {
    if Opened(g, file) == Ok(data) {
      var nonce := file[|MAGIC|..|MAGIC| + NONCE];
      var text := file[|MAGIC| + NONCE..|file| - TAG];
      CombineTwice(g, nonce, 0, text);
      assert file == MAGIC + nonce + text + file[|file| - TAG..];
      assert file == Sealed(g, nonce, data);
    }
    if exists nonce: Bytes :: |nonce| == NONCE && file == Sealed(g, nonce, data) {
      var nonce: Bytes :| |nonce| == NONCE && file == Sealed(g, nonce, data);
      SealedOpens(g, nonce, data);
    }
  }

  lemma SealedOpens(g: Gcm, nonce: Bytes, data: Bytes)
    requires g.Valid() && |nonce| == NONCE
    ensures Opened(g, Sealed(g, nonce, data)) == Ok(data)
  {
    var text := Combine(g, nonce, 0, data);
    var tag := g.tag(nonce, MAGIC, text);
    assert |tag| == TAG;
    var file := MAGIC + nonce + text + tag;
    assert file[..|MAGIC|] == MAGIC;
    assert file[|MAGIC|..|MAGIC| + NONCE] == nonce;
    assert file[|MAGIC| + NONCE..|file| - TAG] == text;
    assert file[|file| - TAG..] == tag;
    CombineTwice(g, nonce, 0, data);
  }

  /** Two backups of different contents are never the same file, even under different nonces. */
  lemma SealedIsInjective(g: Gcm, m: Bytes, n: Bytes, a: Bytes, b: Bytes)
    requires g.Valid() && |m| == NONCE && |n| == NONCE && Sealed(g, m, a) == Sealed(g, n, b)
    ensures a == b
  {
    SealedOpens(g, m, a);
    SealedOpens(g, n, b);
  }
}
