// The spool as objects: a store that writes one file per body, and a reader with a buffer, a
// counter and a flag. Each method is proved against the functions of module Blob.

module BlobStore {
  import opened Options
  import opened Blob

  /** What `Put` reads: bytes, then either the end or a read error. */
  datatype Source = Source(data: Bytes, breaks: bool)

  datatype PutResult = Stored(written: nat) | InvalidId | Exists | ReadFailed(written: nat) | TooLarge(written: nat) | DiskFailed

  predicate ValidId(id: string) {
    |id| >= 2 && '/' !in id
  }

  predicate Fits(size: nat, maxBytes: int) {
    maxBytes <= 0 || size <= maxBytes
  }

  lemma FirstChunks(d: Bytes, k: nat)
    requires k < ChunkCount(d)
    ensures var rest := d[k * CHUNK..];
            if |rest| < CHUNK then k + 1 == ChunkCount(d) && Chunk(d, k) == rest
            else k + 1 < ChunkCount(d) && Chunk(d, k) == rest[..CHUNK]
  {
  }

  /** How many chunks a store seals before it stops: all of them, or those in front of a read error or the limit. */
  function ChunksSealed(src: Source, maxBytes: int): (n: nat)
    ensures n <= ChunkCount(src.data)
  {
    var full := ChunkCount(src.data) - 1;
    if !src.breaks && Fits(|src.data|, maxBytes) then full + 1
    else if maxBytes <= 0 then full
    else Min(maxBytes / CHUNK, full)
  }

  method SealBody(a: Aead, salt: Bytes, src: Source, maxBytes: int) returns (r: PutResult, file: Bytes)
    ensures r.Stored? <==> !src.breaks && Fits(|src.data|, maxBytes)
    ensures r.Stored? ==> r.written == |src.data| && file == PutFile(a, salt, src.data)
    ensures r.TooLarge? ==> !Fits(r.written, maxBytes) && r.written <= |src.data|
    ensures r.ReadFailed? ==> src.breaks && r.written == |src.data| / CHUNK * CHUNK && Fits(r.written, maxBytes)
    ensures r.Stored? || r.TooLarge? || r.ReadFailed?
    ensures file == Header(salt) + SealedUpTo(a, src.data, ChunksSealed(src, maxBytes))
  {
    hide SealedChunk, SealedFrom, PutFile, Chunk;
    assert PutFile(a, salt, src.data) == Header(salt) + SealedFrom(a, src.data, 0) by { PutFileIs(a, salt, src.data); }
    var d := src.data;
    file := Header(salt);
    var counter, written: nat, last := 0, 0, false;
    while !last
      invariant counter + (if last then 0 else 1) <= ChunkCount(d)
      invariant last ==> counter == ChunkCount(d) && written == |d| && !src.breaks
      invariant !last ==> written == counter * CHUNK
      invariant counter > 0 ==> Fits(written, maxBytes)
      invariant written <= |d|
      invariant file == Header(salt) + SealedUpTo(a, d, counter)
      decreases ChunkCount(d) - counter
    {
      var rest := d[written..];
      FirstChunks(d, counter);
      var n := Min(CHUNK, |rest|);
      if n < CHUNK && src.breaks {
        return ReadFailed(written), file;
      }
      written := written + n;
      if maxBytes > 0 && written > maxBytes {
        return TooLarge(written), file;
      }
      last := n < CHUNK;
      var sealed := a.seal(NonceFor(counter, last), rest[..n]);
      assert sealed == SealedChunk(a, d, counter) by { OneSealed(a, d, counter, rest[..n], last); }
      file := file + sealed;
      counter := counter + 1;
    }
    AllSealed(a, d, 0);
    r := Stored(written);
  }

  lemma PutFileIs(a: Aead, salt: Bytes, d: Bytes)
    ensures PutFile(a, salt, d) == Header(salt) + SealedFrom(a, d, 0)
  {
  }

  lemma OneSealed(a: Aead, d: Bytes, k: nat, chunk: Bytes, last: bool)
    requires k < ChunkCount(d) && chunk == Chunk(d, k) && last == (k + 1 == ChunkCount(d))
    ensures a.seal(NonceFor(k, last), chunk) == SealedChunk(a, d, k)
  {
  }

  lemma {:induction false} AllSealed(a: Aead, d: Bytes, k: nat)
    requires k <= ChunkCount(d)
    ensures SealedUpTo(a, d, k) + SealedFrom(a, d, k) == SealedUpTo(a, d, ChunkCount(d))
    decreases ChunkCount(d) - k
  {
    hide SealedChunk;
    if k < ChunkCount(d) {
      AllSealed(a, d, k + 1);
    }
  }

  class Store {
    const keys: Bytes -> Aead
    var files: map<string, Bytes>
    /** History: what was sealed under each salt, bodies that were given up half-way included. */
    ghost var sealed: map<Bytes, Sealing>

    constructor (keys: Bytes -> Aead)
      ensures this.keys == keys && files == map[] && sealed == map[]
    {
      this.keys := keys;
      files := map[];
      sealed := map[];
    }

    /** A body is stored whole under a new name, or no file changes; chunks may have been sealed all the same. */
    method Put(id: string, src: Source, maxBytes: int, salt: Bytes, diskOk: bool) returns (r: PutResult)
      modifies this
      ensures r.Stored? <==>
                && |id| >= 2 && '/' !in id && id !in old(files) && diskOk
                && !src.breaks && (maxBytes <= 0 || |src.data| <= maxBytes)
      ensures files == if r.Stored? then old(files)[id := PutFile(keys(salt), salt, src.data)] else old(files)
      ensures r.Stored? ==> r.written == |src.data|
      ensures r.TooLarge? ==> !Fits(|src.data|, maxBytes)
      ensures sealed == if ValidId(id) && id !in old(files) then old(sealed)[salt := Sealing(src.data, ChunksSealed(src, maxBytes))]
                        else old(sealed)
    {
      if !ValidId(id) {
        return InvalidId;
      }
      if id in files {
        return Exists;
      }
      var file;
      r, file := SealBody(keys(salt), salt, src, maxBytes);
      sealed := sealed[salt := Sealing(src.data, ChunksSealed(src, maxBytes))];
      if r.Stored? {
        if !diskOk {
          return DiskFailed;
        }
        files := files[id := file];
      }
    }

    method Get(id: string) returns (r: Option<Reader>)
      ensures r.Some? ==> ValidId(id) && id in files && fresh(r.value) && r.value.Valid()
                          && r.value.Ahead() == DecodeFile(keys, files[id])
      ensures r.None? && ValidId(id) && id in files ==> !HeaderOk(files[id])
    {
      if !ValidId(id) || id !in files {
        return None;
      }
      var file := files[id];
      if |file| < HEADER || file[..4] != MAGIC || file[4] != VERSION {
        return None;
      }
      var reader := new Reader(file, keys(SaltOf(file)), HEADER);
      r := Some(reader);
    }

    method Delete(id: string) returns (ok: bool)
      modifies this`files
      ensures ok == ValidId(id)
      ensures files == if ok then old(files) - {id} else old(files)
    {
      ok := ValidId(id);
      if ok {
        files := files - {id};
      }
    }
  }

  datatype ReadError = NoError | EndOfFile | Corrupt

  class Reader {
    const file: Bytes
    const aead: Aead
    var pos: nat
    var plain: Bytes
    var counter: nat
    var done: bool

    ghost predicate Valid()
      reads this
    {
      pos <= |file|
    }

    /** What is still to be read, up to the first error. */
    ghost function Ahead(): Decoded
      reads this
      requires Valid()
    {
      if done then Decoded(plain, true)
      else
        var rest := Decode(aead, file[pos..], counter);
        Decoded(plain + rest.data, rest.clean)
    }

    constructor (file: Bytes, aead: Aead, pos: nat)
      requires pos <= |file|
      ensures Valid() && Ahead() == Decode(aead, file[pos..], 0)
    {
      this.file, this.aead, this.pos := file, aead, pos;
      plain, counter, done := [], 0, false;
      new;
      assert [] + Decode(aead, file[pos..], 0).data == Decode(aead, file[pos..], 0).data;
    }

    /** Opens the next block. On an error nothing more was to come. */
    method Next() returns (ok: bool)
      requires Valid() && plain == [] && !done
      modifies this
      ensures Valid()
      ensures ok ==> Ahead() == old(Ahead()) && pos > old(pos)
      ensures !ok ==> old(Ahead()) == Decoded([], false)
    {
      ghost var rest := file[pos..];
      assert [] + Decode(aead, rest, counter).data == Decode(aead, rest, counter).data;
      var n := Min(CHUNK + TAG, |file| - pos);
      var block := file[pos..pos + n];
      assert block == rest[..n] && file[pos + n..] == rest[n..];
      pos := pos + n;
      if n < TAG {
        return false;
      }
      var out := aead.open(NonceFor(counter, false), block);
      if out.Some? {
        plain := out.value;
        counter := counter + 1;
        return true;
      }
      out := aead.open(NonceFor(counter, true), block);
      if out.None? {
        return false;
      }
      plain := out.value;
      counter := counter + 1;
      done := true;
      ok := pos == |file|;
    }

    /** Hands over at most `size` bytes of what is ahead. */
    method Read(size: nat) returns (out: Bytes, err: ReadError)
      requires Valid()
      modifies this
      ensures Valid()
      ensures err == NoError ==> old(Ahead()) == Decoded(out + Ahead().data, Ahead().clean)
                                 && |out| <= size && (size > 0 ==> out != [])
      ensures err != NoError ==> out == [] && old(Ahead()) == Decoded([], err == EndOfFile)
    {
      while |plain| == 0
        invariant Valid() && Ahead() == old(Ahead())
        decreases |file| - pos
      {
        if done {
          return [], EndOfFile;
        }
        var ok := Next();
        if !ok {
          return [], Corrupt;
        }
      }
      ghost var whole := Ahead();
      var n := Min(size, |plain|);
      out := plain[..n];
      assert plain == out + plain[n..];
      plain := plain[n..];
      assert whole.data == out + Ahead().data;
      err := NoError;
    }
  }

  /** Reading to the first error or the end, whatever the sizes of the buffers. */
  method ReadAll(r: Reader, sizes: nat -> nat) returns (out: Bytes, clean: bool)
    requires r.Valid() && forall i :: sizes(i) > 0
    modifies r
    ensures Decoded(out, clean) == old(r.Ahead())
  {
    hide Decode;
    out := [];
    var i := 0;
    assert [] + r.Ahead().data == r.Ahead().data;
    while true
      invariant r.Valid()
      invariant old(r.Ahead()) == Decoded(out + r.Ahead().data, r.Ahead().clean)
      decreases |r.Ahead().data|
    {
      var part, err := r.Read(sizes(i));
      if err != NoError {
        assert out + [] == out;
        return out, err == EndOfFile;
      }
      assert out + (part + r.Ahead().data) == out + part + r.Ahead().data;
      out := out + part;
      i := i + 1;
    }
  }

  /** A stored body comes back through any buffers; a changed file gives at most a prefix of what was sealed under its salt. */
  method Fetch(s: Store, id: string, sizes: nat -> nat) returns (out: Bytes, clean: bool)
    requires Ideal(s.keys, s.sealed) && ValidId(id) && id in s.files && forall i :: sizes(i) > 0
    ensures clean <==> exists salt :: WrittenUnder(s.keys, s.sealed, salt, s.files[id])
    ensures forall salt :: WrittenUnder(s.keys, s.sealed, salt, s.files[id]) ==> out == s.sealed[salt].data
    ensures HeaderOk(s.files[id]) && SaltOf(s.files[id]) in s.sealed ==> out <= SealedPart(s.sealed[SaltOf(s.files[id])])
  {
    hide Ideal, Decode, PutFile;
    ghost var file := s.files[id];
    CleanMeansWritten(s.keys, s.sealed, file);
    TamperEvident(s.keys, s.sealed, file);
    forall salt | WrittenUnder(s.keys, s.sealed, salt, file)
      ensures DecodeFile(s.keys, file).data == s.sealed[salt].data
    {
      RoundTrip(s.keys, s.sealed, salt);
    }
    hide WrittenUnder;
    var r := s.Get(id);
    if r.None? {
      return [], false;
    }
    out, clean := ReadAll(r.value, sizes);
  }
}
