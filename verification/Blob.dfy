// internal/blob/blob.go: the encrypted spool. A body is cut into chunks, each sealed under a
// nonce that carries its number and whether it is the last one; the reader undoes this block by block.

module Blob {
  import opened Options

  type byte = x: int | 0 <= x < 256

  type Bytes = seq<byte>

  const CHUNK: nat := 65536
  const TAG: nat := 16
  const SALT: nat := 16
  const HEADER: nat := 21
  const COUNTER_BYTES: nat := 8
  const MAGIC: Bytes := [0x58, 0x4D, 0x58, 0x42]
  const VERSION: byte := 1
  /** Go counts bytes in an int64. */
  const MAX_LENGTH: nat := 0x7FFF_FFFF_FFFF_FFFF

  /** The cipher under one derived key. */
  datatype Aead = Aead(seal: (Bytes, Bytes) -> Bytes, open: (Bytes, Bytes) -> Option<Bytes>)

  // ----- nonces -----

  /** The low `k` bytes of `n`, most significant first. */
  function BigEndian(n: nat, k: nat): (s: Bytes)
    ensures |s| == k
  {
    if k == 0 then [] else BigEndian(n / 256, k - 1) + [n % 256]
  }

  function NonceFor(counter: nat, last: bool): (n: Bytes)
    ensures |n| == 12
  {
    [0, 0, 0] + BigEndian(counter, COUNTER_BYTES) + [if last then 1 else 0]
  }

  function Power256(k: nat): nat {
    if k == 0 then 1 else 256 * Power256(k - 1)
  }

  lemma {:induction false} BigEndianInjective(m: nat, n: nat, k: nat)
    requires m < Power256(k) && n < Power256(k) && BigEndian(m, k) == BigEndian(n, k)
    ensures m == n
  {
    if k > 0 {
      var a, b := BigEndian(m, k), BigEndian(n, k);
      assert a[..k - 1] == BigEndian(m / 256, k - 1) && a[k - 1] == m % 256;
      assert b[..k - 1] == BigEndian(n / 256, k - 1) && b[k - 1] == n % 256;
      BigEndianInjective(m / 256, n / 256, k - 1);
    }
  }

  /** A nonce tells the chunk number and the last flag, below 2^64 chunks. */
  lemma NonceInjective(i: nat, a: bool, j: nat, b: bool)
    requires i < 0x1_0000_0000_0000_0000 && j < 0x1_0000_0000_0000_0000 && NonceFor(i, a) == NonceFor(j, b)
    ensures i == j && a == b
  {
    var m, n := NonceFor(i, a), NonceFor(j, b);
    assert m[11] == (if a then 1 else 0) && n[11] == (if b then 1 else 0);
    assert m[3..11] == BigEndian(i, COUNTER_BYTES) && n[3..11] == BigEndian(j, COUNTER_BYTES);
    assert Power256(8) == 0x1_0000_0000_0000_0000;
    BigEndianInjective(i, j, COUNTER_BYTES);
  }

  // ----- the chunks of a body -----

  /** A body that ends on a chunk boundary, the empty one too, gets a last empty chunk. */
  function ChunkCount(d: Bytes): nat {
    |d| / CHUNK + 1
  }

  function Chunk(d: Bytes, i: nat): Bytes
    requires i < ChunkCount(d)
  {
    if i + 1 == ChunkCount(d) then d[i * CHUNK..] else d[i * CHUNK..(i + 1) * CHUNK]
  }

  function ChunkNonce(d: Bytes, i: nat): Bytes
    requires i < ChunkCount(d)
  {
    NonceFor(i, i + 1 == ChunkCount(d))
  }

  /** No nonce is used twice within a file. */
  lemma NoncesDiffer(d: Bytes, i: nat, j: nat)
    requires |d| <= MAX_LENGTH && i < j < ChunkCount(d)
    ensures ChunkNonce(d, i) != ChunkNonce(d, j)
  {
    if ChunkNonce(d, i) == ChunkNonce(d, j) {
      NonceInjective(i, i + 1 == ChunkCount(d), j, j + 1 == ChunkCount(d));
    }
  }

  function SealedChunk(a: Aead, d: Bytes, i: nat): Bytes
    requires i < ChunkCount(d)
  {
    a.seal(ChunkNonce(d, i), Chunk(d, i))
  }

  /** The sealed chunks from number `i` on. */
  function SealedFrom(a: Aead, d: Bytes, i: nat): Bytes
    requires i <= ChunkCount(d)
    decreases ChunkCount(d) - i
  {
    if i == ChunkCount(d) then [] else SealedChunk(a, d, i) + SealedFrom(a, d, i + 1)
  }

  function Header(salt: Bytes): Bytes {
    MAGIC + [VERSION] + salt
  }

  /** The file that holds body `d`. */
  function PutFile(a: Aead, salt: Bytes, d: Bytes): Bytes {
    Header(salt) + SealedFrom(a, d, 0)
  }

  // ----- what is assumed of the cipher -----

  /** What was sealed under one salt: the body, and how many of its chunks. A store that stops half-way has sealed some. */
  datatype Sealing = Sealing(data: Bytes, chunks: nat)

  predicate Whole(w: Sealing) {
    w.chunks == ChunkCount(w.data)
  }

  /** Sealing adds a tag. */
  ghost predicate Tagged(a: Aead) {
    forall n, p :: |a.seal(n, p)| == |p| + TAG
  }

  /** A nonce that a reader may use. Secrets are sealed with the same keys, under random nonces that are none of these. */
  ghost predicate CounterNonce(n: Bytes) {
    exists k: nat, last: bool :: k < 0x1_0000_0000_0000_0000 && n == NonceFor(k, last)
  }

  /** The sealed chunks open to the chunks of the body. */
  ghost predicate OpensAll(a: Aead, w: Sealing)
    requires w.chunks <= ChunkCount(w.data)
  {
    forall i :: 0 <= i < w.chunks ==> a.open(ChunkNonce(w.data, i), SealedChunk(a, w.data, i)) == Some(Chunk(w.data, i))
  }

  /** Under this key the first chunks of a body were sealed, and nothing else that a reader could open. */
  ghost predicate OpensOnly(a: Aead, w: Sealing)
    requires w.chunks <= ChunkCount(w.data)
  {
    && OpensAll(a, w)
    && forall n, x :: a.open(n, x).Some? && CounterNonce(n) ==>
         exists i :: 0 <= i < w.chunks && n == ChunkNonce(w.data, i) && x == SealedChunk(a, w.data, i)
  }

  ghost predicate OpensNothing(a: Aead) {
    forall n, x :: CounterNonce(n) ==> a.open(n, x).None?
  }

  ghost predicate SealingOk(w: Sealing) {
    |w.data| <= MAX_LENGTH && w.chunks <= ChunkCount(w.data)
  }

  /** The keys derived from the salts: each salt sealed chunks of one body, and nothing else opens. */
  ghost predicate Ideal(keys: Bytes -> Aead, sealed: map<Bytes, Sealing>) {
    && (forall salt :: Tagged(keys(salt)))
    && (forall salt :: salt in sealed ==> |salt| == SALT && SealingOk(sealed[salt]) && OpensOnly(keys(salt), sealed[salt]))
    && (forall salt :: salt !in sealed ==> OpensNothing(keys(salt)))
  }

  /** A cipher that keeps a list of what it sealed. */
  function Listing(w: Sealing): Aead
    requires w.chunks <= ChunkCount(w.data)
  {
    Aead((n, p) => p + seq(TAG, _ => 0),
         (n, x) =>
           if |x| >= TAG
              && exists i :: 0 <= i < w.chunks && n == ChunkNonce(w.data, i) && x == Chunk(w.data, i) + seq(TAG, _ => 0)
           then Some(x[..|x| - TAG]) else None)
  }

  function SealingAt(sealed: map<Bytes, Sealing>, salt: Bytes): (w: Sealing)
    ensures w.chunks <= ChunkCount(w.data)
  {
    if salt in sealed && sealed[salt].chunks <= ChunkCount(sealed[salt].data) then sealed[salt] else Sealing([], 0)
  }

  function KeysFor(sealed: map<Bytes, Sealing>): Bytes -> Aead {
    salt => Listing(SealingAt(sealed, salt))
  }

  lemma ListingTagged(w: Sealing)
    requires w.chunks <= ChunkCount(w.data)
    ensures Tagged(Listing(w)) && (w.chunks == 0 ==> OpensNothing(Listing(w)))
  {
    hide CounterNonce;
  }

  lemma ListingOpens(w: Sealing)
    requires w.chunks <= ChunkCount(w.data)
    ensures OpensOnly(Listing(w), w)
  {
    hide CounterNonce;
    var a := Listing(w);
    forall i | 0 <= i < w.chunks
      ensures a.open(ChunkNonce(w.data, i), SealedChunk(a, w.data, i)) == Some(Chunk(w.data, i))
    {
      var x := Chunk(w.data, i) + seq(TAG, _ => 0);
      assert x[..|x| - TAG] == Chunk(w.data, i);
    }
  }

  /** The assumption can be met, whatever bodies were sealed, and however far. */
  lemma IdealExists(sealed: map<Bytes, Sealing>)
    requires forall salt :: salt in sealed ==> |salt| == SALT && SealingOk(sealed[salt])
    ensures Ideal(KeysFor(sealed), sealed)
  {
    hide Listing, Tagged, OpensOnly, OpensNothing;
    forall salt
      ensures Tagged(KeysFor(sealed)(salt))
      ensures salt in sealed ==> OpensOnly(KeysFor(sealed)(salt), sealed[salt])
      ensures salt !in sealed ==> OpensNothing(KeysFor(sealed)(salt))
    {
      ListingTagged(SealingAt(sealed, salt));
      if salt in sealed {
        ListingOpens(sealed[salt]);
      }
    }
  }

  // ----- sizes -----

  lemma {:induction false} SealedSize(a: Aead, d: Bytes, i: nat)
    requires Tagged(a) && i < ChunkCount(d)
    ensures |SealedFrom(a, d, i)| == |d| - i * CHUNK + TAG * (ChunkCount(d) - i)
    decreases ChunkCount(d) - i
  {
    assert |SealedChunk(a, d, i)| == |Chunk(d, i)| + TAG;
    if i + 1 < ChunkCount(d) {
      SealedSize(a, d, i + 1);
    } else {
      assert SealedFrom(a, d, i + 1) == [];
    }
  }

  /** The file is the header, the body, and one tag for every chunk. */
  lemma FileSize(a: Aead, salt: Bytes, d: Bytes)
    requires Tagged(a) && |salt| == SALT
    ensures |PutFile(a, salt, d)| == 21 + |d| + 16 * (|d| / 65536 + 1)
  {
    SealedSize(a, d, 0);
  }

  // ----- the format -----

  /** The number that bytes spell, most significant first. */
  function Spelled(s: Bytes): nat {
    if s == [] then 0 else Spelled(s[..|s| - 1]) * 256 + s[|s| - 1]
  }

  lemma {:induction false} BigEndianSpells(n: nat, k: nat)
    requires n < Power256(k)
    ensures Spelled(BigEndian(n, k)) == n
  {
    if k > 0 {
      var head, last := BigEndian(n / 256, k - 1), n % 256;
      hide Spelled;
      LastByte(n, k);
      BigEndianSpells(n / 256, k - 1);
      SpelledSnoc(head, last);
    } else {
      assert BigEndian(n, k) == [];
    }
  }

  lemma LastByte(n: nat, k: nat)
    requires k > 0 && n < Power256(k)
    ensures BigEndian(n, k) == BigEndian(n / 256, k - 1) + [n % 256] && n / 256 < Power256(k - 1) && n == n / 256 * 256 + n % 256
  {
  }

  lemma SpelledSnoc(s: Bytes, b: byte)
    ensures Spelled(s + [b]) == Spelled(s) * 256 + b
  {
    assert (s + [b])[..|s|] == s;
  }

  /** A nonce is three zero bytes, the number of the chunk in eight bytes, and a byte that is 1 for the last chunk. */
  lemma NonceExactly(counter: nat, last: bool)
    requires counter < 0x1_0000_0000_0000_0000
    ensures var n := NonceFor(counter, last);
            |n| == 12 && n[..3] == [0, 0, 0] && Spelled(n[3..11]) == counter && n[11] == if last then 1 else 0
  {
    var n := NonceFor(counter, last);
    assert Power256(8) == 0x1_0000_0000_0000_0000;
    assert n[3..11] == BigEndian(counter, 8);
    BigEndianSpells(counter, 8);
  }

  /** A file starts with XMXB, the version 1 and its salt; every chunk but the last holds 65536 bytes of the body, in order. */
  lemma FormatExactly(a: Aead, salt: Bytes, d: Bytes, i: nat)
    requires |salt| == 16
    ensures PutFile(a, salt, d)[..21] == [0x58, 0x4D, 0x58, 0x42, 1] + salt
    ensures ChunkCount(d) == |d| / 65536 + 1
    ensures i < |d| / 65536 ==> Chunk(d, i) == d[65536 * i..65536 * i + 65536] && ChunkNonce(d, i) == NonceFor(i, false)
    ensures i == |d| / 65536 ==> Chunk(d, i) == d[65536 * i..] && ChunkNonce(d, i) == NonceFor(i, true)
  {
    hide SealedFrom;
    assert PutFile(a, salt, d)[..21] == Header(salt);
  }

  // ----- what reading yields -----

  /** The bytes a reader returns before its first error, and whether it ends without one. */
  datatype Decoded = Decoded(data: Bytes, clean: bool)

  function Min(a: nat, b: nat): nat {
    if a < b then a else b
  }

  function Decode(a: Aead, s: Bytes, counter: nat): Decoded
    decreases |s|
  {
    var n := Min(CHUNK + TAG, |s|);
    if n < TAG then Decoded([], false)
    else
      match a.open(NonceFor(counter, false), s[..n])
      case Some(p) =>
        var rest := Decode(a, s[n..], counter + 1);
        Decoded(p + rest.data, rest.clean)
      case None =>
        match a.open(NonceFor(counter, true), s[..n])
        case Some(p) => if n < |s| then Decoded([], false) else Decoded(p, true)
        case None => Decoded([], false)
  }

  predicate HeaderOk(file: Bytes) {
    |file| >= HEADER && file[..4] == MAGIC && file[4] == VERSION
  }

  function SaltOf(file: Bytes): Bytes
    requires |file| >= HEADER
  {
    file[5..HEADER]
  }

  /** Opening a file and reading it to the first error or the end. */
  function DecodeFile(keys: Bytes -> Aead, file: Bytes): Decoded {
    if !HeaderOk(file) then Decoded([], false)
    else Decode(keys(SaltOf(file)), file[HEADER..], 0)
  }

  // ----- one block -----

  /** A block opens as chunk `k` of the body, if that was sealed, or not at all. */
  lemma BlockOpens(a: Aead, w: Sealing, k: nat, last: bool, x: Bytes)
    requires Tagged(a) && SealingOk(w) && OpensOnly(a, w) && k < 0x1_0000_0000_0000_0000
    ensures a.open(NonceFor(k, last), x).Some? ==> k < w.chunks && last == (k + 1 == ChunkCount(w.data)) && x == SealedChunk(a, w.data, k)
    ensures k < w.chunks && last == (k + 1 == ChunkCount(w.data)) && x == SealedChunk(a, w.data, k) ==>
              a.open(NonceFor(k, last), x) == Some(Chunk(w.data, k))
  {
    assert CounterNonce(NonceFor(k, last));
    if a.open(NonceFor(k, last), x).Some? {
      var i :| 0 <= i < w.chunks && NonceFor(k, last) == ChunkNonce(w.data, i) && x == SealedChunk(a, w.data, i);
      NonceInjective(k, last, i, i + 1 == ChunkCount(w.data));
    }
  }

  lemma SealedLength(a: Aead, d: Bytes, k: nat)
    requires Tagged(a) && k < ChunkCount(d)
    ensures |SealedChunk(a, d, k)| == TAG + if k + 1 == ChunkCount(d) then |d| - k * CHUNK else CHUNK
    ensures |d| - k * CHUNK >= 0 && (k + 1 == ChunkCount(d) ==> |d| - k * CHUNK < CHUNK)
  {
  }

  /** The bytes of the body in the sealed chunks. */
  function SealedPart(w: Sealing): Bytes
    requires w.chunks <= ChunkCount(w.data)
  {
    if Whole(w) then w.data else w.data[..w.chunks * CHUNK]
  }

  /** The part of it from chunk `k` on. */
  function Tail(w: Sealing, k: nat): Bytes
    requires k <= w.chunks <= ChunkCount(w.data)
  {
    if k == w.chunks then [] else SealedPart(w)[k * CHUNK..]
  }

  lemma TailStep(w: Sealing, k: nat)
    requires k < w.chunks <= ChunkCount(w.data)
    ensures Tail(w, k) == Chunk(w.data, k) + Tail(w, k + 1)
    ensures k + 1 == ChunkCount(w.data) ==> Tail(w, k) == Chunk(w.data, k)
  {
  }

  /** A block that opens is the chunk due next, and so is the rest of what was sealed after it. */
  lemma BlockDue(a: Aead, w: Sealing, k: nat, x: Bytes)
    requires Tagged(a) && SealingOk(w) && OpensOnly(a, w) && k <= w.chunks
    ensures a.open(NonceFor(k, false), x).Some? ==>
              && k < w.chunks && k + 1 < ChunkCount(w.data) && x == SealedChunk(a, w.data, k)
              && Tail(w, k) == a.open(NonceFor(k, false), x).value + Tail(w, k + 1)
    ensures a.open(NonceFor(k, true), x).Some? ==>
              && Whole(w) && k + 1 == ChunkCount(w.data) && x == SealedFrom(a, w.data, k)
              && Tail(w, k) == a.open(NonceFor(k, true), x).value
  {
    BlockOpens(a, w, k, false, x);
    BlockOpens(a, w, k, true, x);
    hide Tagged, OpensOnly, SealedChunk, Chunk, NonceFor, Tail;
    if k < w.chunks {
      TailStep(w, k);
      if k + 1 == ChunkCount(w.data) {
        assert SealedFrom(a, w.data, k + 1) == [];
        assert SealedFrom(a, w.data, k) == SealedChunk(a, w.data, k);
      }
    }
  }

  /** Whatever bytes stand in the file, the reader yields a prefix of what was sealed, and a clean end means that all of
      the body was sealed and the bytes are untouched. */
  lemma {:induction false} DecodeTampered(a: Aead, w: Sealing, s: Bytes, k: nat)
    requires Tagged(a) && SealingOk(w) && OpensOnly(a, w) && k <= w.chunks
    ensures var r := Decode(a, s, k);
            && r.data <= Tail(w, k)
            && (r.clean ==> Whole(w) && k < w.chunks && s == SealedFrom(a, w.data, k) && r.data == Tail(w, k))
    decreases |s|
  {
    hide Tagged, OpensOnly, OpensAll, SealedChunk, Chunk, NonceFor, ChunkNonce, Tail, ChunkCount;
    var n := Min(CHUNK + TAG, |s|);
    if n >= TAG {
      var x := s[..n];
      BlockDue(a, w, k, x);
      if a.open(NonceFor(k, false), x).Some? {
        DecodeTampered(a, w, s[n..], k + 1);
        assert s == x + s[n..];
        assert SealedFrom(a, w.data, k) == x + SealedFrom(a, w.data, k + 1);
      } else if n == |s| {
        assert x == s;
      }
    }
  }

  /** Reading back what was written. */
  lemma {:induction false} DecodeSealed(a: Aead, w: Sealing, k: nat)
    requires Tagged(a) && SealingOk(w) && OpensOnly(a, w) && Whole(w) && k < w.chunks
    ensures Decode(a, SealedFrom(a, w.data, k), k) == Decoded(Tail(w, k), true)
    decreases w.chunks - k
  {
    var d := w.data;
    var x, rest := SealedChunk(a, d, k), SealedFrom(a, d, k + 1);
    var s := SealedFrom(a, d, k);
    assert s == x + rest;
    SealedLength(a, d, k);
    BlockOpens(a, w, k, false, x);
    BlockOpens(a, w, k, true, x);
    TailStep(w, k);
    hide Tagged, OpensOnly, SealedChunk, Chunk, NonceFor, Tail;
    var n := Min(CHUNK + TAG, |s|);
    if k + 1 < ChunkCount(d) {
      DecodeSealed(a, w, k + 1);
      assert s[..n] == x && s[n..] == rest;
    } else {
      assert rest == [] && s == x && s[..n] == x;
    }
  }

  // ----- whole files -----

  lemma HeaderThen(salt: Bytes, rest: Bytes)
    requires |salt| == SALT
    ensures var f := Header(salt) + rest; HeaderOk(f) && SaltOf(f) == salt && f[HEADER..] == rest
  {
    var f := Header(salt) + rest;
    assert f[..4] == MAGIC && f[4] == VERSION && f[5..HEADER] == salt;
  }

  lemma HeaderParts(a: Aead, salt: Bytes, d: Bytes)
    requires |salt| == SALT
    ensures var f := PutFile(a, salt, d);
            HeaderOk(f) && SaltOf(f) == salt && f[HEADER..] == SealedFrom(a, d, 0)
  {
    hide SealedFrom, Header, HeaderOk, SaltOf;
    HeaderThen(salt, SealedFrom(a, d, 0));
  }

  lemma HeaderDetermined(f: Bytes, a: Aead, d: Bytes)
    requires HeaderOk(f) && f[HEADER..] == SealedFrom(a, d, 0)
    ensures f == PutFile(a, SaltOf(f), d)
  {
    hide SealedFrom;
    assert f[..HEADER] == f[..4] + [f[4]] + f[5..HEADER];
    assert f == f[..HEADER] + f[HEADER..];
  }

  lemma WholeTail(w: Sealing)
    requires w.chunks <= ChunkCount(w.data)
    ensures Tail(w, 0) == SealedPart(w)
  {
  }

  /** Spool round trip: a stored body, of any length, is read back whole and ends cleanly. */
  lemma RoundTrip(keys: Bytes -> Aead, sealed: map<Bytes, Sealing>, salt: Bytes)
    requires Ideal(keys, sealed) && salt in sealed && Whole(sealed[salt])
    ensures DecodeFile(keys, PutFile(keys(salt), salt, sealed[salt].data)) == Decoded(sealed[salt].data, true)
  {
    var a, w := keys(salt), sealed[salt];
    HeaderParts(a, salt, w.data);
    DecodeSealed(a, w, 0);
    WholeTail(w);
  }

  lemma TamperedFile(a: Aead, w: Sealing, file: Bytes)
    requires Tagged(a) && SealingOk(w) && OpensOnly(a, w) && HeaderOk(file)
    ensures var r := Decode(a, file[HEADER..], 0);
            r.data <= SealedPart(w) && (r.clean <==> Whole(w) && file == PutFile(a, SaltOf(file), w.data))
  {
    DecodeTampered(a, w, file[HEADER..], 0);
    WholeTail(w);
    if Whole(w) {
      DecodeSealed(a, w, 0);
    }
    hide Tagged, OpensOnly, Decode, SealedFrom, Tail, PutFile, HeaderOk;
    if Decode(a, file[HEADER..], 0).clean {
      HeaderDetermined(file, a, w.data);
    }
    if file == PutFile(a, SaltOf(file), w.data) {
      HeaderParts(a, SaltOf(file), w.data);
    }
  }

  lemma NothingOpens(a: Aead, s: Bytes)
    requires OpensNothing(a)
    ensures Decode(a, s, 0) == Decoded([], false)
  {
    assert CounterNonce(NonceFor(0, false)) && CounterNonce(NonceFor(0, true));
    hide NonceFor, CounterNonce;
  }

  /** Tamper evidence: for any bytes in the file, what is read before the first error is a prefix of what was sealed under
      the salt in its header, and a clean end means that a whole body was, and that the file is exactly the one written. */
  lemma TamperEvident(keys: Bytes -> Aead, sealed: map<Bytes, Sealing>, file: Bytes)
    requires Ideal(keys, sealed)
    ensures var r := DecodeFile(keys, file);
            if HeaderOk(file) && SaltOf(file) in sealed then
              var w := sealed[SaltOf(file)];
              && r.data <= SealedPart(w) <= w.data
              && (r.clean <==> Whole(w) && file == PutFile(keys(SaltOf(file)), SaltOf(file), w.data))
            else r == Decoded([], false)
  {
    hide Decode, PutFile, Tagged, OpensOnly, OpensNothing;
    if HeaderOk(file) {
      var a := keys(SaltOf(file));
      if SaltOf(file) in sealed {
        TamperedFile(a, sealed[SaltOf(file)], file);
      } else {
        NothingOpens(a, file[HEADER..]);
      }
    }
  }

  /** The file is one that the store wrote out to its end. */
  ghost predicate WrittenUnder(keys: Bytes -> Aead, sealed: map<Bytes, Sealing>, salt: Bytes, file: Bytes) {
    salt in sealed && Whole(sealed[salt]) && file == PutFile(keys(salt), salt, sealed[salt].data)
  }

  /** A clean end means the file was written by the store to its end, whichever body it belongs to. */
  lemma CleanMeansWritten(keys: Bytes -> Aead, sealed: map<Bytes, Sealing>, file: Bytes)
    requires Ideal(keys, sealed)
    ensures DecodeFile(keys, file).clean <==> exists salt :: WrittenUnder(keys, sealed, salt, file)
  {
    TamperEvident(keys, sealed, file);
    hide Ideal, DecodeFile, PutFile;
    if salt :| WrittenUnder(keys, sealed, salt, file) {
      RoundTrip(keys, sealed, salt);
    }
    if DecodeFile(keys, file).clean {
      assert WrittenUnder(keys, sealed, SaltOf(file), file);
    }
  }

  /** The name of a body is not sealed with it: in its place, the file of another body reads cleanly as that other body. */
  lemma OtherFileReadsCleanly(keys: Bytes -> Aead, sealed: map<Bytes, Sealing>, stored: Bytes, other: Bytes)
    requires Ideal(keys, sealed) && stored in sealed && other in sealed && Whole(sealed[other])
    ensures var file := PutFile(keys(other), other, sealed[other].data);
            DecodeFile(keys, file) == Decoded(sealed[stored].data, true) <==> sealed[other].data == sealed[stored].data
  {
    RoundTrip(keys, sealed, other);
  }

  // ----- a store that stops half-way -----

  /** The first `n` sealed chunks. */
  function SealedUpTo(a: Aead, d: Bytes, n: nat): Bytes
    requires n <= ChunkCount(d)
  {
    if n == 0 then [] else SealedUpTo(a, d, n - 1) + SealedChunk(a, d, n - 1)
  }

  /** What has been written depends on the cipher only at the chunks that were sealed. */
  lemma {:induction false} SealsNothingElse(a: Aead, b: Aead, d: Bytes, n: nat)
    requires n <= ChunkCount(d)
    requires forall i :: 0 <= i < n ==> a.seal(ChunkNonce(d, i), Chunk(d, i)) == b.seal(ChunkNonce(d, i), Chunk(d, i))
    ensures SealedUpTo(a, d, n) == SealedUpTo(b, d, n)
  {
    hide ChunkNonce, Chunk;
    if n > 0 {
      SealsNothingElse(a, b, d, n - 1);
    }
  }

  /** The sealed chunks from number `k` on. */
  function Between(a: Aead, w: Sealing, k: nat): Bytes
    requires k <= w.chunks <= ChunkCount(w.data)
    decreases w.chunks - k
  {
    if k == w.chunks then [] else SealedChunk(a, w.data, k) + Between(a, w, k + 1)
  }

  lemma {:induction false} UpToBetween(a: Aead, w: Sealing, k: nat)
    requires k <= w.chunks <= ChunkCount(w.data)
    ensures SealedUpTo(a, w.data, k) + Between(a, w, k) == SealedUpTo(a, w.data, w.chunks)
    decreases w.chunks - k
  {
    hide SealedChunk;
    if k < w.chunks {
      UpToBetween(a, w, k + 1);
    }
  }

  lemma {:induction false} DecodeUnfinished(a: Aead, w: Sealing, k: nat)
    requires Tagged(a) && SealingOk(w) && OpensOnly(a, w) && !Whole(w) && k <= w.chunks
    ensures Decode(a, Between(a, w, k), k) == Decoded(Tail(w, k), false)
    decreases w.chunks - k
  {
    if k < w.chunks {
      var x, s := SealedChunk(a, w.data, k), Between(a, w, k);
      SealedLength(a, w.data, k);
      BlockOpens(a, w, k, false, x);
      TailStep(w, k);
      hide Tagged, OpensOnly, SealedChunk, Chunk, NonceFor, Tail;
      DecodeUnfinished(a, w, k + 1);
      assert s == x + Between(a, w, k + 1);
      assert s[..CHUNK + TAG] == x && s[CHUNK + TAG..] == Between(a, w, k + 1);
    }
  }

  /** An unfinished file, were it put in place, would give all that was sealed, and then an error: no bound on what is
      read before the first error is better than the one of `TamperEvident`. */
  lemma UnfinishedFile(keys: Bytes -> Aead, sealed: map<Bytes, Sealing>, salt: Bytes)
    requires Ideal(keys, sealed) && salt in sealed && !Whole(sealed[salt])
    ensures var w := sealed[salt];
            DecodeFile(keys, Header(salt) + SealedUpTo(keys(salt), w.data, w.chunks)) == Decoded(SealedPart(w), false)
  {
    var a, w := keys(salt), sealed[salt];
    UpToBetween(a, w, 0);
    DecodeUnfinished(a, w, 0);
    WholeTail(w);
    NoneSealed(a, w.data);
    hide Ideal, Decode, Between, SealedUpTo, SealedPart, Tail, Header, HeaderOk, SaltOf, Whole;
    assert Between(a, w, 0) == SealedUpTo(a, w.data, w.chunks);
    HeaderThen(salt, Between(a, w, 0));
  }

  lemma NoneSealed(a: Aead, d: Bytes)
    ensures SealedUpTo(a, d, 0) == []
  {
  }

}
