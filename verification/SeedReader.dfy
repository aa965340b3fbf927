/** The deterministic byte source of `seedReader`: a hash chain read through a 32-byte window. */
module SeedStream {
  import opened Basics

  const DIGEST: nat := 32

  type Digest = d: seq<byte> | |d| == DIGEST witness seq(DIGEST, _ => 0)

  /** `sha256.Sum256`, of which only the length of the result matters. */
  type Hash = seq<byte> -> Digest

  /** Block `k` of the stream that starts with the digest `d`. */
  function Block(h: Hash, d: Digest, k: nat): Digest {
    if k == 0 then d else h(Block(h, d, k - 1))
  }

  /** Bytes `from` to `from + n` of the infinite stream d, H(d), H(H(d)), ... */
  function Bytes(h: Hash, d: Digest, from: nat, n: nat): (r: seq<byte>)
    ensures |r| == n
  {
    seq(n, i requires 0 <= i < n => Block(h, d, (from + i) / DIGEST)[(from + i) % DIGEST])
  }

  /** How much a read of `size` bytes at position `pos` gets: up to the end of the block. */
  function Served(pos: nat, size: nat): nat {
    var left := DIGEST - pos % DIGEST;
    if size < left then size else left
  }

  class SeedReader {
    const sum256: Hash
    ghost const origin: Digest
    var seed: seq<byte>
    var index: nat
    ghost var blocks: nat

    ghost predicate Valid()
      reads this
    {
      index <= DIGEST && seed == Block(sum256, origin, blocks)
    }

    /** How many bytes have been read so far. */
    ghost function Position(): nat
      reads this
    {
      DIGEST * blocks + index
    }

    constructor (sum256: Hash, seedStr: seq<byte>)
      ensures Valid() && Position() == 0
      ensures this.sum256 == sum256 && origin == sum256(seedStr)
    {
      this.sum256 := sum256;
      origin := sum256(seedStr);
      seed := sum256(seedStr);
      index := 0;
      blocks := 0;
    }

    /** Read into `p[from..]`: never an error, at least one byte if there is room, and the bytes of
        the stream at the current position. */
    method Read(p: array<byte>, from: nat) returns (n: nat)
      requires Valid() && from <= p.Length
      modifies this`seed, this`index, this`blocks, p
      ensures Valid() && n == Served(old(Position()), p.Length - from)
      ensures n == p.Length - from || (old(Position()) + n) % 32 == 0
      ensures Position() == old(Position()) + n
      ensures p[from..from + n] == Bytes(sum256, origin, old(Position()), n)
      ensures p[..from] == old(p[..from]) && p[from + n..] == old(p[from + n..])
    {
      if index >= |seed| {
        seed := sum256(seed);
        index := 0;
        blocks := blocks + 1;
      }
      SamePosition(blocks, index);
      n := Copy(p, from, seed[index..]);
      InBlock(sum256, origin, DIGEST * blocks + index, n);
      assert seed[index..][..n] == seed[index..index + n];
      index := index + n;
    }
  }

  /** The built-in `copy` into `p[from..]`. */
  method Copy(p: array<byte>, from: nat, src: seq<byte>) returns (n: nat)
    requires from <= p.Length
    modifies p
    ensures n == if p.Length - from < |src| then p.Length - from else |src|
    ensures p[from..from + n] == src[..n]
    ensures p[..from] == old(p[..from]) && p[from + n..] == old(p[from + n..])
  {
    n := if p.Length - from < |src| then p.Length - from else |src|;
    forall i | from <= i < from + n {
      p[i] := src[i - from];
    }
  }

  lemma SamePosition(blocks: nat, index: nat)
    requires index < DIGEST
    ensures (DIGEST * blocks + index) % DIGEST == index && (DIGEST * blocks + index) / DIGEST == blocks
  {}

  /** Inside one block the stream is that block. */
  lemma InBlock(h: Hash, d: Digest, pos: nat, n: nat)
    requires pos % DIGEST + n <= DIGEST
    ensures Bytes(h, d, pos, n) == Block(h, d, pos / DIGEST)[pos % DIGEST..pos % DIGEST + n]
  {
    var b := Block(h, d, pos / DIGEST)[pos % DIGEST..pos % DIGEST + n];
    forall i | 0 <= i < n
      ensures Bytes(h, d, pos, n)[i] == b[i]
    {
      SameBlock(pos, i);
    }
  }

  lemma SameBlock(pos: nat, i: nat)
    requires pos % DIGEST + i < DIGEST
    ensures (pos + i) / DIGEST == pos / DIGEST && (pos + i) % DIGEST == pos % DIGEST + i
  {}

  lemma BytesJoin(h: Hash, d: Digest, from: nat, m: nat, n: nat)
    ensures Bytes(h, d, from, m) + Bytes(h, d, from + m, n) == Bytes(h, d, from, m + n)
  {}

  /** Reading until the buffer is full, as the key generator does, whatever the reads return. */
  method ReadFull(r: SeedReader, p: array<byte>)
    requires r.Valid()
    modifies r`seed, r`index, r`blocks, p
    ensures r.Valid() && r.Position() == old(r.Position()) + p.Length
    ensures p[..] == Bytes(r.sum256, r.origin, old(r.Position()), p.Length)
  {
    var n := 0;
    while n < p.Length
      invariant n <= p.Length && r.Valid() && r.Position() == old(r.Position()) + n
      invariant p[..n] == Bytes(r.sum256, r.origin, old(r.Position()), n)
    {
      var k := r.Read(p, n);
      BytesJoin(r.sum256, r.origin, old(r.Position()), n, k);
      assert p[..n + k] == p[..n] + p[n..n + k];
      n := n + k;
    }
  }

  // ----- what the stream is, without its blocks

  /** The first 32 bytes are the digest of the seed string. */
  lemma StreamStarts(h: Hash, seedStr: seq<byte>)
    ensures Bytes(h, h(seedStr), 0, 32) == h(seedStr)
  {
    BytesOfBlock(h, h(seedStr), 0);
  }

  /** Each later 32 bytes are the digest of the 32 before. */
  lemma StreamGoesOn(h: Hash, d: Digest, k: nat)
    ensures Bytes(h, d, 32 * (k + 1), 32) == h(Bytes(h, d, 32 * k, 32))
  {
    BytesOfBlock(h, d, k);
    BytesOfBlock(h, d, k + 1);
  }

  lemma BytesOfBlock(h: Hash, d: Digest, k: nat)
    ensures Bytes(h, d, 32 * k, 32) == Block(h, d, k)
  {
    forall i | 0 <= i < 32
      ensures Bytes(h, d, 32 * k, 32)[i] == Block(h, d, k)[i]
    {
      SamePosition(k, i);
    }
  }

  /** `out` is an initial part of H(s), H(H(s)), ... */
  ghost predicate Chained(h: Hash, seedStr: seq<byte>, out: seq<byte>) {
    && (|out| <= 32 ==> out == h(seedStr)[..|out|])
    && (|out| >= 32 ==> out[..32] == h(seedStr))
    && forall k: nat, n: nat :: n <= 32 && 32 * (k + 1) + n <= |out| ==> ChainedAt(h, out, k, n)
  }

  /** `n` bytes of block `k + 1`, from the whole block before. */
  ghost predicate ChainedAt(h: Hash, out: seq<byte>, k: nat, n: nat)
    requires n <= 32 && 32 * (k + 1) + n <= |out|
  {
    out[32 * (k + 1)..32 * (k + 1) + n] == h(out[32 * k..32 * k + 32])[..n]
  }

  lemma BytesSlice(h: Hash, d: Digest, len: nat, from: nat, n: nat)
    requires from + n <= len
    ensures Bytes(h, d, 0, len)[from..from + n] == Bytes(h, d, from, n)
  {}

  lemma BytesChained(h: Hash, seedStr: seq<byte>, len: nat)
    ensures Chained(h, seedStr, Bytes(h, h(seedStr), 0, len))
  {
    var d := h(seedStr);
    var out := Bytes(h, d, 0, len);
    StreamStarts(h, seedStr);
    if len <= 32 {
      BytesSlice(h, d, 32, 0, len);
      assert out[0..len] == out;
    } else {
      BytesSlice(h, d, len, 0, 32);
    }
    forall k: nat, n: nat | n <= 32 && 32 * (k + 1) + n <= len
      ensures ChainedAt(h, out, k, n)
    {
      StreamGoesOn(h, d, k);
      BytesSlice(h, d, len, 32 * k, 32);
      BytesSlice(h, d, len, 32 * (k + 1), n);
      BytesPrefix(h, d, 32 * (k + 1), n);
    }
  }

  lemma BytesPrefix(h: Hash, d: Digest, from: nat, n: nat)
    requires n <= 32
    ensures Bytes(h, d, from, n) == Bytes(h, d, from, 32)[..n]
  {}

  /** The bytes that a key made from a seed string gets: the digest of the string, then the digest of
      each 32 bytes before. */
  method KeyMaterial(sum256: Hash, seedStr: seq<byte>, n: nat) returns (key: seq<byte>)
    ensures |key| == n && Chained(sum256, seedStr, key)
    ensures n == 32 ==> key == sum256(seedStr)
  {
    var reader := new SeedReader(sum256, seedStr);
    var p := new byte[n];
    ReadFull(reader, p);
    BytesChained(sum256, seedStr, n);
    key := p[..];
  }

  // ----- any sequence of reads

  /** What reads of the given sizes return one after another, from position `pos`. */
  function Reads(h: Hash, d: Digest, pos: nat, sizes: seq<nat>): seq<byte>
    decreases |sizes|
  {
    if sizes == [] then []
    else
      var n := Served(pos, sizes[0]);
      Bytes(h, d, pos, n) + Reads(h, d, pos + n, sizes[1..])
  }

  ghost predicate AllPositive(sizes: seq<nat>) {
    forall i :: 0 <= i < |sizes| ==> sizes[i] > 0
  }

  lemma TailPositive(sizes: seq<nat>)
    requires sizes != [] && AllPositive(sizes)
    ensures sizes[0] > 0 && AllPositive(sizes[1..])
  {}

  /** The reads concatenate to an initial part of the stream, with progress on every nonempty read. */
  lemma {:induction false} ReadsAreStream(h: Hash, d: Digest, pos: nat, sizes: seq<nat>)
    ensures Reads(h, d, pos, sizes) == Bytes(h, d, pos, |Reads(h, d, pos, sizes)|)
    ensures AllPositive(sizes) ==> |Reads(h, d, pos, sizes)| >= |sizes|
    decreases |sizes|
  {
    if sizes != [] {
      var n := Served(pos, sizes[0]);
      var tail := sizes[1..];
      ReadsAreStream(h, d, pos + n, tail);
      BytesJoin(h, d, pos, n, |Reads(h, d, pos + n, tail)|);
      if AllPositive(sizes) {
        TailPositive(sizes);
      }
    }
  }

  /** However two callers chunk their reads of the same seed, one sees an initial part of what the
      other sees; reading the same number of bytes they see the same. */
  lemma ChunkingIsInvisible(h: Hash, seedStr: seq<byte>, a: seq<nat>, b: seq<nat>)
    ensures var x, y := Reads(h, h(seedStr), 0, a), Reads(h, h(seedStr), 0, b);
      (|x| <= |y| ==> x <= y) && (|x| == |y| ==> x == y)
  {
    ReadsAreStream(h, h(seedStr), 0, a);
    ReadsAreStream(h, h(seedStr), 0, b);
  }
}
