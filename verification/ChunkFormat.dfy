/** The 26-byte chunk header, the counter nonces and the wrapping of data keys. */
module ChunkFormat {
  import opened Common

  // ---------- big-endian integers ----------

  function Pow256(width: nat): (r: nat)
    ensures r >= 1
  {
    if width == 0 then 1 else 256 * Pow256(width - 1)
  }

  function ToBytes(n: nat, width: nat): (s: Bytes)
    ensures |s| == width
  {
    if width == 0 then [] else ToBytes(n / 256, width - 1) + [n % 256]
  }

  function FromBytes(s: Bytes): nat {
    if s == [] then 0 else 256 * FromBytes(s[..|s| - 1]) + s[|s| - 1]
  }

  lemma {:induction false} ToThenFrom(n: nat, width: nat)
    requires n < Pow256(width)
    ensures FromBytes(ToBytes(n, width)) == n
  {
    if width > 0 {
      ToThenFrom(n / 256, width - 1);
      var s := ToBytes(n, width);
      assert s[..|s| - 1] == ToBytes(n / 256, width - 1);
    }
  }

  lemma {:induction false} FromThenTo(s: Bytes)
    ensures FromBytes(s) < Pow256(|s|) && ToBytes(FromBytes(s), |s|) == s
  {
    if s != [] {
      FromThenTo(s[..|s| - 1]);
      assert s == s[..|s| - 1] + [s[|s| - 1]];
    }
  }

  lemma Widths()
    ensures Pow256(2) == 0x1_0000 && Pow256(4) == 0x1_0000_0000 && Pow256(8) == 0x1_0000_0000_0000_0000
  {
    assert Pow256(4) == 0x1_0000_0000;
    assert Pow256(6) == 0x1_0000_0000_0000;
  }

  // ---------- the header ----------

  const MAGIC: Bytes := [0x42, 0x56, 0x50, 0x4D]
  const VERSION: nat := 1
  const HEADER_SIZE: nat := 26

  datatype HeaderError = FieldOutOfRange | BadLength | BadMagic | BadVersion

  datatype Header = Header(seqNo: nat, nonce: Bytes, ciphertextLen: nat)

  function Zeros(n: nat): (z: Bytes)
    ensures |z| == n && forall i | 0 <= i < n :: z[i] == 0
  {
    if n == 0 then [] else Zeros(n - 1) + [0]
  }

  /** A 12-byte string field of a packed struct: cut or padded with zeros. */
  function Fit12(s: Bytes): (r: Bytes)
    ensures |r| == 12 && (|s| == 12 ==> r == s) && forall i | 0 <= i < 12 :: r[i] == if i < |s| then s[i] else 0
  {
    if |s| >= 12 then s[..12] else s + Zeros(12 - |s|)
  }

  /** magic, version (2), sequence number (4), nonce (12), ciphertext length (4), all big-endian. */
  function Pack(h: Header): (r: Bytes)
    ensures |r| == HEADER_SIZE
  {
    MAGIC + ToBytes(VERSION, 2) + ToBytes(h.seqNo, 4) + Fit12(h.nonce) + ToBytes(h.ciphertextLen, 4)
  }

  function CreateChunkHeader(seqNo: nat, nonce: Bytes, ciphertextLen: nat): Result<Bytes, HeaderError> {
    if seqNo >= Pow256(4) || ciphertextLen >= Pow256(4) then Err(FieldOutOfRange)
    else Ok(Pack(Header(seqNo, nonce, ciphertextLen)))
  }

  function ParseChunkHeader(b: Bytes): Result<Header, HeaderError> {
    if |b| != HEADER_SIZE then Err(BadLength)
    else if b[..4] != MAGIC then Err(BadMagic)
    else if FromBytes(b[4..6]) != VERSION then Err(BadVersion)
    else Ok(Header(FromBytes(b[6..10]), b[10..22], FromBytes(b[22..26])))
  }

  /** Byte k of a big-endian field, counted from its most significant byte. */
  lemma {:induction false} ToBytesAt(n: nat, width: nat, k: nat)
    requires k < width
    ensures ToBytes(n, width)[k] == n / Pow256(width - 1 - k) % 256
  {
    if k < width - 1 {
      ToBytesAt(n / 256, width - 1, k);
      DivideTwice(n, Pow256(width - 2 - k));
    } else {
      assert Pow256(0) == 1;
    }
  }

  lemma DivideTwice(n: nat, m: nat)
    requires m >= 1
    ensures n / 256 / m == n / (256 * m)
  {
    var q, r := n / 256 / m, n / 256 % m;
    assert n / 256 == m * q + r;
    assert n == 256 * (m * q + r) + n % 256 == (256 * m) * q + (256 * r + n % 256);
    assert 256 * r + n % 256 < 256 * m;
    QuotientIs(n, 256 * m, q, 256 * r + n % 256);
  }

  lemma QuotientIs(n: nat, m: int, q: nat, r: nat)
    requires n == m * q + r && r < m
    ensures n / m == q
  {
    var u, t := n / m, n / m - q;
    assert n == m * u + n % m;
    assert m * t == m * u - m * q;
    SmallMultiple(m, t);
  }

  /** Which headers can be written, and their 26 bytes: "BVPM", version 1, sequence number, nonce, ciphertext length. */
  lemma HeaderLayout(seqNo: nat, nonce: Bytes, ciphertextLen: nat)
    requires |nonce| == 12
    ensures CreateChunkHeader(seqNo, nonce, ciphertextLen).Ok? <==>
      seqNo < 0x1_0000_0000 && ciphertextLen < 0x1_0000_0000
    ensures CreateChunkHeader(seqNo, nonce, ciphertextLen).Ok? ==>
      var b := CreateChunkHeader(seqNo, nonce, ciphertextLen).value;
      && |b| == 26 && b[..6] == [0x42, 0x56, 0x50, 0x4D, 0, 1] && b[10..22] == nonce
      && b[6..10] == [seqNo / 0x100_0000 % 256, seqNo / 0x1_0000 % 256, seqNo / 0x100 % 256, seqNo % 256]
      && b[22..] == [ciphertextLen / 0x100_0000 % 256, ciphertextLen / 0x1_0000 % 256,
                     ciphertextLen / 0x100 % 256, ciphertextLen % 256]
  {
    Widths();
    FourBytes(seqNo);
    FourBytes(ciphertextLen);
    var b := Pack(Header(seqNo, nonce, ciphertextLen));
    PackFields(Header(seqNo, nonce, ciphertextLen));
    assert ToBytes(1, 2) == [0, 1];
    assert b[..6] == b[..4] + b[4..6];
    assert b[22..] == b[22..26];
  }

  lemma FourBytes(n: nat)
    ensures ToBytes(n, 4) == [n / 0x100_0000 % 256, n / 0x1_0000 % 256, n / 0x100 % 256, n % 256]
  {
    assert Pow256(0) == 1 && Pow256(1) == 256;
    assert Pow256(2) == 0x1_0000;
    assert Pow256(3) == 0x100_0000;
    ToBytesAt(n, 4, 0);
    ToBytesAt(n, 4, 1);
    ToBytesAt(n, 4, 2);
    ToBytesAt(n, 4, 3);
  }

  lemma PackFields(h: Header)
    ensures
      var b := Pack(h);
      && b[..4] == MAGIC && b[4..6] == ToBytes(VERSION, 2) && b[6..10] == ToBytes(h.seqNo, 4)
      && b[10..22] == Fit12(h.nonce) && b[22..26] == ToBytes(h.ciphertextLen, 4)
  {
  }

  /** A header that can be written is read back. */
  lemma HeaderRoundTrip(seqNo: nat, nonce: Bytes, ciphertextLen: nat)
    requires seqNo < Pow256(4) && ciphertextLen < Pow256(4) && |nonce| == 12
    ensures CreateChunkHeader(seqNo, nonce, ciphertextLen).Ok?
    ensures ParseChunkHeader(CreateChunkHeader(seqNo, nonce, ciphertextLen).value)
         == Ok(Header(seqNo, nonce, ciphertextLen))
  {
    PackFields(Header(seqNo, nonce, ciphertextLen));
    Widths();
    ToThenFrom(VERSION, 2);
    ToThenFrom(seqNo, 4);
    ToThenFrom(ciphertextLen, 4);
  }

  /** And every header that is accepted is the one its fields would be written as. */
  lemma HeaderCanonical(b: Bytes)
    requires ParseChunkHeader(b).Ok?
    ensures
      var h := ParseChunkHeader(b).value;
      |h.nonce| == 12 && CreateChunkHeader(h.seqNo, h.nonce, h.ciphertextLen) == Ok(b)
  {
    FromThenTo(b[4..6]);
    FromThenTo(b[6..10]);
    FromThenTo(b[22..26]);
    assert b == b[..4] + b[4..6] + b[6..10] + b[10..22] + b[22..26];
  }

  /** Why a header is rejected: its length, its magic bytes, or a version other than 1, in this order. */
  lemma RejectedWhy(b: Bytes)
    ensures ParseChunkHeader(b) == Err(BadLength) <==> |b| != 26
    ensures ParseChunkHeader(b) == Err(BadMagic) <==> |b| == 26 && b[..4] != [0x42, 0x56, 0x50, 0x4D]
    ensures ParseChunkHeader(b) == Err(BadVersion) <==>
      |b| == 26 && b[..4] == [0x42, 0x56, 0x50, 0x4D] && !(b[4] == 0 && b[5] == 1)
  {
    if |b| == 26 {
      var version := b[4..6];
      assert version[..1] == [b[4]] && [b[4]][..0] == [];
      assert FromBytes([b[4]]) == 256 * FromBytes([]) + b[4] == b[4];
      assert FromBytes(version) == 256 * FromBytes(version[..1]) + b[5];
    }
  }

  // ---------- nonces ----------

  /** A four-byte session prefix and an eight-byte counter. */
  function NonceAt(prefix: Bytes, counter: nat): (n: Bytes)
    ensures |prefix| == 4 ==> |n| == 12
  {
    prefix + ToBytes(counter, 8)
  }

  /** The prefix, then the counter with its most significant byte first. */
  lemma NonceLayout(prefix: Bytes, counter: nat, k: nat)
    requires |prefix| == 4 && k < 8
    ensures |NonceAt(prefix, counter)| == 12 && NonceAt(prefix, counter)[..4] == prefix
    ensures NonceAt(prefix, counter)[4 + k] == counter / Pow256(7 - k) % 256
  {
    ToBytesAt(counter, 8, k);
  }

  lemma NoncesDiffer(prefix: Bytes, i: nat, j: nat)
    requires i < Pow256(8) && j < Pow256(8) && NonceAt(prefix, i) == NonceAt(prefix, j)
    ensures i == j
  {
    var n, k := |prefix|, |prefix| + 8;
    assert NonceAt(prefix, i)[n..k] == ToBytes(i, 8) && NonceAt(prefix, j)[n..k] == ToBytes(j, 8);
    ToThenFrom(i, 8);
    ToThenFrom(j, 8);
  }

  class NonceGenerator {
    const prefix: Bytes
    var counter: nat

    constructor (prefix: Bytes)
      requires |prefix| == 4
      ensures this.prefix == prefix && counter == 0
    {
      this.prefix, counter := prefix, 0;
    }

    /** The next nonce, or an overflow error once 2^64 were drawn. */
    method Next() returns (nonce: Option<Bytes>)
      modifies `counter
      ensures nonce == if old(counter) < Pow256(8) then Some(NonceAt(prefix, old(counter))) else None
      ensures counter == if nonce.Some? then old(counter) + 1 else old(counter)
    {
      Widths();
      if counter >= 0x1_0000_0000_0000_0000 {
        return None;
      }
      nonce := Some(NonceAt(prefix, counter));
      counter := counter + 1;
    }
  }

  /** Nonces drawn from one generator never repeat. */
  method DrawNonces(prefix: Bytes, count: nat) returns (nonces: seq<Bytes>)
    requires |prefix| == 4
    ensures |nonces| == Min(count, Pow256(8))
    ensures forall i, j | 0 <= i < j < |nonces| :: nonces[i] != nonces[j]
  {
    var generator := new NonceGenerator(prefix);
    nonces := [];
    while |nonces| < count
      invariant |nonces| == generator.counter <= Min(count, Pow256(8)) && generator.prefix == prefix
      invariant forall i | 0 <= i < |nonces| :: nonces[i] == NonceAt(prefix, i)
      invariant forall i, j | 0 <= i < j < |nonces| :: nonces[i] != nonces[j]
    {
      var nonce := generator.Next();
      if nonce.None? {
        break;
      }
      forall i | 0 <= i < |nonces| ensures nonces[i] != nonce.value {
        if nonces[i] == nonce.value {
          NoncesDiffer(prefix, i, |nonces|);
        }
      }
      nonces := nonces + [nonce.value];
    }
  }

  // ---------- the cryptographic primitives ----------

  /** One write to the streaming decompressor: what it keeps of an unfinished frame, what it puts out, and whether
      it raises. */
  datatype Decoded = Decoded(pending: Bytes, output: Bytes, ok: bool)

  /** Authenticated encryption (key, nonce, data, associated data), compression into one frame, the decompressor's
      write (what it had pending, data), and the digest in hex. */
  datatype Suite = Suite(
    encrypt: (Bytes, Bytes, Bytes, Bytes) -> Bytes,
    decrypt: (Bytes, Bytes, Bytes, Bytes) -> Option<Bytes>,
    compress: Bytes -> Bytes,
    write: (Bytes, Bytes) -> Decoded,
    digest: Bytes -> string)
  {
    /** Decryption undoes encryption, the ciphertext carries a 16-byte tag at its end, and between frames a complete
        frame is put out at once, leaving nothing pending. */
    ghost predicate Lawful() {
      && (forall k, n, p, a :: decrypt(k, n, encrypt(k, n, p, a), a) == Some(p))
      && (forall k, n, p, a :: |encrypt(k, n, p, a)| == |p| + 16)
      && (forall c :: write([], compress(c)) == Decoded([], c, true))
    }
  }

  // ---------- wrapped data keys ----------

  /** The columns encrypted_dek, dek_nonce and dek_tag. */
  datatype Wrapped = Wrapped(cipher: Bytes, nonce: Bytes, tag: Bytes)

  function Wrap(suite: Suite, kek: Bytes, dek: Bytes, nonce: Bytes, id: Bytes): Wrapped {
    var c := suite.encrypt(kek, nonce, dek, id);
    if |c| < 16 then Wrapped([], nonce, c) else Wrapped(c[..|c| - 16], nonce, c[|c| - 16..])
  }

  function Unwrap(suite: Suite, kek: Bytes, w: Wrapped, id: Bytes): Option<Bytes> {
    suite.decrypt(kek, w.nonce, w.cipher + w.tag, id)
  }

  /** A wrapped key is the data key sealed with the id; its last 16 bytes, the tag, are kept apart. It is unwrapped with
      the same key and id. */
  lemma UnwrapWrap(suite: Suite, kek: Bytes, dek: Bytes, nonce: Bytes, id: Bytes)
    requires suite.Lawful()
    ensures Unwrap(suite, kek, Wrap(suite, kek, dek, nonce, id), id) == Some(dek)
    ensures
      var w := Wrap(suite, kek, dek, nonce, id);
      w.nonce == nonce && |w.tag| == 16 && w.cipher + w.tag == suite.encrypt(kek, nonce, dek, id)
  {
    var c := suite.encrypt(kek, nonce, dek, id);
    assert c[..|c| - 16] + c[|c| - 16..] == c;
  }

  /** If the cipher rejects associated data it did not seal, a wrapped key is worth nothing to another snapshot. */
  lemma WrappedForOneSnapshot(suite: Suite, kek: Bytes, dek: Bytes, nonce: Bytes, id: Bytes, other: Bytes)
    requires suite.Lawful() && suite.decrypt(kek, nonce, suite.encrypt(kek, nonce, dek, id), other).None?
    ensures Unwrap(suite, kek, Wrap(suite, kek, dek, nonce, id), other).None?
  {
    UnwrapWrap(suite, kek, dek, nonce, id);
  }

  /** Associated data: the whole header, then the snapshot id. */
  function Aad(header: Bytes, id: Bytes): Bytes {
    header + id
  }
}
