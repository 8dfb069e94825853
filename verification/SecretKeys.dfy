/** Passphrase keys (snacl/snacl.go): the parameters stored in clear, the derivation of a key
    from a passphrase, and encryption as symbols. */
module SecretKeys {
  import opened Wrappers
  import opened Bytes

  const KEY_SIZE: nat := 32
  const OVERHEAD: nat := 16 + 24

  datatype Params = Params(salt: seq<byte>, digest: seq<byte>, n: int, r: int, p: int)

  ghost predicate ValidParams(p: Params) {
    |p.salt| == 32 && |p.digest| == 32 && IsInt64(p.n) && IsInt64(p.r) && IsInt64(p.p)
  }

  // ----- Marshal and Unmarshal -----

  function Marshalled(p: Params): seq<byte> {
    p.salt + p.digest + LittleEndian(ToUint64(p.n), 8) + LittleEndian(ToUint64(p.r), 8)
    + LittleEndian(ToUint64(p.p), 8)
  }

  function Unmarshalled(s: seq<byte>): Option<Params> {
    if |s| != 88 then None
    else
      Some(Params(s[..32], s[32..64],
                  ToInt64(FromLittleEndian(s[64..72])),
                  ToInt64(FromLittleEndian(s[72..80])),
                  ToInt64(FromLittleEndian(s[80..88]))))
  }

  method Marshal(p: Params) returns (buffer: array<byte>)
    requires ValidParams(p)
    ensures fresh(buffer) && buffer[..] == Marshalled(p)
  {
    buffer := new byte[88](_ => 0);
    var offset := 0;
    assert buffer[..offset] == [];
    offset := Fill(buffer, offset, p.salt);
    offset := Fill(buffer, offset, p.digest);
    offset := Fill(buffer, offset, LittleEndian(ToUint64(p.n), 8));
    offset := Fill(buffer, offset, LittleEndian(ToUint64(p.r), 8));
    offset := Fill(buffer, offset, LittleEndian(ToUint64(p.p), 8));
    assert buffer[..offset] == buffer[..];
    assert buffer[..] == Marshalled(p);
  }

  /** The stored parameters are read back unchanged. */
  lemma MarshalRoundTrip(p: Params)
    requires ValidParams(p)
    ensures Unmarshalled(Marshalled(p)) == Some(p)
  {
    var s := Marshalled(p);
    assert s[..32] == p.salt && s[32..64] == p.digest;
    assert s[64..72] == LittleEndian(ToUint64(p.n), 8);
    assert s[72..80] == LittleEndian(ToUint64(p.r), 8);
    assert s[80..88] == LittleEndian(ToUint64(p.p), 8);
    forall v | v in {p.n, p.r, p.p}
      ensures ToInt64(FromLittleEndian(LittleEndian(ToUint64(v), 8))) == v
    {
      Int64RoundTrip(v);
      LittleEndianRoundTrip(ToUint64(v), 8);
    }
  }

  /** Where everything sits: salt, digest, and N, r, p in 64-bit two's complement, least
      significant byte first. */
  lemma MarshalLayout(p: Params, i: nat)
    requires ValidParams(p) && i < 8
    ensures var s := Marshalled(p);
            && |s| == 88 && s[..32] == p.salt && s[32..64] == p.digest
            && Range(i) > 0
            && s[64 + i] == (p.n % TWO64) / Range(i) % 256
            && s[72 + i] == (p.r % TWO64) / Range(i) % 256
            && s[80 + i] == (p.p % TWO64) / Range(i) % 256
  {
    hide LittleEndian, Range;
    LittleEndianDigit(ToUint64(p.n), 8, i);
    LittleEndianDigit(ToUint64(p.r), 8, i);
    LittleEndianDigit(ToUint64(p.p), 8, i);
  }

  // ----- the primitives -----

  /** scrypt (which rejects some parameters), SHA-256 of a key, SHA-512 of a salted passphrase. */
  datatype Crypto = Crypto(
    kdf: (seq<byte>, seq<byte>, int, int, int) -> Option<seq<byte>>,
    digest: seq<byte> -> seq<byte>,
    hash: seq<byte> -> seq<byte>)

  ghost predicate Lawful(c: Crypto) {
    (forall pass, salt, n, r, p :: c.kdf(pass, salt, n, r, p).Some? ==> |c.kdf(pass, salt, n, r, p).value| == KEY_SIZE)
    && (forall key :: |c.digest(key)| == 32)
  }

  /** A sealed message: it opens under its key and no other. Garbled stands for bytes that
      were cut or mixed, which open under no key. */
  datatype Cipher = Sealed(key: seq<byte>, nonce: seq<byte>, plain: seq<byte>) | Garbled(size: nat)

  function Size(c: Cipher): nat {
    match c
    case Sealed(_, _, plain) => OVERHEAD + |plain|
    case Garbled(size) => size
  }

  function Open(key: seq<byte>, c: Cipher): Option<seq<byte>> {
    if c.Sealed? && c.key == key then Some(c.plain) else None
  }

  /** copy(dst, src) on ciphertexts: it replaces dst exactly when the sizes agree. */
  function CopyCipher(dst: Cipher, src: Cipher): Cipher {
    if Size(dst) == Size(src) then src else Garbled(Size(dst))
  }

  /** copy(dst, src) on keys. */
  function CopyKey(dst: seq<byte>, src: seq<byte>): seq<byte> {
    if |src| <= |dst| then src + dst[|src|..] else src[..|dst|]
  }

  function DeriveRaw(c: Crypto, p: Params, pass: seq<byte>): Option<seq<byte>> {
    c.kdf(pass, p.salt, p.n, p.r, p.p)
  }

  /** DeriveKey: the key for the right passphrase. */
  function Derive(c: Crypto, p: Params, pass: seq<byte>): Option<seq<byte>> {
    match DeriveRaw(c, p, pass)
    case None => None
    case Some(key) => if c.digest(key) == p.digest then Some(key) else None
  }

  /** NewSecretKey with a freshly drawn salt. */
  function NewParams(c: Crypto, key: seq<byte>, salt: seq<byte>, n: int, r: int, p: int): Params {
    Params(salt, c.digest(key), n, r, p)
  }

  /** A new key is re-derived by its own passphrase. */
  lemma NewKeyDerives(c: Crypto, pass: seq<byte>, salt: seq<byte>, n: int, r: int, p: int)
    requires c.kdf(pass, salt, n, r, p).Some?
    ensures var key := c.kdf(pass, salt, n, r, p).value;
            Derive(c, NewParams(c, key, salt, n, r, p), pass) == Some(key)
  {
  }
}
