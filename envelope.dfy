/** The encrypted envelope of storage/encryption.go.  `Encrypt` writes a random
    salt, a random nonce and the AES-GCM ciphertext one after the other;
    `Decrypt` checks the length, cuts the three parts apart again and opens the
    ciphertext with the key derived from the password and the salt.

    PBKDF2, AES-GCM and the system's random source are not part of this
    model: they are given as values (`Primitives`, `Source`), and each
    property that depends on what they compute says so in its `requires`. */
module Envelope {
  import opened Bytes

  const SaltSize: nat := 32
  const NonceSize: nat := 12
  const KeySize: nat := 32
  const Iterations: nat := 100000

  /** The bytes in front of the ciphertext. */
  const HeaderSize: nat := SaltSize + NonceSize

  datatype Error =
    | InvalidData      // "invalid encrypted data": too short to hold a header
    | RandomFailed     // crypto/rand could not fill the salt or the nonce
    | InvalidKeySize   // aes.NewCipher refused the derived key
    | OpenFailed       // gcm.Open could not authenticate the ciphertext

  datatype Result<T> = Ok(value: T) | Err(error: Error)

  datatype Option<T> = None | Some(value: T)

  /** The primitives the envelope calls.  `derive(password, salt, iterations,
      keyLen)` is PBKDF2 with SHA-256; `seal(key, nonce, plaintext)` and
      `open(key, nonce, ciphertext)` are AES-GCM without additional data,
      `open` giving None when authentication fails. */
  datatype Primitives = Primitives(
    derive: (bytes, bytes, nat, nat) -> bytes,
    seal: (bytes, bytes, bytes) -> bytes,
    open: (bytes, bytes, bytes) -> Option<bytes>)

  /** One `rand.Read` into a fresh buffer: whether it succeeds and the bytes
      it puts at each position. */
  datatype Source = Source(ok: bool, fill: nat -> byte)

  /** The `n` bytes a successful read puts in the buffer. */
  function Draw(src: Source, n: nat): (b: bytes)
    ensures |b| == n
    ensures forall i | 0 <= i < n :: b[i] == src.fill(i)
  {
    seq<byte>(n, i requires 0 <= i => src.fill(i))
  }

  /** `deriveKey` */
  function DeriveKey(prims: Primitives, password: bytes, salt: bytes): bytes {
    prims.derive(password, salt, Iterations, KeySize)
  }

  /** The key lengths aes.NewCipher accepts: AES-128, AES-192 and AES-256. */
  predicate ValidKeySize(n: nat) {
    n == 16 || n == 24 || n == 32
  }

  // ---------------------------------------------------------------------------
  // The layout

  /** The three parts of a header-long input: [0, 32), [32, 44) and the rest. */
  function Split(data: bytes): (parts: (bytes, bytes, bytes))
    requires |data| >= HeaderSize
    ensures |parts.0| == SaltSize && |parts.1| == NonceSize
    ensures parts.0 + parts.1 + parts.2 == data
  {
    assert data[..SaltSize] + data[SaltSize..HeaderSize] + data[HeaderSize..] == data;
    (data[..SaltSize], data[SaltSize..HeaderSize], data[HeaderSize..])
  }

  /** Cutting an envelope apart gives back the salt, the nonce and the
      ciphertext that were put together. */
  lemma SplitJoin(salt: bytes, nonce: bytes, ciphertext: bytes)
    requires |salt| == SaltSize && |nonce| == NonceSize
    ensures |salt + nonce + ciphertext| == HeaderSize + |ciphertext|
    ensures Split(salt + nonce + ciphertext) == (salt, nonce, ciphertext)
  {
    var data := salt + nonce + ciphertext;
    assert data[..SaltSize] == salt;
    assert data[SaltSize..HeaderSize] == nonce;
    assert data[HeaderSize..] == ciphertext;
  }

  // ---------------------------------------------------------------------------
  // Encrypt and Decrypt

  /** What `Encrypt` returns: an error when the salt cannot be read, when the
      derived key is refused or when the nonce cannot be read, in that order;
      otherwise salt ++ nonce ++ ciphertext. */
  function EncryptWith(prims: Primitives, data: bytes, password: bytes,
                       saltSrc: Source, nonceSrc: Source): (r: Result<bytes>)
    ensures !saltSrc.ok ==> r == Err(RandomFailed)
    ensures !nonceSrc.ok ==> r.Err?
    ensures r.Ok? ==>
      var salt := Draw(saltSrc, SaltSize);
      var nonce := Draw(nonceSrc, NonceSize);
      var ct := prims.seal(DeriveKey(prims, password, salt), nonce, data);
      |r.value| == HeaderSize + |ct| && r.value[..SaltSize] == salt
      && r.value[SaltSize..HeaderSize] == nonce && r.value[HeaderSize..] == ct
  {
    if !saltSrc.ok then Err(RandomFailed)
    else
      var salt := Draw(saltSrc, SaltSize);
      var key := DeriveKey(prims, password, salt);
      if !ValidKeySize(|key|) then Err(InvalidKeySize)
      else if !nonceSrc.ok then Err(RandomFailed)
      else
        var nonce := Draw(nonceSrc, NonceSize);
        var ct := prims.seal(key, nonce, data);
        SplitJoin(salt, nonce, ct);
        Ok(salt + nonce + ct)
  }

  /** `Encrypt`: the salt and the nonce are read, and the result is built by
      appending salt, nonce and ciphertext to an empty buffer. */
  method Encrypt(prims: Primitives, data: bytes, password: bytes,
                 saltSrc: Source, nonceSrc: Source) returns (r: Result<bytes>)
    ensures r == EncryptWith(prims, data, password, saltSrc, nonceSrc)
  {
    if !saltSrc.ok {
      return Err(RandomFailed);
    }
    var salt := new byte[SaltSize](i requires 0 <= i => saltSrc.fill(i));
    assert salt[..] == Draw(saltSrc, SaltSize);
    var key := DeriveKey(prims, password, salt[..]);
    if !ValidKeySize(|key|) {
      return Err(InvalidKeySize);
    }
    if !nonceSrc.ok {
      return Err(RandomFailed);
    }
    var nonce := new byte[NonceSize](i requires 0 <= i => nonceSrc.fill(i));
    assert nonce[..] == Draw(nonceSrc, NonceSize);
    var ciphertext := prims.seal(key, nonce[..], data);
    var result: bytes := [];
    result := result + salt[..];
    result := result + nonce[..];
    result := result + ciphertext;
    assert result == Draw(saltSrc, SaltSize) + Draw(nonceSrc, NonceSize) + ciphertext;
    return Ok(result);
  }

  /** `Decrypt`: input too short for a header is invalid whatever the
      password; otherwise the ciphertext is opened under the key derived from
      the stored salt, with the stored nonce. */
  function Decrypt(prims: Primitives, data: bytes, password: bytes): (r: Result<bytes>)
    ensures r == Err(InvalidData) <==> |data| < HeaderSize
    ensures r.Ok? ==>
      var key := DeriveKey(prims, password, data[..SaltSize]);
      ValidKeySize(|key|) &&
      prims.open(key, data[SaltSize..HeaderSize], data[HeaderSize..]) == Some(r.value)
  {
    if |data| < HeaderSize then Err(InvalidData)
    else
      var (salt, nonce, ciphertext) := Split(data);
      var key := DeriveKey(prims, password, salt);
      if !ValidKeySize(|key|) then Err(InvalidKeySize)
      else
        match prims.open(key, nonce, ciphertext)
        case None => Err(OpenFailed)
        case Some(p) => Ok(p)
  }

  // ---------------------------------------------------------------------------
  // Properties

  /** Both reads succeeding and the key being accepted is exactly when
      `Encrypt` succeeds. */
  lemma EncryptSucceeds(prims: Primitives, data: bytes, password: bytes,
                        saltSrc: Source, nonceSrc: Source)
    ensures EncryptWith(prims, data, password, saltSrc, nonceSrc).Ok? <==>
      saltSrc.ok && nonceSrc.ok
      && ValidKeySize(|DeriveKey(prims, password, Draw(saltSrc, SaltSize))|)
  {
  }

  /** Decrypting with the same password gives the plaintext back, whenever
      the derived key has the length PBKDF2 was asked for and opening what
      was sealed under a key and nonce returns it. */
  lemma RoundTrip(prims: Primitives, data: bytes, password: bytes,
                  saltSrc: Source, nonceSrc: Source)
    requires saltSrc.ok && nonceSrc.ok
    requires
      var key := DeriveKey(prims, password, Draw(saltSrc, SaltSize));
      var nonce := Draw(nonceSrc, NonceSize);
      |key| == KeySize && prims.open(key, nonce, prims.seal(key, nonce, data)) == Some(data)
    ensures EncryptWith(prims, data, password, saltSrc, nonceSrc).Ok?
    ensures Decrypt(prims, EncryptWith(prims, data, password, saltSrc, nonceSrc).value, password) == Ok(data)
  {
    var salt, nonce := Draw(saltSrc, SaltSize), Draw(nonceSrc, NonceSize);
    var ct := prims.seal(DeriveKey(prims, password, salt), nonce, data);
    SplitJoin(salt, nonce, ct);
  }

  /** Decrypting with another password fails, whenever opening under that
      password's key rejects what was sealed under the first one. */
  lemma WrongPassword(prims: Primitives, data: bytes, password: bytes, wrong: bytes,
                      saltSrc: Source, nonceSrc: Source)
    requires EncryptWith(prims, data, password, saltSrc, nonceSrc).Ok?
    requires
      var salt := Draw(saltSrc, SaltSize);
      var nonce := Draw(nonceSrc, NonceSize);
      prims.open(DeriveKey(prims, wrong, salt), nonce,
                 prims.seal(DeriveKey(prims, password, salt), nonce, data)) == None
    ensures Decrypt(prims, EncryptWith(prims, data, password, saltSrc, nonceSrc).value, wrong).Err?
  {
    var salt, nonce := Draw(saltSrc, SaltSize), Draw(nonceSrc, NonceSize);
    var ct := prims.seal(DeriveKey(prims, password, salt), nonce, data);
    SplitJoin(salt, nonce, ct);
  }

  /** The envelope differs from the plaintext whenever the ciphertext is at
      least as long as the plaintext (AES-GCM adds a 16-byte tag). */
  lemma NotPlaintext(prims: Primitives, data: bytes, password: bytes,
                     saltSrc: Source, nonceSrc: Source)
    requires EncryptWith(prims, data, password, saltSrc, nonceSrc).Ok?
    requires |prims.seal(DeriveKey(prims, password, Draw(saltSrc, SaltSize)), Draw(nonceSrc, NonceSize), data)| >= |data|
    ensures EncryptWith(prims, data, password, saltSrc, nonceSrc).value != data
  {
  }
}
