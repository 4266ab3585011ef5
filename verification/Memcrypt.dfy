/** In-memory encryption of secrets: AES-256-GCM behind an abstract law, the blob layout
    IV + tag + ciphertext in Base64, and the derived key. */
module Memcrypt {
  import opened Bytes
  import Base64

  const POOL_SIZE: nat := 1024
  const KEY_LEN: nat := 32
  const CHAR_MIN: nat := 33
  const CHAR_MAX: nat := 126
  const IV_LEN: nat := 12
  const TAG_LEN: nat := 16

  datatype Option<T> = None | Some(value: T)

  datatype Sealed = Sealed(ciphertext: seq<byte>, tag: seq<byte>)

  /** An authenticated cipher: sealing with (key, IV, plaintext), opening with (key, IV, sealed). */
  datatype Aead = Aead(seal: (seq<byte>, seq<byte>, seq<byte>) -> Sealed,
                       open: (seq<byte>, seq<byte>, Sealed) -> Option<seq<byte>>)
  {
    /** Tags have their fixed length and opening inverts sealing. */
    ghost predicate Lawful() {
      forall key, iv, p :: |seal(key, iv, p).tag| == TAG_LEN && open(key, iv, seal(key, iv, p)) == Some(p)
    }
  }

  // ----- The derived key -----------------------------------------------------------

  /** The multiplier and increment are generated anew for every build. */
  datatype Lcg = Lcg(multiplier: nat, increment: nat) {
    function Next(state: nat): (r: nat)
      ensures r < 0x1_0000_0000
    {
      (state * multiplier + increment) % 0x1_0000_0000
    }

    function State(start: nat, steps: nat): nat {
      if steps == 0 then start else Next(State(start, steps - 1))
    }
  }

  function Start(seed: bv32): nat {
    (seed ^ 0xCEEFBEAF) as nat
  }

  class Store {
    const lcg: Lcg
    const pool: array<byte>
    var seed: bv32

    /** Only printable characters are ever put into the pool. */
    ghost predicate Valid()
      reads this, pool
    {
      pool.Length == POOL_SIZE && forall i :: 0 <= i < POOL_SIZE ==> CHAR_MIN <= pool[i] <= CHAR_MAX
    }

    /** Fills the pool from the random source: the i-th draw, below CHAR_MAX - CHAR_MIN + 1. */
    constructor (lcg: Lcg, seed: bv32, draws: nat -> nat)
      requires forall i :: draws(i) < CHAR_MAX - CHAR_MIN + 1
      ensures Valid() && fresh(pool)
      ensures this.lcg == lcg && this.seed == seed
      ensures forall i :: 0 <= i < POOL_SIZE ==> pool[i] == CHAR_MIN + draws(i)
    {
      this.lcg, this.seed := lcg, seed;
      pool := new byte[POOL_SIZE];
      new;
      var i := 0;
      while i < POOL_SIZE
        invariant 0 <= i <= POOL_SIZE
        invariant this.seed == seed && fresh(pool)
        invariant forall j :: 0 <= j < i ==> pool[j] == CHAR_MIN + draws(j)
      {
        pool[i] := CHAR_MIN + draws(i);
        i := i + 1;
      }
    }

    /** The key is a function of pool and seed alone, so every call returns the same one; it has full
        length and only printable characters, so it is safe as a C string. */
    method Key() returns (key: seq<byte>)
      requires Valid()
      ensures |key| == KEY_LEN
      ensures forall i :: 0 <= i < KEY_LEN ==>
                key[i] == pool[lcg.State(Start(seed), i + 1) / 0x1_0000 % POOL_SIZE] && CHAR_MIN <= key[i] <= CHAR_MAX
    {
      var state := Start(seed);
      var buffer := new byte[KEY_LEN];
      var i := 0;
      while i < KEY_LEN
        invariant 0 <= i <= KEY_LEN
        invariant state == lcg.State(Start(seed), i)
        invariant forall j :: 0 <= j < i ==> buffer[j] == pool[lcg.State(Start(seed), j + 1) / 0x1_0000 % POOL_SIZE]
      {
        state := lcg.Next(state);
        buffer[i] := pool[state / 0x1_0000 % POOL_SIZE];
        i := i + 1;
      }
      key := buffer[..];
    }
  }

  // ----- Encryption and decryption -------------------------------------------------

  function Blob(iv: seq<byte>, sealed: Sealed): seq<byte> {
    iv + sealed.tag + sealed.ciphertext
  }

  /** What a C string made from a buffer keeps: everything before the first NUL. */
  function CString(p: seq<byte>): (r: seq<byte>)
    ensures r <= p
    ensures r == p <==> forall i :: 0 <= i < |p| ==> p[i] != 0
  {
    if p == [] || p[0] == 0 then []
    else
      var rest := CString(p[1..]);
      assert p == [p[0]] + p[1..];
      [p[0]] + rest
  }

  function Encrypted(aead: Aead, key: seq<byte>, iv: seq<byte>, plaintext: seq<byte>): string {
    Base64.EncodeBlock(Blob(iv, aead.seal(key, iv, plaintext)))
  }

  /** None stands for the code's NULL; an empty text is fatal (allocation of size zero). */
  datatype Outcome = Null | Plain(text: seq<byte>) | Fatal

  function Decrypted(aead: Aead, key: seq<byte>, text: string): Outcome {
    match Base64.Decode(text)
    case Fatal => Fatal
    case Failure => Null
    case Success(blob) =>
      if |blob| < IV_LEN + TAG_LEN then Null
      else
        match aead.open(key, blob[..IV_LEN], Sealed(blob[IV_LEN + TAG_LEN..], blob[IV_LEN..IV_LEN + TAG_LEN]))
        case None => Null
        case Some(p) => Plain(CString(p))
  }

  method EncryptBstring(aead: Aead, key: seq<byte>, iv: seq<byte>, plaintext: seq<byte>) returns (text: string)
    requires aead.Lawful() && |iv| == IV_LEN
    ensures text == Encrypted(aead, key, iv, plaintext)
  {
    var sealed := aead.seal(key, iv, plaintext);
    var blob := new byte[IV_LEN + TAG_LEN + |sealed.ciphertext|];
    forall i | 0 <= i < IV_LEN {
      blob[i] := iv[i];
    }
    forall i | 0 <= i < TAG_LEN {
      blob[IV_LEN + i] := sealed.tag[i];
    }
    forall i | 0 <= i < |sealed.ciphertext| {
      blob[IV_LEN + TAG_LEN + i] := sealed.ciphertext[i];
    }
    assert blob[..] == Blob(iv, sealed);
    text := Base64.EncodeBlock(blob[..]);
  }

  method DecryptBstring(aead: Aead, key: seq<byte>, text: string) returns (r: Outcome)
    ensures r == Decrypted(aead, key, text)
  {
    var decoded := Base64.Unbase64(text);
    if decoded.Fatal? {
      return Fatal;
    }
    if decoded.Failure? {
      return Null;
    }
    var blob := decoded.bytes;
    if |blob| < IV_LEN + TAG_LEN {
      return Null;
    }
    var iv := blob[..IV_LEN];
    var tag := blob[IV_LEN..IV_LEN + TAG_LEN];
    var ciphertext := blob[IV_LEN + TAG_LEN..];
    var plaintext := aead.open(key, iv, Sealed(ciphertext, tag));
    if plaintext.None? {
      return Null;
    }
    return Plain(CString(plaintext.value));
  }

  lemma BlobDecodes(iv: seq<byte>, sealed: Sealed)
    requires |iv| == IV_LEN && |sealed.tag| == TAG_LEN
    ensures Base64.Decode(Base64.EncodeBlock(Blob(iv, sealed))) == Base64.Success(Blob(iv, sealed))
  {
    hide Base64.Decode, Base64.EncodeBlock;
    var blob := Blob(iv, sealed);
    Base64.RoundTrip(blob, false, true);
    Base64.EncodedShape(blob);
    assert Base64.Spelling(blob, false, true) == Base64.EncodeBlock(blob);
  }

  lemma BlobParts(iv: seq<byte>, sealed: Sealed)
    requires |iv| == IV_LEN && |sealed.tag| == TAG_LEN
    ensures var blob := Blob(iv, sealed);
            && blob[..IV_LEN] == iv
            && Sealed(blob[IV_LEN + TAG_LEN..], blob[IV_LEN..IV_LEN + TAG_LEN]) == sealed
  {}

  /** Decrypting what was encrypted under the same key gives the plaintext up to its first NUL, so
      the whole plaintext exactly when it is free of NULs. */
  lemma DecryptInvertsEncrypt(aead: Aead, key: seq<byte>, iv: seq<byte>, plaintext: seq<byte>)
    requires aead.Lawful() && |iv| == IV_LEN
    ensures Decrypted(aead, key, Encrypted(aead, key, iv, plaintext)) == Plain(CString(plaintext))
    ensures Decrypted(aead, key, Encrypted(aead, key, iv, plaintext)) == Plain(plaintext)
            <==> forall i :: 0 <= i < |plaintext| ==> plaintext[i] != 0
  {
    hide Base64.Decode, Base64.EncodeBlock;
    var sealed := aead.seal(key, iv, plaintext);
    BlobDecodes(iv, sealed);
    BlobParts(iv, sealed);
    assert aead.open(key, iv, sealed) == Some(plaintext);
  }

  /** With a cipher that opens only what was sealed under the key, a decrypted text is a plaintext
      that was encrypted, whatever spelling of Base64 it arrives in. */
  lemma OnlyEncryptedTextsDecrypt(aead: Aead, key: seq<byte>, text: string)
    requires forall iv, sealed :: aead.open(key, iv, sealed).Some? ==> sealed == aead.seal(key, iv, aead.open(key, iv, sealed).value)
    requires Decrypted(aead, key, text).Plain?
    ensures exists iv, p :: |iv| == IV_LEN && Base64.Decode(text) == Base64.Success(Blob(iv, aead.seal(key, iv, p)))
                            && Decrypted(aead, key, text) == Plain(CString(p))
  {
    var blob := Base64.Decode(text).bytes;
    var iv := blob[..IV_LEN];
    var sealed := Sealed(blob[IV_LEN + TAG_LEN..], blob[IV_LEN..IV_LEN + TAG_LEN]);
    var p := aead.open(key, iv, sealed).value;
    assert blob == Blob(iv, sealed);
    assert sealed == aead.seal(key, iv, p);
  }
}
