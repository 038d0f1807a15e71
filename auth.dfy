/** `LaMarzoccoAuth`: the installation key, the strings derived from it, the
    request proof and the extra request headers. SHA-256 is the parameter `sha`;
    the outcome of ECDSA key parsing and signing is the parameter `signer`. */
module Auth {
  import opened Ints
  import opened Wrappers
  import Base64
  import Uuid
  import Strings
  import Prefs

  /** A SHA-256 digest, or the 32-byte secret. */
  type Digest = s: seq<byte> | |s| == 32 witness seq(32, _ => 0)

  /** Sizes of the DER buffers of `InstallationKey`. */
  const PRIVATE_KEY_MAX: nat := 121
  const PUBLIC_KEY_MAX: nat := 91

  /** `InstallationKey`; each DER buffer is the bytes up to its length field. */
  datatype InstallationKey = InstallationKey(
    installationId: string,
    secret: Digest,
    privateKey: seq<byte>,
    publicKey: seq<byte>)
  {
    /** `InstallationKey::isValid` */
    predicate IsValid() {
      |installationId| > 0 && |privateKey| > 0
    }
  }

  /** The bytes `c_str()` hands to the hash: one byte per character. */
  function BytesOf(s: string): (b: seq<byte>)
    ensures |b| == |s|
    ensures forall k :: 0 <= k < |s| ==> b[k] == s[k] as int % 256
  {
    seq(|s|, k requires 0 <= k < |s| => s[k] as int % 256)
  }

  /** `generate_base_string`: the installation id, '.', and the base64 of the
      hash of the public key; neither the secret nor the private key take part. */
  function BaseString(key: InstallationKey, sha: seq<byte> -> Digest): (r: string)
    ensures |r| == |key.installationId| + 45
    ensures r[..|key.installationId|] == key.installationId && r[|key.installationId|] == '.'
    ensures Base64.Padded(r[|key.installationId| + 1..], 1)
    ensures Base64.DecodeSpec(r[|key.installationId| + 1..]) == sha(key.publicKey)
  {
    var h := sha(key.publicKey);
    EncodedDigest(h);
    AfterDot(key.installationId, Base64.EncodeSpec(h));
    key.installationId + "." + Base64.EncodeSpec(h)
  }

  /** The base64 of a digest: 43 table characters and one '=', decoding back to it. */
  lemma EncodedDigest(h: Digest)
    ensures |Base64.EncodeSpec(h)| == 44 && Base64.Padded(Base64.EncodeSpec(h), 1)
    ensures Base64.DecodeSpec(Base64.EncodeSpec(h)) == h
  {
    Base64.EncodeShape(h);
    Base64.DecodeEncode(h);
  }

  lemma AfterDot(a: string, e: string)
    ensures var r := a + "." + e;
      |r| == |a| + 1 + |e| && r[..|a|] == a && r[|a|] == '.' && r[|a| + 1..] == e
  {
  }

  lemma JoinSlices(a: string, p: string, q: string)
    ensures var t := a + "." + p + "." + q;
      |t| == |a| + |p| + |q| + 2
      && t[..|a|] == a && t[|a|] == '.' && t[|a| + 1..] == p + ("." + q)
      && t[|t| - |q| - 1] == '.' && t[|t| - |q|..] == q
  {
    var t := a + "." + p + "." + q;
    assert t == a + ("." + (p + ("." + q)));
    assert p + "." + q == p + ("." + q);
  }

  /** The text hashed by `derive_secret_bytes`: the installation id, the base64 of
      the public key and the base64 of the hash of the id, joined by '.'. */
  function SecretInput(installationId: string, publicKey: seq<byte>, sha: seq<byte> -> Digest): string {
    installationId + "." + Base64.EncodeSpec(publicKey) + "." + Base64.EncodeSpec(sha(BytesOf(installationId)))
  }

  /** The hashed text can be taken apart again: the id comes before the first
      '.', the public key decodes from what follows it (base64 contains no '.'),
      and the last 44 characters, after a '.', decode to the hash of the id. */
  lemma SecretInputParts(installationId: string, publicKey: seq<byte>, sha: seq<byte> -> Digest)
    ensures var t := SecretInput(installationId, publicKey, sha);
      |t| >= |installationId| + 46
      && t[..|installationId|] == installationId && t[|installationId|] == '.'
      && Base64.DecodeSpec(t[|installationId| + 1..]) == publicKey
      && t[|t| - 45] == '.' && Base64.DecodeSpec(t[|t| - 44..]) == sha(BytesOf(installationId))
  {
    var h := sha(BytesOf(installationId));
    var p := Base64.EncodeSpec(publicKey);
    var q := Base64.EncodeSpec(h);
    EncodedDigest(h);
    Base64.DecodeEncodeThen(publicKey, "." + q);
    JoinSlices(installationId, p, q);
  }

  /** `derive_secret_bytes`: the secret is the hash of `SecretInput`. */
  function DeriveSecret(installationId: string, publicKey: seq<byte>, sha: seq<byte> -> Digest): Digest {
    sha(BytesOf(SecretInput(installationId, publicKey, sha)))
  }

  /** Text whose characters are single bytes, so `BytesOf` loses nothing. */
  predicate Narrow(s: string) {
    forall k :: 0 <= k < |s| ==> s[k] as int < 256
  }

  /** Two different inputs with the same hash. */
  predicate Collides(sha: seq<byte> -> Digest, a: seq<byte>, b: seq<byte>) {
    a != b && sha(a) == sha(b)
  }

  lemma BytesOfInjective(s: string, t: string)
    requires Narrow(s) && Narrow(t) && BytesOf(s) == BytesOf(t)
    ensures s == t
  {
    forall k | 0 <= k < |s|
      ensures s[k] == t[k]
    {
      assert BytesOf(s)[k] == BytesOf(t)[k];
    }
  }

  lemma NarrowJoin(a: string, b: string)
    requires Narrow(a) && Narrow(b)
    ensures Narrow(a + b)
  {
    forall k | |a| <= k < |a + b|
      ensures (a + b)[k] as int < 256
    {
      assert (a + b)[k] == b[k - |a|];
    }
  }

  /** Base64 text is ASCII. */
  lemma EncodedNarrow(data: seq<byte>)
    ensures Narrow(Base64.EncodeSpec(data))
  {
    Base64.EncodeShape(data);
  }

  lemma SecretInputNarrow(installationId: string, publicKey: seq<byte>, sha: seq<byte> -> Digest)
    requires Narrow(installationId)
    ensures Narrow(SecretInput(installationId, publicKey, sha))
  {
    var p := Base64.EncodeSpec(publicKey);
    var q := Base64.EncodeSpec(sha(BytesOf(installationId)));
    EncodedNarrow(publicKey);
    EncodedNarrow(sha(BytesOf(installationId)));
    NarrowJoin(installationId, ".");
    NarrowJoin(installationId + ".", p);
    NarrowJoin(installationId + "." + p, ".");
    NarrowJoin(installationId + "." + p + ".", q);
  }

  /** For single-byte ids without a '.' (the firmware's ids are UUIDs), the
      bytes hashed by `derive_secret_bytes` are the same exactly when the
      installation id and the public key are. */
  lemma SecretInputInjective(id1: string, pub1: seq<byte>, id2: string, pub2: seq<byte>, sha: seq<byte> -> Digest)
    requires Narrow(id1) && Narrow(id2) && '.' !in id1 && '.' !in id2
    ensures BytesOf(SecretInput(id1, pub1, sha)) == BytesOf(SecretInput(id2, pub2, sha))
        <==> id1 == id2 && pub1 == pub2
  {
    var t1, t2 := SecretInput(id1, pub1, sha), SecretInput(id2, pub2, sha);
    if BytesOf(t1) == BytesOf(t2) {
      SecretInputNarrow(id1, pub1, sha);
      SecretInputNarrow(id2, pub2, sha);
      BytesOfInjective(t1, t2);
      SecretInputParts(id1, pub1, sha);
      SecretInputParts(id2, pub2, sha);
      // the first '.' of the shared text ends both ids
      if |id1| != |id2| {
        assert false;
      }
      assert id1 == t1[..|id1|] == id2;
    }
  }

  /** Two installations that end up with the same secret have the same id and
      public key, unless their hashed inputs collide under SHA-256. */
  lemma DeriveSecretDetermines(id1: string, pub1: seq<byte>, id2: string, pub2: seq<byte>, sha: seq<byte> -> Digest)
    requires Narrow(id1) && Narrow(id2) && '.' !in id1 && '.' !in id2
    requires DeriveSecret(id1, pub1, sha) == DeriveSecret(id2, pub2, sha)
    ensures (id1 == id2 && pub1 == pub2)
      || Collides(sha, BytesOf(SecretInput(id1, pub1, sha)), BytesOf(SecretInput(id2, pub2, sha)))
  {
    SecretInputInjective(id1, pub1, id2, pub2, sha);
  }

  /** 2 to the power `n`. */
  function Pow2(n: nat): (p: nat)
    ensures p >= 1
  {
    if n == 0 then 1 else 2 * Pow2(n - 1)
  }

  function XorBit(x: nat, y: nat): nat {
    if x == y then 0 else 1
  }

  /** Bitwise exclusive or of the low `n` bits of `a` and `b`, least significant bit first. */
  function XorBits(a: nat, b: nat, n: nat): (r: nat)
    ensures r < Pow2(n)
  {
    if n == 0 then 0 else XorBit(a % 2, b % 2) + 2 * XorBits(a / 2, b / 2, n - 1)
  }

  /** `a ^ b` on bytes. */
  function Xor(a: byte, b: byte): byte {
    assert Pow2(8) == 256;
    XorBits(a, b, 8)
  }

  lemma {:induction false} XorBitsTwice(a: nat, b: nat, n: nat)
    ensures XorBits(a, XorBits(a, b, n), n) == XorBits(0, b, n)
  {
    if n > 0 {
      var c' := XorBits(a / 2, b / 2, n - 1);
      var bit := XorBit(a % 2, b % 2);
      var c := bit + 2 * c';
      assert XorBits(a, b, n) == c;
      assert c % 2 == bit && c / 2 == c';
      XorBitsTwice(a / 2, b / 2, n - 1);
      assert XorBit(a % 2, bit) == XorBit(0, b % 2);
      assert XorBits(a, c, n) == XorBit(a % 2, bit) + 2 * XorBits(a / 2, c', n - 1);
    }
  }

  lemma {:induction false} XorBitsZero(b: nat, n: nat)
    requires b < Pow2(n)
    ensures XorBits(0, b, n) == b
  {
    if n > 0 {
      XorBitsZero(b / 2, n - 1);
    }
  }

  lemma XorInvolutive(a: byte, b: byte)
    ensures Xor(a, Xor(a, b)) == b
  {
    assert Pow2(8) == 256;
    XorBitsTwice(a, b, 8);
    XorBitsZero(b, 8);
  }

  /** `((x << s) | (x >> (8 - s))) & 0xFF` for a byte `x` and `s < 8`: the
      rotation left by `s` bits. The low `8 - s` bits move up by `s` and the high
      `s` bits move down by `8 - s`; the two parts have no bit in common, so the
      `|` is a sum. `s == 0` gives `x >> 8`, which is 0, so `x` itself. */
  function Rotl(x: byte, s: nat): (r: byte)
    requires s < 8
  {
    if s == 0 then x
    else if s == 1 then (x % 128) * 2 + x / 128
    else if s == 2 then (x % 64) * 4 + x / 64
    else if s == 3 then (x % 32) * 8 + x / 32
    else if s == 4 then (x % 16) * 16 + x / 16
    else if s == 5 then (x % 8) * 32 + x / 8
    else if s == 6 then (x % 4) * 64 + x / 4
    else (x % 2) * 128 + x / 2
  }

  /** Rotation right, the inverse of `Rotl`. */
  function Rotr(x: byte, s: nat): byte
    requires s < 8
  {
    Rotl(x, (8 - s) % 8)
  }

  // RotrRotl1 to RotrRotl7: one case of `RotrRotl` per shift amount, kept
  // apart so that each arithmetic proof stays small.

  lemma RotrRotl1(x: byte)
    ensures Rotl(Rotl(x, 1), 7) == x
  {
    var y := (x % 128) * 2 + x / 128;
    assert Rotl(x, 1) == y;
    assert y % 2 == x / 128 && y / 2 == x % 128;
  }

  lemma RotrRotl2(x: byte)
    ensures Rotl(Rotl(x, 2), 6) == x
  {
    var y := (x % 64) * 4 + x / 64;
    assert Rotl(x, 2) == y;
    assert y % 4 == x / 64 && y / 4 == x % 64;
  }

  lemma RotrRotl3(x: byte)
    ensures Rotl(Rotl(x, 3), 5) == x
  {
    var y := (x % 32) * 8 + x / 32;
    assert Rotl(x, 3) == y;
    assert y % 8 == x / 32 && y / 8 == x % 32;
  }

  lemma RotrRotl4(x: byte)
    ensures Rotl(Rotl(x, 4), 4) == x
  {
    var y := (x % 16) * 16 + x / 16;
    assert Rotl(x, 4) == y;
    assert y % 16 == x / 16 && y / 16 == x % 16;
  }

  lemma RotrRotl5(x: byte)
    ensures Rotl(Rotl(x, 5), 3) == x
  {
    var y := (x % 8) * 32 + x / 8;
    assert Rotl(x, 5) == y;
    assert y % 32 == x / 8 && y / 32 == x % 8;
  }

  lemma RotrRotl6(x: byte)
    ensures Rotl(Rotl(x, 6), 2) == x
  {
    var y := (x % 4) * 64 + x / 4;
    assert Rotl(x, 6) == y;
    assert y % 64 == x / 4 && y / 64 == x % 4;
  }

  lemma RotrRotl7(x: byte)
    ensures Rotl(Rotl(x, 7), 1) == x
  {
    var y := (x % 2) * 128 + x / 2;
    assert Rotl(x, 7) == y;
    assert y % 128 == x / 2 && y / 128 == x % 2;
  }

  lemma RotrRotl(x: byte, s: nat)
    requires s < 8
    ensures Rotr(Rotl(x, s), s) == x
  {
    if s == 1 { RotrRotl1(x); }
    else if s == 2 { RotrRotl2(x); }
    else if s == 3 { RotrRotl3(x); }
    else if s == 4 { RotrRotl4(x); }
    else if s == 5 { RotrRotl5(x); }
    else if s == 6 { RotrRotl6(x); }
    else if s == 7 { RotrRotl7(x); }
  }

  /** One iteration of the proof loop for input byte `b`: entry `b % 32` becomes
      the rotation of `b ^ work[b % 32]` by the low three bits of the next entry
      (cyclically); the other 31 entries are untouched. */
  function ProofStep(w: Digest, b: byte): (r: Digest)
    ensures r[b % 32] == Rotl(Xor(b, w[b % 32]), w[(b % 32 + 1) % 32] % 8)
    ensures forall j :: 0 <= j < 32 && j != b % 32 ==> r[j] == w[j]
    ensures w[(b % 32 + 1) % 32] % 8 == 0 ==> r[b % 32] == Xor(b, w[b % 32])
  {
    w[b % 32 := Rotl(Xor(b, w[b % 32]), w[(b % 32 + 1) % 32] % 8)]
  }

  /** Undoes `ProofStep` for the same input byte: the entry that selected the
      rotation is not the one rewritten, so it is still there to read. */
  function UndoStep(w: Digest, b: byte): Digest {
    w[b % 32 := Xor(b, Rotr(w[b % 32], w[(b % 32 + 1) % 32] % 8))]
  }

  lemma UndoProofStep(w: Digest, b: byte)
    ensures UndoStep(ProofStep(w, b), b) == w
  {
    var i := b % 32;
    var r := ProofStep(w, b);
    assert r[(i + 1) % 32] == w[(i + 1) % 32];
    RotrRotl(Xor(b, w[i]), w[(i + 1) % 32] % 8);
    XorInvolutive(b, w[i]);
    assert UndoStep(r, b)[i] == w[i];
  }

  /** The working buffer after the loop has consumed `input`, starting from `secret`. */
  function ProofBuffer(secret: Digest, input: seq<byte>): Digest
    decreases |input|
  {
    if input == [] then secret
    else ProofStep(ProofBuffer(secret, input[..|input| - 1]), input[|input| - 1])
  }

  /** An entry no input byte selects keeps its secret value. */
  lemma {:induction false} ProofBufferUntouched(secret: Digest, input: seq<byte>, j: nat)
    requires j < 32 && forall k :: 0 <= k < |input| ==> input[k] % 32 != j
    ensures ProofBuffer(secret, input)[j] == secret[j]
    decreases |input|
  {
    if input != [] {
      ProofBufferUntouched(secret, input[..|input| - 1], j);
    }
  }

  /** For a fixed input the transform is one-to-one: the final buffer determines the secret. */
  lemma {:induction false} ProofBufferInjective(s1: Digest, s2: Digest, input: seq<byte>)
    requires ProofBuffer(s1, input) == ProofBuffer(s2, input)
    ensures s1 == s2
    decreases |input|
  {
    if input != [] {
      var init, b := input[..|input| - 1], input[|input| - 1];
      UndoProofStep(ProofBuffer(s1, init), b);
      UndoProofStep(ProofBuffer(s2, init), b);
      ProofBufferInjective(s1, s2, init);
    }
  }

  /** `generate_request_proof`: the base64 of the hash of the final buffer, 44
      characters of which only the last is '='. */
  function RequestProof(baseString: string, secret: Digest, sha: seq<byte> -> Digest): (p: string)
    ensures |p| == 44 && Base64.Padded(p, 1)
    ensures Base64.DecodeSpec(p) == sha(ProofBuffer(secret, BytesOf(baseString)))
  {
    var h := sha(ProofBuffer(secret, BytesOf(baseString)));
    EncodedDigest(h);
    Base64.EncodeSpec(h)
  }

  /** `generate_request_proof`: `work` starts as a copy of the secret and each
      byte of the base string rewrites one entry of it. */
  method GenerateRequestProof(baseString: string, secret: Digest, sha: seq<byte> -> Digest)
    returns (proof: string)
    ensures proof == RequestProof(baseString, secret, sha)
  {
    var work := new byte[32](j requires 0 <= j < 32 => secret[j]);
    var input := BytesOf(baseString);
    var i := 0;
    while i < |input|
      invariant 0 <= i <= |input|
      invariant work[..] == ProofBuffer(secret, input[..i])
    {
      var b := input[i];
      var idx := b % 32;
      var shiftIdx := (idx + 1) % 32;
      var shiftAmount := work[shiftIdx] % 8;
      var x := Xor(b, work[idx]);
      ghost var before := work[..];
      work[idx] := Rotl(x, shiftAmount);
      assert work[..] == before[idx := Rotl(x, shiftAmount)];
      BufferExtend(secret, input, i);
      i := i + 1;
    }
    assert input[..i] == input;
    proof := Base64.Encode(sha(work[..]));
  }

  lemma BufferExtend(secret: Digest, input: seq<byte>, i: nat)
    requires i < |input|
    ensures ProofBuffer(secret, input[..i + 1]) == ProofStep(ProofBuffer(secret, input[..i]), input[i])
  {
    assert input[..i + 1][..i] == input[..i];
  }

  /** What parsing the private key and signing report; the signature bytes depend
      on the hash of the signed text. */
  datatype SignResult = SignResult(ret: int, sig: seq<byte>)

  datatype Signer = Signer(
    parsesKey: bool,        // mbedtls_pk_parse_key returned 0
    hasEcdsa: bool,         // mbedtls_pk_ec gave a context
    hasMdInfo: bool,        // SHA-256 digest info found
    mdSetupOk: bool,        // mbedtls_md_setup returned 0
    sign: Digest -> SignResult)

  /** Size of the `sig` buffer. */
  const SIG_MAX: nat := 80

  /** Whether the signing steps all succeed for a text with hash `h`. */
  predicate Signs(signer: Signer, h: Digest) {
    signer.parsesKey && signer.hasEcdsa && signer.hasMdInfo && signer.mdSetupOk
    && signer.sign(h).ret == 0 && 0 < |signer.sign(h).sig| <= SIG_MAX
  }

  /** The signature header: base64 of the DER signature of the hash of the text,
      or "" when any signing step fails. */
  function Signature(signed: string, sha: seq<byte> -> Digest, signer: Signer): (s: string)
    ensures s == "" <==> !Signs(signer, sha(BytesOf(signed)))
    ensures s != "" ==> Base64.DecodeSpec(s) == signer.sign(sha(BytesOf(signed))).sig
  {
    var h := sha(BytesOf(signed));
    if Signs(signer, h) then
      Base64.EncodeShape(signer.sign(h).sig);
      Base64.DecodeEncode(signer.sign(h).sig);
      Base64.EncodeSpec(signer.sign(h).sig)
    else ""
  }

  datatype Headers = Headers(installationId: string, timestamp: string, nonce: string, signature: string)

  /** The text the request proof is computed over. */
  function ProofInput(installationId: string, nonce: string, timestamp: string): string {
    installationId + "." + nonce + "." + timestamp
  }

  /** `generate_extra_request_headers`, with the 16 random bytes of the nonce and
      `millis()` given: the nonce is a fresh UUID, the timestamp the decimal
      milliseconds, and the signature signs the proof input followed by '.'
      and the request proof computed over it. */
  function ExtraHeaders(key: InstallationKey, random: seq<byte>, millis: u32,
                        sha: seq<byte> -> Digest, signer: Signer): (h: Headers)
    requires |random| == 16
    ensures h.installationId == key.installationId
    ensures h.nonce == Uuid.Prefix(Uuid.Stamped(random), 16)
    ensures h.timestamp == Strings.NatToString(millis)
    ensures var input := ProofInput(key.installationId, h.nonce, h.timestamp);
      h.signature == Signature(input + "." + RequestProof(input, key.secret, sha), sha, signer)
  {
    var nonce := Uuid.Prefix(Uuid.Stamped(random), 16);
    var timestamp := Strings.NatToString(millis);
    var input := ProofInput(key.installationId, nonce, timestamp);
    var proof := RequestProof(input, key.secret, sha);
    Headers(key.installationId, timestamp, nonce, Signature(input + "." + proof, sha, signer))
  }

  // Preference keys.
  const INST_ID := "INST_ID"
  const INST_SECRET := "INST_SECRET"
  const INST_PRIVKEY := "INST_PRIVKEY"
  const INST_PUBKEY := "INST_PUBKEY"
  const INST_PRIVLEN := "INST_PRIVLEN"
  const INST_PUBLEN := "INST_PUBLEN"

  /** `putBytes` as a change of the store: an empty blob stores nothing. */
  function PutBlob(store: map<string, Prefs.Entry>, k: string, v: seq<byte>): map<string, Prefs.Entry> {
    if |v| == 0 then store else store[k := Prefs.Blob(v)]
  }

  /** The store after `save_installation_key`. */
  function Saved(store: map<string, Prefs.Entry>, key: InstallationKey): map<string, Prefs.Entry>
    requires |key.privateKey| < TWO_32 && |key.publicKey| < TWO_32
  {
    var s1 := store[INST_ID := Prefs.Text(key.installationId)];
    var s2 := PutBlob(PutBlob(PutBlob(s1, INST_SECRET, key.secret), INST_PRIVKEY, key.privateKey),
                      INST_PUBKEY, key.publicKey);
    s2[INST_PRIVLEN := Prefs.Number(|key.privateKey|)][INST_PUBLEN := Prefs.Number(|key.publicKey|)]
  }

  /** `save_installation_key`: six writes, and the result is always true. */
  method SaveInstallationKey(prefs: Prefs.Preferences, key: InstallationKey) returns (ok: bool)
    requires |key.privateKey| < TWO_32 && |key.publicKey| < TWO_32
    modifies prefs
    ensures ok && prefs.store == Saved(old(prefs.store), key)
  {
    prefs.PutString(INST_ID, key.installationId);
    prefs.PutBytes(INST_SECRET, key.secret);
    prefs.PutBytes(INST_PRIVKEY, key.privateKey);
    prefs.PutBytes(INST_PUBKEY, key.publicKey);
    prefs.PutUInt(INST_PRIVLEN, |key.privateKey|);
    prefs.PutUInt(INST_PUBLEN, |key.publicKey|);
    ok := true;
  }

  /** Whether `k` holds a blob of `lo` to `hi` bytes. */
  predicate BlobSized(store: map<string, Prefs.Entry>, k: string, lo: nat, hi: nat) {
    k in store && store[k].Blob? && lo <= |store[k].bytes| <= hi
  }

  /** `load_installation_key`: succeeds iff the id is non-empty text, the secret
      is a blob of exactly 32 bytes and each DER key is a non-empty blob that fits
      its buffer; the key read is then exactly what the store holds. */
  function LoadInstallationKey(prefs: Prefs.Preferences): (r: Option<InstallationKey>)
    reads prefs
    ensures r.Some? <==>
      INST_ID in prefs.store && prefs.store[INST_ID].Text? && |prefs.store[INST_ID].text| > 0
      && BlobSized(prefs.store, INST_SECRET, 32, 32)
      && BlobSized(prefs.store, INST_PRIVKEY, 1, PRIVATE_KEY_MAX)
      && BlobSized(prefs.store, INST_PUBKEY, 1, PUBLIC_KEY_MAX)
    ensures r.Some? ==>
      (r.value.IsValid()
       && r.value.installationId == prefs.store[INST_ID].text
       && r.value.secret == prefs.store[INST_SECRET].bytes
       && r.value.privateKey == prefs.store[INST_PRIVKEY].bytes
       && r.value.publicKey == prefs.store[INST_PUBKEY].bytes)
  {
    var id := prefs.GetString(INST_ID, "");
    if |id| == 0 then None
    else if !prefs.IsKey(INST_SECRET) then None
    else
      var secret := prefs.GetBytes(INST_SECRET, 32);
      if |secret| != 32 then None
      else if !prefs.IsKey(INST_PRIVKEY) then None
      else
        var priv := prefs.GetBytes(INST_PRIVKEY, PRIVATE_KEY_MAX);
        if |priv| == 0 then None
        else if !prefs.IsKey(INST_PUBKEY) then None
        else
          var pub := prefs.GetBytes(INST_PUBKEY, PUBLIC_KEY_MAX);
          if |pub| == 0 then None
          else Some(InstallationKey(id, secret, priv, pub))
  }

  /** A key that fits the store's buffers comes back unchanged after a save. */
  lemma LoadAfterSave(prefs: Prefs.Preferences, store: map<string, Prefs.Entry>, key: InstallationKey)
    requires |key.installationId| > 0
    requires 0 < |key.privateKey| <= PRIVATE_KEY_MAX && 0 < |key.publicKey| <= PUBLIC_KEY_MAX
    requires prefs.store == Saved(store, key)
    ensures LoadInstallationKey(prefs) == Some(key)
  {
    var s := prefs.store;
    assert s[INST_ID] == Prefs.Text(key.installationId);
    assert s[INST_SECRET] == Prefs.Blob(key.secret);
    assert s[INST_PRIVKEY] == Prefs.Blob(key.privateKey);
    assert s[INST_PUBKEY] == Prefs.Blob(key.publicKey);
  }
}
