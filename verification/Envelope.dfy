/**
  The encryption envelope of app/security/encryption.py and decryption across key rotation.

  AES-256-GCM (NIST SP 800-38D, sections 7.1 and 7.2) is an abstract pair of functions; plaintexts
  are their UTF-8 bytes.
 */
module Envelope {
  import opened Wrappers
  import Base64

  type byte = Base64.byte
  type Bytes = seq<byte>
  type Key = Bytes

  const VERSION_BYTE: byte := 118
  const NONCE_BYTES: nat := 12
  const TAG_BYTES: nat := 16

  /** Authenticated encryption and decryption; opening fails with None. */
  datatype Aead = Aead(seal: (Key, Bytes, Bytes) -> Bytes, open: (Key, Bytes, Bytes) -> Option<Bytes>)

  /** What the proofs need of it: opening inverts sealing, and a tag is appended. */
  ghost predicate Sound(a: Aead) {
    forall k: Key, n: Bytes, p: Bytes ::
      a.open(k, n, a.seal(k, n, p)) == Some(p) && |a.seal(k, n, p)| == |p| + TAG_BYTES
  }

  /** pii_encryption_key(_id) and the retired keys, in the order the JSON object lists them. */
  datatype Config = Config(kid: int, key: Key, olds: seq<(int, Key)>)

  function OldCiphers(olds: seq<(int, Key)>): map<int, Key> {
    if olds == [] then map[]
    else
      var n := |olds| - 1;
      OldCiphers(olds[..n])[olds[n].0 % 256 := olds[n].1]
  }

  method BuildOldCiphers(olds: seq<(int, Key)>) returns (ciphers: map<int, Key>)
    ensures ciphers == OldCiphers(olds)
  {
    ciphers := map[];
    for i := 0 to |olds|
      invariant ciphers == OldCiphers(olds[..i])
    {
      assert olds[..i + 1][..i] == olds[..i];
      ciphers := ciphers[olds[i].0 % 256 := olds[i].1];
    }
    assert olds[..|olds|] == olds;
  }

  /** The current key for its own id, a retired key for a listed id, and the current key otherwise. */
  function CipherFor(c: Config, kid: int): Key {
    if kid == c.kid % 256 then c.key
    else if kid in OldCiphers(c.olds) then OldCiphers(c.olds)[kid]
    else c.key
  }

  function Layout(kid: byte, nonce: Bytes, sealed: Bytes): Bytes {
    [VERSION_BYTE, kid] + nonce + sealed
  }

  function EncryptStr(a: Aead, c: Config, nonce: Bytes, plaintext: Bytes): string {
    if plaintext == [] then ""
    else Base64.Encode(Layout(c.kid % 256, nonce, a.seal(c.key, nonce, plaintext)))
  }

  datatype Failure = BadBase64 | TooShort | BadVersion | CannotOpen

  datatype Decrypted = Plain(text: Bytes) | Failed(why: Failure)

  function DecryptStr(a: Aead, c: Config, envelope: string): Decrypted {
    if envelope == "" then Plain([])
    else
      match Base64.Decode(envelope)
      case None => Failed(BadBase64)
      case Some(raw) =>
        if |raw| < 1 + 1 + NONCE_BYTES + TAG_BYTES then Failed(TooShort)
        else if raw[0] != VERSION_BYTE then Failed(BadVersion)
        else
          match a.open(CipherFor(c, raw[1]), raw[2..2 + NONCE_BYTES], raw[2 + NONCE_BYTES..])
          case None => Failed(CannotOpen)
          case Some(p) => Plain(p)
  }

  /** Cutting a laid-out envelope gives back its parts. */
  lemma LayoutParses(kid: byte, nonce: Bytes, sealed: Bytes)
    requires |nonce| == NONCE_BYTES
    ensures var raw := Layout(kid, nonce, sealed);
            && |raw| == 14 + |sealed|
            && raw[0] == 118 && raw[1] == kid
            && raw[2..14] == nonce && raw[14..] == sealed
  {
  }

  /**
    An envelope made under one configuration decrypts under another exactly as the key that the
    other picks for its id opens what the first key sealed.
   */
  lemma DecryptsWithChosenKey(a: Aead, c: Config, later: Config, nonce: Bytes, plaintext: Bytes)
    requires Sound(a) && |nonce| == NONCE_BYTES && plaintext != []
    ensures DecryptStr(a, later, EncryptStr(a, c, nonce, plaintext))
         == match a.open(CipherFor(later, c.kid % 256), nonce, a.seal(c.key, nonce, plaintext))
            case None => Failed(CannotOpen)
            case Some(p) => Plain(p)
  {
    hide Base64.Encode, Base64.Decode, CipherFor, Layout;
    var sealed := a.seal(c.key, nonce, plaintext);
    LayoutParses(c.kid % 256, nonce, sealed);
    var raw := Layout(c.kid % 256, nonce, sealed);
    Base64.RoundTrip(raw);
    assert Base64.Encode(raw) != "" by {
      EncodeNotEmpty(raw);
    }
  }

  lemma EncodeNotEmpty(raw: Bytes)
    requires raw != []
    ensures Base64.Encode(raw) != ""
  {
    Base64.RoundTrip(raw);
    Base64.EmptyRoundTrip();
  }

  // The retired keys by id: of several with one id modulo 256 the last counts.
  lemma {:induction false} RetiredKeyOf(olds: seq<(int, Key)>, kid: int)
    ensures kid in OldCiphers(olds) <==> exists k :: 0 <= k < |olds| && olds[k].0 % 256 == kid
    ensures forall k :: 0 <= k < |olds| && olds[k].0 % 256 == kid
                        && (forall j :: k < j < |olds| ==> olds[j].0 % 256 != kid) ==>
              kid in OldCiphers(olds) && OldCiphers(olds)[kid] == olds[k].1
  {
    if olds != [] {
      var n := |olds| - 1;
      RetiredKeyOf(olds[..n], kid);
      if k :| 0 <= k < n && olds[k].0 % 256 == kid {
        assert olds[..n][k].0 % 256 == kid;
      }
    }
  }

  /** The current key serves its own id and every id that no retired key has; otherwise the last retired key with it. */
  lemma KeyChoice(c: Config, kid: int)
    ensures kid == c.kid % 256 || (forall k :: 0 <= k < |c.olds| ==> c.olds[k].0 % 256 != kid) ==>
              CipherFor(c, kid) == c.key
    ensures forall k :: 0 <= k < |c.olds| && kid != c.kid % 256 && c.olds[k].0 % 256 == kid
                        && (forall j :: k < j < |c.olds| ==> c.olds[j].0 % 256 != kid) ==>
              CipherFor(c, kid) == c.olds[k].1
  {
    RetiredKeyOf(c.olds, kid);
  }

  /** Every outcome of a decryption: which error, or what the chosen key opens. */
  lemma DecryptOutcome(a: Aead, c: Config, envelope: string)
    ensures var out, raw := DecryptStr(a, c, envelope), Base64.Decode(envelope);
            && (envelope == "" ==> out == Plain([]))
            && (out == Failed(BadBase64) <==> envelope != "" && raw.None?)
            && (out == Failed(TooShort) <==> envelope != "" && raw.Some? && |raw.value| < 30)
            && (out == Failed(BadVersion) <==> envelope != "" && raw.Some? && |raw.value| >= 30 && raw.value[0] != 118)
            && (envelope != "" && raw.Some? && |raw.value| >= 30 && raw.value[0] == 118 ==>
                  var clear := a.open(CipherFor(c, raw.value[1]), raw.value[2..14], raw.value[14..]);
                  out == if clear.Some? then Plain(clear.value) else Failed(CannotOpen))
  {
    hide Base64.Decode, CipherFor;
  }

  /* ---------- Rotation ---------- */

  /** No two ids, current one included, agree modulo 256. */
  predicate DistinctIds(c: Config) {
    && (forall i, j :: 0 <= i < j < |c.olds| ==> c.olds[i].0 % 256 != c.olds[j].0 % 256)
    && (forall i :: 0 <= i < |c.olds| ==> c.olds[i].0 % 256 != c.kid % 256)
  }

  /** Every configuration keeps the keys of all earlier ones, under ids distinct modulo 256. */
  predicate KeepsRetired(history: seq<Config>) {
    && (forall j :: 0 <= j < |history| ==> DistinctIds(history[j]))
    && (forall i, j :: 0 <= i < j < |history| ==>
          (history[i].kid, history[i].key) == (history[j].kid, history[j].key)
          || (history[i].kid, history[i].key) in history[j].olds)
  }

  lemma {:induction false} RetiredKeyFound(olds: seq<(int, Key)>, k: nat)
    requires k < |olds|
    requires forall i, j :: 0 <= i < j < |olds| ==> olds[i].0 % 256 != olds[j].0 % 256
    ensures olds[k].0 % 256 in OldCiphers(olds) && OldCiphers(olds)[olds[k].0 % 256] == olds[k].1
  {
    if k < |olds| - 1 {
      RetiredKeyFound(olds[..|olds| - 1], k);
    }
  }

  /** Every envelope ever produced still decrypts to its plaintext after any such rotations. */
  lemma RotationKeepsEnvelopesReadable(a: Aead, history: seq<Config>, i: nat, j: nat, nonce: Bytes, plaintext: Bytes)
    requires Sound(a) && KeepsRetired(history) && i <= j < |history| && |nonce| == NONCE_BYTES
    ensures DecryptStr(a, history[j], EncryptStr(a, history[i], nonce, plaintext)) == Plain(plaintext)
  {
    var c, later := history[i], history[j];
    if plaintext != [] {
      DecryptsWithChosenKey(a, c, later, nonce, plaintext);
      if (c.kid, c.key) != (later.kid, later.key) {
        var k :| 0 <= k < |later.olds| && later.olds[k] == (c.kid, c.key);
        RetiredKeyFound(later.olds, k);
      }
      assert CipherFor(later, c.kid % 256) == c.key;
    }
  }
}
