/**
 * The cipher vault (`EncryptionManager`): a key kept under a fixed alias in
 * the key store, AES/CBC/PKCS7 encryption whose stored form is
 * Base64(IV ‖ ciphertext), and a string store for settings.
 *
 * AES, Base64 and the UTF-8 codec are library calls. They enter the model
 * as the function values of a `Primitives` record, and every property that
 * needs them to invert each other assumes `Sound` of that record.
 */
module CipherVault {
  import opened Wrappers
  import opened KotlinText

  type byte = x: int | 0 <= x < 256

  /** A symmetric key held by the key store. */
  datatype Key = Key(material: seq<byte>)

  /** The alias the key is stored under. */
  const KeyAlias: string := "clipboard_encryption_key"

  /** AES-CBC initialization vectors are one 16-byte block. */
  const IvLength: nat := 16

  /**
   * The library calls: `String.toByteArray()` and `String(bytes)`, the
   * `Cipher` in encrypt and decrypt mode for a key and an IV (`None` when
   * it throws), and `android.util.Base64` (`None` when decoding throws).
   */
  datatype Primitives = Primitives(
    utf8Encode: string -> seq<byte>,
    utf8Decode: seq<byte> -> string,
    aesEncrypt: (Key, seq<byte>, seq<byte>) -> Option<seq<byte>>,
    aesDecrypt: (Key, seq<byte>, seq<byte>) -> Option<seq<byte>>,
    base64Encode: seq<byte> -> string,
    base64Decode: string -> Option<seq<byte>>)

  /**
   * What the libraries are relied on for: the UTF-8 encoder produces the
   * byte count `Utf8Length` gives and the decoder undoes it, and
   * decrypting with the same key and IV undoes a successful encryption.
   * (Nothing about authentication: CBC has none.)
   */
  ghost predicate Sound(p: Primitives) {
    && (forall s :: |p.utf8Encode(s)| == Utf8Length(s))
    && (forall s :: p.utf8Decode(p.utf8Encode(s)) == s)
    && (forall k, iv, m :: p.aesEncrypt(k, iv, m).Some? ==>
          p.aesDecrypt(k, iv, p.aesEncrypt(k, iv, m).value) == Some(m))
    && (forall b :: p.base64Decode(p.base64Encode(b)) == Some(b))
  }

  /**
   * `encrypt` with the key the store currently holds (`None` when the alias
   * is missing, so that `Cipher.init` throws) and the IV the cipher chose.
   */
  function EncryptWith(p: Primitives, key: Option<Key>, iv: seq<byte>, plaintext: string): (r: Option<string>)
    requires |iv| == IvLength
    ensures r.Some? <==> key.Some? && p.aesEncrypt(key.value, iv, p.utf8Encode(plaintext)).Some?
  {
    if key.None? then None
    else
      match p.aesEncrypt(key.value, iv, p.utf8Encode(plaintext))
      case None => None
      case Some(ciphertext) => Some(p.base64Encode(iv + ciphertext))
  }

  /**
   * `decrypt`: Base64-decode, take bytes 0..15 as the IV and the rest as the
   * ciphertext. Decoding errors, fewer than 16 bytes, a missing key and a
   * cipher failure all give `None`.
   */
  function DecryptWith(p: Primitives, key: Option<Key>, encryptedText: string): (r: Option<string>)
    ensures r.Some? <==>
              && key.Some? && p.base64Decode(encryptedText).Some?
              && |p.base64Decode(encryptedText).value| >= IvLength
              && p.aesDecrypt(key.value, p.base64Decode(encryptedText).value[..IvLength],
                              p.base64Decode(encryptedText).value[IvLength..]).Some?
  {
    match p.base64Decode(encryptedText)
    case None => None
    case Some(combined) =>
      if |combined| < IvLength || key.None? then None
      else
        match p.aesDecrypt(key.value, combined[..IvLength], combined[IvLength..])
        case None => None
        case Some(plain) => Some(p.utf8Decode(plain))
  }

  /** Decrypting what was encrypted with the same key gives back the plaintext, whatever its length. */
  lemma RoundTrip(p: Primitives, key: Option<Key>, iv: seq<byte>, plaintext: string)
    requires Sound(p) && |iv| == IvLength
    requires EncryptWith(p, key, iv, plaintext).Some?
    ensures DecryptWith(p, key, EncryptWith(p, key, iv, plaintext).value) == Some(plaintext)
  {
    var m := p.utf8Encode(plaintext);
    var ciphertext := p.aesEncrypt(key.value, iv, m).value;
    var combined := iv + ciphertext;
    assert p.base64Decode(p.base64Encode(combined)) == Some(combined);
    assert combined[..IvLength] == iv && combined[IvLength..] == ciphertext;
  }

  /** The stored form decodes to the IV followed by the cipher's output. */
  lemma IvFirst(p: Primitives, key: Option<Key>, iv: seq<byte>, plaintext: string)
    requires Sound(p) && |iv| == IvLength
    requires EncryptWith(p, key, iv, plaintext).Some?
    ensures p.base64Decode(EncryptWith(p, key, iv, plaintext).value)
            == Some(iv + p.aesEncrypt(key.value, iv, p.utf8Encode(plaintext)).value)
  {
  }

  /** Without a key nothing is encrypted or decrypted. */
  lemma NoKeyNoCipher(p: Primitives, iv: seq<byte>, text: string)
    requires |iv| == IvLength
    ensures EncryptWith(p, None, iv, text) == None
    ensures DecryptWith(p, None, text) == None
  {
  }

  /** Text that is not Base64, or decodes to fewer than 16 bytes, is rejected whatever the key. */
  lemma MalformedRejected(p: Primitives, key: Option<Key>, text: string)
    requires p.base64Decode(text).None? || |p.base64Decode(text).value| < IvLength
    ensures DecryptWith(p, key, text) == None
  {
  }

  /**
   * Decryption never returns partial output: a result is the decoding of
   * the cipher's output for the whole payload after the 16-byte IV.
   */
  lemma DecryptWholePayload(p: Primitives, key: Option<Key>, text: string)
    requires DecryptWith(p, key, text).Some?
    ensures key.Some? && p.base64Decode(text).Some?
    ensures var combined := p.base64Decode(text).value;
            |combined| >= IvLength &&
            p.aesDecrypt(key.value, combined[..IvLength], combined[IvLength..]).Some? &&
            DecryptWith(p, key, text).value ==
              p.utf8Decode(p.aesDecrypt(key.value, combined[..IvLength], combined[IvLength..]).value)
  {
  }

  /**
   * `generateKeyIfNotExists` on the key store: a key is added under `alias`
   * only when the alias is absent.
   */
  function EnsureKey(store: map<string, Key>, alias: string, newKey: Key): (r: map<string, Key>)
    ensures r.Keys == store.Keys + {alias}
    ensures forall a :: a in store ==> r[a] == store[a]
    ensures alias !in store ==> r[alias] == newKey
  {
    if alias in store then store else store[alias := newKey]
  }

  /** Key creation is idempotent and never replaces an existing key. */
  lemma EnsureKeyIdempotent(store: map<string, Key>, alias: string, newKey: Key, newKey2: Key)
    ensures alias in EnsureKey(store, alias, newKey)
    ensures alias in store ==> EnsureKey(store, alias, newKey) == store
    ensures EnsureKey(EnsureKey(store, alias, newKey), alias, newKey2) == EnsureKey(store, alias, newKey)
    ensures forall a :: a in store ==> a in EnsureKey(store, alias, newKey) && EnsureKey(store, alias, newKey)[a] == store[a]
  {
  }

  /** `getSecureString`: the stored value, or the default when the key was never stored. */
  function Lookup(prefs: map<string, string>, key: string, defaultValue: string): (r: string)
    ensures key in prefs ==> r == prefs[key]
    ensures key !in prefs ==> r == defaultValue
  {
    if key in prefs then prefs[key] else defaultValue
  }

  /** Reading after a store gives the last value stored under that key and leaves other keys alone. */
  lemma LookupAfterStore(prefs: map<string, string>, key: string, value: string, other: string, defaultValue: string)
    ensures Lookup(prefs[key := value], key, defaultValue) == value
    ensures other != key ==> Lookup(prefs[key := value], other, defaultValue) == Lookup(prefs, other, defaultValue)
    ensures Lookup(map[], other, defaultValue) == defaultValue
  {
  }

  /**
   * The `EncryptionManager` object: the key store and the encrypted
   * preferences it owns, over fixed library primitives.
   */
  class EncryptionManager {
    const prims: Primitives
    var keyStore: map<string, Key>
    var prefs: map<string, string>

    /** Construction runs `generateKeyIfNotExists` once. */
    constructor(prims: Primitives, keyStore: map<string, Key>, prefs: map<string, string>, newKey: Key)
      ensures this.prims == prims && this.prefs == prefs
      ensures this.keyStore == EnsureKey(keyStore, KeyAlias, newKey)
      ensures CurrentKey().Some?
    {
      this.prims := prims;
      this.keyStore := keyStore;
      this.prefs := prefs;
      new;
      GenerateKeyIfNotExists(newKey);
    }

    /** `keyStore.getKey(KEY_ALIAS, null)`. */
    function CurrentKey(): Option<Key>
      reads this
    {
      if KeyAlias in keyStore then Some(keyStore[KeyAlias]) else None
    }

    method GenerateKeyIfNotExists(newKey: Key)
      modifies this
      ensures keyStore == EnsureKey(old(keyStore), KeyAlias, newKey)
      ensures prefs == old(prefs)
      ensures CurrentKey().Some?
      ensures old(CurrentKey()).Some? ==> CurrentKey() == old(CurrentKey())
    {
      if KeyAlias !in keyStore {
        keyStore := keyStore[KeyAlias := newKey];
      }
    }

    function Encrypt(plaintext: string, iv: seq<byte>): Option<string>
      requires |iv| == IvLength
      reads this
    {
      EncryptWith(prims, CurrentKey(), iv, plaintext)
    }

    function Decrypt(encryptedText: string): Option<string>
      reads this
    {
      DecryptWith(prims, CurrentKey(), encryptedText)
    }

    /** The manager's own round trip: with sound libraries, `decrypt` undoes a successful `encrypt`. */
    lemma EncryptThenDecrypt(plaintext: string, iv: seq<byte>)
      requires Sound(prims) && |iv| == IvLength && Encrypt(plaintext, iv).Some?
      ensures Decrypt(Encrypt(plaintext, iv).value) == Some(plaintext)
    {
      RoundTrip(prims, CurrentKey(), iv, plaintext);
    }

    method StoreSecureString(key: string, value: string)
      modifies this
      ensures prefs == old(prefs)[key := value]
      ensures keyStore == old(keyStore)
    {
      prefs := prefs[key := value];
    }

    function GetSecureString(key: string, defaultValue: string := ""): string
      reads this
    {
      Lookup(prefs, key, defaultValue)
    }
  }
}
