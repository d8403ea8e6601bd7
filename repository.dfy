/**
 * `ClipboardRepositoryImpl` and the use cases on top of it: the mapping
 * between domain items and stored rows (encrypting on the way in,
 * decrypting on the way out, each with a fallback), the settings codec over
 * the vault's string store, and the hours-to-threshold conversion of the
 * age sweep.
 */
module Repository {
  import opened Wrappers
  import opened Model
  import opened KotlinText
  import opened CipherVault
  import opened ItemDao

  // ---------------------------------------------------------------------------
  // Item <-> row mapping

  /**
   * `mapItemToEntity`: an item flagged encrypted is stored as its
   * ciphertext, or as its plaintext when encryption fails (the flag stays
   * set); an unflagged item is stored verbatim.
   */
  function ItemToEntity(p: Primitives, key: Option<Key>, iv: seq<byte>, item: ClipboardItem): (e: ClipboardItemEntity)
    requires |iv| == IvLength
    ensures && e.id == item.id && e.timestamp == item.timestamp && e.contentType == item.contentType
            && e.isEncrypted == item.isEncrypted && e.size == item.size
    ensures !item.isEncrypted ==> e.content == item.content
    ensures item.isEncrypted && EncryptWith(p, key, iv, item.content).Some? ==>
              e.content == EncryptWith(p, key, iv, item.content).value
    ensures item.isEncrypted && EncryptWith(p, key, iv, item.content).None? ==>
              e.content == item.content && e.isEncrypted
  {
    var content := if item.isEncrypted then EncryptWith(p, key, iv, item.content).GetOr(item.content) else item.content;
    ClipboardItemEntity(item.id, content, item.timestamp, item.contentType, item.isEncrypted, item.size)
  }

  /**
   * `mapEntityToItem`: a row flagged encrypted is decrypted, falling back to
   * the stored text when decryption fails; other rows are read verbatim.
   */
  function EntityToItem(p: Primitives, key: Option<Key>, e: ClipboardItemEntity): (item: ClipboardItem)
    ensures && item.id == e.id && item.timestamp == e.timestamp && item.contentType == e.contentType
            && item.isEncrypted == e.isEncrypted && item.size == e.size
    ensures e.isEncrypted && DecryptWith(p, key, e.content).Some? ==>
              item.content == DecryptWith(p, key, e.content).value
    ensures !e.isEncrypted || DecryptWith(p, key, e.content).None? ==> item.content == e.content
  {
    var content := if e.isEncrypted then DecryptWith(p, key, e.content).GetOr(e.content) else e.content;
    ClipboardItem(e.id, content, e.timestamp, e.contentType, e.isEncrypted, e.size)
  }

  /** `entities.map { mapEntityToItem(it) }`. */
  function EntitiesToItems(p: Primitives, key: Option<Key>, es: seq<ClipboardItemEntity>): (items: seq<ClipboardItem>)
    ensures |items| == |es|
    ensures forall i :: 0 <= i < |es| ==> items[i] == EntityToItem(p, key, es[i])
  {
    seq(|es|, i requires 0 <= i < |es| => EntityToItem(p, key, es[i]))
  }

  /**
   * Reading back a written item gives the item itself whenever it was
   * stored unencrypted or its encryption succeeded.
   */
  lemma ReadBack(p: Primitives, key: Option<Key>, iv: seq<byte>, item: ClipboardItem)
    requires Sound(p) && |iv| == IvLength
    requires !item.isEncrypted || EncryptWith(p, key, iv, item.content).Some?
    ensures EntityToItem(p, key, ItemToEntity(p, key, iv, item)) == item
  {
    if item.isEncrypted {
      RoundTrip(p, key, iv, item.content);
    }
  }

  /**
   * When encryption failed the plaintext is stored under the encrypted
   * flag; it still reads back unchanged unless the plaintext happens to be
   * a valid ciphertext itself.
   */
  lemma ReadBackAfterFallback(p: Primitives, key: Option<Key>, iv: seq<byte>, item: ClipboardItem)
    requires |iv| == IvLength && item.isEncrypted
    requires EncryptWith(p, key, iv, item.content).None?
    ensures ItemToEntity(p, key, iv, item).isEncrypted
    ensures DecryptWith(p, key, item.content).None? ==>
              EntityToItem(p, key, ItemToEntity(p, key, iv, item)) == item
  {
  }

  // ---------------------------------------------------------------------------
  // Age threshold

  /** Milliseconds in an hour. */
  const MillisPerHour: int := 3_600_000

  /**
   * `System.currentTimeMillis() - (hours * 60 * 60 * 1000)`: the product is
   * computed in 32-bit `Int` arithmetic, one multiplication at a time, then
   * widened and subtracted as a `Long`.
   */
  function Threshold(now: int64, hours: int32): (r: int64)
    ensures (r - (now - hours * MillisPerHour)) % 0x1_0000_0000 == 0
    ensures -0x7FFF_FFFF_0000_0000 <= now <= 0x7FFF_FFFF_0000_0000 ==> IntMin <= now - r <= IntMax
  {
    var product := Wrap32(Wrap32(Wrap32(hours * 60) * 60) * 1000);
    ProductCongruent(hours);
    var t := Wrap64(now - product);
    WideCongruence(t - (now - product));
    Telescope(t, now, product, hours * MillisPerHour);
    t
  }

  /** The 32-bit product `hours * 60 * 60 * 1000` agrees with the exact one modulo 2^32. */
  lemma ProductCongruent(hours: int32)
    ensures (Wrap32(Wrap32(Wrap32(hours * 60) * 60) * 1000) - hours * MillisPerHour) % 0x1_0000_0000 == 0
  {
    var a := Wrap32(hours * 60);
    var b := Wrap32(a * 60);
    var c := Wrap32(b * 1000);
    ScaledCongruence(a, hours * 60, 60);
    AddCongruent(b - a * 60, a * 60 - hours * 60 * 60);
    ScaledCongruence(b, hours * 60 * 60, 1000);
    AddCongruent(c - b * 1000, b * 1000 - hours * 60 * 60 * 1000);
  }

  /** Congruence modulo 2^32 survives scaling both sides by `m`. */
  lemma ScaledCongruence(a: int, x: int, m: int)
    requires (a - x) % 0x1_0000_0000 == 0
    ensures (a * m - x * m) % 0x1_0000_0000 == 0
  {
    var q := (a - x) / 0x1_0000_0000;
    assert a - x == q * 0x1_0000_0000;
    assert a * m - x * m == (q * m) * 0x1_0000_0000;
  }

  /** Sums and differences of multiples of 2^32 are multiples of 2^32. */
  lemma AddCongruent(x: int, y: int)
    requires x % 0x1_0000_0000 == 0 && y % 0x1_0000_0000 == 0
    ensures (x + y) % 0x1_0000_0000 == 0
    ensures (x - y) % 0x1_0000_0000 == 0
  {
    assert x + y == (x / 0x1_0000_0000 + y / 0x1_0000_0000) * 0x1_0000_0000;
    assert x - y == (x / 0x1_0000_0000 - y / 0x1_0000_0000) * 0x1_0000_0000;
  }

  /** Replacing the subtrahend by one congruent to it keeps the difference congruent. */
  lemma Telescope(t: int, now: int, product: int, exact: int)
    requires (t - (now - product)) % 0x1_0000_0000 == 0 && (product - exact) % 0x1_0000_0000 == 0
    ensures (t - (now - exact)) % 0x1_0000_0000 == 0
  {
    var d1, d2 := t - (now - product), product - exact;
    assert t - (now - exact) == d1 - d2;
    AddCongruent(d1, d2);
  }

  /** A multiple of 2^64 is a multiple of 2^32. */
  lemma WideCongruence(x: int)
    requires x % 0x1_0000_0000_0000_0000 == 0
    ensures x % 0x1_0000_0000 == 0
  {
    assert x == (x / 0x1_0000_0000_0000_0000 * 0x1_0000_0000) * 0x1_0000_0000;
  }

  /** For at most 596 hours either way the product does not overflow and the threshold is exact. */
  lemma ThresholdExact(now: int64, hours: int32)
    requires -596 <= hours <= 596
    requires -0x7FFF_FFFF_0000_0000 <= now <= 0x7FFF_FFFF_0000_0000
    ensures Threshold(now, hours) == now - hours * MillisPerHour
    ensures hours >= 0 ==> Threshold(now, hours) <= now
  {
  }

  /**
   * At 597 hours the product wraps to a negative `Int`, so the threshold
   * lies in the future and the sweep removes every row up to it.
   */
  lemma ThresholdOverflow(now: int64)
    requires 0 <= now <= 0x7FFF_FFFF_0000_0000
    ensures Threshold(now, 597) == now + 2_145_767_296
    ensures Threshold(now, 597) > now
  {
    assert Wrap32(597 * 60) == 35_820;
    assert Wrap32(35_820 * 60) == 2_149_200;
    assert Wrap32(2_149_200 * 1000) == -2_145_767_296;
  }

  // ---------------------------------------------------------------------------
  // Settings codec

  const KeyMaxHistorySize: string := "max_history_size"
  const KeyAutoDeleteHours: string := "auto_delete_hours"
  const KeyEnableEncryption: string := "enable_encryption"
  const KeyBubbleSize: string := "bubble_size"
  const KeyClipboardMode: string := "clipboard_mode"

  /** The five keys the settings are stored under. */
  const SettingsKeys: set<string> :=
    {KeyMaxHistorySize, KeyAutoDeleteHours, KeyEnableEncryption, KeyBubbleSize, KeyClipboardMode}

  /** `ClipboardMode.name`. */
  function ModeName(m: ClipboardMode): string {
    match m
    case REPLACE => "REPLACE"
    case EXTEND => "EXTEND"
  }

  /** `ClipboardMode.valueOf`, with the `IllegalArgumentException` as `None`. */
  function ModeValueOf(s: string): Option<ClipboardMode> {
    if s == "REPLACE" then Some(REPLACE) else if s == "EXTEND" then Some(EXTEND) else None
  }

  /** An integer setting: the stored text, or `fallback` when it is missing or not an `Int`. */
  function IntSetting(prefs: map<string, string>, key: string, fallback: int32): (r: int32)
    ensures key in prefs && ParseInt(prefs[key]).Some? ==> r == ParseInt(prefs[key]).value
    ensures key !in prefs || ParseInt(prefs[key]).None? ==> r == fallback
  {
    IntTextRoundTrip(fallback);
    ParseInt(Lookup(prefs, key, IntToString(fallback))).GetOr(fallback)
  }

  /** `getSettings`: every field read from the string store, with the defaults as fallbacks. */
  function SettingsFromPrefs(prefs: map<string, string>): (s: ClipboardSettings)
    ensures s.maxHistorySize == IntSetting(prefs, KeyMaxHistorySize, 100)
    ensures s.autoDeleteAfterHours == IntSetting(prefs, KeyAutoDeleteHours, 24)
    ensures s.bubbleSize == IntSetting(prefs, KeyBubbleSize, 3)
    ensures s.enableEncryption <==> KeyEnableEncryption !in prefs || ParseBoolean(prefs[KeyEnableEncryption])
    ensures KeyClipboardMode in prefs && ModeValueOf(prefs[KeyClipboardMode]).Some? ==>
              s.clipboardMode == ModeValueOf(prefs[KeyClipboardMode]).value
    ensures KeyClipboardMode !in prefs || ModeValueOf(prefs[KeyClipboardMode]).None? ==> s.clipboardMode == REPLACE
  {
    assert ParseBoolean("true");
    ClipboardSettings(
      maxHistorySize := IntSetting(prefs, KeyMaxHistorySize, 100),
      autoDeleteAfterHours := IntSetting(prefs, KeyAutoDeleteHours, 24),
      enableEncryption := ParseBoolean(Lookup(prefs, KeyEnableEncryption, "true")),
      bubbleSize := IntSetting(prefs, KeyBubbleSize, 3),
      clipboardMode := ModeValueOf(Lookup(prefs, KeyClipboardMode, "REPLACE")).GetOr(REPLACE))
  }

  /** `updateSettings`: each field written under its key as text. */
  function SettingsToPrefs(prefs: map<string, string>, s: ClipboardSettings): (r: map<string, string>)
    ensures SettingsKeys <= r.Keys
    ensures r[KeyMaxHistorySize] == IntToString(s.maxHistorySize)
    ensures r[KeyAutoDeleteHours] == IntToString(s.autoDeleteAfterHours)
    ensures r[KeyEnableEncryption] == BooleanToString(s.enableEncryption)
    ensures r[KeyBubbleSize] == IntToString(s.bubbleSize)
    ensures r[KeyClipboardMode] == ModeName(s.clipboardMode)
    ensures forall k :: k !in SettingsKeys ==> (k in r <==> k in prefs)
    ensures forall k :: k in prefs && k !in SettingsKeys ==> r[k] == prefs[k]
  {
    prefs[KeyMaxHistorySize := IntToString(s.maxHistorySize)]
         [KeyAutoDeleteHours := IntToString(s.autoDeleteAfterHours)]
         [KeyEnableEncryption := BooleanToString(s.enableEncryption)]
         [KeyBubbleSize := IntToString(s.bubbleSize)]
         [KeyClipboardMode := ModeName(s.clipboardMode)]
  }

  /** Settings written with `updateSettings` are read back unchanged by `getSettings`. */
  lemma SettingsRoundTrip(prefs: map<string, string>, s: ClipboardSettings)
    ensures SettingsFromPrefs(SettingsToPrefs(prefs, s)) == s
  {
    IntTextRoundTrip(s.maxHistorySize);
    IntTextRoundTrip(s.autoDeleteAfterHours);
    IntTextRoundTrip(s.bubbleSize);
    BooleanTextRoundTrip(s.enableEncryption);
  }

  /** With nothing stored, `getSettings` gives the record's defaults. */
  lemma SettingsDefaults()
    ensures SettingsFromPrefs(map[]) == ClipboardSettings()
  {
    IntTextRoundTrip(100);
    IntTextRoundTrip(24);
    IntTextRoundTrip(3);
    assert ParseBoolean("true");
  }

  /**
   * Fallbacks: text that is not an `Int` gives 100 / 24 / 3, an unknown
   * mode name gives REPLACE, and encryption is on exactly for "true" in
   * any letter case.
   */
  lemma SettingsFallbacks(prefs: map<string, string>)
    ensures KeyMaxHistorySize in prefs && ParseInt(prefs[KeyMaxHistorySize]).None? ==>
              SettingsFromPrefs(prefs).maxHistorySize == 100
    ensures KeyAutoDeleteHours in prefs && ParseInt(prefs[KeyAutoDeleteHours]).None? ==>
              SettingsFromPrefs(prefs).autoDeleteAfterHours == 24
    ensures KeyBubbleSize in prefs && ParseInt(prefs[KeyBubbleSize]).None? ==>
              SettingsFromPrefs(prefs).bubbleSize == 3
    ensures KeyClipboardMode in prefs && ModeValueOf(prefs[KeyClipboardMode]).None? ==>
              SettingsFromPrefs(prefs).clipboardMode == REPLACE
    ensures KeyEnableEncryption in prefs ==>
              SettingsFromPrefs(prefs).enableEncryption == ParseBoolean(prefs[KeyEnableEncryption])
    ensures ParseBoolean("TRUE") && ParseBoolean("True") && !ParseBoolean("yes") && !ParseBoolean("1")
  {
  }

  // ---------------------------------------------------------------------------
  // The repository object

  /** `ClipboardRepositoryImpl`: the DAO and the vault it writes through. */
  class ClipboardRepositoryImpl {
    const dao: ClipboardItemDao
    const vault: EncryptionManager

    constructor(dao: ClipboardItemDao, vault: EncryptionManager)
      ensures this.dao == dao && this.vault == vault
    {
      this.dao := dao;
      this.vault := vault;
    }

    /** `getAllItems`: the newest-first listing, each row read back through the vault. */
    method GetAllItems() returns (items: seq<ClipboardItem>)
      requires dao.Valid()
      ensures exists es :: IsListing(dao.rows, es) && items == EntitiesToItems(vault.prims, vault.CurrentKey(), es)
    {
      var es := dao.GetAllItems();
      items := EntitiesToItems(vault.prims, vault.CurrentKey(), es);
    }

    /** `getItemById`. */
    function GetItemById(id: string): (r: Option<ClipboardItem>)
      requires dao.Valid()
      reads dao, vault
      ensures r.Some? <==> id in dao.rows
      ensures r.Some? ==> r.value == EntityToItem(vault.prims, vault.CurrentKey(), dao.rows[id])
    {
      match dao.GetItemById(id)
      case None => None
      case Some(e) => Some(EntityToItem(vault.prims, vault.CurrentKey(), e))
    }

    /** `insertItem`: the mapped row replaces any row with the same id. */
    method InsertItem(item: ClipboardItem, iv: seq<byte>)
      requires dao.Valid() && |iv| == IvLength
      modifies dao
      ensures dao.Valid()
      ensures dao.rows == old(dao.rows)[item.id := ItemToEntity(vault.prims, vault.CurrentKey(), iv, item)]
    {
      var entity := ItemToEntity(vault.prims, vault.CurrentKey(), iv, item);
      dao.InsertItem(entity);
    }

    /** `updateItem`: rewrites the row with the item's id, if there is one. */
    method UpdateItem(item: ClipboardItem, iv: seq<byte>)
      requires dao.Valid() && |iv| == IvLength
      modifies dao
      ensures dao.Valid()
      ensures dao.rows == if item.id in old(dao.rows)
                          then old(dao.rows)[item.id := ItemToEntity(vault.prims, vault.CurrentKey(), iv, item)]
                          else old(dao.rows)
    {
      var entity := ItemToEntity(vault.prims, vault.CurrentKey(), iv, item);
      dao.UpdateItem(entity);
    }

    /** `deleteItem`: the mapped row is deleted by its primary key, the item's id. */
    method DeleteItem(item: ClipboardItem, iv: seq<byte>)
      requires dao.Valid() && |iv| == IvLength
      modifies dao
      ensures dao.Valid() && dao.rows == old(dao.rows) - {item.id}
    {
      var entity := ItemToEntity(vault.prims, vault.CurrentKey(), iv, item);
      dao.DeleteItem(entity);
    }

    method DeleteItemById(id: string)
      requires dao.Valid()
      modifies dao
      ensures dao.Valid() && dao.rows == old(dao.rows) - {id}
    {
      dao.DeleteItemById(id);
    }

    method DeleteAllItems()
      modifies dao
      ensures dao.Valid() && dao.rows == map[]
    {
      dao.DeleteAllItems();
    }

    /** `deleteItemsOlderThan(hours)`: sweeps with the threshold `now` minus the hours. */
    method DeleteItemsOlderThan(hours: int32, now: int64)
      requires dao.Valid()
      modifies dao
      ensures dao.Valid() && dao.rows == SweepOlderThan(old(dao.rows), Threshold(now, hours))
    {
      var threshold := Threshold(now, hours);
      dao.DeleteItemsOlderThan(threshold);
    }

    /** `getSettings`, over the vault's string store; with nothing stored it gives the defaults. */
    function GetSettings(): (s: ClipboardSettings)
      reads vault
      ensures s == SettingsFromPrefs(vault.prefs)
      ensures vault.prefs == map[] ==> s == ClipboardSettings()
    {
      SettingsDefaults();
      SettingsFromPrefs(vault.prefs)
    }

    method UpdateSettings(settings: ClipboardSettings)
      modifies vault
      ensures vault.prefs == SettingsToPrefs(old(vault.prefs), settings)
      ensures vault.keyStore == old(vault.keyStore)
      ensures GetSettings() == settings
    {
      vault.StoreSecureString(KeyMaxHistorySize, IntToString(settings.maxHistorySize));
      vault.StoreSecureString(KeyAutoDeleteHours, IntToString(settings.autoDeleteAfterHours));
      vault.StoreSecureString(KeyEnableEncryption, BooleanToString(settings.enableEncryption));
      vault.StoreSecureString(KeyBubbleSize, IntToString(settings.bubbleSize));
      vault.StoreSecureString(KeyClipboardMode, ModeName(settings.clipboardMode));
      SettingsRoundTrip(old(vault.prefs), settings);
    }

    /** `getItemsWithPagination`: a window of the newest-first listing, read back through the vault. */
    method GetItemsWithPagination(limit: int32, offset: int32) returns (items: seq<ClipboardItem>)
      requires dao.Valid()
      ensures exists es :: IsListing(dao.rows, es) &&
                items == EntitiesToItems(vault.prims, vault.CurrentKey(), Window(es, limit, offset))
    {
      var es := dao.GetAllItems();
      items := EntitiesToItems(vault.prims, vault.CurrentKey(), Window(es, limit, offset));
    }
  }

  // ---------------------------------------------------------------------------
  // Use cases

  /**
   * The record `AddClipboardItemUseCase` builds: a fresh id, the current
   * time, the encrypted flag set and the UTF-8 byte size of the content.
   */
  function NewItem(content: string, contentType: ContentType, id: string, now: int64): (item: ClipboardItem)
    requires FitsByteArray(content)
    ensures item.content == content && item.id == id && item.timestamp == now
    ensures item.contentType == contentType && item.isEncrypted
    ensures item.size as int == Utf8Length(content)
    ensures |content| <= item.size <= 4 * |content|
  {
    Utf8LengthBounds(content);
    ClipboardItem(id, content, now, contentType, size := Utf8Length(content) as int32)
  }

  /** With a sound UTF-8 encoder, the recorded size is the length of the bytes the vault encrypts. */
  lemma SizeIsEncodedLength(p: Primitives, content: string, contentType: ContentType, id: string, now: int64)
    requires Sound(p) && FitsByteArray(content)
    ensures NewItem(content, contentType, id, now).size as int == |p.utf8Encode(content)|
  {
  }

  /** `AddClipboardItemUseCase`: builds the record, inserts it once and returns it. */
  method AddClipboardItem(repository: ClipboardRepositoryImpl, content: string, contentType: ContentType,
                          id: string, now: int64, iv: seq<byte>)
    returns (item: ClipboardItem)
    requires repository.dao.Valid() && |iv| == IvLength && FitsByteArray(content)
    modifies repository.dao
    ensures item == NewItem(content, contentType, id, now)
    ensures repository.dao.Valid()
    ensures repository.dao.rows ==
              old(repository.dao.rows)[id := ItemToEntity(repository.vault.prims, repository.vault.CurrentKey(), iv, item)]
  {
    item := NewItem(content, contentType, id, now);
    repository.InsertItem(item, iv);
  }

  /** `CleanupOldItemsUseCase`: the age sweep with the configured number of hours. */
  method CleanupOldItems(repository: ClipboardRepositoryImpl, settings: ClipboardSettings, now: int64)
    requires repository.dao.Valid()
    modifies repository.dao
    ensures repository.dao.Valid()
    ensures repository.dao.rows ==
              SweepOlderThan(old(repository.dao.rows), Threshold(now, settings.autoDeleteAfterHours))
  {
    repository.DeleteItemsOlderThan(settings.autoDeleteAfterHours, now);
  }
}
