/**
 * The domain records of the clipboard history: the item seen by the rest of
 * the app, the row stored in the `clipboard_items` table, the content and
 * mode enumerations and the settings record with its defaults.
 */
module Model {

  /** Kotlin `Int`. */
  type int32 = x: int | -0x8000_0000 <= x < 0x8000_0000

  /** Kotlin `Long` (timestamps in milliseconds). */
  type int64 = x: int | -0x8000_0000_0000_0000 <= x < 0x8000_0000_0000_0000

  /** The five kinds of clipboard content. */
  datatype ContentType = TEXT | IMAGE | URL | FILE | OTHER

  /** How a paste bubble writes into the system clipboard. */
  datatype ClipboardMode = REPLACE | EXTEND

  /** A history entry as the domain layer sees it: `content` is plaintext. */
  datatype ClipboardItem = ClipboardItem(
    id: string,
    content: string,
    timestamp: int64,
    contentType: ContentType,
    isEncrypted: bool := true,
    size: int32)

  /**
   * A row of the `clipboard_items` table; `id` is the primary key and
   * `content` holds the ciphertext when `isEncrypted` is set.
   */
  datatype ClipboardItemEntity = ClipboardItemEntity(
    id: string,
    content: string,
    timestamp: int64,
    contentType: ContentType,
    isEncrypted: bool,
    size: int32)

  /** User settings; the floating-point `bubbleOpacity` is not part of this model. */
  datatype ClipboardSettings = ClipboardSettings(
    maxHistorySize: int32 := 100,
    autoDeleteAfterHours: int32 := 24,
    enableEncryption: bool := true,
    bubbleSize: int32 := 3,
    clipboardMode: ClipboardMode := REPLACE)

  /** Every content type, in declaration order. */
  const AllContentTypes: seq<ContentType> := [TEXT, IMAGE, URL, FILE, OTHER]

  /** Every clipboard mode, in declaration order. */
  const AllModes: seq<ClipboardMode> := [REPLACE, EXTEND]

  /** The enumerations list each variant exactly once. */
  lemma EnumerationsComplete(t: ContentType, m: ClipboardMode)
    ensures t in AllContentTypes && m in AllModes
    ensures |AllContentTypes| == 5 && |AllModes| == 2
    ensures forall i, j :: 0 <= i < j < |AllContentTypes| ==> AllContentTypes[i] != AllContentTypes[j]
    ensures AllModes[0] != AllModes[1]
  {
  }

  /** Settings built with no arguments carry the documented defaults. */
  lemma DefaultSettingsValues()
    ensures ClipboardSettings() == ClipboardSettings(100, 24, true, 3, REPLACE)
  {
  }

  /** An item built without an explicit flag is marked encrypted. */
  lemma ItemEncryptedByDefault(id: string, content: string, timestamp: int64, t: ContentType, size: int32)
    ensures ClipboardItem(id, content, timestamp, t, size := size).isEncrypted
  {
  }
}
