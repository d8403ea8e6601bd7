# Clipboard history engine, modelled in Dafny

This project models the core of the Clipboard History Android app:

- the clipboard change monitor (`ClipboardService`);
- the floating-bubble controller (`FloatingBubbleService`);
- the history store: the `ClipboardItemDao` table, `ClipboardRepositoryImpl` and the use cases on top of it;
- the cipher vault (`EncryptionManager`);
- the pure helpers: the `ContentType` converters, `formatSize`, `formatTimestamp` and the settings dialog's slider ranges.

The Kotlin sources are embedded in Python generator scripts. Every source cell below gives a path and a line of those scripts. The files under `backup_20250719_143754/` named `script_3.py`, `script_6.py` and `script_7.py` are identical copies of the top-level files with the same names; each piece of logic is modelled once and cited at the top-level copy.

Modules, one per file:

| file | module | models |
|---|---|---|
| `wrappers.dfy` | `Wrappers` | `Option` (Kotlin's nullable results and caught exceptions) |
| `model.dfy` | `Model` | the data classes and enums, with their defaults |
| `kotlin_text.dfy` | `KotlinText` | the Kotlin library behaviour the code relies on: `isBlank`, `startsWith`, case-insensitive suffix matching, `toIntOrNull`, `toString`, `toBoolean`, UTF-8 length, `Float.toInt()`, and 32/64-bit wrap-around |
| `converters.dfy` | `Converters` | the Room `ContentType` converters |
| `cipher_vault.dfy` | `CipherVault` | `EncryptionManager`: the Base64(IV ‖ ciphertext) framing, key creation and the string store |
| `item_dao.dfy` | `ItemDao` | `ClipboardItemDao` as an in-memory table keyed by id |
| `repository.dfy` | `Repository` | `ClipboardRepositoryImpl`, the item/row mapping, the settings codec, the age threshold, and the add and cleanup use cases |
| `clipboard.dfy` | `Clipboard` | the system clipboard's primary clip |
| `change_monitor.dfy` | `ChangeMonitor` | `ClipboardService.handleClipboardChange` and `determineContentType` |
| `bubbles.dfy` | `Bubbles` | `FloatingBubbleService`: its bubbles, drag, snap, capture, paste and mode toggle |
| `paste_feedback.dfy` | `PasteFeedback` | what the monitor records after a bubble paste |
| `formatting.dfy` | `Formatting` | `formatSize`, the relative branches of `formatTimestamp`, and the slider ranges |

State that the source changes in place is modelled as classes:

- the DAO's table;
- the key store and preferences;
- `lastClipboardText`;
- the bubble list, the empty and mode bubbles and the current mode;
- each bubble's position and drag anchors;
- the primary clip.

Their methods state the whole new state in `ensures`. The pure logic is modelled as functions, each with a proved partner:

- the settings codec round-trips;
- the image test agrees with the regular expression in both directions;
- the listing is a newest-first permutation of the table.

Where the code and the app's own README differ, the model follows the code:

- The README lists a maximum history size (`backup_20250719_143754/script_11.py:444`), but no code evicts records beyond `maxHistorySize`.
- The README says content is stored unencrypted when encryption fails (`backup_20250719_143754/script_11.py:641`). The code does store the plaintext, but it keeps `isEncrypted` set.

Two design choices of the code are also modelled as written:

- a capture tap adds a bubble but creates no history record;
- a full bubble holds its content string, not a record id.

Two more consequences of the code are stated as lemmas:

- Threshold overflow. The age threshold multiplies hours to milliseconds in 32-bit `Int` arithmetic, so it is exact only up to 596 hours. At 597 hours it lies in the future (`Repository.ThresholdOverflow`). The settings dialog offers at most 168 hours (`Formatting.SliderHoursGiveExactThreshold`).
- Pastes get recorded. An EXTEND paste is itself a clipboard change, so the joined text is recorded as a new history item (`PasteFeedback.ExtendedPasteIsRecorded`).

The image pattern needs a note. The generator writes it as the Kotlin literal `".*\.(jpg|jpeg|png|gif|bmp|webp)$"`. Kotlin rejects `\.` as an escape. The model uses the evidently intended pattern, whose `\.` is a literal dot, with Java's regular-expression rules:

- `.` matches no line terminator;
- `IGNORE_CASE` includes Unicode case folding, so the dotted `İ` and the dotless `ı` match `i`.

## Model

| member | source | states |
|---|---|---|
| Model.EnumerationsComplete | backup_20250719_143754/script_2.py:112-145 | `ContentType` has exactly the five variants TEXT, IMAGE, URL, FILE and OTHER; `ClipboardMode` has exactly REPLACE and EXTEND |
| Model.DefaultSettingsValues | backup_20250719_143754/script_2.py:130-137 | default settings are 100 items, 24 hours, encryption on, bubble size 3, REPLACE |
| Model.ItemEncryptedByDefault | backup_20250719_143754/script_2.py:100-107 | an item built without the flag is marked encrypted |
| KotlinText.IntTextRoundTrip | backup_20250719_143754/script_4.py:165-168 | every `Int` written with `toString` is read back by `toIntOrNull` as itself |
| KotlinText.ParseIntRejects | backup_20250719_143754/script_4.py:165-168 | empty text, a lone sign, letters and a leading space are not numbers |
| KotlinText.ParseIntRejectsOverflow | backup_20250719_143754/script_4.py:165-168 | a decimal outside the `Int` range is not a number, signed or not |
| KotlinText.BooleanTextRoundTrip | backup_20250719_143754/script_4.py:167 | `toString` of a Boolean is read back by `toBoolean` as itself |
| KotlinText.Utf8LengthBounds | backup_20250719_143754/script_4.py:285 | the UTF-8 size is between one and four bytes per character, and equals the length for ASCII text |
| KotlinText.IsBlank | script_7.py:104 | the empty text is blank, and a blank non-empty text starts and ends with whitespace (the JVM whitespace set) |
| KotlinText.BlankConcat | script_7.py:583 | a concatenation is blank exactly when both parts are |
| KotlinText.ParseInt | backup_20250719_143754/script_4.py:165-168 | a parsed number is the value of the digits, after an optional `+` or `-`; every such text whose value fits an `Int` does parse, to that value |
| KotlinText.ParseBoolean | backup_20250719_143754/script_4.py:167 | `toBoolean` holds exactly for the four letters of "true", each in either case |
| Converters.ContentTypeRoundTrip | script_3.py:183-196 | `toContentType(fromContentType(t)) == t` for every content type |
| Converters.FromContentType | script_3.py:183-185 | the stored text is one of the five constant names |
| Converters.ToContentType | script_3.py:194-196 | `valueOf` succeeds exactly on the five names, and the type read back is stored as the same text |
| Converters.ToContentTypeInverse | script_3.py:194-196 | a text is accepted exactly when some content type is stored as it |
| Converters.FromContentTypeInjective | script_3.py:183-185 | distinct types are stored as distinct texts |
| CipherVault.RoundTrip | script_3.py:283-323 | `decrypt(encrypt(p)) == p` for any plaintext, given the library round trips |
| CipherVault.EncryptWith | script_3.py:283-299 | `encrypt` yields a result exactly when the key exists and the cipher does not throw; the plaintext goes in as its UTF-8 bytes |
| CipherVault.DecryptWith | script_3.py:307-323 | `decrypt` yields a result exactly when the text is Base64 of at least 16 bytes, the key exists and the cipher accepts the bytes after the first 16 under those 16 as IV |
| CipherVault.IvFirst | script_3.py:289-294 | the stored form decodes to the IV followed by the ciphertext |
| CipherVault.NoKeyNoCipher | script_3.py:285-287 | without a key, both `encrypt` and `decrypt` give null |
| CipherVault.MalformedRejected | script_3.py:307-323 | text that is not Base64, or decodes to fewer than 16 bytes, gives null |
| CipherVault.DecryptWholePayload | script_3.py:309-317 | a decryption result covers the whole payload after the 16-byte IV, never a part |
| CipherVault.EnsureKey | script_3.py:261-275 | the key store afterwards holds the old aliases plus the alias; old keys are unchanged, and a new key appears only for an absent alias |
| CipherVault.EnsureKeyIdempotent | script_3.py:261-275 | a key is added only for an absent alias, never replaced, and a second call changes nothing |
| CipherVault.Lookup | script_3.py:342-344 | the stored value when the key was stored, the default otherwise |
| CipherVault.LookupAfterStore | script_3.py:331-344 | `getSecureString` gives the last value stored under the key, other keys are untouched, and the default applies when nothing was stored |
| CipherVault.EncryptionManager.constructor | script_3.py:254-256 | construction leaves a key under the alias |
| CipherVault.EncryptionManager.GenerateKeyIfNotExists | script_3.py:261-275 | the key store gains the alias only when it was absent; an existing key stays |
| CipherVault.EncryptionManager.EncryptThenDecrypt | script_3.py:283-323 | the manager's `decrypt` undoes its successful `encrypt` |
| CipherVault.EncryptionManager.StoreSecureString | script_3.py:331-333 | the preferences gain the key's new value; the key store is unchanged |
| ItemDao.SweepOlderThan | script_3.py:84-85 | a row survives exactly when its timestamp is not below the threshold, unchanged |
| ItemDao.SweepComposes | script_3.py:84-85 | two sweeps equal one with the later threshold, so a sweep is idempotent |
| ItemDao.InsertByTime | script_3.py:21-22 | inserting into a newest-first listing keeps it newest first and adds exactly the one row |
| ItemDao.Window | script_3.py:102-103 | the page is the listing from the offset on, at most `limit` long, with SQLite's reading of negative values |
| ItemDao.WindowsTile | script_3.py:102-103 | consecutive pages concatenate to the larger page |
| ItemDao.UpsertAll | script_3.py:46-47 | a batch insert keeps the table keyed by id, holds exactly the old ids and the inserted ones, keeps the rows of ids it does not insert, and ends with the last row of the batch |
| ItemDao.UpsertAllLastWins | script_3.py:46-47 | among the inserted rows sharing an id, the table keeps the last one |
| ItemDao.ValuesWithout | script_3.py:70-71 | deleting a row removes exactly that row from the table's contents |
| ItemDao.ListingCoversTable | script_3.py:21-22 | a listing has one entry per row and each entry is its id's row |
| ItemDao.ValuesCount | script_3.py:92-93 | a keyed table has as many distinct rows as ids |
| ItemDao.ClipboardItemDao.GetAllItems | script_3.py:21-22 | the result is every row exactly once, newest first |
| ItemDao.ClipboardItemDao.GetItemById | script_3.py:30-31 | the row with that id, or null exactly when there is none |
| ItemDao.ClipboardItemDao.InsertItem | script_3.py:38-39 | insert-or-replace under the row's id |
| ItemDao.ClipboardItemDao.InsertItems | script_3.py:46-47 | the rows are upserted in order |
| ItemDao.ClipboardItemDao.UpdateItem | script_3.py:54-55 | only an existing row with the same id is rewritten |
| ItemDao.ClipboardItemDao.DeleteItem | script_3.py:62-63 | the row with the entity's primary key is removed, nothing else |
| ItemDao.ClipboardItemDao.DeleteItemById | script_3.py:70-71 | the row with that id is removed, nothing else |
| ItemDao.ClipboardItemDao.DeleteAllItems | script_3.py:76-77 | the table is empty |
| ItemDao.ClipboardItemDao.DeleteItemsOlderThan | script_3.py:84-85 | exactly the rows older than the threshold are removed |
| ItemDao.ClipboardItemDao.GetItemCount | script_3.py:92-93 | the count is the number of rows |
| ItemDao.ClipboardItemDao.GetItemsWithPagination | script_3.py:102-103 | the page is the window of a newest-first listing of the table |
| Repository.EntitiesToItems | backup_20250719_143754/script_4.py:121-127 | every row is mapped, in order, none dropped |
| Repository.ItemToEntity | backup_20250719_143754/script_4.py:233-248 | id, timestamp, type, flag and size are copied; encrypted items store the ciphertext, or the plaintext with the flag still set when encryption fails; other items are stored verbatim |
| Repository.EntityToItem | backup_20250719_143754/script_4.py:210-225 | the row is never dropped; its other fields are copied and the content is decrypted, or raw when decryption fails or the row is not encrypted |
| Repository.ReadBack | backup_20250719_143754/script_4.py:210-248 | reading back a written item gives the item whenever it was unencrypted or its encryption succeeded |
| Repository.ReadBackAfterFallback | backup_20250719_143754/script_4.py:234-236 | after failed encryption the flag stays set, and the item reads back unchanged unless its plaintext is itself a valid ciphertext |
| Repository.Threshold | backup_20250719_143754/script_4.py:159 | the threshold agrees with `now - hours * 3600000` modulo 2^32, and what is subtracted from `now` is always an `Int` |
| Repository.ThresholdExact | backup_20250719_143754/script_4.py:158-161 | for up to 596 hours the threshold is exactly `now - hours * 3600000` |
| Repository.ThresholdOverflow | backup_20250719_143754/script_4.py:159 | at 597 hours the `Int` product wraps and the threshold lies in the future |
| Repository.SettingsRoundTrip | backup_20250719_143754/script_4.py:163-196 | `getSettings` after `updateSettings(s)` gives `s` |
| Repository.IntSetting | backup_20250719_143754/script_4.py:165-168 | an integer setting is the stored number when it parses, and the fallback when nothing is stored or it does not parse |
| Repository.SettingsFromPrefs | backup_20250719_143754/script_4.py:163-186 | each integer field is read with its fallback (100, 24, 3); encryption is on unless a stored text is not "true" in some letter case; the mode is the stored name, or REPLACE |
| Repository.SettingsToPrefs | backup_20250719_143754/script_4.py:188-196 | each of the five keys holds its field's text (`toString` of the numbers and the flag, the mode's name), and every other key is unchanged |
| Repository.SettingsDefaults | backup_20250719_143754/script_4.py:165-176 | with nothing stored, the settings are the defaults |
| Repository.SettingsFallbacks | backup_20250719_143754/script_4.py:165-176 | unparseable integers fall back to 100, 24 and 3; an unknown mode gives REPLACE; encryption is on exactly for "true" in any letter case |
| Repository.ClipboardRepositoryImpl.GetAllItems | backup_20250719_143754/script_4.py:121-127 | a newest-first listing of the table, each row read back through the vault |
| Repository.ClipboardRepositoryImpl.GetItemById | backup_20250719_143754/script_4.py:129-133 | the mapped row with that id, or null exactly when there is none |
| Repository.ClipboardRepositoryImpl.InsertItem | backup_20250719_143754/script_4.py:135-138 | the mapped row replaces any row with the item's id |
| Repository.ClipboardRepositoryImpl.UpdateItem | backup_20250719_143754/script_4.py:140-143 | the mapped row rewrites only an existing row |
| Repository.ClipboardRepositoryImpl.DeleteItem | backup_20250719_143754/script_4.py:145-148 | the row with the item's id is removed |
| Repository.ClipboardRepositoryImpl.DeleteItemById | backup_20250719_143754/script_4.py:150-152 | the row with the id is removed |
| Repository.ClipboardRepositoryImpl.DeleteAllItems | backup_20250719_143754/script_4.py:154-156 | the table is empty |
| Repository.ClipboardRepositoryImpl.DeleteItemsOlderThan | backup_20250719_143754/script_4.py:158-161 | the sweep runs with the hours' threshold |
| Repository.ClipboardRepositoryImpl.GetSettings | backup_20250719_143754/script_4.py:163-186 | the settings decoded from the vault's store; the defaults when nothing is stored |
| Repository.ClipboardRepositoryImpl.UpdateSettings | backup_20250719_143754/script_4.py:188-196 | each setting is stored under its key, and `getSettings` then gives the settings back |
| Repository.ClipboardRepositoryImpl.GetItemsWithPagination | backup_20250719_143754/script_4.py:198-202 | a window of a newest-first listing, read back through the vault |
| Repository.NewItem | backup_20250719_143754/script_4.py:279-286 | the new item has the content, id, type and time given, the encrypted flag, and exactly the UTF-8 byte length of the content as its size (one to four bytes per character) |
| Repository.SizeIsEncodedLength | backup_20250719_143754/script_4.py:285 | the recorded size is the length of `content.toByteArray()`, the bytes the vault encrypts |
| Repository.AddClipboardItem | backup_20250719_143754/script_4.py:278-290 | exactly one row is inserted, the mapped new item, which is returned |
| Repository.CleanupOldItems | backup_20250719_143754/script_4.py:378-380 | the sweep runs with exactly the configured hours |
| Clipboard.PlainText | script_7.py:579 | a plain-text clip's first item holds exactly the text |
| Clipboard.FirstText | script_7.py:100-101 | the first item's text (empty when the item has no text), and absent exactly when there is no clip or no item |
| ChangeMonitor.ImageNameIsPattern | script_7.py:137 | the direct image-name test accepts exactly the texts the regular expression matches as a whole |
| ChangeMonitor.DetermineContentType | script_7.py:133-139 | each result holds exactly when its test passes and no earlier test did: URL for a web prefix; FILE for a file prefix; IMAGE for a whole match of the image pattern; TEXT otherwise; OTHER is never returned |
| ChangeMonitor.LinkBeatsImage | script_7.py:135-137 | a web link naming an image is a URL |
| ChangeMonitor.FileUriBeatsImage | script_7.py:136-137 | a file URI naming an image is a FILE |
| ChangeMonitor.ImageNamesIgnoreCase | script_7.py:137 | image names match in any letter case, Unicode folding included |
| ChangeMonitor.ImageNameEdges | script_7.py:137 | a line break before the name, or a trailing character, gives TEXT |
| ChangeMonitor.Observe | script_7.py:99-105 | a notification records text exactly when a clip with an item exists, its text is not blank and it differs from the last recorded text |
| ChangeMonitor.CapturedWellFormed | script_7.py:99-105 | over any run of notifications, no record is blank, no two consecutive records are equal, the first differs from the starting text, and records never outnumber notifications |
| ChangeMonitor.SameClipRecordedOnce | script_7.py:99-105 | repeated notifications of one clip record it at most once |
| ChangeMonitor.ClipboardService.HandleClipboardChange | script_7.py:96-125 | on a new text: it becomes the last text, one item of its classified type is inserted, then the age sweep runs with the stored settings; otherwise nothing changes |
| Bubbles.FullBubblesSpaced | script_7.py:384 | full bubbles sit 76 apart, right of the empty bubble, and do not overlap |
| Bubbles.FullBubbleX | script_7.py:384 | for any index up to 28 million the slot is `100 + (index + 1) * 76`, right of the empty bubble |
| Bubbles.SnapX | script_7.py:528-537 | the snapped x is the left edge or the right edge `screenWidth - size`, and on screen when the bubble fits |
| Bubbles.ClampY | script_7.py:539 | the clamped y keeps the bubble fully on screen, and is unchanged when it already was |
| Bubbles.CoerceIn | script_7.py:539 | the result lies in the range, equals the value when inside it, and the nearer bound otherwise |
| Bubbles.SnapPlacesOnEdge | script_7.py:528-539 | x becomes 0 when the centre is left of the middle and `screenWidth - size` otherwise; y lands in `[0, screenHeight - size]`, unchanged when already inside |
| Bubbles.SnapIdempotent | script_7.py:523-546 | snapping a snapped bubble does not move it when the screen is at least two pixels wider than the bubble |
| Bubbles.SnapNotIdempotentOnNarrowScreen | script_7.py:533-537 | a 98-pixel bubble on a 99-pixel screen moves from x = 0 to x = 1 on a second snap |
| Bubbles.Toggled | script_7.py:598-601 | the toggle always changes the mode |
| Bubbles.ToggleInvolution | script_7.py:598-601 | two toggles restore the mode |
| Bubbles.Extended | script_7.py:583 | the extended text is the content alone when the clipboard is blank, otherwise the old text, one line break and the content |
| Bubbles.Pasted | script_7.py:575-592 | REPLACE gives a plain-text clip of the content alone; EXTEND gives a plain-text clip of the extended text (the content alone when there is no clip), and no new clip when the clip has no item |
| Bubbles.ExtendScenario | script_7.py:577-585 | over "A", a toggle from REPLACE and a paste of "B" give "A", a line break, "B"; REPLACE gives "B" |
| Bubbles.CapturableText | script_7.py:554-556 | the capture tap's text is the first item's text when it is not blank |
| Bubbles.DragFollowsFinger | script_7.py:498-500 | without overflow, a drag moves the bubble by the finger's displacement truncated toward zero: its floor to the right, minus the floor of its size to the left |
| Bubbles.BubbleView.OnTouch | script_7.py:488-514 | DOWN records the anchors, MOVE sets the anchor plus the truncated finger delta, UP snaps, and other actions are not consumed |
| Bubbles.BubbleView.SnapToEdge | script_7.py:523-546 | the bubble moves to the snapped x and clamped y |
| Bubbles.FloatingBubbleService.constructor | script_7.py:300-345 | the mode comes from the settings, the empty bubble is at (100,100), the mode bubble at (100,200), and the first five history items become full bubbles in their slots |
| Bubbles.FloatingBubbleService.CreateEmptyBubble | script_7.py:350-371 | a new empty bubble is placed at (100,100); the other bubbles and the mode are unchanged |
| Bubbles.FloatingBubbleService.CreateModeBubble | script_7.py:405-426 | a new mode bubble is placed at (100,200); the other bubbles and the mode are unchanged |
| Bubbles.FloatingBubbleService.CreateFullBubble | script_7.py:379-400 | one full bubble with the content is appended at the index's slot |
| Bubbles.FloatingBubbleService.HandleEmptyBubbleClick | script_7.py:551-568 | non-blank text with an empty bubble shown appends one full bubble at slot `bubbles.size` and installs a new empty bubble at (100,100); otherwise nothing changes |
| Bubbles.FloatingBubbleService.HandleFullBubbleClick | script_7.py:575-592 | the clipboard becomes the paste result in the current mode, or stays when the paste throws |
| Bubbles.FloatingBubbleService.HandleModeBubbleClick | script_7.py:597-619 | the mode toggles; the bubbles are untouched |
| Bubbles.FloatingBubbleService.RemoveAllBubbles | script_7.py:624-636 | no bubble remains |
| PasteFeedback.RepastingLastTextIsNotRecorded | script_7.py:577-579 | a REPLACE paste of the last recorded text records nothing |
| PasteFeedback.ExtendedPasteIsRecorded | script_7.py:581-584 | an EXTEND paste over the last recorded text is recorded as the joined text |
| Formatting.FormatSize | script_6.py:148-154 | below 1024 the bytes; below 1 MiB the whole KiB, 1 to 1023; above that the whole MiB |
| Formatting.FormatSizeEdges | script_6.py:148-154 | 1023 gives "1023B", 1024 gives "1KB", 1048575 gives "1023KB", 1048576 gives "1MB" |
| Formatting.FormatTimestamp | script_6.py:126-140 | an age below a minute, negatives included, is "Just now"; then whole minutes 1 to 59; then whole hours 1 to 23; the absolute date from a day on |
| Formatting.FutureIsJustNow | script_6.py:131 | an item stamped in the future shows "Just now" |
| Formatting.OverflowedAgeIsJustNow | script_6.py:128 | an age that overflows a `Long` wraps negative and shows "Just now" |
| Formatting.SliderValue | script_6.py:347-352 | a slider's value lies within its range |
| Formatting.DialogValuesInRange | script_6.py:206-233 | the dialog offers 10 to 500 items, 1 to 168 hours and sizes 1 to 5 |
| Formatting.SliderHoursGiveExactThreshold | script_6.py:216-223 | any offered auto-delete age gives an exact threshold in the past |

## Left out

- The library primitives are abstract function values, and their round trips are an assumption (`CipherVault.Sound`) that the lemmas require:
  - AES-CBC with PKCS#7 padding (NIST SP 800-38A, RFC 5652 section 6.3);
  - the Android Keystore;
  - `EncryptedSharedPreferences`;
  - Base64 (RFC 4648 section 4);
  - the UTF-8 codec, whose encoder is assumed to produce `KotlinText.Utf8Length` bytes, the length `Repository.NewItem` records as the size.
- Nothing is claimed about authentication, because CBC has none.
- The IV, the UUID and the clock are parameters (`iv`, `id`, `now`), not random or read.
- Android plumbing: `addView`/`removeView`/`updateViewLayout` are taken to succeed, so their caught failures are not modelled. The same goes for notifications, toasts, the mode bubble's icon, service lifecycle and view creation.
- Coroutines and flows: each handler runs as one atomic step. The bubble service's history is the snapshot that `getAllItems().first()` delivers.
- Floating point:
  - Touch coordinates are reals, so float rounding is not modelled.
  - `dpToPx` is the bubble's pixel size, given as a parameter.
  - `bubbleOpacity` and its settings key are not part of `ClipboardSettings` here.
  - Slider positions are reals within the range, so the float rounding of slider stops is not modelled.
- `formatTimestamp` from one day on formats a locale-dependent date; the model returns `None` there.
- `KotlinText.ParseInt`: `toIntOrNull` also accepts non-ASCII decimal digits; the model accepts ASCII digits only.
- `Repository.NewItem`: requires the UTF-8 size to fit in an `Int`, the largest byte array the JVM can hold. Unpaired UTF-16 surrogates cannot occur in this model's strings.
- `Bubbles.BubbleView.OnTouch`: requires the screen to be at least as tall as the bubble on UP; otherwise `coerceIn` throws outside any handler.
- `ChangeMonitor.ClipboardService.HandleClipboardChange`: one `now` stands for both clock reads, the item's timestamp (`backup_20250719_143754/script_4.py:282`) and the sweep's threshold (`backup_20250719_143754/script_4.py:159`), which in the app may differ by a few milliseconds.
- `ChangeMonitor.ClipboardService.HandleClipboardChange`: does not model an exception thrown by the insert or the sweep, which the source catches after updating `lastClipboardText`. Notifications are also left out.
- UI composables, the view model, Room and DI wiring, and build files are not part of this model.
