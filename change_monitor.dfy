/**
 * `ClipboardService`: reacts to every primary-clip change by recording
 * non-blank text that differs from the last text it recorded, classifying
 * it, and then sweeping rows older than the configured age.
 */
module ChangeMonitor {
  import opened Wrappers
  import opened Model
  import opened KotlinText
  import opened CipherVault
  import opened ItemDao
  import opened Repository
  import opened Clipboard

  // ---------------------------------------------------------------------------
  // Content classification

  /** No character of `s` is a line terminator. */
  predicate NoLineTerminator(s: string) {
    forall i :: 0 <= i < |s| ==> !IsLineTerminator(s[i])
  }

  /** `s` spells the lower-case `word`, letter case ignored. */
  predicate SpellsIgnoreCase(s: string, word: string) {
    |s| == |word| && forall i :: 0 <= i < |s| ==> CharMatchesIgnoreCase(s[i], word[i])
  }

  /** The alternation `(jpg|jpeg|png|gif|bmp|webp)` under IGNORE_CASE. */
  predicate IsImageExtension(s: string) {
    || SpellsIgnoreCase(s, "jpg") || SpellsIgnoreCase(s, "jpeg") || SpellsIgnoreCase(s, "png")
    || SpellsIgnoreCase(s, "gif") || SpellsIgnoreCase(s, "bmp") || SpellsIgnoreCase(s, "webp")
  }

  /**
   * Whole-input match of `.*\.(jpg|jpeg|png|gif|bmp|webp)$`: a prefix that
   * `.` can consume (no line terminator), a literal dot, and an extension
   * that ends the input.
   */
  ghost predicate ImagePatternMatches(text: string) {
    exists k :: 0 <= k < |text| && text[k] == '.' && NoLineTerminator(text[..k]) && IsImageExtension(text[k + 1..])
  }

  /** `text` ends with a dot and `word`, letter case ignored. */
  predicate EndsWithExtension(text: string, word: string) {
    EndsWithIgnoreCase(text, "." + word)
  }

  /** The image test as a direct check: one line ending in a dot and an image extension. */
  predicate IsImageName(text: string) {
    && NoLineTerminator(text)
    && (|| EndsWithExtension(text, "jpg") || EndsWithExtension(text, "jpeg") || EndsWithExtension(text, "png")
        || EndsWithExtension(text, "gif") || EndsWithExtension(text, "bmp") || EndsWithExtension(text, "webp"))
  }

  /** Splitting `text` before its last `|word| + 1` characters. */
  lemma SuffixSplit(text: string, word: string)
    requires EndsWithExtension(text, word)
    ensures var k := |text| - |word| - 1;
            0 <= k < |text| && text[k] == '.' && SpellsIgnoreCase(text[k + 1..], word)
  {
    var k := |text| - |word| - 1;
    assert CharMatchesIgnoreCase(text[k], ("." + word)[0]);
    forall i | 0 <= i < |word|
      ensures CharMatchesIgnoreCase(text[k + 1..][i], word[i])
    {
      assert CharMatchesIgnoreCase(text[k + 1 + i], ("." + word)[i + 1]);
    }
  }

  /** Joining a dot and a spelled word back into a suffix. */
  lemma SuffixJoin(text: string, k: int, word: string)
    requires 0 <= k < |text| && text[k] == '.' && SpellsIgnoreCase(text[k + 1..], word)
    ensures EndsWithExtension(text, word)
  {
    forall i | 0 <= i < |word| + 1
      ensures CharMatchesIgnoreCase(text[|text| - (|word| + 1) + i], ("." + word)[i])
    {
      if i > 0 {
        assert text[k + 1..][i - 1] == text[k + i];
      }
    }
  }

  /** Characters matched by an extension letter are never line terminators. */
  lemma ExtensionHasNoTerminator(s: string)
    requires IsImageExtension(s)
    ensures NoLineTerminator(s)
  {
  }

  /** One image suffix on a single line gives a match of the pattern. */
  lemma SuffixMatches(text: string, word: string)
    requires NoLineTerminator(text) && EndsWithExtension(text, word)
    requires word in ["jpg", "jpeg", "png", "gif", "bmp", "webp"]
    ensures ImagePatternMatches(text)
  {
    SuffixSplit(text, word);
    var k := |text| - |word| - 1;
    assert forall i :: 0 <= i < k ==> text[..k][i] == text[i];
    assert NoLineTerminator(text[..k]);
    assert IsImageExtension(text[k + 1..]);
  }

  /** A match of the pattern leaves no line terminator anywhere in the text. */
  lemma MatchIsOneLine(text: string, k: int)
    requires 0 <= k < |text| && text[k] == '.' && NoLineTerminator(text[..k]) && IsImageExtension(text[k + 1..])
    ensures NoLineTerminator(text)
  {
    ExtensionHasNoTerminator(text[k + 1..]);
    forall i | 0 <= i < |text|
      ensures !IsLineTerminator(text[i])
    {
      if i < k {
        assert text[i] == text[..k][i];
      } else if i > k {
        assert text[i] == text[k + 1..][i - k - 1];
      }
    }
  }

  /** Every text the direct check accepts is matched by the regular expression. */
  lemma ImageNameMatches(text: string)
    requires IsImageName(text)
    ensures ImagePatternMatches(text)
  {
    if EndsWithExtension(text, "jpg") { SuffixMatches(text, "jpg"); }
    else if EndsWithExtension(text, "jpeg") { SuffixMatches(text, "jpeg"); }
    else if EndsWithExtension(text, "png") { SuffixMatches(text, "png"); }
    else if EndsWithExtension(text, "gif") { SuffixMatches(text, "gif"); }
    else if EndsWithExtension(text, "bmp") { SuffixMatches(text, "bmp"); }
    else { SuffixMatches(text, "webp"); }
  }

  /** Every text the regular expression matches is accepted by the direct check. */
  lemma MatchIsImageName(text: string)
    requires ImagePatternMatches(text)
    ensures IsImageName(text)
  {
    var k :| 0 <= k < |text| && text[k] == '.' && NoLineTerminator(text[..k]) && IsImageExtension(text[k + 1..]);
    MatchIsOneLine(text, k);
    var ext := text[k + 1..];
    if SpellsIgnoreCase(ext, "jpg") { SuffixJoin(text, k, "jpg"); }
    else if SpellsIgnoreCase(ext, "jpeg") { SuffixJoin(text, k, "jpeg"); }
    else if SpellsIgnoreCase(ext, "png") { SuffixJoin(text, k, "png"); }
    else if SpellsIgnoreCase(ext, "gif") { SuffixJoin(text, k, "gif"); }
    else if SpellsIgnoreCase(ext, "bmp") { SuffixJoin(text, k, "bmp"); }
    else { SuffixJoin(text, k, "webp"); }
  }

  /** The direct check accepts exactly the texts the regular expression matches. */
  lemma ImageNameIsPattern(text: string)
    ensures IsImageName(text) <==> ImagePatternMatches(text)
  {
    if IsImageName(text) {
      ImageNameMatches(text);
    }
    if ImagePatternMatches(text) {
      MatchIsImageName(text);
    }
  }

  /** The text starts with one of the two web schemes. */
  predicate IsWebLink(text: string) {
    StartsWith(text, "http://") || StartsWith(text, "https://")
  }

  /**
   * `determineContentType`: web links first, then file URIs, then image
   * file names; everything else is TEXT. OTHER is never produced.
   */
  function DetermineContentType(text: string): (t: ContentType)
    ensures t != OTHER
    ensures IsWebLink(text) <==> t == URL
    ensures !IsWebLink(text) && StartsWith(text, "file://") <==> t == FILE
    ensures !IsWebLink(text) && !StartsWith(text, "file://") && ImagePatternMatches(text) <==> t == IMAGE
    ensures !IsWebLink(text) && !StartsWith(text, "file://") && !ImagePatternMatches(text) <==> t == TEXT
  {
    ImageNameIsPattern(text);
    if IsWebLink(text) then URL
    else if StartsWith(text, "file://") then FILE
    else if IsImageName(text) then IMAGE
    else TEXT
  }

  /** A text whose first character is neither `h` nor `f` is neither a link nor a file URI. */
  lemma NotLinkNorFile(text: string)
    requires |text| > 0 && text[0] != 'h' && text[0] != 'f'
    ensures !StartsWith(text, "http://") && !StartsWith(text, "https://") && !StartsWith(text, "file://")
  {
    assert "http://"[0] == 'h' && "https://"[0] == 'h' && "file://"[0] == 'f';
  }

  /** A text whose last character cannot match the last letter of `word` does not end with that extension. */
  lemma LastCharMismatch(text: string, word: string)
    requires |text| > 0 && |word| > 0 && !CharMatchesIgnoreCase(text[|text| - 1], word[|word| - 1])
    ensures !EndsWithExtension(text, word)
  {
    var suffix := "." + word;
    if |suffix| <= |text| {
      assert suffix[|word|] == word[|word| - 1];
      assert !CharMatchesIgnoreCase(text[|text| - |suffix| + |word|], suffix[|word|]);
    }
  }

  /** A web link is a URL even when it names an image. */
  lemma LinkBeatsImage()
    ensures DetermineContentType("https://example.com/cat.png") == URL
  {
  }

  /** A file URI is a FILE even when it names an image. */
  lemma FileUriBeatsImage()
    ensures DetermineContentType("file:///sdcard/cat.png") == FILE
  {
    assert "file:///sdcard/cat.png"[0] != "http://"[0];
  }

  /** Image names match in any letter case, the Unicode dotted and dotless i included, even with nothing before the dot. */
  lemma ImageNamesIgnoreCase()
    ensures DetermineContentType("Holiday.JPEG") == IMAGE
    ensures DetermineContentType("\U{130}MG.G\U{131}F") == IMAGE
    ensures DetermineContentType(".gif") == IMAGE
  {
    NotLinkNorFile("Holiday.JPEG");
    NotLinkNorFile("\U{130}MG.G\U{131}F");
    NotLinkNorFile(".gif");
    assert EndsWithExtension("Holiday.JPEG", "jpeg");
    assert EndsWithExtension("\U{130}MG.G\U{131}F", "gif");
    assert EndsWithExtension(".gif", "gif");
  }

  /** A line break before the name, or anything after the extension, makes the text plain TEXT. */
  lemma ImageNameEdges()
    ensures DetermineContentType("line one\nphoto.png") == TEXT
    ensures DetermineContentType("photo.png ") == TEXT
  {
    NotLinkNorFile("line one\nphoto.png");
    assert !NoLineTerminator("line one\nphoto.png") by {
      assert IsLineTerminator("line one\nphoto.png"[8]);
    }
    var t := "photo.png ";
    NotLinkNorFile(t);
    LastCharMismatch(t, "jpg");
    LastCharMismatch(t, "jpeg");
    LastCharMismatch(t, "png");
    LastCharMismatch(t, "gif");
    LastCharMismatch(t, "bmp");
    LastCharMismatch(t, "webp");
  }

  // ---------------------------------------------------------------------------
  // Change handling

  /**
   * What one change notification records: the first item's text when it is
   * not blank and differs from the last recorded text; `None` otherwise.
   */
  function Observe(clip: Option<ClipData>, last: string): (r: Option<string>)
    ensures r.Some? ==> FirstText(clip) == r && !IsBlank(r.value) && r.value != last
    ensures r.None? ==> FirstText(clip).None? || IsBlank(FirstText(clip).value) || FirstText(clip).value == last
  {
    match FirstText(clip)
    case None => None
    case Some(text) => if !IsBlank(text) && text != last then Some(text) else None
  }

  /** The texts recorded over a run of notifications, starting from the last recorded text `last`. */
  function Captured(clips: seq<Option<ClipData>>, last: string): seq<string>
    decreases |clips|
  {
    if clips == [] then []
    else match Observe(clips[0], last)
      case None => Captured(clips[1..], last)
      case Some(text) => [text] + Captured(clips[1..], text)
  }

  /**
   * Over any run of notifications, no recorded text is blank, no text is
   * recorded twice in a row, the first differs from the starting text, and
   * there are no more records than notifications.
   */
  lemma {:induction false} CapturedWellFormed(clips: seq<Option<ClipData>>, last: string)
    ensures var r := Captured(clips, last);
            && |r| <= |clips|
            && (forall i :: 0 <= i < |r| ==> !IsBlank(r[i]))
            && (forall i :: 0 < i < |r| ==> r[i] != r[i - 1])
            && (|r| > 0 ==> r[0] != last)
    decreases |clips|
  {
    if clips != [] {
      match Observe(clips[0], last)
      case None =>
        CapturedWellFormed(clips[1..], last);
      case Some(text) =>
        CapturedWellFormed(clips[1..], text);
        var r := Captured(clips, last);
        assert r == [text] + Captured(clips[1..], text);
        assert forall i :: 0 < i < |r| ==> r[i] == Captured(clips[1..], text)[i - 1];
    }
  }

  /** Once a clip's text has been recorded, further notifications about the same clip record nothing. */
  lemma {:induction false} SameClipRecordedOnce(clip: Option<ClipData>, n: nat, last: string)
    ensures |Captured(seq(n, _ => clip), last)| <= 1
    ensures Observe(clip, last).None? ==> Captured(seq(n, _ => clip), last) == []
    decreases n
  {
    if n > 0 {
      var clips := seq(n, _ => clip);
      assert clips[0] == clip && clips[1..] == seq(n - 1, _ => clip);
      SameClipRecordedOnce(clip, n - 1, last);
      if Observe(clip, last).Some? {
        var text := Observe(clip, last).value;
        assert Observe(clip, text).None?;
        SameClipRecordedOnce(clip, n - 1, text);
      }
    }
  }

  /** `ClipboardService`: the clipboard it watches, the repository it writes and the last text recorded. */
  class ClipboardService {
    const clipboard: SystemClipboard
    const repository: ClipboardRepositoryImpl
    var lastClipboardText: string

    constructor(clipboard: SystemClipboard, repository: ClipboardRepositoryImpl)
      ensures this.clipboard == clipboard && this.repository == repository
      ensures lastClipboardText == ""
    {
      this.clipboard := clipboard;
      this.repository := repository;
      lastClipboardText := "";
    }

    /**
     * `handleClipboardChange`: a new text becomes the last recorded text, is
     * added as a new item of its classified type, and the age sweep runs
     * with the stored settings; any other notification changes nothing.
     * `id`, `now` and `iv` stand for the UUID, the clock and the random IV.
     */
    method HandleClipboardChange(id: string, now: int64, iv: seq<byte>)
      requires repository.dao.Valid() && |iv| == IvLength
      requires Observe(clipboard.primary, lastClipboardText).Some? ==>
                 FitsByteArray(Observe(clipboard.primary, lastClipboardText).value)
      modifies this, repository.dao
      ensures repository.dao.Valid()
      ensures Observe(clipboard.primary, old(lastClipboardText)).None? ==>
                lastClipboardText == old(lastClipboardText) && repository.dao.rows == old(repository.dao.rows)
      ensures Observe(clipboard.primary, old(lastClipboardText)).Some? ==>
                var text := Observe(clipboard.primary, old(lastClipboardText)).value;
                var item := NewItem(text, DetermineContentType(text), id, now);
                && lastClipboardText == text
                && repository.dao.rows ==
                     SweepOlderThan(old(repository.dao.rows)[id := ItemToEntity(repository.vault.prims, repository.vault.CurrentKey(), iv, item)],
                                    Threshold(now, repository.GetSettings().autoDeleteAfterHours))
    {
      var observed := Observe(clipboard.primary, lastClipboardText);
      if observed.Some? {
        var text := observed.value;
        lastClipboardText := text;
        var contentType := DetermineContentType(text);
        var _ := AddClipboardItem(repository, text, contentType, id, now, iv);
        var settings := repository.GetSettings();
        CleanupOldItems(repository, settings, now);
      }
    }
  }
}
