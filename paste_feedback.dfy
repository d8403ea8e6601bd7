/**
 * How the two services meet at the clipboard: a bubble's paste is itself a
 * primary-clip change, which the change monitor then observes.
 */
module PasteFeedback {
  import opened Wrappers
  import opened Model
  import opened KotlinText
  import opened Clipboard
  import opened ChangeMonitor
  import opened Bubbles

  /** Pasting in REPLACE mode the text the monitor recorded last records nothing. */
  lemma RepastingLastTextIsNotRecorded(clip: Option<ClipData>, last: string)
    ensures Observe(Pasted(REPLACE, clip, last), last).None?
  {
  }

  /** A text with a non-blank part is not blank. */
  lemma NotBlankWithin(s: string, i: int, j: int)
    requires 0 <= i <= j <= |s| && !IsBlank(s[i..j])
    ensures !IsBlank(s)
  {
    var k :| 0 <= k < j - i && !IsWhitespace(s[i..j][k]);
    assert s[i + k] == s[i..j][k];
  }

  /**
   * Pasting non-blank content in EXTEND mode over the last recorded text
   * produces the joined text, which the monitor records as a new history
   * item.
   */
  lemma ExtendedPasteIsRecorded(clip: Option<ClipData>, last: string, content: string)
    requires FirstText(clip) == Some(last) && !IsBlank(last)
    ensures var joined := last + "\n" + content;
            Observe(Pasted(EXTEND, clip, content), last) == Some(joined)
  {
    var joined := last + "\n" + content;
    assert joined[..|last|] == last;
    NotBlankWithin(joined, 0, |last|);
    assert |joined| > |last|;
  }
}
