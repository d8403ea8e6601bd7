/**
 * The system clipboard as both services see it: an optional primary clip
 * whose items may or may not carry text.
 */
module Clipboard {
  import opened Wrappers

  /** A `ClipData`: the text of each item, `None` for an item without text. */
  datatype ClipData = ClipData(items: seq<Option<string>>)

  /** `ClipData.newPlainText(label, text)`: a clip with one item holding `text`. */
  function PlainText(text: string): (c: ClipData)
    ensures |c.items| == 1 && FirstText(Some(c)) == Some(text)
  {
    ClipData([Some(text)])
  }

  /**
   * The text of the primary clip's first item, an item without text read
   * as the empty string; `None` when there is no clip or it has no items.
   */
  function FirstText(clip: Option<ClipData>): (r: Option<string>)
    ensures r.Some? <==> clip.Some? && |clip.value.items| > 0
    ensures r.Some? ==> r.value == clip.value.items[0].GetOr("")
  {
    if clip.Some? && |clip.value.items| > 0 then Some(clip.value.items[0].GetOr("")) else None
  }

  /** The `ClipboardManager`'s primary clip. */
  class SystemClipboard {
    var primary: Option<ClipData>

    constructor(primary: Option<ClipData>)
      ensures this.primary == primary
    {
      this.primary := primary;
    }

    /** `setPrimaryClip`. */
    method SetPrimaryClip(clip: ClipData)
      modifies this
      ensures primary == Some(clip)
    {
      primary := Some(clip);
    }
  }
}
