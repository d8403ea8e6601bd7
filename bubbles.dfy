/**
 * `FloatingBubbleService`: an empty bubble that captures the clipboard
 * into a new full bubble, full bubbles that paste their text back in the
 * current mode, a mode bubble that toggles between REPLACE and EXTEND, and
 * the drag-and-snap behaviour every bubble shares.
 */
module Bubbles {
  import opened Wrappers
  import opened Model
  import opened KotlinText
  import opened Clipboard

  datatype BubbleType = EMPTY | FULL | MODE

  /** A touch event: its action and, for DOWN and MOVE, the raw screen coordinates. */
  datatype TouchEvent = Down(rawX: real, rawY: real) | Move(rawX: real, rawY: real) | Up | Other

  const BubbleSizeDp: int := 60
  const BubbleMarginDp: int := 16

  /** Where the empty bubble is placed. */
  const EmptyX: int32 := 100
  const EmptyY: int32 := 100
  /** Where the mode bubble is placed. */
  const ModeX: int32 := 100
  const ModeY: int32 := 200
  /** The row the full bubbles are placed on. */
  const FullY: int32 := 100

  /** The most history items shown as bubbles at start-up. */
  const InitialBubbles: nat := 5

  // ---------------------------------------------------------------------------
  // Geometry

  /** `100 + (index + 1) * (BUBBLE_SIZE_DP + BUBBLE_MARGIN_DP)` in `Int` arithmetic. */
  function FullBubbleX(index: nat): (x: int32)
    ensures index <= 28_000_000 ==> x == 100 + (index + 1) * (BubbleSizeDp + BubbleMarginDp) > EmptyX
  {
    Wrap32(100 + (index + 1) * (BubbleSizeDp + BubbleMarginDp))
  }

  /** Full bubbles sit one bubble-and-margin apart, to the right of the empty bubble, so they never overlap. */
  lemma FullBubblesSpaced(i: nat, j: nat)
    requires i < j < 1_000_000
    ensures FullBubbleX(i) as int - EmptyX as int >= BubbleSizeDp + BubbleMarginDp
    ensures FullBubbleX(j) as int - FullBubbleX(i) as int == (j - i) * (BubbleSizeDp + BubbleMarginDp)
    ensures FullBubbleX(j) as int - FullBubbleX(i) as int > BubbleSizeDp
  {
    assert 100 + (j + 1) * 76 <= IntMax;
  }

  /** The snapped horizontal position: the left edge when the bubble's centre is left of the middle, else the right edge. */
  function SnapX(x: int32, sizePx: int32, screenWidth: int32): (r: int32)
    requires sizePx >= 0 && screenWidth >= 0
    ensures r == 0 || r == Wrap32(screenWidth - sizePx)
    ensures sizePx <= screenWidth ==> 0 <= r <= screenWidth - sizePx
  {
    var centerX := Wrap32(x + sizePx / 2);
    if centerX < screenWidth / 2 then 0 else Wrap32(screenWidth - sizePx)
  }

  /** `coerceIn(lo, hi)`, which throws unless `lo <= hi`. */
  function CoerceIn(v: int, lo: int, hi: int): (r: int)
    requires lo <= hi
    ensures lo <= r <= hi
    ensures lo <= v <= hi ==> r == v
    ensures v < lo ==> r == lo
    ensures v > hi ==> r == hi
  {
    if v < lo then lo else if v > hi then hi else v
  }

  /** The snapped vertical position: kept, but pulled back on screen. */
  function ClampY(y: int32, sizePx: int32, screenHeight: int32): (r: int32)
    requires 0 <= sizePx <= screenHeight
    ensures 0 <= r <= screenHeight - sizePx
    ensures 0 <= y <= screenHeight - sizePx ==> r == y
  {
    CoerceIn(y, 0, screenHeight - sizePx) as int32
  }

  /**
   * A snapped bubble touches the left or right edge and lies fully on
   * screen vertically; it goes left exactly when its centre is left of the
   * middle.
   */
  lemma SnapPlacesOnEdge(x: int32, y: int32, sizePx: int32, screenWidth: int32, screenHeight: int32)
    requires 0 <= sizePx <= screenWidth && sizePx <= screenHeight
    requires x as int + sizePx as int / 2 <= IntMax
    ensures SnapX(x, sizePx, screenWidth) == 0 || SnapX(x, sizePx, screenWidth) == screenWidth - sizePx
    ensures x + sizePx / 2 < screenWidth / 2 ==> SnapX(x, sizePx, screenWidth) == 0
    ensures x + sizePx / 2 >= screenWidth / 2 ==> SnapX(x, sizePx, screenWidth) == screenWidth - sizePx
    ensures 0 <= ClampY(y, sizePx, screenHeight) <= screenHeight - sizePx
    ensures 0 <= y <= screenHeight - sizePx ==> ClampY(y, sizePx, screenHeight) == y
  {
  }

  /**
   * Snapping an already snapped bubble leaves it where it is, as long as
   * the screen is at least two pixels wider than the bubble (a bubble 98
   * pixels wide on a 99-pixel screen moves from the left edge to x = 1).
   */
  lemma SnapIdempotent(x: int32, y: int32, sizePx: int32, screenWidth: int32, screenHeight: int32)
    requires 0 <= sizePx && sizePx + 2 <= screenWidth && sizePx <= screenHeight
    requires x as int + sizePx as int / 2 <= IntMax
    ensures SnapX(SnapX(x, sizePx, screenWidth), sizePx, screenWidth) == SnapX(x, sizePx, screenWidth)
    ensures ClampY(ClampY(y, sizePx, screenHeight), sizePx, screenHeight) == ClampY(y, sizePx, screenHeight)
  {
    SnapPlacesOnEdge(x, y, sizePx, screenWidth, screenHeight);
    assert sizePx / 2 < screenWidth / 2;
    assert screenWidth - sizePx + sizePx / 2 >= screenWidth / 2;
    SnapPlacesOnEdge(SnapX(x, sizePx, screenWidth), y, sizePx, screenWidth, screenHeight);
  }

  /** On a 99-pixel screen a 98-pixel bubble dragged far left snaps to x = 0, and snapping again moves it to x = 1. */
  lemma SnapNotIdempotentOnNarrowScreen()
    ensures SnapX(-1000, 98, 99) == 0 && SnapX(SnapX(-1000, 98, 99), 98, 99) == 1
  {
  }

  // ---------------------------------------------------------------------------
  // Modes and pasting

  /** The mode bubble's toggle. */
  function Toggled(mode: ClipboardMode): (r: ClipboardMode)
    ensures r != mode
  {
    match mode
    case REPLACE => EXTEND
    case EXTEND => REPLACE
  }

  /** Toggling twice restores the mode. */
  lemma ToggleInvolution(mode: ClipboardMode)
    ensures Toggled(Toggled(mode)) == mode
  {
  }

  /**
   * EXTEND's new text: the pasted content alone onto a blank clipboard, else
   * the current text, a line break and the content, so that it splits back
   * into the two at the added line break.
   */
  function Extended(current: string, content: string): (r: string)
    ensures IsBlank(current) ==> r == content
    ensures !IsBlank(current) ==>
              && |r| == |current| + 1 + |content|
              && r[..|current|] == current && r[|current|] == '\n' && r[|current| + 1..] == content
  {
    if IsBlank(current) then content else current + "\n" + content
  }

  /**
   * `handleFullBubbleClick`'s effect on the primary clip: the new clip, or
   * `None` when the source's `getItemAt(0)` throws (EXTEND over a clip
   * without items) and the clipboard is left alone. Afterwards the
   * clipboard's text is the content (REPLACE) or the content appended to the
   * old text (EXTEND).
   */
  function Pasted(mode: ClipboardMode, clip: Option<ClipData>, content: string): (r: Option<ClipData>)
    ensures mode == REPLACE ==> r == Some(PlainText(content)) && FirstText(r) == Some(content)
    ensures mode == EXTEND && FirstText(clip).Some? ==> r == Some(PlainText(Extended(FirstText(clip).value, content)))
    ensures mode == EXTEND && clip.None? ==> r == Some(PlainText(Extended("", content)))
    ensures mode == EXTEND && FirstText(clip).Some? ==> FirstText(r) == Some(Extended(FirstText(clip).value, content))
    ensures mode == EXTEND && clip.None? ==> FirstText(r) == Some(content)
    ensures mode == EXTEND && FirstText(clip).None? && clip.Some? ==> r.None?
  {
    match mode
    case REPLACE => Some(PlainText(content))
    case EXTEND =>
      if clip.Some? && |clip.value.items| == 0 then None
      else
        var current := if clip.None? then "" else clip.value.items[0].GetOr("");
        Some(PlainText(Extended(current, content)))
  }

  /** Clipboard "A", mode toggled from REPLACE, bubble "B" pasted: the clipboard then reads "A", a line break, "B". */
  lemma ExtendScenario()
    ensures FirstText(Pasted(Toggled(REPLACE), Some(PlainText("A")), "B")) == Some("A\nB")
    ensures FirstText(Pasted(REPLACE, Some(PlainText("A")), "B")) == Some("B")
  {
    assert !IsBlank("A") by {
      assert !IsWhitespace("A"[0]);
    }
    assert "A" + "\n" + "B" == "A\nB";
  }

  /** The text the empty bubble captures: the first item's text when it is not blank. */
  function CapturableText(clip: Option<ClipData>): (r: Option<string>)
    ensures r.Some? <==> FirstText(clip).Some? && !IsBlank(FirstText(clip).value)
    ensures r.Some? ==> r == FirstText(clip)
  {
    match FirstText(clip)
    case None => None
    case Some(text) => if IsBlank(text) then None else Some(text)
  }

  // ---------------------------------------------------------------------------
  // Bubbles

  /**
   * A bubble on screen: its window position, its fixed content and kind,
   * and the drag anchors its touch listener captures on ACTION_DOWN.
   */
  class BubbleView {
    var x: int32
    var y: int32
    const content: Option<string>
    const kind: BubbleType
    var initialX: int32
    var initialY: int32
    var initialTouchX: real
    var initialTouchY: real

    constructor(content: Option<string>, kind: BubbleType, x: int32, y: int32)
      ensures this.content == content && this.kind == kind && this.x == x && this.y == y
      ensures initialX == 0 && initialY == 0 && initialTouchX == 0.0 && initialTouchY == 0.0
    {
      this.content := content;
      this.kind := kind;
      this.x := x;
      this.y := y;
      initialX := 0;
      initialY := 0;
      initialTouchX := 0.0;
      initialTouchY := 0.0;
    }

    /**
     * The touch listener of `setupDragBehavior`: DOWN records the anchors,
     * MOVE follows the finger from them, UP snaps to an edge; other actions
     * are not consumed. `sizePx` is the bubble size in pixels.
     */
    method OnTouch(event: TouchEvent, sizePx: int32, screenWidth: int32, screenHeight: int32) returns (consumed: bool)
      requires 0 <= sizePx && 0 <= screenWidth
      requires event.Up? ==> sizePx <= screenHeight
      modifies this
      ensures consumed <==> !event.Other?
      ensures event.Down? ==>
                && initialX == old(x) && initialY == old(y)
                && initialTouchX == event.rawX && initialTouchY == event.rawY
                && x == old(x) && y == old(y)
      ensures event.Move? ==>
                && x == Wrap32(initialX + FloatToInt(event.rawX - initialTouchX))
                && y == Wrap32(initialY + FloatToInt(event.rawY - initialTouchY))
      ensures event.Up? ==> x == SnapX(old(x), sizePx, screenWidth) && y == ClampY(old(y), sizePx, screenHeight)
      ensures !event.Down? ==>
                && initialX == old(initialX) && initialY == old(initialY)
                && initialTouchX == old(initialTouchX) && initialTouchY == old(initialTouchY)
      ensures event.Other? ==> x == old(x) && y == old(y)
    {
      match event
      case Down(rawX, rawY) =>
        initialX := x;
        initialY := y;
        initialTouchX := rawX;
        initialTouchY := rawY;
        consumed := true;
      case Move(rawX, rawY) =>
        x := Wrap32(initialX + FloatToInt(rawX - initialTouchX));
        y := Wrap32(initialY + FloatToInt(rawY - initialTouchY));
        consumed := true;
      case Up =>
        SnapToEdge(sizePx, screenWidth, screenHeight);
        consumed := true;
      case Other =>
        consumed := false;
    }

    /** `snapToEdge`: to the nearer side edge, and back within the screen's height. */
    method SnapToEdge(sizePx: int32, screenWidth: int32, screenHeight: int32)
      requires 0 <= sizePx && 0 <= screenWidth && sizePx <= screenHeight
      modifies this
      ensures x == SnapX(old(x), sizePx, screenWidth) && y == ClampY(old(y), sizePx, screenHeight)
      ensures initialX == old(initialX) && initialY == old(initialY)
      ensures initialTouchX == old(initialTouchX) && initialTouchY == old(initialTouchY)
    {
      x := SnapX(x, sizePx, screenWidth);
      y := ClampY(y, sizePx, screenHeight);
    }
  }

  /**
   * A drag with no overflow moves the bubble by exactly the finger's
   * whole-pixel displacement, truncated toward zero: rounded down to the
   * right, rounded up (toward the start) to the left.
   */
  lemma DragFollowsFinger(startX: int32, downX: real, moveX: real)
    requires -1_000_000 <= startX <= 1_000_000
    requires -1_000_000.0 <= moveX - downX <= 1_000_000.0
    ensures moveX >= downX ==> Wrap32(startX + FloatToInt(moveX - downX)) == startX + (moveX - downX).Floor
    ensures moveX <= downX ==> Wrap32(startX + FloatToInt(moveX - downX)) == startX - (downX - moveX).Floor
  {
  }

  /** `FloatingBubbleService`: the bubbles on screen and the current paste mode. */
  class FloatingBubbleService {
    const clipboard: SystemClipboard
    var bubbles: seq<BubbleView>
    var emptyBubble: BubbleView?
    var modeBubble: BubbleView?
    var currentMode: ClipboardMode

    /** Full bubbles carry text; the empty and mode bubbles are of their own kinds and carry none. */
    ghost predicate Valid()
      reads this
    {
      && (forall i :: 0 <= i < |bubbles| ==> bubbles[i].kind == FULL && bubbles[i].content.Some?)
      && (emptyBubble != null ==> emptyBubble.kind == EMPTY && emptyBubble.content.None?)
      && (modeBubble != null ==> modeBubble.kind == MODE && modeBubble.content.None?)
    }

    /**
     * `onCreate` followed by `initializeBubbles`: the mode comes from the
     * settings, the empty and mode bubbles are placed, and the first five
     * history items become full bubbles in order.
     */
    constructor(clipboard: SystemClipboard, settings: ClipboardSettings, history: seq<ClipboardItem>)
      ensures Valid()
      ensures this.clipboard == clipboard && currentMode == settings.clipboardMode
      ensures emptyBubble != null && fresh(emptyBubble) && emptyBubble.x == EmptyX && emptyBubble.y == EmptyY
      ensures modeBubble != null && fresh(modeBubble) && modeBubble.x == ModeX && modeBubble.y == ModeY
      ensures |bubbles| == if |history| < InitialBubbles then |history| else InitialBubbles
      ensures forall i :: 0 <= i < |bubbles| ==>
                && fresh(bubbles[i]) && bubbles[i].content == Some(history[i].content)
                && bubbles[i].x == FullBubbleX(i) && bubbles[i].y == FullY
    {
      this.clipboard := clipboard;
      bubbles := [];
      emptyBubble := null;
      modeBubble := null;
      currentMode := settings.clipboardMode;
      new;
      CreateEmptyBubble();
      CreateModeBubble();
      var shown := if |history| < InitialBubbles then history else history[..InitialBubbles];
      var index := 0;
      while index < |shown|
        invariant 0 <= index <= |shown| && |bubbles| == index
        invariant Valid() && this.clipboard == clipboard && currentMode == settings.clipboardMode
        invariant emptyBubble != null && fresh(emptyBubble) && emptyBubble.x == EmptyX && emptyBubble.y == EmptyY
        invariant modeBubble != null && fresh(modeBubble) && modeBubble.x == ModeX && modeBubble.y == ModeY
        invariant forall i :: 0 <= i < index ==>
                    && fresh(bubbles[i]) && bubbles[i].content == Some(history[i].content)
                    && bubbles[i].x == FullBubbleX(i) && bubbles[i].y == FullY
        modifies this
      {
        CreateFullBubble(shown[index].content, index);
        index := index + 1;
      }
    }

    /** `createEmptyBubble`: a new empty bubble at its home position. */
    method CreateEmptyBubble()
      requires Valid()
      modifies this
      ensures Valid()
      ensures emptyBubble != null && fresh(emptyBubble) && emptyBubble.x == EmptyX && emptyBubble.y == EmptyY
      ensures bubbles == old(bubbles) && modeBubble == old(modeBubble) && currentMode == old(currentMode)
    {
      emptyBubble := new BubbleView(None, EMPTY, EmptyX, EmptyY);
    }

    /** `createModeBubble`: a new mode bubble at its home position. */
    method CreateModeBubble()
      requires Valid()
      modifies this
      ensures Valid()
      ensures modeBubble != null && fresh(modeBubble) && modeBubble.x == ModeX && modeBubble.y == ModeY
      ensures bubbles == old(bubbles) && emptyBubble == old(emptyBubble) && currentMode == old(currentMode)
    {
      modeBubble := new BubbleView(None, MODE, ModeX, ModeY);
    }

    /** `createFullBubble(content, index)`: a new full bubble at the index's slot, appended to the list. */
    method CreateFullBubble(content: string, index: nat)
      requires Valid()
      modifies this
      ensures Valid()
      ensures |bubbles| == |old(bubbles)| + 1 && bubbles[..|old(bubbles)|] == old(bubbles)
      ensures var b := bubbles[|old(bubbles)|];
              fresh(b) && b.content == Some(content) && b.x == FullBubbleX(index) && b.y == FullY
      ensures emptyBubble == old(emptyBubble) && modeBubble == old(modeBubble) && currentMode == old(currentMode)
    {
      var b := new BubbleView(Some(content), FULL, FullBubbleX(index), FullY);
      bubbles := bubbles + [b];
    }

    /**
     * `handleEmptyBubbleClick`: when the clipboard holds non-blank text and
     * an empty bubble is shown, the text becomes a new full bubble in the
     * next slot and a new empty bubble replaces the old one.
     */
    method HandleEmptyBubbleClick()
      requires Valid()
      modifies this
      ensures Valid()
      ensures modeBubble == old(modeBubble) && currentMode == old(currentMode)
      ensures CapturableText(clipboard.primary).Some? && old(emptyBubble) != null ==>
                && |bubbles| == |old(bubbles)| + 1 && bubbles[..|old(bubbles)|] == old(bubbles)
                && fresh(bubbles[|old(bubbles)|])
                && bubbles[|old(bubbles)|].content == CapturableText(clipboard.primary)
                && bubbles[|old(bubbles)|].x == FullBubbleX(|old(bubbles)|)
                && bubbles[|old(bubbles)|].y == FullY
                && emptyBubble != null && emptyBubble != old(emptyBubble) && fresh(emptyBubble)
                && emptyBubble.x == EmptyX && emptyBubble.y == EmptyY
      ensures CapturableText(clipboard.primary).None? || old(emptyBubble) == null ==>
                bubbles == old(bubbles) && emptyBubble == old(emptyBubble)
    {
      var text := CapturableText(clipboard.primary);
      if text.Some? && emptyBubble != null {
        CreateFullBubble(text.value, |bubbles|);
        CreateEmptyBubble();
      }
    }

    /** `handleFullBubbleClick(content)`: pastes the content in the current mode. */
    method HandleFullBubbleClick(content: string)
      modifies clipboard
      ensures clipboard.primary == match Pasted(currentMode, old(clipboard.primary), content)
                                   case None => old(clipboard.primary)
                                   case Some(clip) => Some(clip)
    {
      var pasted := Pasted(currentMode, clipboard.primary, content);
      if pasted.Some? {
        clipboard.SetPrimaryClip(pasted.value);
      }
    }

    /** `handleModeBubbleClick`: switches between REPLACE and EXTEND. */
    method HandleModeBubbleClick()
      requires Valid()
      modifies this
      ensures Valid()
      ensures currentMode == Toggled(old(currentMode))
      ensures bubbles == old(bubbles) && emptyBubble == old(emptyBubble) && modeBubble == old(modeBubble)
    {
      currentMode := Toggled(currentMode);
    }

    /** `removeAllBubbles`: no bubble remains. */
    method RemoveAllBubbles()
      modifies this
      ensures Valid()
      ensures emptyBubble == null && modeBubble == null && bubbles == []
      ensures currentMode == old(currentMode)
    {
      emptyBubble := null;
      modeBubble := null;
      bubbles := [];
    }
  }
}
