/**
 * The history list's display helpers and the settings dialog's slider
 * ranges: byte sizes in B / KB / MB, ages as "Just now", minutes or hours,
 * and the values each slider can hand back.
 */
module Formatting {
  import opened Wrappers
  import opened Model
  import opened KotlinText
  import opened Repository

  const KiB: int := 1024
  const MiB: int := 1024 * 1024

  /**
   * `formatSize`: whole bytes below 1024, whole kibibytes below 1024 KiB,
   * whole mebibytes above; the number is the size divided by the unit and
   * truncated.
   */
  function FormatSize(size: int32): (r: string)
    ensures size < KiB ==> r == IntToString(size) + "B"
    ensures KiB <= size < MiB ==>
              exists n :: 1 <= n < KiB && n * KiB <= size < (n + 1) * KiB && r == IntToString(n) + "KB"
    ensures MiB <= size ==>
              exists n :: 1 <= n < 2048 && n * MiB <= size < (n + 1) * MiB && r == IntToString(n) + "MB"
  {
    if size < KiB then IntToString(size) + "B"
    else if size < MiB then
      var n := size / KiB;
      assert n * KiB <= size < (n + 1) * KiB;
      IntToString(n) + "KB"
    else
      var n := size / MiB;
      assert n * MiB <= size < (n + 1) * MiB;
      IntToString(n) + "MB"
  }

  /** The band edges: 1023 bytes stay bytes, 1024 bytes are one kibibyte, 1048576 bytes one mebibyte. */
  lemma FormatSizeEdges()
    ensures FormatSize(1023) == "1023B"
    ensures FormatSize(1024) == "1KB"
    ensures FormatSize(1048575) == "1023KB"
    ensures FormatSize(1048576) == "1MB"
  {
    assert NatToDigits(1023) == "1023" by {
      assert NatToDigits(1) == "1";
      assert NatToDigits(10) == "10";
      assert NatToDigits(102) == "102";
    }
  }

  const MillisPerMinute: int := 60_000
  const MillisPerDay: int := 86_400_000

  /**
   * `formatTimestamp`'s relative branches: the age `now - timestamp` (a
   * `Long` subtraction) below a minute, negative ages included, is
   * "Just now", then whole minutes, then whole hours; `None` stands for the
   * absolute, locale-formatted date shown from a day on.
   */
  function FormatTimestamp(now: int64, timestamp: int64): (r: Option<string>)
    ensures var age := Wrap64(now - timestamp);
            && (age < MillisPerMinute ==> r == Some("Just now"))
            && (MillisPerMinute <= age < MillisPerHour ==>
                  exists m :: 1 <= m <= 59 && m * MillisPerMinute <= age < (m + 1) * MillisPerMinute &&
                              r == Some(IntToString(m) + "m ago"))
            && (MillisPerHour <= age < MillisPerDay ==>
                  exists h :: 1 <= h <= 23 && h * MillisPerHour <= age < (h + 1) * MillisPerHour &&
                              r == Some(IntToString(h) + "h ago"))
            && (age >= MillisPerDay <==> r.None?)
  {
    var age := Wrap64(now - timestamp);
    if age < MillisPerMinute then Some("Just now")
    else if age < MillisPerHour then
      var m := age / MillisPerMinute;
      assert m * MillisPerMinute <= age < (m + 1) * MillisPerMinute;
      Some(IntToString(m) + "m ago")
    else if age < MillisPerDay then
      var h := age / MillisPerHour;
      assert h * MillisPerHour <= age < (h + 1) * MillisPerHour;
      Some(IntToString(h) + "h ago")
    else None
  }

  /** With a clock past the epoch, an item stamped at or after `now` (a clock that went back) shows "Just now". */
  lemma FutureIsJustNow(now: int64, timestamp: int64)
    requires 0 <= now <= timestamp
    ensures FormatTimestamp(now, timestamp) == Some("Just now")
  {
  }

  /**
   * A timestamp so far in the past that `now - timestamp` overflows a
   * `Long` wraps to a negative age and shows "Just now".
   */
  lemma OverflowedAgeIsJustNow()
    ensures FormatTimestamp(0x7FFF_FFFF_FFFF_FFFF, -1) == Some("Just now")
  {
  }

  // ---------------------------------------------------------------------------
  // Settings dialog

  /** A slider's value range. */
  datatype SliderRange = SliderRange(lo: int, hi: int)

  const MaxHistorySlider := SliderRange(10, 500)
  const AutoDeleteSlider := SliderRange(1, 168)
  const BubbleSizeSlider := SliderRange(1, 5)

  /** The value `SettingsSlider` hands back for a slider position: the position truncated by `toInt()`. */
  function SliderValue(range: SliderRange, position: real): (v: int32)
    requires range.lo as real <= position <= range.hi as real
    requires IntMin <= range.lo <= range.hi < IntMax
    ensures range.lo <= v <= range.hi
  {
    FloatToInt(position)
  }

  /** Every slider value of the three integer settings lies in its range. */
  lemma DialogValuesInRange(maxPos: real, hoursPos: real, sizePos: real)
    requires 10.0 <= maxPos <= 500.0 && 1.0 <= hoursPos <= 168.0 && 1.0 <= sizePos <= 5.0
    ensures 10 <= SliderValue(MaxHistorySlider, maxPos) <= 500
    ensures 1 <= SliderValue(AutoDeleteSlider, hoursPos) <= 168
    ensures 1 <= SliderValue(BubbleSizeSlider, sizePos) <= 5
  {
  }

  /**
   * Any age the auto-delete slider offers is far below the 596 hours where
   * the sweep threshold's `Int` product overflows, so the threshold is
   * exactly that many hours before `now`.
   */
  lemma SliderHoursGiveExactThreshold(now: int64, hoursPos: real)
    requires 1.0 <= hoursPos <= 168.0
    requires 0 <= now <= 0x7FFF_FFFF_0000_0000
    ensures var hours := SliderValue(AutoDeleteSlider, hoursPos);
            Threshold(now, hours) == now - hours * MillisPerHour && Threshold(now, hours) < now
  {
    ThresholdExact(now, SliderValue(AutoDeleteSlider, hoursPos));
  }
}
