/**
 * The sanitizing callbacks of the plugin's three settings on the Media
 * settings screen, and the condition under which the screen warns that the
 * alternate feed setting has no effect.
 */
module Settings {
  import opened Wrappers
  import opened Php

  const MinImageSize := 200
  const MaxImageSize := 900
  /** The width used when no image size has been saved. */
  const DefaultImageSize := 560

  /** The sanitizer of the simplify and alternate-feed checkboxes: `(int) (bool) $new_value`. */
  function OneZero(v: Value): (r: int)
    ensures r == 0 || r == 1
    ensures r == 1 <==> Truthy(v)
  {
    if Truthy(v) then 1 else 0
  }

  /** A width the image size setting accepts: its integer cast lies in [200, 900]. */
  predicate InRange(v: Value) {
    MinImageSize <= IntVal(v) <= MaxImageSize
  }

  /**
   * The sanitizer of the image size setting. `stored` is what get_option
   * finds for the setting, None when nothing has been saved.
   */
  function MediaValue(newValue: Value, stored: Option<Value>): (r: Value)
    ensures MinImageSize <= AbsInt(newValue) <= MaxImageSize ==> r == Int(AbsInt(newValue))
    ensures !(MinImageSize <= AbsInt(newValue) <= MaxImageSize) ==> r == stored.GetOr(Int(DefaultImageSize))
  {
    var n := AbsInt(newValue);
    if n == 0 || n < MinImageSize || n > MaxImageSize then stored.GetOr(Int(DefaultImageSize))
    else Int(n)
  }

  /** The sign is dropped before the range test: -300, as a number or as form text, is saved as 300. */
  lemma MediaValueNegative(stored: Option<Value>)
    ensures MediaValue(Int(-300), stored) == Int(300)
    ensures MediaValue(Str("-300"), stored) == Int(300)
  {
    IntToStringRoundTrip(-300);
    assert IntToString(-300) == "-300";
  }

  /** Nothing saved and an out-of-range input: the default width is kept. */
  lemma MediaValueDefault(newValue: Value)
    requires !InRange(Int(AbsInt(newValue)))
    ensures MediaValue(newValue, None) == Int(DefaultImageSize)
  {
  }

  /** The saved width stays in [200, 900] as long as it already was, or nothing was saved. */
  lemma MediaValueInRange(newValue: Value, stored: Option<Value>)
    requires stored.None? || InRange(stored.value)
    ensures InRange(MediaValue(newValue, stored))
  {
  }

  /** Submitting an accepted width again saves the same number: the sanitizer is idempotent. */
  lemma MediaValueIdempotent(newValue: Value, stored: Option<Value>, later: Option<Value>)
    requires stored.None? || InRange(stored.value)
    ensures var once := MediaValue(newValue, stored);
      MediaValue(once, later) == Int(IntVal(once))
  {
    var once := MediaValue(newValue, stored);
    assert InRange(once);
  }

  /**
   * error_message's condition: the warning that the alternate feed is
   * ignored shows exactly when both it and simplify are switched on.
   */
  function ShowsAlternateFeedWarning(alternateFeed: Value, simplify: Value): (r: bool)
    ensures r <==> Truthy(alternateFeed) && Truthy(simplify)
    ensures r ==> OneZero(alternateFeed) == 1 && OneZero(simplify) == 1
  {
    Truthy(alternateFeed) && Truthy(simplify)
  }
}
