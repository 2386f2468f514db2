/**
 * `bot/utility/time_parsing.py`: the same rendering as `bot/util/time_parsing.py`,
 * but taking the text a user typed, so validation comes first. The parse by
 * `pytimeparse.timeparse` is an input (`None` when the text was not understood).
 */
module UtilityTimeParsing {
  import opened Wrappers
  import opened Text
  import U = UtilTimeParsing

  /**
   * `get_pretty_string_duration(duration)`: a missing (`None` or 0) or negative
   * duration is a ValueError; otherwise the rendering, with its own `divmod` chain
   * and appends, which agrees with the rendering in `bot/util/time_parsing.py`.
   */
  function PrettyStringDuration(parsed: Option<int>): (r: Result<string, U.DurationError>)
    ensures r.Err? <==> parsed.None? || parsed.value < 1
    ensures r.Ok? ==> r.value == U.PrettyStringDuration(parsed.value)
  {
    if parsed.None? || parsed.value == 0 || parsed.value < 1 then Err(U.ValueError)
    else
      var seconds := parsed.value;
      var weeks, r1 := seconds / (60 * 60 * 24 * 7), seconds % (60 * 60 * 24 * 7);
      var days, r2 := r1 / (60 * 60 * 24), r1 % (60 * 60 * 24);
      var hours, r3 := r2 / (60 * 60), r2 % (60 * 60);
      var minutes := r3 / 60;
      var u1 := if weeks > 0 then [U.Phrase(weeks, U.Week)] else [];
      var u2 := u1 + if days > 0 then [U.Phrase(days, U.Day)] else [];
      var u3 := u2 + if hours > 0 then [U.Phrase(hours, U.Hour)] else [];
      var u4 := u3 + if minutes > 0 then [U.Phrase(minutes, U.Minute)] else [];
      Ok(Join(", ", u4))
  }

  /** A valid duration shorter than a minute passes validation and renders as the empty string. */
  lemma ShortDurationRendersEmpty(seconds: int)
    requires 1 <= seconds < 60
    ensures PrettyStringDuration(Some(seconds)) == Ok("")
  {
  }

  /** `get_future_timestamp(duration)`: the same validation, then the moment that many seconds from now. */
  function FutureTimestamp(now: int, parsed: Option<int>): (r: Result<int, U.DurationError>)
    ensures r.Err? <==> parsed.None? || parsed.value < 1
    ensures r.Ok? ==> r.value - now == parsed.value >= 1
  {
    if parsed.None? || parsed.value == 0 || parsed.value < 1 then Err(U.ValueError)
    else Ok(now + parsed.value)
  }

  /** Both modules accept and reject the same parsed durations. */
  lemma SameValidation(now: int, parsed: Option<int>)
    ensures FutureTimestamp(now, parsed).Ok? <==> U.FutureTimestamp(now, parsed).Ok?
    ensures PrettyStringDuration(parsed).Ok? <==> U.FutureTimestamp(now, parsed).Ok?
  {
  }
}
