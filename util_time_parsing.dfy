/**
 * Duration rendering of `bot/util/time_parsing.py`: a number of seconds is split by
 * `divmod` into weeks, days, hours and minutes (leftover seconds are dropped), each
 * non-zero count is rendered in German with its singular or plural unit, and the
 * parts are joined with ", ". `pytimeparse.timeparse` is not modelled: its result
 * is an input (`None` when it could not parse), and `datetime.now()` is a number
 * of seconds passed in.
 */
module UtilTimeParsing {
  import opened Wrappers
  import opened Text

  const SecondsPerMinute := 60
  const SecondsPerHour := 3600
  const SecondsPerDay := 86400
  const SecondsPerWeek := 604800

  /** The exception `get_future_timestamp` raises for a missing or non-positive duration. */
  datatype DurationError = ValueError

  /** The result of the `divmod` chain. */
  datatype Breakdown = Breakdown(weeks: int, days: int, hours: int, minutes: int, seconds: int)

  /**
   * The `divmod` chain. For a positive divisor Python's floor division and Dafny's
   * Euclidean division agree, also for negative seconds.
   */
  function Decompose(delta: int): (b: Breakdown)
    ensures SecondsPerWeek * b.weeks + SecondsPerDay * b.days + SecondsPerHour * b.hours
            + SecondsPerMinute * b.minutes + b.seconds == delta
    ensures 0 <= b.days < 7 && 0 <= b.hours < 24 && 0 <= b.minutes < 60 && 0 <= b.seconds < 60
    ensures delta >= 0 <==> b.weeks >= 0
  {
    var weeks, r1 := delta / SecondsPerWeek, delta % SecondsPerWeek;
    var days, r2 := r1 / SecondsPerDay, r1 % SecondsPerDay;
    var hours, r3 := r2 / SecondsPerHour, r2 % SecondsPerHour;
    var minutes, seconds := r3 / SecondsPerMinute, r3 % SecondsPerMinute;
    Breakdown(weeks, days, hours, minutes, seconds)
  }

  datatype Unit = Week | Day | Hour | Minute

  function Singular(u: Unit): string {
    match u
    case Week => "Woche"
    case Day => "Tag"
    case Hour => "Stunde"
    case Minute => "Minute"
  }

  function Plural(u: Unit): string {
    match u
    case Week => "Wochen"
    case Day => "Tage"
    case Hour => "Stunden"
    case Minute => "Minuten"
  }

  /** One entry of `time_units`: `f"{n} Wochen" if n > 1 else "1 Woche"` and so on. */
  function Phrase(n: int, u: Unit): (r: string)
    requires n > 0
    ensures r == NatToString(n) + " " + (if n == 1 then Singular(u) else Plural(u))
  {
    if n > 1 then NatToString(n) + " " + Plural(u) else "1 " + Singular(u)
  }

  /** `time_units`, built by the four conditional appends. */
  function TimeUnits(b: Breakdown): seq<string>
  {
    var u1 := if b.weeks > 0 then [Phrase(b.weeks, Week)] else [];
    var u2 := u1 + if b.days > 0 then [Phrase(b.days, Day)] else [];
    var u3 := u2 + if b.hours > 0 then [Phrase(b.hours, Hour)] else [];
    u3 + if b.minutes > 0 then [Phrase(b.minutes, Minute)] else []
  }

  /** `get_pretty_string_duration(delta_seconds)` */
  function PrettyStringDuration(delta: int): (r: string)
    ensures 0 <= delta < SecondsPerMinute ==> r == ""
  {
    Join(", ", TimeUnits(Decompose(delta)))
  }

  /**
   * `get_future_timestamp(duration)` with the parsed seconds and the current time
   * given: a missing (`None` or 0) or negative duration is a ValueError, otherwise
   * the moment that many seconds from now and the rendered duration.
   */
  function FutureTimestamp(now: int, parsed: Option<int>): (r: Result<(int, string), DurationError>)
    ensures r.Err? <==> parsed.None? || parsed.value < 1
    ensures r.Ok? ==> r.value.0 - now == parsed.value >= 1
    ensures r.Ok? ==> r.value.1 == PrettyStringDuration(parsed.value)
  {
    if parsed.None? || parsed.value == 0 || parsed.value < 1 then Err(ValueError)
    else Ok((now + parsed.value, PrettyStringDuration(parsed.value)))
  }

  // ------------------------------------------------------------------------
  // An independent reading of the rendered text: a decoder that recovers the
  // unit counts. Decoding what was rendered gives the breakdown back, so the
  // rendering lists exactly the non-zero counts, in unit order, each with the
  // right singular or plural word.

  function UnitIndex(u: Unit): (i: nat)
    ensures i < 4
  {
    match u
    case Week => 0
    case Day => 1
    case Hour => 2
    case Minute => 3
  }

  function UnitAt(i: nat): (u: Unit)
    requires i < 4
    ensures UnitIndex(u) == i
  {
    if i == 0 then Week else if i == 1 then Day else if i == 2 then Hour else Minute
  }

  /** The unit named by a word, provided the word's number agrees with the count. */
  function WordUnit(word: string, n: int): (r: Option<Unit>)
    ensures r.Some? ==> word == (if n == 1 then Singular(r.value) else Plural(r.value))
  {
    if n == 1 then
      if word == "Woche" then Some(Week)
      else if word == "Tag" then Some(Day)
      else if word == "Stunde" then Some(Hour)
      else if word == "Minute" then Some(Minute)
      else None
    else
      if word == "Wochen" then Some(Week)
      else if word == "Tage" then Some(Day)
      else if word == "Stunden" then Some(Hour)
      else if word == "Minuten" then Some(Minute)
      else None
  }

  /** Reads "<count> <unit word>" with a positive count. */
  function ParsePhrase(p: string): (r: Option<(int, Unit)>)
    ensures r.Some? ==> r.value.0 >= 1
  {
    var parts := Split(p, " ");
    if |parts| != 2 then None
    else match ParseInt(parts[0])
      case None => None
      case Some(n) =>
        if n < 1 then None
        else match WordUnit(parts[1], n)
          case None => None
          case Some(u) => Some((n, u))
  }

  /** Reads a list of phrases whose units strictly increase, starting at unit index `next`. */
  function DecodeUnits(phrases: seq<string>, next: nat): (r: Option<seq<int>>)
    ensures r.Some? ==> |r.value| == 4
  {
    if phrases == [] then Some([0, 0, 0, 0])
    else match ParsePhrase(phrases[0])
      case None => None
      case Some(p) =>
        if UnitIndex(p.1) < next then None
        else match DecodeUnits(phrases[1..], UnitIndex(p.1) + 1)
          case None => None
          case Some(c) => Some(c[UnitIndex(p.1) := p.0])
  }

  /** Reads a rendered duration back into its counts of weeks, days, hours and minutes. */
  function Decode(s: string): (r: Option<seq<int>>)
    ensures r.Some? ==> |r.value| == 4
  {
    if s == "" then Some([0, 0, 0, 0]) else DecodeUnits(Split(s, ", "), 0)
  }

  /** The counts rendered by `TimeUnits`, indexed by unit. */
  function Counts(b: Breakdown): (c: seq<int>)
    ensures |c| == 4
  {
    [b.weeks, b.days, b.hours, b.minutes]
  }

  /** The phrases for the units from index `i` on, in unit order, skipping zero counts. */
  function Present(c: seq<int>, i: nat): seq<string>
    requires |c| == 4 && i <= 4
    decreases 4 - i
  {
    if i == 4 then []
    else (if c[i] > 0 then [Phrase(c[i], UnitAt(i))] else []) + Present(c, i + 1)
  }

  /** `c` with the counts before index `i` cleared. */
  function From(c: seq<int>, i: nat): (r: seq<int>)
    requires |c| == 4
    ensures |r| == 4
  {
    seq(4, j requires 0 <= j < 4 => if j < i then 0 else c[j])
  }

  lemma TimeUnitsArePresent(b: Breakdown)
    ensures TimeUnits(b) == Present(Counts(b), 0)
  {
    var c := Counts(b);
    var w := if b.weeks > 0 then [Phrase(b.weeks, Week)] else [];
    var d := if b.days > 0 then [Phrase(b.days, Day)] else [];
    var h := if b.hours > 0 then [Phrase(b.hours, Hour)] else [];
    var m := if b.minutes > 0 then [Phrase(b.minutes, Minute)] else [];
    assert TimeUnits(b) == ((w + d) + h) + m;
    assert Present(c, 3) == m + [];
    assert m + [] == m;
    assert Present(c, 0) == w + (d + (h + m));
    AppendAssoc(w, d, h);
    AppendAssoc(w, d + h, m);
    AppendAssoc(d, h, m);
  }

  lemma AppendAssoc(a: seq<string>, b: seq<string>, c: seq<string>)
    ensures (a + b) + c == a + (b + c)
  {
  }

  lemma PhraseNoComma(n: int, u: Unit)
    requires n > 0
    ensures ',' !in Phrase(n, u) && Phrase(n, u) != []
  {
    var d := NatToString(n);
    assert ',' !in d by {
      forall i | 0 <= i < |d| ensures d[i] != ',' { assert IsDigit(d[i]); }
    }
    var w := if n == 1 then Singular(u) else Plural(u);
    assert ',' !in w;
    assert Phrase(n, u) == d + " " + w;
  }

  lemma {:induction false} PresentNoComma(c: seq<int>, i: nat)
    requires |c| == 4 && i <= 4
    ensures forall k :: 0 <= k < |Present(c, i)| ==> ',' !in Present(c, i)[k] && Present(c, i)[k] != []
    decreases 4 - i
  {
    if i < 4 {
      PresentNoComma(c, i + 1);
      if c[i] > 0 {
        PhraseNoComma(c[i], UnitAt(i));
      }
    }
  }

  lemma {:induction false} PresentEmpty(c: seq<int>, i: nat)
    requires |c| == 4 && i <= 4 && Present(c, i) == []
    ensures forall j :: i <= j < 4 ==> c[j] <= 0
    decreases 4 - i
  {
    if i < 4 {
      PresentEmpty(c, i + 1);
    }
  }

  /** Each phrase reads back as its count and unit. */
  lemma ParsePhraseOf(n: int, u: Unit)
    requires n > 0
    ensures ParsePhrase(Phrase(n, u)) == Some((n, u))
  {
    PhraseSplits(n, u);
    ParseIntToString(n);
    WordUnitOf(u, n);
  }

  /** A phrase splits at its one space into the numeral and the unit word. */
  lemma PhraseSplits(n: int, u: Unit)
    requires n > 0
    ensures Split(Phrase(n, u), " ") == [NatToString(n), if n == 1 then Singular(u) else Plural(u)]
  {
    var d := NatToString(n);
    var w := if n == 1 then Singular(u) else Plural(u);
    assert ' ' !in d by {
      forall i | 0 <= i < |d| ensures d[i] != ' ' { assert IsDigit(d[i]); }
    }
    UnitWordsLackSpace(u);
    assert Phrase(n, u) == Join(" ", [d, w]);
    SplitJoin([d, w], " ");
  }

  lemma UnitWordsLackSpace(u: Unit)
    ensures ' ' !in Singular(u) && ' ' !in Plural(u)
  {
    match u
    case Week =>
    case Day =>
    case Hour =>
    case Minute =>
  }

  lemma WordUnitOf(u: Unit, n: int)
    ensures WordUnit(if n == 1 then Singular(u) else Plural(u), n) == Some(u)
  {
    match u
    case Week =>
    case Day =>
    case Hour =>
    case Minute =>
  }

  lemma {:induction false} DecodePresent(c: seq<int>, i: nat, next: nat)
    requires |c| == 4 && next <= i <= 4
    requires forall j :: 0 <= j < 4 ==> c[j] >= 0
    ensures DecodeUnits(Present(c, i), next) == Some(From(c, i))
    decreases 4 - i
  {
    if i == 4 {
      assert From(c, 4) == [0, 0, 0, 0];
    } else if c[i] > 0 {
      var p := Phrase(c[i], UnitAt(i));
      var rest := Present(c, i + 1);
      assert Present(c, i) == [p] + rest;
      ParsePhraseOf(c[i], UnitAt(i));
      DecodePresent(c, i + 1, i + 1);
      DecodeCons(p, rest, next, c[i], UnitAt(i), From(c, i + 1));
      FromStep(c, i);
    } else {
      assert Present(c, i) == Present(c, i + 1);
      DecodePresent(c, i + 1, next);
      FromStep(c, i);
    }
  }

  lemma FromStep(c: seq<int>, i: nat)
    requires |c| == 4 && i < 4
    ensures From(c, i + 1)[i := c[i]] == From(c, i)
    ensures c[i] == 0 ==> From(c, i + 1) == From(c, i)
  {
  }

  lemma DecodeCons(p: string, rest: seq<string>, next: nat, n: int, u: Unit, tail: seq<int>)
    requires ParsePhrase(p) == Some((n, u)) && next <= UnitIndex(u)
    requires DecodeUnits(rest, UnitIndex(u) + 1) == Some(tail)
    ensures DecodeUnits([p] + rest, next) == Some(tail[UnitIndex(u) := n])
  {
    assert ([p] + rest)[0] == p;
    assert ([p] + rest)[1..] == rest;
  }

  /**
   * Decoding the rendering of a non-negative duration gives back its weeks, days,
   * hours and minutes: a unit is shown exactly when its count is positive, in the
   * order weeks, days, hours, minutes, with the singular word exactly for a count of 1.
   */
  lemma DecodePretty(delta: int)
    requires delta >= 0
    ensures Decode(PrettyStringDuration(delta)) == Some(Counts(Decompose(delta)))
  {
    var b := Decompose(delta);
    TimeUnitsArePresent(b);
    assert PrettyStringDuration(delta) == Join(", ", Present(Counts(b), 0));
    DecodeRendered(Counts(b));
  }

  /** Decoding the joined phrases of non-negative counts gives the counts back. */
  lemma DecodeRendered(c: seq<int>)
    requires |c| == 4 && forall j :: 0 <= j < 4 ==> c[j] >= 0
    ensures Decode(Join(", ", Present(c, 0))) == Some(c)
  {
    var p := Present(c, 0);
    PresentNoComma(c, 0);
    DecodePresent(c, 0, 0);
    FromStart(c);
    if p == [] {
      PresentEmpty(c, 0);
      assert c == [0, 0, 0, 0];
    } else {
      DecodeJoined(p, c);
    }
  }

  lemma FromStart(c: seq<int>)
    requires |c| == 4
    ensures From(c, 0) == c
  {
  }

  /** Phrases without a comma, joined, decode as the phrases themselves do. */
  lemma DecodeJoined(p: seq<string>, c: seq<int>)
    requires p != [] && forall k :: 0 <= k < |p| ==> ',' !in p[k] && p[k] != []
    requires DecodeUnits(p, 0) == Some(c)
    ensures Decode(Join(", ", p)) == Some(c)
  {
    assert Join(", ", p) != "" by {
      JoinStartsWithFirst(", ", p);
    }
    SplitJoin(p, ", ");
  }

  lemma JoinStartsWithFirst(sep: string, parts: seq<string>)
    requires |parts| >= 1
    ensures parts[0] <= Join(sep, parts)
  {
    if |parts| > 1 {
      assert Join(sep, parts) == parts[0] + (sep + Join(sep, parts[1..]));
    }
  }

  /** Two non-negative durations render alike exactly when they have the same number of whole minutes. */
  lemma PrettySameMinutes(x: int, y: int)
    requires x >= 0 && y >= 0
    ensures PrettyStringDuration(x) == PrettyStringDuration(y) <==> x / 60 == y / 60
  {
    var bx, bY := Decompose(x), Decompose(y);
    WholeMinutes(x);
    WholeMinutes(y);
    if PrettyStringDuration(x) == PrettyStringDuration(y) {
      DecodePretty(x);
      DecodePretty(y);
      assert Counts(bx) == Counts(bY);
    }
    if x / 60 == y / 60 {
      MinutesDetermineBreakdown(x, y);
    }
  }

  lemma WholeMinutes(x: int)
    ensures x / 60 == 10080 * Decompose(x).weeks + 1440 * Decompose(x).days + 60 * Decompose(x).hours + Decompose(x).minutes
  {
    var b := Decompose(x);
    var q := 10080 * b.weeks + 1440 * b.days + 60 * b.hours + b.minutes;
    assert x == 60 * q + b.seconds;
  }

  lemma MinutesDetermineBreakdown(x: int, y: int)
    requires x / 60 == y / 60
    ensures Counts(Decompose(x)) == Counts(Decompose(y))
  {
    WholeMinutes(x);
    WholeMinutes(y);
    var a, b := Decompose(x), Decompose(y);
    MixedRadixUnique(a.weeks, a.days, a.hours, a.minutes, b.weeks, b.days, b.hours, b.minutes);
  }

  /** Weeks, days, hours and minutes within their bounds are determined by the total number of minutes. */
  lemma MixedRadixUnique(w: int, d: int, h: int, m: int, w': int, d': int, h': int, m': int)
    requires 0 <= d < 7 && 0 <= h < 24 && 0 <= m < 60
    requires 0 <= d' < 7 && 0 <= h' < 24 && 0 <= m' < 60
    requires 10080 * w + 1440 * d + 60 * h + m == 10080 * w' + 1440 * d' + 60 * h' + m'
    ensures w == w' && d == d' && h == h' && m == m'
  {
  }
}
