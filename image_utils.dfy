/** Time labels and the upload guard (src/utils/imageUtils.js): the countdown to a
    story's expiry, the "time ago" label, and the two checks made on a file before
    it is read. Times are integer milliseconds; `now` is a parameter. */
module ImageUtils {

  const TwentyFourHours: int := 24 * 60 * 60 * 1000
  const HourMs: int := 60 * 60 * 1000
  const MinuteMs: int := 60 * 1000
  /** 10 MiB, the largest accepted upload. */
  const MaxSize: int := 10 * 1024 * 1024

  // ---------------------------------------------------------------------------
  // Decimal text of the numbers placed in the labels

  predicate IsDigit(c: char)
  {
    '0' <= c <= '9'
  }

  function DigitChar(d: int): (c: char)
    requires 0 <= d < 10
    ensures IsDigit(c) && c as int - '0' as int == d
  {
    ('0' as int + d) as char
  }

  /** The decimal text of `n`, without leading zeros, as a template literal prints it. */
  function NatToString(n: nat): (s: string)
    ensures |s| >= 1
    ensures forall i :: 0 <= i < |s| ==> IsDigit(s[i])
    ensures |s| > 1 ==> s[0] != '0'
  {
    if n < 10 then [DigitChar(n)] else NatToString(n / 10) + [DigitChar(n % 10)]
  }

  function DigitValue(c: char): nat
    requires IsDigit(c)
  {
    c as int - '0' as int
  }

  /** Reads decimal digits back; the partner of NatToString. */
  function ParseNat(s: string): nat
    requires forall i :: 0 <= i < |s| ==> IsDigit(s[i])
  {
    if s == [] then 0 else 10 * ParseNat(s[..|s| - 1]) + DigitValue(s[|s| - 1])
  }

  lemma {:induction false} NatToStringRoundTrip(n: nat)
    ensures ParseNat(NatToString(n)) == n
  {
    var s := NatToString(n);
    if n >= 10 {
      NatToStringRoundTrip(n / 10);
      assert s[..|s| - 1] == NatToString(n / 10);
    }
  }

  /** Different numbers print differently. */
  lemma NatToStringInjective(m: nat, n: nat)
    requires NatToString(m) == NatToString(n)
    ensures m == n
  {
    NatToStringRoundTrip(m);
    NatToStringRoundTrip(n);
  }

  // ---------------------------------------------------------------------------
  // getTimeRemaining

  datatype TimeLeft = Expired | Left(hours: int, minutes: int)

  /** Whole hours and minutes left before the story is 24 hours old, truncated to the minute. */
  function TimeRemaining(timestamp: int, now: int): (r: TimeLeft)
    ensures r.Expired? <==> now - timestamp >= TwentyFourHours
    ensures r.Left? ==>
      var remaining := TwentyFourHours - (now - timestamp);
      && 0 <= r.hours
      && 0 <= r.minutes < 60
      && r.hours * HourMs + r.minutes * MinuteMs <= remaining < r.hours * HourMs + (r.minutes + 1) * MinuteMs
  {
    var elapsed := now - timestamp;
    var remaining := TwentyFourHours - elapsed;
    if remaining <= 0 then Expired
    else Left(remaining / HourMs, (remaining % HourMs) / MinuteMs)
  }

  /** The countdown label: "Expired", "{h}h {m}m" or "{m}m". */
  function GetTimeRemaining(timestamp: int, now: int): (s: string)
    ensures s == "Expired" <==> now - timestamp >= TwentyFourHours
    ensures 'h' in s <==> TwentyFourHours - (now - timestamp) >= HourMs
    ensures |s| > 0 && s[|s| - 1] == (if now - timestamp >= TwentyFourHours then 'd' else 'm')
    ensures var t := TimeRemaining(timestamp, now);
      t.Left? ==> s == (if t.hours > 0 then NatToString(t.hours) + "h " else "") + NatToString(t.minutes) + "m"
  {
    match TimeRemaining(timestamp, now)
    case Expired => "Expired"
    case Left(hours, minutes) =>
      var m := NatToString(minutes);
      assert "Expired"[6] == 'd';
      if hours > 0 then
        var text := NatToString(hours) + "h " + m + "m";
        assert text[|NatToString(hours)|] == 'h';
        assert text[|text| - 1] == 'm';
        text
      else
        assert forall i :: 0 <= i < |m + "m"| ==> (m + "m")[i] != 'h';
        assert (m + "m")[|m|] == 'm';
        m + "m"
  }

  /** For a story not from the future, the countdown never shows more than 24 hours,
      and shows 24 hours only at the very moment of creation, as "24h 0m". */
  lemma CountdownAtMostADay(timestamp: int, now: int)
    requires timestamp <= now
    ensures TimeRemaining(timestamp, now).Left? ==>
      TimeRemaining(timestamp, now).hours <= 24 &&
      (TimeRemaining(timestamp, now).hours == 24 <==> now == timestamp)
    ensures GetTimeRemaining(timestamp, now) == "24h 0m" <==> now == timestamp
  {
    var s := GetTimeRemaining(timestamp, now);
    if s == "24h 0m" {
      var t := TimeRemaining(timestamp, now);
      assert 'h' in s;
      var hs := NatToString(t.hours);
      assert s == hs + "h " + NatToString(t.minutes) + "m";
      assert s[|hs|] == 'h';
      assert forall k :: 0 <= k < |s| && s[k] == 'h' ==> k == 2;
      assert hs == s[..2] == NatToString(24);
      NatToStringInjective(t.hours, 24);
    }
  }

  // ---------------------------------------------------------------------------
  // getRelativeTime

  /** `Math.floor(a / b)` for a positive divisor. */
  function FloorDiv(a: int, b: int): (q: int)
    requires b > 0
    ensures q * b <= a < q * b + b
  {
    a / b
  }

  /** Flooring to seconds and then to minutes is flooring to minutes, and likewise for hours. */
  lemma NestedFloors(elapsed: int)
    ensures FloorDiv(FloorDiv(elapsed, 1000), 60) == FloorDiv(elapsed, MinuteMs)
    ensures FloorDiv(FloorDiv(FloorDiv(elapsed, 1000), 60), 60) == FloorDiv(elapsed, HourMs)
  {
  }

  datatype Ago = HoursAgo(hours: int) | MinutesAgo(minutes: int) | JustNow

  /** The largest whole unit of time elapsed since `timestamp`, or nothing under a minute
      (which includes a timestamp in the future). */
  function RelativeTime(timestamp: int, now: int): (r: Ago)
    ensures r.HoursAgo? <==> now - timestamp >= HourMs
    ensures r.MinutesAgo? <==> MinuteMs <= now - timestamp < HourMs
    ensures r.JustNow? <==> now - timestamp < MinuteMs
    ensures r.HoursAgo? ==> 1 <= r.hours && r.hours * HourMs <= now - timestamp < (r.hours + 1) * HourMs
    ensures r.MinutesAgo? ==>
      1 <= r.minutes < 60 && r.minutes * MinuteMs <= now - timestamp < (r.minutes + 1) * MinuteMs
    ensures r.HoursAgo? ==> r.hours == (now - timestamp) / HourMs
    ensures r.MinutesAgo? ==> r.minutes == (now - timestamp) / MinuteMs
  {
    var elapsed := now - timestamp;
    var seconds := FloorDiv(elapsed, 1000);
    var minutes := FloorDiv(seconds, 60);
    var hours := FloorDiv(minutes, 60);
    NestedFloors(elapsed);
    if hours > 0 then HoursAgo(hours)
    else if minutes > 0 then MinutesAgo(minutes)
    else JustNow
  }

  /** The label: "{h}h ago", "{m}m ago" or "Just now". */
  function GetRelativeTime(timestamp: int, now: int): (s: string)
    ensures s == "Just now" <==> now - timestamp < MinuteMs
    ensures now - timestamp >= HourMs ==> s == NatToString((now - timestamp) / HourMs) + "h ago"
    ensures MinuteMs <= now - timestamp < HourMs ==> s == NatToString((now - timestamp) / MinuteMs) + "m ago"
  {
    match RelativeTime(timestamp, now)
    case HoursAgo(hours) =>
      assert (NatToString(hours) + "h ago")[0] == NatToString(hours)[0] != "Just now"[0];
      NatToString(hours) + "h ago"
    case MinutesAgo(minutes) =>
      assert (NatToString(minutes) + "m ago")[0] == NatToString(minutes)[0] != "Just now"[0];
      NatToString(minutes) + "m ago"
    case JustNow => "Just now"
  }

  // ---------------------------------------------------------------------------
  // The guards at the start of processImage

  datatype ImageFile = ImageFile(mimeType: string, size: int)

  datatype ValidationError = NotAnImage | TooLarge

  datatype Validation = Accepted | Rejected(error: ValidationError)

  /** A MIME type that starts with the text `image/`: a case-sensitive prefix test,
      so the bare "image/" passes and "Image/png" does not. */
  predicate IsImageType(mimeType: string)
  {
    "image/" <= mimeType
  }

  /** The text shown for a rejected file; each rejection has its own, and the size
      message names the 10 MB limit. */
  function ErrorMessage(e: ValidationError): (m: string)
    ensures e == TooLarge <==> |m| >= 4 && m[|m| - 4..] == "10MB"
  {
    match e
    case NotAnImage => "File must be an image"
    case TooLarge => "Image size must be less than 10MB"
  }

  /** The type is checked first, then the size; at most 10 MiB is accepted. */
  function ValidateImageFile(file: ImageFile): (r: Validation)
    ensures r == Accepted <==> IsImageType(file.mimeType) && file.size <= MaxSize
    ensures r == Rejected(NotAnImage) <==> !IsImageType(file.mimeType)
    ensures r == Rejected(TooLarge) <==> IsImageType(file.mimeType) && file.size > MaxSize
  {
    if !IsImageType(file.mimeType) then Rejected(NotAnImage)
    else if file.size > MaxSize then Rejected(TooLarge)
    else Accepted
  }
}
