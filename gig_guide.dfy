/**
 * The pure helpers of the browser script (public/script.js): the ordinal
 * day of month, the 12-hour clock of the gig guide, the venue and ticket
 * link of a gig, and the weekday table used to open today's schedule card.
 */
module GigGuide {
  import opened Wrappers
  import opened JsStrings
  import Schedule

  // ---------------------------------------------------------------- ordinals

  const Suffixes: seq<string> := ["th", "st", "nd", "rd", "th"]

  /** The suffix `getOrdinal` picks from its table, following the English rule for ordinals. */
  function OrdinalSuffix(n: nat): (r: string)
    ensures r == "st" <==> n % 10 == 1 && n % 100 != 11
    ensures r == "nd" <==> n % 10 == 2 && n % 100 != 12
    ensures r == "rd" <==> n % 10 == 3 && n % 100 != 13
    ensures r == "th" <==> 11 <= n % 100 <= 13 || n % 10 == 0 || n % 10 >= 4
    ensures |r| == 2
  {
    var index := if n % 10 <= 3 && n % 100 !in [11, 12, 13] then n % 10 else 0;
    Suffixes[index]
  }

  /** The decimal text of a number followed by its two-letter suffix. */
  function Ordinal(n: nat): (r: string)
    ensures |r| == |DecimalText(n)| + 2
    ensures r[..|r| - 2] == DecimalText(n) && r[|r| - 2..] == OrdinalSuffix(n)
    ensures forall i :: 0 <= i < |r| - 2 ==> IsDigit(r[i])
    ensures DigitsValue(r[..|r| - 2]) == n
  {
    var r := DecimalText(n) + OrdinalSuffix(n);
    assert r[..|r| - 2] == DecimalText(n);
    DecimalTextValue(n);
    r
  }

  lemma OrdinalExamples()
    ensures OrdinalSuffix(1) == "st" && OrdinalSuffix(2) == "nd" && OrdinalSuffix(3) == "rd"
    ensures OrdinalSuffix(11) == "th" && OrdinalSuffix(12) == "th" && OrdinalSuffix(13) == "th"
    ensures OrdinalSuffix(21) == "st" && OrdinalSuffix(22) == "nd" && OrdinalSuffix(23) == "rd"
    ensures OrdinalSuffix(111) == "th" && OrdinalSuffix(31) == "st"
  {
  }

  // ---------------------------------------------------------------- time of day

  /** `hours % 12 || 12` for an hour of the day. */
  function TwelveHour(hours: nat): (r: nat)
    requires hours < 24
    ensures 1 <= r <= 12
    ensures r % 12 == hours % 12
    ensures hours == 0 ==> r == 12
    ensures hours == 13 ==> r == 1
  {
    if hours % 12 == 0 then 12 else hours % 12
  }

  /** `hours >= 12 ? 'pm' : 'am'` */
  function Meridiem(hours: nat): (r: string)
    ensures |r| == 2
    ensures r == "pm" <==> hours >= 12
    ensures r == "am" <==> hours < 12
  {
    if hours >= 12 then "pm" else "am"
  }

  /** The 24-hour clock hour a 12-hour reading stands for. */
  function To24(hour: nat, pm: bool): (r: nat)
    ensures r < 24
  {
    hour % 12 + if pm then 12 else 0
  }

  /** The 12-hour reading (hour and am/pm) determines the hour of the day. */
  lemma TwelveHourRoundTrip(hours: nat)
    requires hours < 24
    ensures To24(TwelveHour(hours), Meridiem(hours) == "pm") == hours
  {
  }

  /** Different hours of the day are shown differently. */
  lemma TwelveHourInjective(h1: nat, h2: nat)
    requires h1 < 24 && h2 < 24 && h1 != h2
    ensures TwelveHour(h1) != TwelveHour(h2) || Meridiem(h1) != Meridiem(h2)
  {
    TwelveHourRoundTrip(h1);
    TwelveHourRoundTrip(h2);
  }

  lemma {:induction false} DecimalTextLength(n: nat)
    ensures n < 10 <==> |DecimalText(n)| == 1
    ensures n < 100 ==> |DecimalText(n)| <= 2
  {
    if n >= 10 {
      DecimalTextLength(n / 10);
    }
  }

  /** `getMinutes().toString().padStart(2, '0')` */
  function MinutesText(minutes: nat): (r: string)
    ensures |r| >= 2
    ensures minutes < 100 ==> |r| == 2
    ensures forall i :: 0 <= i < |r| ==> IsDigit(r[i])
    ensures DigitsValue(r) == minutes
  {
    var digits := DecimalText(minutes);
    DecimalTextLength(minutes);
    DecimalTextValue(minutes);
    var r := PadStart(digits, 2, '0');
    if |digits| < 2 then
      assert r == "0" + digits;
      LeadingZeroValue(digits);
      r
    else
      r
  }

  /** `${hours}:${minutes}${ampm}`: the 12-hour clock hour, a colon, two or more minute digits and the am/pm mark. */
  function TimeText(hours: nat, minutes: nat): (r: string)
    requires hours < 24
    ensures |r| == |DecimalText(TwelveHour(hours))| + 1 + |MinutesText(minutes)| + 2
    ensures r[..|DecimalText(TwelveHour(hours))|] == DecimalText(TwelveHour(hours))
    ensures r[|DecimalText(TwelveHour(hours))|] == ':'
    ensures r[|DecimalText(TwelveHour(hours))| + 1..|r| - 2] == MinutesText(minutes)
    ensures r[|r| - 2..] == Meridiem(hours)
  {
    var h := DecimalText(TwelveHour(hours));
    ClockParts(h, MinutesText(minutes), Meridiem(hours));
    h + ":" + MinutesText(minutes) + Meridiem(hours)
  }

  lemma ClockParts(h: string, m: string, p: string)
    requires |p| == 2
    ensures |h + ":" + m + p| == |h| + 1 + |m| + 2
    ensures (h + ":" + m + p)[..|h|] == h
    ensures (h + ":" + m + p)[|h|] == ':'
    ensures (h + ":" + m + p)[|h| + 1..|h| + 1 + |m|] == m
    ensures (h + ":" + m + p)[|h| + 1 + |m|..] == p
  {
    var r := h + ":" + m + p;
    assert r[..|h|] == h;
    assert r[|h| + 1..|h| + 1 + |m|] == m;
    assert r[|h| + 1 + |m|..] == p;
  }

  /**
   * `convertDate` once the date is read: the weekday and month names come
   * from the locale and are parameters here.  The whole line is upper-cased.
   */
  function GigDate(weekday: string, day: nat, month: string, hours: nat, minutes: nat): (r: string)
    requires hours < 24
    ensures r == UpperCase(weekday) + " " + UpperCase(Ordinal(day)) + " " + UpperCase(month)
                 + " " + UpperCase(TimeText(hours, minutes))
    ensures |r| == |weekday| + |Ordinal(day)| + |month| + |TimeText(hours, minutes)| + 3
    ensures forall i :: 0 <= i < |r| ==> !('a' <= r[i] <= 'z')
  {
    var line := weekday + " " + Ordinal(day) + " " + month + " " + TimeText(hours, minutes);
    UpperCaseHasNoLower(line);
    UpperCaseAppend(weekday + " " + Ordinal(day) + " " + month + " ", TimeText(hours, minutes));
    UpperCaseAppend(weekday + " " + Ordinal(day) + " " + month, " ");
    UpperCaseAppend(weekday + " " + Ordinal(day) + " ", month);
    UpperCaseAppend(weekday + " " + Ordinal(day), " ");
    UpperCaseAppend(weekday + " ", Ordinal(day));
    UpperCaseAppend(weekday, " ");
    assert UpperCase(" ") == " ";
    UpperCase(line)
  }

  lemma TimeExamples()
    ensures MinutesText(5) == "05"
    ensures TwelveHour(0) == 12 && Meridiem(0) == "am"
    ensures TwelveHour(19) == 7 && Meridiem(19) == "pm"
  {
    assert DigitChar(5) == '5';
    assert DecimalText(5) == ['5'];
    assert Repeat('0', 1) == ['0'];
    assert PadStart(['5'], 2, '0') == ['0'] + ['5'];
  }

  // ---------------------------------------------------------------- gig details

  /** The venue line of a gig: city and venue name, whichever of them is non-empty. */
  function Venue(city: Option<string>, venue: Option<string>): (r: string)
    ensures Truthy(city) && Truthy(venue) ==> r == city.value + ", " + venue.value
    ensures Truthy(city) && !Truthy(venue) ==> r == city.value
    ensures !Truthy(city) && Truthy(venue) ==> r == venue.value
    ensures r == "" <==> !Truthy(city) && !Truthy(venue)
  {
    if Truthy(city) && Truthy(venue) then city.value + ", " + venue.value
    else if Truthy(city) then city.value
    else if Truthy(venue) then venue.value
    else ""
  }

  const AnchorOpen: string := "<a id=\"ticket-link\" href=\""
  const AnchorClose: string := "\">Tickets</a>"

  /** The `Tickets` anchor, pointing at `href`. */
  function TicketAnchor(href: string): (r: string)
    ensures |r| == |AnchorOpen| + |href| + |AnchorClose|
    ensures r[..|AnchorOpen|] == AnchorOpen
    ensures r[|AnchorOpen|..|r| - |AnchorClose|] == href
    ensures r[|r| - |AnchorClose|..] == AnchorClose
  {
    Framed(AnchorOpen, href, AnchorClose);
    AnchorOpen + href + AnchorClose
  }

  lemma Framed(a: string, m: string, b: string)
    ensures var r := a + m + b;
            r[..|a|] == a && r[|a|..|r| - |b|] == m && r[|r| - |b|..] == b
  {
    var r := a + m + b;
    assert r[..|a|] == a;
    assert r[|a|..|r| - |b|] == m;
    assert r[|r| - |b|..] == b;
  }

  /** The tickets link: the gig's website, else its listing `url`, else nothing. */
  function TicketsLink(website: Option<string>, url: Option<string>): (r: string)
    ensures Truthy(website) ==> r == TicketAnchor(website.value)
    ensures !Truthy(website) && Truthy(url) ==> r == TicketAnchor(url.value)
    ensures r == "" <==> !Truthy(website) && !Truthy(url)
  {
    if Truthy(website) then TicketAnchor(website.value)
    else if Truthy(url) then TicketAnchor(url.value)
    else ""
  }

  // ---------------------------------------------------------------- weekday table

  /** Weekday names indexed as `Date.getDay()` counts, Sunday first. */
  const WeekdaysFromSunday: seq<string> := ["sunday", "monday", "tuesday", "wednesday", "thursday", "friday", "saturday"]

  /** `days[new Date().getDay()]` */
  function Today(weekday: nat): (r: string)
    requires weekday < 7
    ensures weekday == 0 ==> r == "sunday"
    ensures r in Schedule.Days
  {
    WeekdaysFromSunday[weekday]
  }

  /** The browser's Sunday-first table names the same day as the server's Monday-first list, shifted by one. */
  lemma TodayMatchesServerDays(weekday: nat)
    requires weekday < 7
    ensures Today(weekday) == Schedule.Days[(weekday + 6) % 7]
  {
  }
}
