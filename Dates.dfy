/** The dates the browser scrapers write: a calendar day printed dd-mm-yyyy,
    and the `formatDate` of the Reddit and TikTok scrapers (the two scripts
    define it identically), which reorders dashed dates and turns "... ago"
    texts into a day counted back from now. The clock is a parameter: it
    gives the calendar day of the present moment (after the scraper's own
    time-zone adjustment) moved back by a whole number of units, which stands
    for `new Date()` and the `setSeconds`/`setDate`/`setMonth`/... arithmetic. */
module Dates {
  import Text
  import opened Wrappers

  /** `getDate()`, `getMonth() + 1` and `getFullYear()` of a JavaScript date. */
  datatype Day = Day(day: nat, month: nat, year: nat)

  datatype Unit = Seconds | Minutes | Hours | Days | Months | Years

  /** How far a date is moved back from now. */
  datatype Shift = Now | Back(unit: Unit, amount: int)

  /** `${dd}-${mm}-${yyyy}` with day and month padded to two digits. */
  function Ddmmyyyy(d: Day): (r: string)
    ensures |r| > |Text.Pad2(d.day)| + 1 && r[|Text.Pad2(d.day)|] == '-'
  {
    var dd := Text.Pad2(d.day);
    var r := dd + "-" + Text.Pad2(d.month) + "-" + Text.NatToString(d.year);
    assert r[|dd|] == '-';
    r
  }

  /** What an invalid date prints in the same template. */
  const InvalidDate: string := "NaN-NaN-NaN"

  // ---------------------------------------------------------------------
  // formatDate of the Reddit and TikTok scrapers

  /** The branch of the "ago" handling: the first test that holds, in the
      order the scripts make them. */
  datatype AgoUnit = InSeconds | InMinutes | InHours | InDays | InWeeks | InMonths | InYears | NoUnit

  function AgoUnitOf(s: string): AgoUnit {
    if Text.Contains(s, "s") then InSeconds
    else if Text.Contains(s, "m") && !Text.Contains(s, "mo") then InMinutes
    else if Text.Contains(s, "h") then InHours
    else if Text.Contains(s, "d") then InDays
    else if Text.Contains(s, "w") then InWeeks
    else if Text.Contains(s, "mo") then InMonths
    else if Text.Contains(s, "y") then InYears
    else NoUnit
  }

  /** The move back the branch makes for a parsed amount (weeks are seven
      days each). */
  function ShiftOf(u: AgoUnit, v: int): Shift {
    match u
    case InSeconds => Back(Seconds, v)
    case InMinutes => Back(Minutes, v)
    case InHours => Back(Hours, v)
    case InDays => Back(Days, v)
    case InWeeks => Back(Days, v * 7)
    case InMonths => Back(Months, v)
    case InYears => Back(Years, v)
    case NoUnit => Now
  }

  /** An "ago" text: `parseInt` gives the amount; when it is NaN and a branch
      moves the date, the date is invalid. */
  function Ago(s: string, clock: Shift -> Day): string {
    var u := AgoUnitOf(s);
    match Text.JsParseInt(s)
    case Some(v) => Ddmmyyyy(clock(ShiftOf(u, v)))
    case None => if u == NoUnit then Ddmmyyyy(clock(Now)) else InvalidDate
  }

  /** `formatDate(strDate)`; `strDate` None stands for `undefined` and `null`,
      and `year` for `new Date().getFullYear()`. */
  function FormatDate(strDate: Option<string>, year: nat, clock: Shift -> Day): (r: string)
    ensures strDate.None? ==> r == "No date"
  {
    match strDate
    case None => "No date"
    case Some(s) =>
      var f := Text.SplitOn(s, "-");
      if Text.Contains(s, "-") && |f| == 1 then s
      else if Text.Contains(s, "-") && |f| == 2 then f[1] + "-" + f[0] + "-" + Text.NatToString(year)
      else if Text.Contains(s, "-") && |f| == 3 then f[2] + "-" + f[1] + "-" + f[0]
      else if Text.Contains(Text.Lower(s), "ago") then Ago(s, clock)
      else s
  }

  // ---------------------------------------------------------------------
  // Properties

  /** A text that contains '-' splits into at least two parts, so the
      one-part branch is never taken. */
  lemma DashedSplitsInTwo(s: string)
    requires Text.Contains(s, "-")
    ensures |Text.SplitOn(s, "-")| >= 2
  {
    var i := Text.Find(s, "-").value;
    Text.SplitOnFound(s, "-", i);
  }

  /** The dashed pieces of a text without '-'s of their own. */
  lemma {:induction false} SplitParts(parts: seq<string>)
    requires |parts| > 0 && forall i :: 0 <= i < |parts| ==> !Text.Contains(parts[i], "-")
    ensures Text.SplitOn(Text.Join(parts, "-"), "-") == parts
    decreases |parts|
  {
    if |parts| == 1 {
      assert Text.Join(parts, "-") == parts[0];
    } else {
      var s := Text.Join(parts, "-");
      var rest := Text.Join(parts[1..], "-");
      assert s == parts[0] + "-" + rest;
      DashAfter(parts[0], rest);
      Text.SplitOnFound(s, "-", |parts[0]|);
      assert s[..|parts[0]|] == parts[0];
      assert s[|parts[0]| + 1..] == rest;
      SplitParts(parts[1..]);
      assert [parts[0]] + parts[1..] == parts;
    }
  }

  /** The first '-' of `a + "-" + b` is the one after `a` when `a` has none. */
  lemma DashAfter(a: string, b: string)
    requires !Text.Contains(a, "-")
    ensures Text.Find(a + "-" + b, "-") == Some(|a|)
  {
    var s := a + "-" + b;
    assert Text.OccursAt(s, "-", |a|) by { assert s[|a|..|a| + 1] == "-"; }
    forall j | 0 <= j < |a| ensures !Text.OccursAt(s, "-", j) {
      if Text.OccursAt(s, "-", j) {
        assert s[j] == a[j];
        assert Text.OccursAt(a, "-", j) by { assert a[j..j + 1] == [s[j]]; }
        Text.ContainsExactly(a, "-", j);
      }
    }
    Text.FindFromIs(s, "-", 0, |a|);
  }

  /** "a-b-c" becomes "c-b-a". */
  lemma ThreeParts(a: string, b: string, c: string, year: nat, clock: Shift -> Day)
    requires !Text.Contains(a, "-") && !Text.Contains(b, "-") && !Text.Contains(c, "-")
    ensures FormatDate(Some(a + "-" + b + "-" + c), year, clock) == c + "-" + b + "-" + a
  {
    var parts := [a, b, c];
    var s := a + "-" + b + "-" + c;
    assert Text.Join(parts, "-") == s by {
      assert Text.Join(parts[1..], "-") == b + "-" + c by {
        assert parts[1..][1..] == [c];
      }
    }
    SplitParts(parts);
    DashAfter(a, b + "-" + c);
    assert a + "-" + (b + "-" + c) == s;
  }

  /** Reordering a three-part date twice gives it back. */
  lemma ThreePartsTwice(a: string, b: string, c: string, year: nat, clock: Shift -> Day)
    requires !Text.Contains(a, "-") && !Text.Contains(b, "-") && !Text.Contains(c, "-")
    ensures var once := FormatDate(Some(a + "-" + b + "-" + c), year, clock);
            FormatDate(Some(once), year, clock) == a + "-" + b + "-" + c
  {
    ThreeParts(a, b, c, year, clock);
    ThreeParts(c, b, a, year, clock);
  }

  /** "a-b" becomes "b-a-<this year>". */
  lemma TwoParts(a: string, b: string, year: nat, clock: Shift -> Day)
    requires !Text.Contains(a, "-") && !Text.Contains(b, "-")
    ensures FormatDate(Some(a + "-" + b), year, clock) == b + "-" + a + "-" + Text.NatToString(year)
  {
    var parts := [a, b];
    assert Text.Join(parts, "-") == a + "-" + b by {
      assert parts[1..] == [b];
    }
    SplitParts(parts);
    DashAfter(a, b);
  }

  /** A text with neither '-' nor "ago" is returned as it is. */
  lemma PlainUnchanged(s: string, year: nat, clock: Shift -> Day)
    requires !Text.Contains(s, "-") && !Text.Contains(Text.Lower(s), "ago")
    ensures FormatDate(Some(s), year, clock) == s
  {
  }

  /** A text holds the one-character text `[c]` exactly when one of its
      characters is `c`. */
  lemma ContainsChar(s: string, c: char)
    ensures Text.Contains(s, [c]) <==> exists k :: 0 <= k < |s| && s[k] == c
  {
    if Text.Contains(s, [c]) {
      var k := Text.Find(s, [c]).value;
      assert s[k..k + 1] == [c];
      assert s[k] == c;
    }
    if exists k :: 0 <= k < |s| && s[k] == c {
      var k :| 0 <= k < |s| && s[k] == c;
      assert Text.OccursAt(s, [c], k) by { assert s[k..k + 1] == [c]; }
      Text.ContainsExactly(s, [c], k);
    }
  }

  /** An undashed text with "ago" in it, whatever its case, goes to the "ago"
      handling. */
  lemma FormatAgo(s: string, year: nat, clock: Shift -> Day)
    requires !Text.Contains(s, "-") && Text.Contains(Text.Lower(s), "ago")
    ensures FormatDate(Some(s), year, clock) == Ago(s, clock)
  {
  }

  /** An undashed "ago" text read as a number `v` of the unit `u` moves the
      date back by that many units. */
  lemma AgoCounted(s: string, v: int, u: AgoUnit, year: nat, clock: Shift -> Day)
    requires !Text.Contains(s, "-") && Text.Contains(Text.Lower(s), "ago")
    requires Text.JsParseInt(s) == Some(v) && AgoUnitOf(s) == u
    ensures FormatDate(Some(s), year, clock) == Ddmmyyyy(clock(ShiftOf(u, v)))
  {
    FormatAgo(s, year, clock);
  }

  /** A number, then a text without '-' that holds "ago": the date moves
      back that many units of the branch the text selects. */
  lemma NumberAgo(n: nat, tail: string, k: nat, u: AgoUnit, year: nat, clock: Shift -> Day)
    requires AgoText(n, tail, k, u)
    ensures FormatDate(Some(Text.NatToString(n) + tail), year, clock) == Ddmmyyyy(clock(ShiftOf(u, n)))
  {
    var s := Text.NatToString(n) + tail;
    assert !Text.Contains(s, "-") by { NumberThenLacks(n, tail, '-'); }
    assert Text.Contains(Text.Lower(s), "ago") by { AgoAfterNumber(n, tail, k); }
    assert Text.JsParseInt(s) == Some(n) by { Text.JsParseIntOfNat(n, tail); }
    AgoCounted(s, n, u, year, clock);
  }

  /** The text after the number has no '-', does not continue the number,
      holds "ago" at position `k`, and the whole selects unit `u`. */
  predicate AgoText(n: nat, tail: string, k: nat, u: AgoUnit) {
    (forall i :: 0 <= i < |tail| ==> tail[i] != '-')
    && (tail == [] || !Text.IsAsciiDigit(tail[0]))
    && k + 3 <= |tail| && tail[k] == 'a' && tail[k + 1] == 'g' && tail[k + 2] == 'o'
    && AgoUnitOf(Text.NatToString(n) + tail) == u
  }

  /** Any "ago" text with an 's' in it counts seconds: "<n> days ago" moves
      the date back n seconds. */
  lemma DaysAgoIsSeconds(n: nat, year: nat, clock: Shift -> Day)
    ensures FormatDate(Some(Text.NatToString(n) + " days ago"), year, clock) == Ddmmyyyy(clock(Back(Seconds, n)))
  {
    DaysAgoText(n);
    NumberAgo(n, " days ago", 6, InSeconds, year, clock);
  }

  lemma DaysAgoText(n: nat)
    ensures AgoText(n, " days ago", 6, InSeconds)
  {
    var tail := " days ago";
    assert tail[4] == 's';
    CharAfterNumber(n, tail, 4);
  }

  /** The compact form "<n>d ago" counts days. */
  lemma CompactDaysAgo(n: nat, year: nat, clock: Shift -> Day)
    ensures FormatDate(Some(Text.NatToString(n) + "d ago"), year, clock) == Ddmmyyyy(clock(Back(Days, n)))
  {
    CompactAgoText(n);
    NumberAgo(n, "d ago", 2, InDays, year, clock);
  }

  lemma CompactAgoText(n: nat)
    ensures AgoText(n, "d ago", 2, InDays)
  {
    var tail := "d ago";
    assert forall i :: 0 <= i < |tail| ==> tail[i] != 's' && tail[i] != 'm' && tail[i] != 'h' && tail[i] != '-';
    DaysUnit(n, tail, 0);
  }

  /** Without 's', 'm' or 'h' after the number, a 'd' picks the days branch. */
  lemma DaysUnit(n: nat, tail: string, j: nat)
    requires forall i :: 0 <= i < |tail| ==> tail[i] != 's' && tail[i] != 'm' && tail[i] != 'h'
    requires j < |tail| && tail[j] == 'd'
    ensures AgoUnitOf(Text.NatToString(n) + tail) == InDays
  {
    NumberThenLacks(n, tail, 's');
    NumberThenLacks(n, tail, 'm');
    NumberThenLacks(n, tail, 'h');
    CharAfterNumber(n, tail, j);
  }

  /** A character of the text after a number is a character of the whole. */
  lemma CharAfterNumber(n: nat, tail: string, j: nat)
    requires j < |tail|
    ensures Text.Contains(Text.NatToString(n) + tail, [tail[j]])
  {
    var d := Text.NatToString(n);
    var s := d + tail;
    assert s[|d| + j] == tail[j];
    CharAt(s, |d| + j, tail[j]);
  }

  /** "ago" in the text after a number is found in the whole. */
  lemma AgoAfterNumber(n: nat, tail: string, k: nat)
    requires k + 3 <= |tail| && tail[k] == 'a' && tail[k + 1] == 'g' && tail[k + 2] == 'o'
    ensures Text.Contains(Text.Lower(Text.NatToString(n) + tail), "ago")
  {
    var d := Text.NatToString(n);
    var s := d + tail;
    assert s[|d| + k] == 'a' && s[|d| + k + 1] == 'g' && s[|d| + k + 2] == 'o';
    AgoAt(s, |d| + k);
  }

  /** A character present at a position is contained. */
  lemma CharAt(s: string, k: nat, c: char)
    requires k < |s| && s[k] == c
    ensures Text.Contains(s, [c])
  {
    ContainsChar(s, c);
  }

  /** A number followed by a text without the non-digit `c` has no `c`. */
  lemma NumberThenLacks(n: nat, tail: string, c: char)
    requires !Text.IsAsciiDigit(c) && forall k :: 0 <= k < |tail| ==> tail[k] != c
    ensures !Text.Contains(Text.NatToString(n) + tail, [c])
  {
    var d := Text.NatToString(n);
    var s := d + tail;
    forall k | 0 <= k < |s| ensures s[k] != c {
      if k >= |d| {
        assert s[k] == tail[k - |d|];
      }
    }
    ContainsChar(s, c);
  }

  /** "ago" at position `k` is found by the case-blind test. */
  lemma AgoAt(s: string, k: nat)
    requires k + 3 <= |s| && s[k] == 'a' && s[k + 1] == 'g' && s[k + 2] == 'o'
    ensures Text.Contains(Text.Lower(s), "ago")
  {
    var l := Text.Lower(s);
    assert l[k..k + 3] == "ago";
    Text.ContainsExactly(l, "ago", k);
  }

  /** A dashed date and a date counted back are told apart by the '-' that
      every printed date has after its day. */
  lemma PrintedHasDash(d: Day)
    ensures Text.Contains(Ddmmyyyy(d), "-")
  {
    var r := Ddmmyyyy(d);
    var k := |Text.Pad2(d.day)|;
    assert r[k..k + 1] == "-";
    Text.ContainsExactly(r, "-", k);
  }
}
