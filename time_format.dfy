/**
 * The relative age shown under each comment: the whole number of the
 * largest calendar-free unit (a 365-day year, a 30-day month, a day, an
 * hour, a minute, a second) that fits into the age in seconds, as
 * "<count> <unit>[s] ago", or "Just now" when not even one second fits.
 * The age in seconds is an input: reading the clock and parsing the
 * timestamp stay outside the model.
 */
module TimeFormat {

  import JsText

  datatype Interval = Interval(labelText: string, seconds: nat)

  /** The units from largest to smallest, with their lengths in seconds. */
  const Intervals: seq<Interval> := [
    Interval("year", 31536000),
    Interval("month", 2592000),
    Interval("day", 86400),
    Interval("hour", 3600),
    Interval("minute", 60),
    Interval("second", 1)
  ]

  const JustNow := "Just now"

  /** The template literal `${count} ${label}${count !== 1 ? 's' : ''} ago`. */
  function Phrase(count: nat, labelText: string): string {
    JsText.NatToString(count) + " " + labelText + (if count != 1 then "s" else "") + " ago"
  }

  /**
   * The first interval at or after `from` that fits into d at least once,
   * or |Intervals| when none does.
   */
  function FirstFit(d: int, from: nat): (k: nat)
    requires from <= |Intervals|
    ensures from <= k <= |Intervals|
    ensures k < |Intervals| ==> Intervals[k].seconds <= d
    ensures forall j :: from <= j < k ==> d < Intervals[j].seconds
    decreases |Intervals| - from
  {
    if from == |Intervals| then from
    else if Intervals[from].seconds <= d then from
    else FirstFit(d, from + 1)
  }

  /** What the comment list shows for an age of d seconds. */
  function TimeAgo(d: int): string {
    var k := FirstFit(d, 0);
    if k == |Intervals| then JustNow
    else Phrase(d / Intervals[k].seconds, Intervals[k].labelText)
  }

  /** For a positive divisor, `Math.floor(d / s) >= 1` exactly when s fits into d. */
  lemma FloorAtLeastOne(d: int, s: int)
    requires s > 0
    ensures d / s >= 1 <==> s <= d
  {
    var q, r := d / s, d % s;
    assert d == s * q + r && 0 <= r < s;
    if q >= 1 {
      assert s * q >= s;
    } else {
      assert s * q <= 0;
    }
  }

  /**
   * formatTimeDifference over the age in whole seconds: try each interval
   * from the largest, and return the phrase for the first one whose count
   * reaches 1.
   */
  method FormatTimeDifference(diffInSeconds: int) returns (s: string)
    ensures s == TimeAgo(diffInSeconds)
  {
    for i := 0 to |Intervals|
      invariant forall j :: 0 <= j < i ==> diffInSeconds < Intervals[j].seconds
    {
      var count := diffInSeconds / Intervals[i].seconds;
      FloorAtLeastOne(diffInSeconds, Intervals[i].seconds);
      if count >= 1 {
        assert FirstFit(diffInSeconds, 0) == i by {
          FirstFitSkips(diffInSeconds, 0, i);
        }
        return Phrase(count, Intervals[i].labelText);
      }
    }
    FirstFitSkips(diffInSeconds, 0, |Intervals|);
    return JustNow;
  }

  /** When no interval in from..k fits, the search starting at from lands at the one starting at k. */
  lemma {:induction false} FirstFitSkips(d: int, from: nat, k: nat)
    requires from <= k <= |Intervals|
    requires forall j :: from <= j < k ==> d < Intervals[j].seconds
    ensures FirstFit(d, from) == FirstFit(d, k)
    decreases k - from
  {
    if from < k {
      FirstFitSkips(d, from + 1, k);
    }
  }

  /** The age reads "Just now" exactly when it is below one second, negative ages included. */
  lemma JustNowIff(d: int)
    ensures TimeAgo(d) == JustNow <==> d < 1
  {
    var k := FirstFit(d, 0);
    if d >= 1 {
      var p := TimeAgo(d);
      assert '0' <= p[0] <= '9';
    } else {
      FirstFitSkips(d, 0, |Intervals|);
    }
  }

  /**
   * An age of at least one second is shown in the largest unit that fits
   * at least once: every larger unit is longer than the age, and the count
   * c of the chosen unit satisfies c >= 1 and c * seconds <= d < (c + 1) * seconds.
   */
  lemma LargestUnit(d: int)
    requires d >= 1
    ensures FirstFit(d, 0) < |Intervals|
    ensures
      var k := FirstFit(d, 0);
      var secs := Intervals[k].seconds;
      var c := d / secs;
      && (forall j :: 0 <= j < k ==> d / Intervals[j].seconds < 1)
      && c >= 1
      && c * secs <= d < (c + 1) * secs
      && TimeAgo(d) == Phrase(c, Intervals[k].labelText)
  {
    var k := FirstFit(d, 0);
    forall j | 0 <= j < k ensures d / Intervals[j].seconds < 1 {
      FloorAtLeastOne(d, Intervals[j].seconds);
    }
    FloorAtLeastOne(d, Intervals[k].seconds);
    FloorBounds(d, Intervals[k].seconds);
  }

  /** The count of a unit brackets the age: c * s <= d < (c + 1) * s. */
  lemma FloorBounds(d: int, s: int)
    requires s > 0
    ensures (d / s) * s <= d < (d / s + 1) * s
  {
    var c, r := d / s, d % s;
    assert d == c * s + r && 0 <= r < s;
    assert (c + 1) * s == c * s + s;
  }

  /** No unit's label ends in 's', so the phrase's plural mark is the suffix alone. */
  lemma PluralIff(k: nat, count: nat)
    requires k < |Intervals|
    ensures
      var p := Phrase(count, Intervals[k].labelText);
      |p| >= 5 && (p[|p| - 5] == 's' <==> count != 1)
  {
    var p := Phrase(count, Intervals[k].labelText);
    var head := JsText.NatToString(count) + " " + Intervals[k].labelText;
    var lbl := Intervals[k].labelText;
    assert lbl[|lbl| - 1] != 's';
    if count != 1 {
      assert p == head + "s" + " ago";
      assert p[|p| - 5] == 's';
    } else {
      assert p == head + " ago";
      assert p[|p| - 5] == head[|head| - 1] == lbl[|lbl| - 1];
    }
  }
}
