/**
 * The `timeago` helper: how long ago a moment was, as "Just now" or as a
 * count of the first unit that fits (years, months, days, hours, minutes),
 * with an "s" when the count is not one. The clock is outside the model:
 * the helper is given the elapsed time `now - date` in whole seconds,
 * negative for a moment in the future.
 */
module TimeAgo {
  import opened Wrappers
  import opened Strings

  datatype Unit = Year | Month | Day | Hour | Minute

  /** What timeago reports: "Just now", or `count` whole units ago. */
  datatype Ago = JustNow | Ago(count: nat, unit: Unit)

  /** A unit's length as the bucketing reckons it: a month is 30 days and a year 365. */
  function UnitSeconds(u: Unit): (r: nat)
    ensures r >= 60
  {
    match u
    case Year => 365 * 86400
    case Month => 30 * 86400
    case Day => 86400
    case Hour => 3600
    case Minute => 60
  }

  /**
   * The bucket the if/elif chain picks. `days` is timedelta.days and
   * `minutes` and `hours` are floor divisions of the elapsed seconds; on a
   * positive divisor Dafny's `/` is Python's `//`.
   */
  function Bucket(elapsed: int): (r: Ago)
    ensures r == JustNow <==> elapsed < 60
    ensures r.Ago? ==> r.count >= 1 && r.count == elapsed / UnitSeconds(r.unit)
    ensures r.Ago? && r.unit == Year <==> elapsed >= 366 * 86400
    ensures r.Ago? && r.unit == Month <==> 31 * 86400 <= elapsed < 366 * 86400
    ensures r.Ago? && r.unit == Month ==> r.count <= 12
    ensures r.Ago? && r.unit == Day <==> 86400 <= elapsed < 31 * 86400
    ensures r.Ago? && r.unit == Hour <==> 3600 <= elapsed < 86400
    ensures r.Ago? && r.unit == Minute <==> 60 <= elapsed < 3600
  {
    var days := elapsed / 86400;
    var minutes := elapsed / 60;
    var hours := minutes / 60;
    if days > 365 then
      DivisionNests(elapsed, 86400, 365);
      Ago(days / 365, Year)
    else if days > 30 then
      DivisionNests(elapsed, 86400, 30);
      Ago(days / 30, Month)
    else if days > 0 then Ago(days, Day)
    else if hours > 0 then
      DivisionNests(elapsed, 60, 60);
      Ago(hours, Hour)
    else if minutes > 0 then Ago(minutes, Minute)
    else JustNow
  }

  /** Dividing by `b` and then by `c`, rounding down each time, is dividing by `b * c`. */
  lemma DivisionNests(a: int, b: int, c: int)
    requires b > 0 && c > 0
    ensures (a / b) / c == a / (b * c)
  {
    var q, r := a / b, a % b;
    var q2, r2 := q / c, q % c;
    calc {
      a;
      q * b + r;
      (q2 * c + r2) * b + r;
      { assert (q2 * c + r2) * b == q2 * (b * c) + r2 * b; }
      q2 * (b * c) + (r2 * b + r);
    }
    MulBelow(r2, c, b);
    DivisionUnique(a, b * c, q2, r2 * b + r);
  }

  /** A remainder below `c` times `b` stays at least `b` under `c * b`. */
  lemma MulBelow(r: int, c: int, b: int)
    requires 0 <= r < c && b > 0
    ensures 0 <= r * b <= c * b - b
  {
    var t := c - 1 - r;
    assert t * b >= 0 && r * b >= 0;
    assert t * b == c * b - b - r * b;
  }

  /** The quotient is the only `q` with `a == q * d + r` and `0 <= r < d`. */
  lemma DivisionUnique(a: int, d: int, q: int, r: int)
    requires d > 0 && a == q * d + r && 0 <= r < d
    ensures a / d == q
  {
    var k := a / d - q;
    assert k * d == r - a % d;
    NonzeroMultiple(k, d);
  }

  /** A nonzero multiple of a positive `d` is at least `d` away from zero. */
  lemma NonzeroMultiple(k: int, d: int)
    ensures d > 0 && k != 0 ==> k * d >= d || k * d <= -d
  {}

  function UnitName(u: Unit): string
  {
    match u
    case Year => "year"
    case Month => "month"
    case Day => "day"
    case Hour => "hour"
    case Minute => "minute"
  }

  /** Everything after the count: the unit, an "s" unless the count is one, then " ago". */
  function Suffix(n: nat, u: Unit): string
  {
    " " + UnitName(u) + (if n != 1 then "s" else "") + " ago"
  }

  /** The f-string of each branch, with `str` of the count. */
  function Render(a: Ago): string
  {
    match a
    case JustNow => "Just now"
    case Ago(n, u) => NatToDecimal(n) + Suffix(n, u)
  }

  /** timeago(date) for a date `elapsed` seconds before now. */
  function TimeAgo(elapsed: int): (r: string)
    ensures r == "Just now" <==> elapsed < 60
    ensures elapsed >= 60 ==> |r| >= 1 && IsDigit(r[0])
  {
    var b := Bucket(elapsed);
    if b.Ago? then
      assert Render(b)[0] == NatToDecimal(b.count)[0];
      Render(b)
    else Render(b)
  }

  /** The length of the run of digits `s` starts with. */
  function DigitRun(s: string): (r: nat)
    ensures r <= |s| && AllDigits(s[..r])
    ensures r < |s| ==> !IsDigit(s[r])
  {
    if s == [] || !IsDigit(s[0]) then 0
    else
      var r := 1 + DigitRun(s[1..]);
      assert s[..r] == [s[0]] + s[1..][..r - 1];
      r
  }

  /** Reads a timeago string back into the bucket it reports. */
  function Parse(s: string): (r: Option<Ago>)
  {
    if s == "Just now" then Some(JustNow)
    else
      var i := DigitRun(s);
      if i == 0 then None
      else
        var n := DecimalValue(s[..i]);
        var rest := s[i..];
        if rest == Suffix(n, Year) then Some(Ago(n, Year))
        else if rest == Suffix(n, Month) then Some(Ago(n, Month))
        else if rest == Suffix(n, Day) then Some(Ago(n, Day))
        else if rest == Suffix(n, Hour) then Some(Ago(n, Hour))
        else if rest == Suffix(n, Minute) then Some(Ago(n, Minute))
        else None
  }

  lemma {:induction false} DigitRunStops(d: string, tail: string)
    requires AllDigits(d) && tail != [] && !IsDigit(tail[0])
    ensures DigitRun(d + tail) == |d|
  {
    if d != [] {
      assert (d + tail)[1..] == d[1..] + tail;
      DigitRunStops(d[1..], tail);
    }
  }

  /** Two units never print the same suffix. */
  lemma SuffixesDiffer(n: nat, u: Unit, v: Unit)
    requires u != v
    ensures Suffix(n, u) != Suffix(n, v)
  {
    var su, sv := Suffix(n, u), Suffix(n, v);
    assert su[1] == UnitName(u)[0] && sv[1] == UnitName(v)[0];
    assert su[2] == UnitName(u)[1] && sv[2] == UnitName(v)[1];
  }

  /** Every report reads back as the bucket it was printed from. */
  lemma RenderParses(a: Ago)
    ensures Parse(Render(a)) == Some(a)
  {
    if a.Ago? {
      var d, suf := NatToDecimal(a.count), Suffix(a.count, a.unit);
      var s := d + suf;
      assert s[0] != 'J';
      DigitRunStops(d, suf);
      assert s[..|d|] == d && s[|d|..] == suf;
      DecimalRoundTrip(a.count);
      forall v | v != a.unit ensures suf != Suffix(a.count, v) {
        SuffixesDiffer(a.count, a.unit, v);
      }
    }
  }

  /** timeago never loses information about its bucket: the string gives the bucket back. */
  lemma TimeAgoParses(elapsed: int)
    ensures Parse(TimeAgo(elapsed)) == Some(Bucket(elapsed))
  {
    RenderParses(Bucket(elapsed));
  }

  /** The plural "s" appears exactly when the count is not one. */
  lemma PluralUnlessOne(elapsed: int)
    requires elapsed >= 60
    ensures EndsWith(TimeAgo(elapsed), "s ago") <==> Bucket(elapsed).count != 1
  {
    var b := Bucket(elapsed);
    var r := TimeAgo(elapsed);
    var name := UnitName(b.unit);
    assert name[|name| - 1] != 's';
    if b.count != 1 {
      assert r[|r| - 5..] == "s ago";
    } else {
      assert r[|r| - 5] == name[|name| - 1];
    }
  }
}
