/** Uptime arithmetic and rendering: `get_uptime` splits the whole seconds
    read from /proc/uptime into days, hours, minutes and seconds and renders
    them as "D days, HH hrs, MM mins, SS secs"; `get_process_uptime` does the
    same for the age of the first process whose name contains a given word,
    without the seconds. */
module Uptime {
  import opened Py

  /** A duration split into calendar-like parts. */
  datatype Span = Span(days: nat, hours: nat, minutes: nat, seconds: nat)

  /** The number of seconds a span stands for. */
  function Seconds(d: Span): nat {
    d.days * 86400 + d.hours * 3600 + d.minutes * 60 + d.seconds
  }

  predicate Normal(d: Span) {
    d.hours < 24 && d.minutes < 60 && d.seconds < 60
  }

  /** The split `get_uptime` performs with `//` and `%` on a non-negative
      count of seconds (Python's floor division agrees with Dafny's for a
      positive divisor). It is exact, and every part below days is in range. */
  function Split(total: nat): (d: Span)
    ensures Normal(d)
    ensures Seconds(d) == total
  {
    var d := Span(total / 86400, total % 86400 / 3600, total % 3600 / 60, total % 60);
    SplitExact(total);
    d
  }

  lemma SplitExact(total: nat)
    ensures total / 86400 * 86400 + total % 86400 / 3600 * 3600 + total % 3600 / 60 * 60 + total % 60 == total
    ensures total % 86400 / 3600 < 24
  {
    var r := total % 86400;
    var h := r / 3600;
    assert r == h * 3600 + r % 3600;
    assert total == total / 86400 * 86400 + r;
    assert total % 3600 == r % 3600 by {
      assert total == (total / 86400 * 24) * 3600 + r;
      ModAfterMultiple(total, total / 86400 * 24, 3600, r);
    }
    assert r % 3600 == r % 3600 / 60 * 60 + total % 60 by {
      var m := r % 3600;
      assert m == m / 60 * 60 + m % 60;
      assert total == (total / 86400 * 1440 + h * 60) * 60 + m by {
        assert total == total / 86400 * 86400 + h * 3600 + m;
      }
      ModAfterMultiple(total, total / 86400 * 1440 + h * 60, 60, m);
    }
  }

  /** Adding a multiple of `k` does not change the remainder. */
  lemma ModAfterMultiple(n: int, q: int, k: int, m: int)
    requires k > 0 && 0 <= m && n == q * k + m
    ensures n % k == m % k
  {
    var a := m / k;
    var b := m % k;
    assert m == a * k + b;
    assert n == (q + a) * k + b;
    DivModUnique(n, q + a, k, b);
  }

  /** Quotient and remainder are determined by the division equation. */
  lemma DivModUnique(n: int, q: int, k: int, r: int)
    requires k > 0 && 0 <= r < k && n == q * k + r
    ensures n / k == q && n % k == r
  {
    var q' := n / k;
    var r' := n % k;
    assert n == q' * k + r';
    if q' < q {
      assert (q' + 1) * k == q' * k + k;
      MulMono(q' + 1, q, k);
    } else if q < q' {
      assert (q + 1) * k == q * k + k;
      MulMono(q + 1, q', k);
    }
  }

  lemma MulMono(a: int, b: int, k: int)
    requires a <= b && k >= 0
    ensures a * k <= b * k
  {
    var d := b - a;
    assert d * k >= 0;
    assert b * k == a * k + d * k;
  }

  /** Split is the inverse of Seconds on normal spans: the rendering of a
      duration never loses or invents time. */
  lemma SplitSeconds(d: Span)
    requires Normal(d)
    ensures Split(Seconds(d)) == d
  {
    var n := Seconds(d);
    var low := d.hours * 3600 + d.minutes * 60 + d.seconds;
    assert low < 86400;
    DivModUnique(n, d.days, 86400, low);
    var mid := d.minutes * 60 + d.seconds;
    assert mid < 3600;
    DivModUnique(low, d.hours, 3600, mid);
    DivModUnique(n, d.days * 24 + d.hours, 3600, mid);
    DivModUnique(mid, d.minutes, 60, d.seconds);
    DivModUnique(n, d.days * 1440 + d.hours * 60 + d.minutes, 60, d.seconds);
  }

  // ---------------------------------------------------------------------
  // Decimal rendering

  predicate IsDigit(c: char) {
    '0' <= c <= '9'
  }

  predicate AllDigits(s: string) {
    forall i :: 0 <= i < |s| ==> IsDigit(s[i])
  }

  /** The number a string of decimal digits denotes. */
  function DigitsValue(s: string): nat
    requires AllDigits(s)
  {
    if s == [] then 0
    else DigitsValue(s[..|s| - 1]) * 10 + (s[|s| - 1] as int - '0' as int)
  }

  /** `str(n)` for a non-negative integer: its decimal digits, no leading
      zero (the single digit "0" for zero). */
  function NatToString(n: nat): (s: string)
    ensures |s| >= 1 && AllDigits(s) && DigitsValue(s) == n
    ensures (|s| > 1 ==> s[0] != '0') && (n < 10 <==> |s| == 1)
    ensures n < 100 ==> |s| <= 2
  {
    var last := ('0' as int + n % 10) as char;
    if n < 10 then [last]
    else
      var s := NatToString(n / 10) + [last];
      assert s[..|s| - 1] == NatToString(n / 10);
      s
  }

  /** `f"{n:02d}"`: the decimal digits of `n`, zero-padded to two places. */
  function Pad2(n: nat): (s: string)
    ensures AllDigits(s) && DigitsValue(s) == n
    ensures n < 100 ==> |s| == 2
  {
    var t := NatToString(n);
    if |t| < 2 then
      var s := "0" + t;
      assert s[..1] == "0";
      s
    else t
  }

  // ---------------------------------------------------------------------
  // The rendered forms

  /** "D days, HH hrs, MM mins, SS secs" for a span: it starts with the
      unpadded days, and for a normal span the other three fields take
      exactly two characters each. */
  function Render(d: Span): (text: string)
    ensures NatToString(d.days) <= text
    ensures Normal(d) ==> |text| == |NatToString(d.days)| + 31
  {
    NatToString(d.days) + " days, " + Pad2(d.hours) + " hrs, "
      + Pad2(d.minutes) + " mins, " + Pad2(d.seconds) + " secs"
  }

  /** "D days, HH hrs, MM mins" for a span; its seconds are not shown. */
  function RenderNoSeconds(d: Span): (text: string)
    ensures NatToString(d.days) <= text
    ensures Normal(d) ==> |text| == |NatToString(d.days)| + 22
  {
    NatToString(d.days) + " days, " + Pad2(d.hours) + " hrs, " + Pad2(d.minutes) + " mins"
  }

  /** `get_uptime`: the rendered uptime when /proc/uptime could be read and
      its first field parsed (given here as its floor), "Unknown" otherwise. */
  function GetUptime(reading: Option<nat>): (text: string)
    ensures reading.None? <==> text == "Unknown"
    ensures reading.Some? ==> ParseRendered(text) == Some(Split(reading.value))
  {
    match reading
    case None =>
      "Unknown"
    case Some(total) =>
      RenderedRoundTrip(Split(total));
      Render(Split(total))
  }

  // ---------------------------------------------------------------------
  // Reading the rendered forms back

  /** The longest prefix of decimal digits and what follows it. */
  function LeadingDigits(s: string): (p: (string, string))
    ensures AllDigits(p.0) && p.0 + p.1 == s
    ensures p.1 == [] || !IsDigit(p.1[0])
  {
    if s == [] || !IsDigit(s[0]) then ([], s)
    else
      var tail := LeadingDigits(s[1..]);
      var ds := [s[0]] + tail.0;
      assert forall i :: 0 < i < |ds| ==> ds[i] == tail.0[i - 1];
      assert ds + tail.1 == s;
      (ds, tail.1)
  }

  lemma {:induction false} LeadingDigitsOf(ds: string, rest: string)
    requires AllDigits(ds)
    requires rest == [] || !IsDigit(rest[0])
    ensures LeadingDigits(ds + rest) == (ds, rest)
  {
    if ds == [] {
      assert ds + rest == rest;
    } else {
      assert (ds + rest)[1..] == ds[1..] + rest;
      LeadingDigitsOf(ds[1..], rest);
      assert [ds[0]] + ds[1..] == ds;
    }
  }

  /** Reads one number followed by a literal tag. */
  function Field(s: string, tag: string, width: nat): Option<(nat, string)> {
    var (ds, rest) := LeadingDigits(s);
    if ds == [] || (width > 0 && |ds| != width) || !(tag <= rest) then None
    else Some((DigitsValue(ds), rest[|tag|..]))
  }

  lemma FieldOf(n: nat, tag: string, width: nat, tail: string, digits: string)
    requires digits == (if width == 2 then Pad2(n) else NatToString(n))
    requires width == 0 || (width == 2 && n < 100)
    requires tag != [] && !IsDigit(tag[0])
    ensures Field(digits + tag + tail, tag, width) == Some((n, tail))
  {
    assert digits + tag + tail == digits + (tag + tail);
    LeadingDigitsOf(digits, tag + tail);
    assert (tag + tail)[..|tag|] == tag;
    assert (tag + tail)[|tag|..] == tail;
  }

  /** Reads "D days, HH hrs, MM mins, SS secs" back into a span. */
  function ParseRendered(text: string): Option<Span> {
    match Field(text, " days, ", 0)
    case None => None
    case Some((days, r1)) =>
      match Field(r1, " hrs, ", 2)
      case None => None
      case Some((hours, r2)) =>
        match Field(r2, " mins, ", 2)
        case None => None
        case Some((minutes, r3)) =>
          match Field(r3, " secs", 2)
          case None => None
          case Some((seconds, r4)) =>
            if r4 == [] then Some(Span(days, hours, minutes, seconds)) else None
  }

  /** Reads "D days, HH hrs, MM mins" back into a span with no seconds. */
  function ParseRenderedNoSeconds(text: string): Option<Span> {
    match Field(text, " days, ", 0)
    case None => None
    case Some((days, r1)) =>
      match Field(r1, " hrs, ", 2)
      case None => None
      case Some((hours, r2)) =>
        match Field(r2, " mins", 2)
        case None => None
        case Some((minutes, r3)) =>
          if r3 == [] then Some(Span(days, hours, minutes, 0)) else None
  }

  /** The uptime text determines the span it was rendered from: the days are
      unpadded, and hours, minutes and seconds take exactly two digits each. */
  lemma RenderedRoundTrip(d: Span)
    requires Normal(d)
    ensures ParseRendered(Render(d)) == Some(d)
  {
    var a := NatToString(d.days);
    var b := Pad2(d.hours);
    var c := Pad2(d.minutes);
    var e := Pad2(d.seconds);
    var t4 := e + " secs";
    var t3 := c + " mins, " + t4;
    var t2 := b + " hrs, " + t3;
    assert Render(d) == a + " days, " + t2;
    FieldOf(d.days, " days, ", 0, t2, a);
    assert Field(Render(d), " days, ", 0) == Some((d.days, t2));
    FieldOf(d.hours, " hrs, ", 2, t3, b);
    FieldOf(d.minutes, " mins, ", 2, t4, c);
    assert e + " secs" + [] == t4;
    FieldOf(d.seconds, " secs", 2, [], e);
  }

  /** The process-uptime text determines the whole minutes it shows. */
  lemma RenderedNoSecondsRoundTrip(d: Span)
    requires Normal(d)
    ensures ParseRenderedNoSeconds(RenderNoSeconds(d)) == Some(d.(seconds := 0))
  {
    var a := NatToString(d.days);
    var b := Pad2(d.hours);
    var c := Pad2(d.minutes);
    var t3 := c + " mins";
    var t2 := b + " hrs, " + t3;
    assert RenderNoSeconds(d) == a + " days, " + t2;
    FieldOf(d.days, " days, ", 0, t2, a);
    FieldOf(d.hours, " hrs, ", 2, t3, b);
    FieldOf(d.minutes, " mins", 2, [], c);
    assert c + " mins" + [] == t3;
  }

  // ---------------------------------------------------------------------
  // get_process_uptime

  /** One entry of the process table, with the attributes the server asks
      for; an attribute the process table refused to give is None. `age` is
      the whole seconds between the process's creation time and now. */
  datatype Proc = Proc(name: Option<string>, age: Option<nat>)

  /** `word in name` on strings. */
  predicate Contains(name: string, word: string) {
    word <= name || (name != [] && Contains(name[1..], word))
  }

  /** What `get_process_uptime` reports for the entries from `i` on. */
  function ProcessUptimeFrom(procs: seq<Proc>, word: string, i: nat): string
    requires i <= |procs|
    decreases |procs| - i
  {
    if i == |procs| then "Not running"
    else match procs[i].name
      case None => "Unknown"
      case Some(name) =>
        if !Contains(name, word) then ProcessUptimeFrom(procs, word, i + 1)
        else match procs[i].age
          case None => "Unknown"
          case Some(age) => RenderNoSeconds(Split(age))
  }

  /** `get_process_uptime(word)` over a process table, or over a table that
      could not be listed (None). */
  function ProcessUptime(table: Option<seq<Proc>>, word: string): string {
    match table
    case None => "Unknown"
    case Some(procs) => ProcessUptimeFrom(procs, word, 0)
  }

  /** The scan `get_process_uptime` performs: the first process whose name
      contains `word` decides the answer; a process whose name could not be
      read stops the scan with "Unknown". */
  method GetProcessUptime(table: Option<seq<Proc>>, word: string) returns (text: string)
    ensures text == ProcessUptime(table, word)
  {
    if table.None? {
      return "Unknown";
    }
    var procs := table.value;
    var i := 0;
    while i < |procs|
      invariant 0 <= i <= |procs|
      invariant ProcessUptimeFrom(procs, word, i) == ProcessUptimeFrom(procs, word, 0)
    {
      var p := procs[i];
      if p.name.None? {
        return "Unknown";
      }
      if Contains(p.name.value, word) {
        if p.age.None? {
          return "Unknown";
        }
        return RenderNoSeconds(Split(p.age.value));
      }
      i := i + 1;
    }
    text := "Not running";
  }

  /** The scan passes the entries from `i` up to `j`: each has a readable
      name that does not contain `word`. */
  predicate Passes(procs: seq<Proc>, word: string, i: nat, j: nat)
    requires i <= j <= |procs|
  {
    forall k :: i <= k < j ==> procs[k].name.Some? && !Contains(procs[k].name.value, word)
  }

  /** The first entry the scan does not pass decides the answer: an
      unreadable name gives "Unknown"; a name containing `word` gives that
      process's age rendered without seconds, or "Unknown" when its age
      could not be read. */
  lemma {:induction false} FirstMatchDecides(procs: seq<Proc>, word: string, i: nat, j: nat)
    requires i <= j < |procs| && Passes(procs, word, i, j)
    ensures procs[j].name.None? ==> ProcessUptimeFrom(procs, word, i) == "Unknown"
    ensures procs[j].name.Some? && Contains(procs[j].name.value, word) ==>
              ProcessUptimeFrom(procs, word, i)
                == match procs[j].age
                   case None => "Unknown"
                   case Some(age) => RenderNoSeconds(Split(age))
    decreases j - i
  {
    if i < j {
      FirstMatchDecides(procs, word, i + 1, j);
    }
  }

  /** "Not running" is reported exactly when the scan passes every entry.
      Otherwise the answer comes from the first entry it does not pass:
      "Unknown" for an unreadable name or age, or else the rendered age of
      that first matching process, which reads back to its whole minutes. */
  lemma {:induction false} NotRunningExactly(procs: seq<Proc>, word: string, i: nat)
    requires i <= |procs|
    ensures ProcessUptimeFrom(procs, word, i) == "Not running" <==> Passes(procs, word, i, |procs|)
    ensures var t := ProcessUptimeFrom(procs, word, i);
            || t == "Not running"
            || (t == "Unknown"
                && exists j :: i <= j < |procs| && Passes(procs, word, i, j)
                               && (procs[j].name.None? || (Contains(procs[j].name.value, word) && procs[j].age.None?)))
            || exists j :: i <= j < |procs| && Passes(procs, word, i, j)
                           && procs[j].name.Some? && Contains(procs[j].name.value, word) && procs[j].age.Some?
                           && t == RenderNoSeconds(Split(procs[j].age.value))
                           && ParseRenderedNoSeconds(t) == Some(Split(procs[j].age.value).(seconds := 0))
    decreases |procs| - i
  {
    if i < |procs| {
      NotRunningExactly(procs, word, i + 1);
      var t := ProcessUptimeFrom(procs, word, i);
      var p := procs[i];
      if p.name.Some? && Contains(p.name.value, word) && p.age.Some? {
        var age := p.age.value;
        assert t == RenderNoSeconds(Split(age));
        assert t[0] == NatToString(Split(age).days)[0];
        assert t != "Not running";
        RenderedNoSecondsRoundTrip(Split(age));
        assert Passes(procs, word, i, i);
      } else if p.name.None? || Contains(p.name.value, word) {
        assert Passes(procs, word, i, i);
      } else {
        assert t == ProcessUptimeFrom(procs, word, i + 1);
        if t == "Unknown" {
          var j :| i + 1 <= j < |procs| && Passes(procs, word, i + 1, j)
                   && (procs[j].name.None? || (Contains(procs[j].name.value, word) && procs[j].age.None?));
          assert Passes(procs, word, i, j);
        } else if t != "Not running" {
          var j :| i + 1 <= j < |procs| && Passes(procs, word, i + 1, j)
                   && procs[j].name.Some? && Contains(procs[j].name.value, word) && procs[j].age.Some?
                   && t == RenderNoSeconds(Split(procs[j].age.value))
                   && ParseRenderedNoSeconds(t) == Some(Split(procs[j].age.value).(seconds := 0));
          assert Passes(procs, word, i, j);
        }
      }
    }
  }
}
