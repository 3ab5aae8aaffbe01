/** Local time in a zone given by its transition table (muduo/base/TimeZone.cc). Broken-down times are
    those of module `Calendar`, which is what the source's remarks at `gmtime_r` and `timegm` ask for. */
module TimeZones {
  import opened Calendar

  datatype Localtime = Localtime(gmtOffset: int, isDst: bool)

  datatype Transition = Transition(gmttime: int, localtime: int, localtimeIdx: nat)

  datatype Zone = Zone(transitions: seq<Transition>, localtimes: seq<Localtime>) {
    predicate Valid() {
      && localtimes != []
      && forall i :: 0 <= i < |transitions| ==> Entered(i)
    }

    /** How `readTimeZoneFile` fills in a transition. */
    predicate Entered(i: nat)
      requires i < |transitions|
    {
      var x := transitions[i];
      x.localtimeIdx < |localtimes| && x.localtime == x.gmttime + localtimes[x.localtimeIdx].gmtOffset
    }

    /** The times that `Comp(true)` or `Comp(false)` compares. */
    function Times(gmt: bool): (s: seq<int>)
      ensures |s| == |transitions|
    {
      seq(|transitions|, i requires 0 <= i < |transitions| => if gmt then transitions[i].gmttime
          else transitions[i].localtime)
    }

    /** The local time of the period that transition `i - 1` opens; period 0 is the time before all of them. */
    function Period(i: nat): Localtime
      requires Valid() && i <= |transitions|
    {
      if i == 0 then localtimes[0] else assert Entered(i - 1); localtimes[transitions[i - 1].localtimeIdx]
    }

    /** Any two offsets differ by at most `d`, and the transitions are further apart than that. */
    predicate Spread(d: nat)
      requires Valid()
    {
      && (forall i, j ::
          0 <= i <= |transitions| && 0 <= j <= |transitions| ==> Period(i).gmtOffset - Period(j).gmtOffset <= d)
      && forall i, j :: 0 <= i < j < |transitions| ==> transitions[j].gmttime - transitions[i].gmttime > d
    }
  }

  predicate Ascending(s: seq<int>) {
    forall i, j :: 0 <= i < j < |s| ==> s[i] < s[j]
  }

  /** `std::lower_bound`: how many entries come before the key. */
  function LowerBound(s: seq<int>, key: int): (n: nat)
    ensures n <= |s| && (n < |s| ==> key <= s[n])
    ensures forall i :: 0 <= i < n ==> s[i] < key
  {
    if s == [] || key <= s[0] then 0 else 1 + LowerBound(s[1..], key)
  }

  /** `findLocaltime`. */
  function FindLocaltime(z: Zone, key: int, gmt: bool): Localtime
    requires z.Valid()
  {
    var s := z.Times(gmt);
    if s == [] || key < s[0] then z.localtimes[0]
    else
      var n := LowerBound(s, key);
      if n < |s| then
        if key != s[n] then z.Period(n) else z.Period(n + 1)
      else z.Period(|s|)
  }

  /** The key lies in period `p`: not before the transition that opens it, and before the next one. */
  predicate Within(s: seq<int>, key: int, p: nat) {
    p <= |s| && (p > 0 ==> s[p - 1] <= key) && (p < |s| ==> key < s[p])
  }

  /** `findLocaltime` finds the period that the key lies in, and there is just one. */
  lemma FindsThePeriod(z: Zone, key: int, gmt: bool, p: nat)
    requires z.Valid() && Ascending(z.Times(gmt)) && Within(z.Times(gmt), key, p)
    ensures FindLocaltime(z, key, gmt) == z.Period(p)
  {
    var s := z.Times(gmt);
    var n := LowerBound(s, key);
    if n < |s| && key == s[n] {
      SamePeriod(s, key, p, n + 1);
    } else {
      SamePeriod(s, key, p, n);
    }
  }

  lemma SamePeriod(s: seq<int>, key: int, p: nat, q: nat)
    requires Ascending(s) && Within(s, key, p) && Within(s, key, q)
    ensures p == q
  {
    if p < q {
      LaterPeriod(s, key, p, q);
    } else if q < p {
      LaterPeriod(s, key, q, p);
    }
  }

  lemma LaterPeriod(s: seq<int>, key: int, p: nat, q: nat)
    requires Ascending(s) && Within(s, key, p) && p < q
    ensures !Within(s, key, q)
  {
    assert q <= |s| ==> s[p] <= s[q - 1];
  }

  /** The period that a key lies in. */
  function PeriodOf(s: seq<int>, key: int): (p: nat)
    ensures p <= |s| && (Ascending(s) ==> Within(s, key, p))
  {
    var n := LowerBound(s, key);
    if n < |s| && key == s[n] then n + 1 else n
  }

  datatype LocalTm = LocalTm(tm: Tm, isDst: bool)

  /** `TimeZone::toLocalTime`. */
  function ToLocalTime(z: Zone, seconds: int): LocalTm
    requires z.Valid()
  {
    var local := FindLocaltime(z, seconds, true);
    LocalTm(ToUtcTime(seconds + local.gmtOffset, true), local.isDst)
  }

  /** The local time is the UTC time shifted by the offset of the period that the moment lies in, with its flag. */
  lemma ShowsThePeriod(z: Zone, seconds: int, p: nat)
    requires z.Valid() && Ascending(z.Times(true)) && Within(z.Times(true), seconds, p)
    ensures ToLocalTime(z, seconds)
        == LocalTm(ToUtcTime(seconds + z.Period(p).gmtOffset, true), z.Period(p).isDst)
  {
    hide ToUtcTime, FindLocaltime, Ascending, Within;
    FindsThePeriod(z, seconds, true, p);
  }

  /** `TimeZone::fromLocalTime`. */
  function FromLocalTime(z: Zone, l: LocalTm): int
    requires z.Valid()
  {
    var seconds := FromUtcTime(l.tm);
    var local := FindLocaltime(z, seconds, false);
    var tryTm := ToLocalTime(z, seconds - local.gmtOffset);
    if l.isDst && !tryTm.isDst && tryTm.tm.hour == l.tm.hour && tryTm.tm.minute == l.tm.minute then
      seconds - 3600 - local.gmtOffset
    else
      seconds - local.gmtOffset
  }

  /** The clock shows the time of `t`, in period `p`, again after the transition that ends the period. */
  predicate ShownTwice(z: Zone, t: int, p: nat)
    requires z.Valid() && Within(z.Times(true), t, p)
  {
    p < |z.transitions| && t + z.Period(p).gmtOffset >= z.transitions[p].localtime
  }

  /** What the clock shows lies, on the local scale, in the same period, or in the next when it is shown twice. */
  lemma LocalPeriod(z: Zone, d: nat, t: int, p: nat)
    requires z.Valid() && z.Spread(d) && Within(z.Times(true), t, p)
    ensures Ascending(z.Times(true)) && Ascending(z.Times(false))
    ensures Within(z.Times(false), t + z.Period(p).gmtOffset, if ShownTwice(z, t, p) then p + 1 else p)
    ensures ShownTwice(z, t, p) ==>
              && z.Period(p).gmtOffset > z.Period(p + 1).gmtOffset
              && Within(z.Times(true), t + z.Period(p).gmtOffset - z.Period(p + 1).gmtOffset, p + 1)
  {
    var g, s := z.Times(true), z.Times(false);
    forall i | 0 <= i < |s|
      ensures g[i] == z.transitions[i].gmttime && s[i] == g[i] + z.Period(i + 1).gmtOffset
    {
      assert z.Entered(i);
    }
    forall i, j | 0 <= i < j < |s|
      ensures g[j] - g[i] > d && s[i] < s[j]
    {
      assert z.Period(i + 1).gmtOffset - z.Period(j + 1).gmtOffset <= d;
    }
    if p + 1 < |s| {
      assert g[p + 1] - g[p] > d;
      assert z.Period(p).gmtOffset - z.Period(p + 2).gmtOffset <= d;
      assert z.Period(p).gmtOffset - z.Period(p + 1).gmtOffset <= d;
    }
  }

  /** The clock time is shown once: it is found in the period it came from. */
  lemma OnceRoundTrip(z: Zone, d: nat, t: int, p: nat)
    requires z.Valid() && z.Spread(d) && Within(z.Times(true), t, p) && !ShownTwice(z, t, p)
    requires t + z.Period(p).gmtOffset >= FIRST_SECOND
    ensures FromLocalTime(z, ToLocalTime(z, t)) == t
  {
    hide ToUtcTime, FromUtcTime, FindLocaltime, Ascending, Within, ShownTwice;
    LocalPeriod(z, d, t, p);
    var s := t + z.Period(p).gmtOffset;
    FindsThePeriod(z, t, true, p);
    UtcRoundTrip(s, true);
    FindsThePeriod(z, s, false, p);
  }

  /** The clock time is shown twice: it is found in the later period, and the hour step is taken back. */
  lemma TwiceRoundTrip(z: Zone, d: nat, t: int, p: nat)
    requires z.Valid() && z.Spread(d) && Within(z.Times(true), t, p) && ShownTwice(z, t, p)
    requires t + z.Period(p).gmtOffset >= FIRST_SECOND
    ensures p < |z.transitions|
    ensures FromLocalTime(z, ToLocalTime(z, t)) == t
            <==>
              && z.Period(p).isDst && !z.Period(p + 1).isDst
              && z.Period(p).gmtOffset - z.Period(p + 1).gmtOffset == 3600
  {
    hide ToUtcTime, FromUtcTime, FindLocaltime, Ascending, Within, ShownTwice;
    LocalPeriod(z, d, t, p);
    NotTheLast(z, t, p);
    var here, there := z.Period(p), z.Period(p + 1);
    var s := t + here.gmtOffset;
    FindsThePeriod(z, t, true, p);
    UtcRoundTrip(s, true);
    FindsThePeriod(z, s, false, p + 1);
    FindsThePeriod(z, s - there.gmtOffset, true, p + 1);
  }

  /** A moment survives the way to local time and back exactly when its clock time is not shown again
      later, or when that is the one-hour step from summer time back to standard time. */
  lemma LocalRoundTrip(z: Zone, d: nat, t: int)
    requires z.Valid() && z.Spread(d) && Ascending(z.Times(true))
    requires t + z.Period(PeriodOf(z.Times(true), t)).gmtOffset >= FIRST_SECOND
    ensures var p := PeriodOf(z.Times(true), t);
            FromLocalTime(z, ToLocalTime(z, t)) == t <==>
              || !ShownTwice(z, t, p)
              || (z.Period(p).isDst && !z.Period(p + 1).isDst
                  && z.Period(p).gmtOffset - z.Period(p + 1).gmtOffset == 3600)
  {
    hide ToLocalTime, FromLocalTime, Ascending, ShownTwice, PeriodOf;
    var p := PeriodOf(z.Times(true), t);
    if ShownTwice(z, t, p) {
      TwiceRoundTrip(z, d, t, p);
    } else {
      OnceRoundTrip(z, d, t, p);
    }
  }

  lemma NotTheLast(z: Zone, t: int, p: nat)
    requires z.Valid() && Within(z.Times(true), t, p) && ShownTwice(z, t, p)
    ensures p + 1 <= |z.transitions|
  {
  }

  /** A zone made from one offset, as the source's second constructor does, loses no moment. */
  lemma FixedZoneRoundTrip(offset: int, t: int)
    requires t + offset >= FIRST_SECOND
    ensures var z := Zone([], [Localtime(offset, false)]);
            z.Valid() && FromLocalTime(z, ToLocalTime(z, t)) == t
  {
    var z := Zone([], [Localtime(offset, false)]);
    assert z.Spread(0);
    LocalRoundTrip(z, 0, t);
  }
}
