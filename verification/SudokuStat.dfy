/** The sliding window of examples/sudoku/stat.h: two circular buffers of one bucket per second, against the plain
    history of responses. */
module SudokuStats {
  const SECONDS: nat := 60

  /** The second in which a response was sent, and its latency in microseconds. */
  datatype Response = Response(second: int, elapsed: int, solved: bool)

  datatype Stat = Stat(lastSecond: int, requests: seq<int>, latencies: seq<int>)

  /** `circular_buffer::push_back`: the oldest bucket makes room. */
  function Push(s: seq<int>, x: int): seq<int>
    requires |s| <= SECONDS
  {
    if |s| == SECONDS then s[1..] + [x] else s + [x]
  }

  function FirstSecond(t: Stat): int {
    t.lastSecond - |t.requests| + 1
  }

  function OneSecond(u: Stat): Stat
    requires |u.requests| == |u.latencies| <= SECONDS
  {
    u.(lastSecond := u.lastSecond + 1, requests := Push(u.requests, 0), latencies := Push(u.latencies, 0))
  }

  /** Advances the window by `n` empty seconds. */
  function Advanced(t: Stat, n: nat): (u: Stat)
    requires |t.requests| == |t.latencies| <= SECONDS
    ensures |u.requests| == |u.latencies| <= SECONDS
    decreases n
  {
    if n == 0 then t
    else OneSecond(Advanced(t, n - 1))
  }

  /** The bucket at index `i` gets one more response. */
  function Counted(t: Stat, i: nat, elapsed: int): Stat
    requires i < |t.requests| == |t.latencies|
  {
    t.(requests := t.requests[i := t.requests[i] + 1], latencies := t.latencies[i := t.latencies[i] + elapsed])
  }

  /** The window reaches back as far as before, but not over more than a minute. */
  predicate Slid(first: int, t: Stat) {
    FirstSecond(t) == if first < t.lastSecond - SECONDS + 1 then t.lastSecond - SECONDS + 1 else first
  }

  // The history.

  /** How many responses of non-negative latency were recorded for second `s`, and how long they took. */
  function Count(h: seq<Response>, s: int): nat {
    if h == [] then 0
    else
      var r := h[|h| - 1];
      Count(h[..|h| - 1], s) + if r.second == s && r.elapsed >= 0 then 1 else 0
  }

  function Latency(h: seq<Response>, s: int): int {
    if h == [] then 0
    else
      var r := h[|h| - 1];
      Latency(h[..|h| - 1], s) + if r.second == s && r.elapsed >= 0 then r.elapsed else 0
  }

  function Solved(h: seq<Response>): nat {
    if h == [] then 0 else Solved(h[..|h| - 1]) + if h[|h| - 1].solved then 1 else 0
  }

  function Bad(h: seq<Response>): nat {
    if h == [] then 0 else Bad(h[..|h| - 1]) + if h[|h| - 1].elapsed < 0 then 1 else 0
  }

  function AllLatency(h: seq<Response>): int {
    if h == [] then 0 else AllLatency(h[..|h| - 1]) + if h[|h| - 1].elapsed < 0 then 0 else h[|h| - 1].elapsed
  }

  /** Every bucket holds what the history says of its second, and the last bucket is for the latest second of all. */
  predicate Window(t: Stat, h: seq<Response>) {
    && |t.requests| == |t.latencies| <= SECONDS
    && (t.lastSecond == 0 <==> t.requests == []) && t.lastSecond >= 0
    && (forall i :: 0 <= i < |h| && h[i].elapsed >= 0 ==> h[i].second <= t.lastSecond)
    && (forall i :: 0 <= i < |t.requests| ==> Bucket(t, h, i))
  }

  predicate Bucket(t: Stat, h: seq<Response>, i: nat)
    requires i < |t.requests| == |t.latencies|
  {
    t.requests[i] == Count(h, FirstSecond(t) + i) && t.latencies[i] == Latency(h, FirstSecond(t) + i)
  }

  lemma HistoryGrows(h: seq<Response>, r: Response, s: int)
    ensures Count(h + [r], s) == Count(h, s) + (if r.second == s && r.elapsed >= 0 then 1 else 0)
    ensures Latency(h + [r], s) == Latency(h, s) + (if r.second == s && r.elapsed >= 0 then r.elapsed else 0)
  {
    assert (h + [r])[..|h|] == h;
  }

  lemma {:induction false} NothingRecorded(h: seq<Response>, s: int)
    requires forall i :: 0 <= i < |h| && h[i].elapsed >= 0 ==> h[i].second != s
    ensures Count(h, s) == 0 && Latency(h, s) == 0
  {
    if h != [] {
      NothingRecorded(h[..|h| - 1], s);
    }
  }

  lemma {:induction false} AdvanceKeeps(t: Stat, h: seq<Response>, n: nat)
    requires Window(t, h) && t.requests != []
    ensures Window(Advanced(t, n), h) && Advanced(t, n).requests != []
    ensures Advanced(t, n).lastSecond == t.lastSecond + n && Slid(FirstSecond(t), Advanced(t, n))
    ensures Advanced(t, n)
        == t.(lastSecond := t.lastSecond + n, requests := Advanced(t, n).requests,
            latencies := Advanced(t, n).latencies)
    decreases n
  {
    if n > 0 {
      AdvanceKeeps(t, h, n - 1);
      var u := Advanced(t, n - 1);
      OneSecondKeeps(u, h);
      assert Advanced(t, n) == OneSecond(u);
      hide Window, Advanced;
    }
  }

  lemma OneSecondKeeps(u: Stat, h: seq<Response>)
    requires Window(u, h) && u.requests != []
    ensures var v := OneSecond(u);
            Window(v, h) && v.requests != [] && v.lastSecond == u.lastSecond + 1 && Slid(FirstSecond(u), v)
  {
    var v := OneSecond(u);
    NothingRecorded(h, v.lastSecond);
    forall i | 0 <= i < |v.requests|
      ensures Bucket(v, h, i)
    {
      var k := FirstSecond(v) + i - FirstSecond(u);
      if k < |u.requests| {
        assert Bucket(u, h, k);
      }
    }
  }

  lemma CountKeeps(t: Stat, h: seq<Response>, r: Response)
    requires Window(t, h) && r.elapsed >= 0 && FirstSecond(t) <= r.second <= t.lastSecond
    ensures Window(Counted(t, r.second - FirstSecond(t), r.elapsed), h + [r])
  {
    var u := Counted(t, r.second - FirstSecond(t), r.elapsed);
    forall i | 0 <= i < |u.requests|
      ensures Bucket(u, h + [r], i)
    {
      assert Bucket(t, h, i);
      HistoryGrows(h, r, FirstSecond(t) + i);
    }
  }

  /** A response outside the window, or with a negative latency, does not show in it. */
  lemma OutsideKeeps(t: Stat, h: seq<Response>, r: Response)
    requires Window(t, h) && (r.elapsed < 0 || r.second < FirstSecond(t))
    ensures Window(t, h + [r])
  {
    forall i | 0 <= i < |t.requests|
      ensures Bucket(t, h + [r], i)
    {
      assert Bucket(t, h, i);
      HistoryGrows(h, r, FirstSecond(t) + i);
    }
  }

  lemma NewWindowKeeps(t: Stat, h: seq<Response>, second: int)
    requires Window(t, h) && second > 0 && second > t.lastSecond
    ensures Window(t.(lastSecond := second, requests := [0], latencies := [0]), h)
  {
    NothingRecorded(h, second);
    var u := t.(lastSecond := second, requests := [0], latencies := [0]);
    assert Bucket(u, h, 0);
  }

  class SudokuStat {
    var lastSecond: int
    var requests: seq<int>
    var latencies: seq<int>
    var totalResponses: nat
    var totalSolved: nat
    var badLatency: nat
    var totalLatency: int
    ghost var history: seq<Response>

    function Now(): Stat
      reads `lastSecond, `requests, `latencies
    {
      Stat(lastSecond, requests, latencies)
    }

    ghost predicate Totals(h: seq<Response>)
      reads `totalResponses, `totalSolved, `badLatency, `totalLatency
    {
      totalResponses == |h| && totalSolved == Solved(h) && badLatency == Bad(h) && totalLatency == AllLatency(h)
    }

    ghost predicate Valid()
      reads this
    {
      Window(Now(), history) && Totals(history)
    }

    constructor ()
      ensures Valid() && history == [] && requests == []
    {
      lastSecond, requests, latencies := 0, [], [];
      totalResponses, totalSolved, badLatency, totalLatency := 0, 0, 0, 0;
      history := [];
    }

    /** `reset` begins a new history. */
    method Reset()
      modifies this
      ensures Valid() && history == [] && requests == []
    {
      lastSecond, requests, latencies := 0, [], [];
      totalResponses, totalSolved, badLatency, totalLatency := 0, 0, 0, 0;
      history := [];
    }

    /** The counters that do not depend on the window. */
    method CountTotals(r: Response)
      requires Totals(history)
      modifies `totalResponses, `totalSolved, `badLatency, `totalLatency
      ensures Totals(history + [r])
    {
      assert (history + [r])[..|history|] == history;
      totalResponses := totalResponses + 1;
      if r.solved {
        totalSolved := totalSolved + 1;
      }
      if r.elapsed < 0 {
        badLatency := badLatency + 1;
      } else {
        totalLatency := totalLatency + r.elapsed;
      }
    }

    /** The loop that jumps ahead. */
    method AdvanceTo(second: int)
      requires Window(Now(), history) && requests != [] && second > lastSecond
      modifies `lastSecond, `requests, `latencies
      ensures Window(Now(), history) && requests != [] && lastSecond == second
      ensures Slid(old(FirstSecond(Now())), Now())
    {
      ghost var t, n: nat := Now(), 0;
      while lastSecond < second
        invariant Now() == Advanced(t, n) && lastSecond == t.lastSecond + n && lastSecond <= second
        invariant |requests| == |latencies| <= SECONDS
      {
        requests := Push(requests, 0);
        latencies := Push(latencies, 0);
        lastSecond := lastSecond + 1;
        n := n + 1;
      }
      AdvanceKeeps(t, history, n);
    }

    /** `recordResponse`, for seconds after the epoch: whatever the order in which they come, the window goes on
        holding what the history says, and its start never moves back. */
    method RecordResponse(r: Response)
      requires Valid() && r.second > 0
      modifies this
      ensures Valid() && history == old(history) + [r]
      ensures r.elapsed >= 0 && old(requests) == [] ==> FirstSecond(Now()) == r.second
      ensures r.elapsed >= 0 && old(requests) != [] ==>
                if r.second < old(lastSecond) + SECONDS then Slid(old(FirstSecond(Now())), Now())
                else FirstSecond(Now()) == r.second
      ensures r.elapsed >= 0 ==> lastSecond == if r.second > old(lastSecond) then r.second else old(lastSecond)
      ensures r.elapsed < 0
          ==> requests == old(requests) && latencies == old(latencies) && lastSecond == old(lastSecond)
    {
      hide Window, Totals;
      CountTotals(r);
      if r.elapsed < 0 {
        OutsideKeeps(Now(), history, r);
      } else {
        RecordInWindow(r);
      }
      history := history + [r];
    }

    method RecordInWindow(r: Response)
      requires Window(Now(), history) && r.second > 0 && r.elapsed >= 0
      modifies `lastSecond, `requests, `latencies
      ensures Window(Now(), history + [r])
      ensures old(requests) == [] ==> FirstSecond(Now()) == r.second
      ensures old(requests) != [] ==>
                if r.second < old(lastSecond) + SECONDS then Slid(old(FirstSecond(Now())), Now())
                else FirstSecond(Now()) == r.second
      ensures lastSecond == if r.second > old(lastSecond) then r.second else old(lastSecond)
    {
      assert requests == [] <==> lastSecond == 0;
      assert |requests| == |latencies|;
      hide Window;
      var firstSecond := lastSecond - |requests| + 1;
      if lastSecond == r.second {
        CountLast(r);
      } else if lastSecond + 1 == r.second || lastSecond == 0 {
        Next(r.second);
        CountLast(r);
      } else if r.second > lastSecond {
        if r.second < lastSecond + SECONDS {
          AdvanceTo(r.second);
        } else {
          NewWindowKeeps(Now(), history, r.second);
          lastSecond, requests, latencies := r.second, [0], [0];
        }
        CountLast(r);
      } else if r.second >= firstSecond {
        var idx := r.second - firstSecond;
        assert idx < |requests|;
        CountKeeps(Now(), history, r);
        requests := requests[idx := requests[idx] + 1];
        latencies := latencies[idx := latencies[idx] + r.elapsed];
      } else {
        OutsideKeeps(Now(), history, r);
      }
    }

    /** The most common case: the response belongs to the last second. */
    method CountLast(r: Response)
      requires Window(Now(), history) && requests != [] && r.elapsed >= 0 && r.second == lastSecond
      modifies `requests, `latencies
      ensures Window(Now(), history + [r]) && |requests| == |old(requests)|
      ensures FirstSecond(Now()) == old(FirstSecond(Now()))
    {
      CountKeeps(Now(), history, r);
      var idx := |requests| - 1;
      requests := requests[idx := requests[idx] + 1];
      latencies := latencies[idx := latencies[idx] + r.elapsed];
    }

    /** A bucket for the next second, or for the first one. */
    method Next(second: int)
      requires Window(Now(), history) && second > 0 && (lastSecond + 1 == second || lastSecond == 0)
      modifies `lastSecond, `requests, `latencies
      ensures Window(Now(), history) && requests != [] && lastSecond == second
      ensures if old(requests) == [] then FirstSecond(Now()) == second else Slid(old(FirstSecond(Now())), Now())
    {
      ghost var t := Now();
      if requests == [] {
        NewWindowKeeps(t, history, second);
        assert Push([], 0) == [0];
      } else {
        AdvanceKeeps(t, history, 1);
        assert Advanced(t, 0) == t;
      }
      lastSecond := second;
      requests := Push(requests, 0);
      latencies := Push(latencies, 0);
      assert t.requests != [] ==> Now() == Advanced(t, 1);
    }
  }
}
