/** Counting argument behind both rate limiters: consecutive windows, each with a bounded number of
    admissions, bound the admissions of any interval. */
module FixedWindows {

  /** One life of a counter key: when it was created, and the instants it admitted a request. */
  datatype Window = Window(start: int, times: seq<int>)

  /** Windows follow each other: starts are at least `width` apart, no window admits more than `cap`,
      and every admission lies between its own window's start and the next window's start. */
  ghost predicate Consecutive(ws: seq<Window>, width: nat, cap: nat) {
    && (forall i | 0 <= i < |ws| :: |ws[i].times| <= cap)
    && (forall i, a | 0 <= i < |ws| && 0 <= a < |ws[i].times| :: ws[i].start <= ws[i].times[a])
    && (forall i, j | 0 <= i < j < |ws| :: ws[i].start + width <= ws[j].start)
    && (forall i, j, a | 0 <= i < j < |ws| && 0 <= a < |ws[i].times| :: ws[i].times[a] <= ws[j].start)
  }

  function CountTimes(ts: seq<int>, lo: int, hi: int): (n: nat)
    ensures n <= |ts|
  {
    if ts == [] then 0
    else CountTimes(ts[..|ts| - 1], lo, hi) + if lo <= ts[|ts| - 1] < hi then 1 else 0
  }

  /** Admissions of all windows in the half-open interval [lo, hi). */
  function Count(ws: seq<Window>, lo: int, hi: int): nat {
    if ws == [] then 0
    else Count(ws[..|ws| - 1], lo, hi) + CountTimes(ws[|ws| - 1].times, lo, hi)
  }

  /** How many windows start inside [lo, hi). */
  function Starts(ws: seq<Window>, lo: int, hi: int): nat {
    if ws == [] then 0
    else Starts(ws[..|ws| - 1], lo, hi) + if lo <= ws[|ws| - 1].start < hi then 1 else 0
  }

  lemma CountOneMoreWindow(ws: seq<Window>, w: Window, lo: int, hi: int)
    ensures Count(ws + [w], lo, hi) == Count(ws, lo, hi) + CountTimes(w.times, lo, hi)
  {
    assert (ws + [w])[..|ws|] == ws;
  }

  lemma CountOneMoreTime(ws: seq<Window>, t: int, lo: int, hi: int)
    requires ws != []
    ensures var n := |ws| - 1;
      Count(ws[n := Window(ws[n].start, ws[n].times + [t])], lo, hi) ==
      Count(ws, lo, hi) + if lo <= t < hi then 1 else 0
  {
    var n := |ws| - 1;
    var w := Window(ws[n].start, ws[n].times + [t]);
    assert ws[n := w] == ws[..n] + [w] && ws == ws[..n] + [ws[n]];
    CountOneMoreWindow(ws[..n], w, lo, hi);
    CountOneMoreWindow(ws[..n], ws[n], lo, hi);
    assert w.times[..|w.times| - 1] == ws[n].times;
  }

  lemma {:induction false} NoTimes(ts: seq<int>, lo: int, hi: int)
    requires forall a | 0 <= a < |ts| :: ts[a] < lo || hi <= ts[a]
    ensures CountTimes(ts, lo, hi) == 0
  {
    if ts != [] {
      NoTimes(ts[..|ts| - 1], lo, hi);
    }
  }

  lemma {:induction false} NoCount(ws: seq<Window>, lo: int, hi: int)
    requires forall i, a | 0 <= i < |ws| && 0 <= a < |ws[i].times| :: ws[i].times[a] < lo
    ensures Count(ws, lo, hi) == 0
  {
    if ws != [] {
      NoCount(ws[..|ws| - 1], lo, hi);
      NoTimes(ws[|ws| - 1].times, lo, hi);
    }
  }

  /** Only one window can reach into the interval from before it. */
  lemma {:induction false} CountByStarts(ws: seq<Window>, width: nat, cap: nat, lo: int, hi: int)
    requires Consecutive(ws, width, cap)
    ensures Count(ws, lo, hi) <= Share(cap, Starts(ws, lo, hi))
  {
    if ws != [] {
      var n := |ws| - 1;
      CountByStarts(ws[..n], width, cap, lo, hi);
      if ws[n].start < lo {
        NoCount(ws[..n], lo, hi);
        ShareGrows(cap, 0, Starts(ws, lo, hi));
      } else if hi <= ws[n].start {
        NoTimes(ws[n].times, lo, hi);
      }
    }
  }

  /** (n + 1) * cap, by repeated addition. */
  function Share(cap: nat, n: nat): (r: nat)
  {
    if n == 0 then cap else Share(cap, n - 1) + cap
  }

  lemma {:induction false} ShareIsProduct(cap: nat, n: nat)
    ensures Share(cap, n) == (n + 1) * cap
  {
    if n > 0 {
      ShareIsProduct(cap, n - 1);
    }
  }

  lemma {:induction false} ShareGrows(cap: nat, m: nat, n: nat)
    requires m <= n
    ensures Share(cap, m) <= Share(cap, n)
  {
    if m < n {
      ShareGrows(cap, m, n - 1);
    }
  }

  lemma {:induction false} StartsBefore(ws: seq<Window>, lo: int, hi: int, cut: int)
    requires cut <= hi
    requires forall i | 0 <= i < |ws| :: ws[i].start < cut
    ensures Starts(ws, lo, hi) == Starts(ws, lo, cut)
  {
    if ws != [] {
      StartsBefore(ws[..|ws| - 1], lo, hi, cut);
    }
  }

  /** Starts at least `width` apart: an interval of k widths holds at most k of them. */
  lemma {:induction false} StartsSpaced(ws: seq<Window>, width: nat, cap: nat, lo: int, hi: int, k: nat)
    requires Consecutive(ws, width, cap) && width >= 1
    requires hi - lo <= k * width
    ensures Starts(ws, lo, hi) <= k
  {
    if ws != [] {
      var earlier, last := ws[..|ws| - 1], ws[|ws| - 1];
      if lo <= last.start < hi {
        assert k != 0 || k * width == 0;
        var cut := last.start - width + 1;
        StartsBefore(earlier, lo, hi, cut);
        assert (k - 1) * width == k * width - width;
        StartsSpaced(earlier, width, cap, lo, cut, k - 1);
      } else {
        StartsSpaced(earlier, width, cap, lo, hi, k);
      }
    }
  }

  /** Any interval as long as k windows contains at most (k + 1) * cap admissions. */
  lemma IntervalBound(ws: seq<Window>, width: nat, cap: nat, lo: int, k: nat)
    requires Consecutive(ws, width, cap) && width >= 1
    ensures Count(ws, lo, lo + k * width) <= (k + 1) * cap
  {
    var hi := lo + k * width;
    CountByStarts(ws, width, cap, lo, hi);
    StartsSpaced(ws, width, cap, lo, hi, k);
    ShareGrows(cap, Starts(ws, lo, hi), k);
    ShareIsProduct(cap, k);
  }
}
