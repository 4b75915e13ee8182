/**
 The progress bar of the scan screen (components/Scanning.tsx): a timer
 nudges the value up in ever smaller steps until it reaches 80, the scan sets
 it to 10 when it starts, to 100 on success and back to 0 on failure, and the
 label shows the value rounded and clamped to 100.
 */
module Progress {

  /** The value at or above which the timer stops moving the bar. */
  const Cap: real := 80.0

  /** The highest value the timer alone can produce. */
  const Ceiling: real := 80.3

  /** One timer step: +3 below 30, +1 below 70, +0.3 below 80, nothing after. */
  function Tick(p: real): (r: real)
    ensures r >= p
    ensures p >= Cap ==> r == p
    ensures p < Cap ==> r > p
    ensures p < Ceiling ==> r < Ceiling
  {
    if p >= Cap then p
    else if p < 30.0 then p + 3.0
    else if p < 70.0 then p + 1.0
    else p + 0.3
  }

  /** `n` timer steps from `p`. */
  function Ticks(p: real, n: nat): real
    decreases n
  {
    if n == 0 then p else Tick(Ticks(p, n - 1))
  }

  /** Starting from the scan's initial 10, the timer keeps the bar within
      [10, 80.3) however long the scan takes, and never moves it back. */
  lemma {:induction false} TicksFromStart(n: nat)
    ensures 10.0 <= Ticks(10.0, n) < Ceiling
    ensures n > 0 ==> Ticks(10.0, n - 1) <= Ticks(10.0, n)
  {
    if n > 0 {
      TicksFromStart(n - 1);
    }
  }

  /** More steps never give a lower value. */
  lemma {:induction false} TicksMonotone(p: real, m: nat, n: nat)
    requires m <= n
    ensures Ticks(p, m) <= Ticks(p, n)
    decreases n
  {
    if m < n {
      TicksMonotone(p, m, n - 1);
    }
  }

  /** What happens to the bar during a scan. */
  datatype Event = Started | Ticked | Succeeded | Failed

  /** `setProgress(10)`, one timer step, `setProgress(100)`, `setProgress(0)`. */
  function Apply(p: real, e: Event): (r: real)
    ensures e == Succeeded ==> r == 100.0
    ensures r == 100.0 ==> e == Succeeded || p == 100.0
    ensures e == Failed ==> r == 0.0
    ensures e == Ticked ==> r >= p
  {
    match e
    case Started => 10.0
    case Ticked => Tick(p)
    case Succeeded => 100.0
    case Failed => 0.0
  }

  /** The bar after a sequence of events, from the initial 0. */
  function Run(events: seq<Event>): real
    decreases |events|
  {
    if |events| == 0 then 0.0 else Apply(Run(events[..|events| - 1]), events[|events| - 1])
  }

  /** Without a success the bar never leaves [0, 80.3). */
  lemma {:induction false} BelowCeilingWithoutSuccess(events: seq<Event>)
    requires Succeeded !in events
    ensures 0.0 <= Run(events) < Ceiling
    decreases |events|
  {
    if |events| > 0 {
      var init := events[..|events| - 1];
      assert forall e :: e in init ==> e in events;
      BelowCeilingWithoutSuccess(init);
    }
  }

  /** The bar shows 100 only after the scan succeeded. */
  lemma FullOnlyAfterSuccess(events: seq<Event>)
    ensures Run(events) == 100.0 ==> Succeeded in events
  {
    if Succeeded !in events {
      BelowCeilingWithoutSuccess(events);
    }
  }

  /** A failure as the last event always leaves the bar empty. */
  lemma FailureEmpties(events: seq<Event>)
    requires |events| > 0 && events[|events| - 1] == Failed
    ensures Run(events) == 0.0
  {
  }

  /** `Math.min(100, Math.round(p))`; `Math.round` rounds halves up. */
  function Displayed(p: real): (r: int)
    ensures r <= 100
    ensures p >= 0.0 ==> r >= 0
    ensures p < 99.5 ==> r as real - 0.5 <= p < r as real + 0.5
    ensures p >= 99.5 ==> r == 100
  {
    var rounded := (p + 0.5).Floor;
    if rounded < 100 then rounded else 100
  }

  /** A higher value never shows a lower percentage. */
  lemma DisplayedMonotone(p: real, q: real)
    requires p <= q
    ensures Displayed(p) <= Displayed(q)
  {
  }
}
