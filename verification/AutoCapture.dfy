/** The storm cap on anomaly-triggered captures: a sliding window over the start times, compacted in
    place. The wall clock never runs backwards; it is read separately by every check and every
    reservation, and any amount of time may pass between two readings. */
module AutoCapture {

  const NANOS_PER_SECOND := 1_000_000_000
  const DEFAULT_MAX_PER_WINDOW := 3
  const DEFAULT_WINDOW_NANOS := 60 * 60 * NANOS_PER_SECOND

  datatype Finding = Finding(id: string, fromBaseline: bool)

  /** What became of one newly appeared finding. */
  datatype ArmOutcome = Skipped | Suppressed | StartFailed | Started

  /** The baseline findings of a cycle that the cycle before did not have, in their order. */
  function NewlyAppeared(fs: seq<Finding>, prev: set<string>): seq<Finding> {
    if fs == [] then []
    else if fs[0].fromBaseline && fs[0].id !in prev then [fs[0]] + NewlyAppeared(fs[1..], prev)
    else NewlyAppeared(fs[1..], prev)
  }

  lemma {:induction false} NewlyAppearedOneMore(fs: seq<Finding>, f: Finding, prev: set<string>)
    ensures NewlyAppeared(fs + [f], prev) == NewlyAppeared(fs, prev) +
      if f.fromBaseline && f.id !in prev then [f] else []
  {
    if fs == [] {
      assert (fs + [f])[1..] == [];
    } else {
      assert (fs + [f])[1..] == fs[1..] + [f];
      NewlyAppearedOneMore(fs[1..], f, prev);
    }
  }

  /** They are exactly those. */
  lemma {:induction false} NewlyAppearedAre(fs: seq<Finding>, prev: set<string>)
    ensures forall f :: f in NewlyAppeared(fs, prev) <==> f in fs && f.fromBaseline && f.id !in prev
  {
    if fs != [] {
      NewlyAppearedAre(fs[1..], prev);
      assert forall f :: f in fs <==> f == fs[0] || f in fs[1..];
    }
  }

  function StartedCount(outcomes: seq<ArmOutcome>): nat {
    if outcomes == [] then 0 else (if outcomes[0].Started? then 1 else 0) + StartedCount(outcomes[1..])
  }

  lemma {:induction false} StartedCountOneMore(outcomes: seq<ArmOutcome>, o: ArmOutcome)
    ensures StartedCount(outcomes + [o]) == StartedCount(outcomes) + if o.Started? then 1 else 0
  {
    if outcomes == [] {
      assert (outcomes + [o])[1..] == [];
    } else {
      assert (outcomes + [o])[1..] == outcomes[1..] + [o];
      StartedCountOneMore(outcomes[1..], o);
    }
  }

  // ----- start times -----

  /** The times at or after a cutoff, in their order. */
  function Since(ts: seq<int>, cutoff: int): seq<int> {
    if ts == [] then []
    else
      var before := Since(ts[..|ts| - 1], cutoff);
      if ts[|ts| - 1] >= cutoff then before + [ts[|ts| - 1]] else before
  }

  /** The times of a closed span. */
  function InSpan(ts: seq<int>, lo: int, hi: int): seq<int> {
    if ts == [] then []
    else
      var before := InSpan(ts[..|ts| - 1], lo, hi);
      if lo <= ts[|ts| - 1] <= hi then before + [ts[|ts| - 1]] else before
  }

  /** The places of the times in a closed span. */
  ghost function PlacesIn(ts: seq<int>, lo: int, hi: int): set<int> {
    set i | 0 <= i < |ts| && lo <= ts[i] <= hi
  }

  ghost function PlacesSince(ts: seq<int>, cutoff: int): set<int> {
    set i | 0 <= i < |ts| && ts[i] >= cutoff
  }

  /** A span holds as many starts as there are places with a time in it. */
  lemma {:induction false} InSpanCounts(ts: seq<int>, lo: int, hi: int)
    ensures |InSpan(ts, lo, hi)| == |PlacesIn(ts, lo, hi)|
  {
    if ts != [] {
      var n := |ts| - 1;
      InSpanCounts(ts[..n], lo, hi);
      assert PlacesIn(ts, lo, hi) == PlacesIn(ts[..n], lo, hi) + if lo <= ts[n] <= hi then {n} else {};
    }
  }

  /** And the window of a check as many as there are places with a time at or after the cutoff. */
  lemma {:induction false} SinceCounts(ts: seq<int>, cutoff: int)
    ensures |Since(ts, cutoff)| == |PlacesSince(ts, cutoff)|
  {
    if ts != [] {
      var n := |ts| - 1;
      SinceCounts(ts[..n], cutoff);
      assert PlacesSince(ts, cutoff) == PlacesSince(ts[..n], cutoff) + if ts[n] >= cutoff then {n} else {};
    }
  }

  predicate Sorted(ts: seq<int>) {
    forall i, j :: 0 <= i < j < |ts| ==> ts[i] <= ts[j]
  }

  /** Any start and the one `max` places after it lie more than a window apart. */
  predicate Spread(ts: seq<int>, max: nat, window: int) {
    forall j, k :: 0 <= j < |ts| && k == j + max && k < |ts| ==> ts[k] - ts[j] > window
  }

  lemma {:induction false} SinceTwice(ts: seq<int>, first: int, second: int)
    requires first <= second
    ensures Since(Since(ts, first), second) == Since(ts, second)
  {
    if ts != [] {
      var front := ts[..|ts| - 1];
      SinceTwice(front, first, second);
      if ts[|ts| - 1] >= first {
        assert Since(ts, first)[..|Since(ts, first)| - 1] == Since(front, first);
      }
    }
  }

  lemma {:induction false} SinceShrinks(ts: seq<int>, cutoff: int)
    ensures |Since(ts, cutoff)| <= |ts|
  {
    if ts != [] { SinceShrinks(ts[..|ts| - 1], cutoff); }
  }

  /** In a sorted history everything from a time at or after the cutoff on is kept. */
  lemma {:induction false} KeepsTheTail(ts: seq<int>, cutoff: int, k: nat)
    requires Sorted(ts) && k < |ts| && ts[k] >= cutoff
    ensures |Since(ts, cutoff)| >= |ts| - k
  {
    if k < |ts| - 1 { KeepsTheTail(ts[..|ts| - 1], cutoff, k); }
  }

  /** One more start keeps the history spread out, if the window before it had room at any earlier
      reading of the clock. */
  lemma StartKeepsSpread(ts: seq<int>, t: int, cutoff: int, max: nat, window: int)
    requires Sorted(ts + [t]) && Spread(ts, max, window)
    requires cutoff <= t - window && |Since(ts, cutoff)| < max
    ensures Spread(ts + [t], max, window)
  {
    if |ts| >= max && t - ts[|ts| - max] <= window {
      assert Sorted(ts) by { assert forall i :: 0 <= i < |ts| ==> (ts + [t])[i] == ts[i]; }
      KeepsTheTail(ts, cutoff, |ts| - max);
    }
  }

  lemma {:induction false} SpanSkipsHead(ts: seq<int>, lo: int, hi: int, k: nat)
    requires k <= |ts| && forall i :: 0 <= i < k ==> ts[i] < lo
    ensures |InSpan(ts, lo, hi)| <= |ts| - k
  {
    if ts != [] {
      SpanSkipsHead(ts[..|ts| - 1], lo, hi, if k < |ts| then k else k - 1);
    }
  }

  /** The cap as its users see it: no closed span as long as the window holds more than `max` starts. */
  lemma {:induction false} SpreadBoundsEverySpan(ts: seq<int>, max: nat, window: int, lo: int, hi: int)
    requires Sorted(ts) && Spread(ts, max, window) && hi - lo <= window
    ensures |InSpan(ts, lo, hi)| <= max
  {
    if ts != [] {
      var n := |ts|;
      if lo <= ts[n - 1] <= hi {
        if n > max {
          assert ts[n - 1] - ts[n - 1 - max] > window;
          SpanSkipsHead(ts, lo, hi, n - max);
        } else {
          SpanSkipsHead(ts, lo, hi, 0);
        }
      } else {
        SpreadBoundsEverySpan(ts[..n - 1], max, window, lo, hi);
      }
    }
  }

  /** And conversely: a history that bounds every such span is spread out, so the invariant the
      tracker keeps is no stronger than the cap it promises. */
  lemma {:induction false} SpanHolds(ts: seq<int>, lo: int, hi: int, a: nat, b: nat)
    requires a <= b <= |ts| && forall i :: a <= i < b ==> lo <= ts[i] <= hi
    ensures |InSpan(ts, lo, hi)| >= b - a
  {
    if ts != [] {
      var n := |ts|;
      if b == n && a < b { SpanHolds(ts[..n - 1], lo, hi, a, b - 1); }
      else if b < n { SpanHolds(ts[..n - 1], lo, hi, a, b); }
    }
  }

  lemma BoundedSpansAreSpread(ts: seq<int>, max: nat, window: int)
    requires Sorted(ts)
    requires forall lo, hi :: hi - lo <= window ==> |InSpan(ts, lo, hi)| <= max
    ensures Spread(ts, max, window)
  {
    forall j, k | 0 <= j < |ts| && k == j + max && k < |ts| ensures ts[k] - ts[j] > window {
      SpanHolds(ts, ts[j], ts[k], j, k + 1);
    }
  }

  lemma HistoryGrows(ts: seq<int>, t: int, cutoff: int)
    requires Sorted(ts) && (forall x :: x in ts ==> x <= t) && cutoff <= t
    ensures Sorted(ts + [t])
    ensures Since(ts + [t], cutoff) == Since(ts, cutoff) + [t]
  {
    assert (ts + [t])[..|ts|] == ts;
    assert forall i :: 0 <= i < |ts| ==> ts[i] in ts;
  }

  /** All that a start asks of the history, and leaves of it. */
  lemma OneMoreStart(ts: seq<int>, t: int, cutoff: int, max: nat, window: int)
    requires Sorted(ts) && (forall x :: x in ts ==> x <= t) && Spread(ts, max, window)
    requires cutoff <= t - window && window >= 0 && |Since(ts, cutoff)| < max
    ensures Sorted(ts + [t]) && (forall x :: x in ts + [t] ==> x <= t)
    ensures Spread(ts + [t], max, window)
    ensures Since(ts + [t], cutoff) == Since(ts, cutoff) + [t]
  {
    HistoryGrows(ts, t, cutoff);
    StartKeepsSpread(ts, t, cutoff, max, window);
  }

  /** Keep the entries of `buf[..len]` at or after the cutoff, moving them down in place. */
  method Compact(buf: array<int>, len: nat, cutoff: int) returns (n: nat)
    requires len <= buf.Length
    modifies buf
    ensures n <= len && buf[..n] == Since(old(buf[..len]), cutoff)
  {
    n := 0;
    ghost var was := buf[..len];
    for i := 0 to len
      invariant n <= i
      invariant buf[..n] == Since(was[..i], cutoff)
      invariant forall k :: i <= k < len ==> buf[k] == was[k]
    {
      assert was[..i + 1][..i] == was[..i];
      if buf[i] >= cutoff {
        buf[n] := buf[i];
        n := n + 1;
      }
    }
    assert was[..len] == was;
  }

  /** A larger buffer with the same entries. */
  method Grown(buf: array<int>, len: nat) returns (larger: array<int>)
    requires len <= buf.Length
    ensures fresh(larger) && larger.Length > len && larger[..len] == buf[..len]
  {
    larger := new int[2 * len + 1];
    for i := 0 to len
      invariant larger[..i] == buf[..i]
    {
      larger[i] := buf[i];
    }
  }

  /** What becomes of a finding, by whether it is ready to be armed, the window has room, and the
      coordinator manages to start: exactly when each of the four outcomes comes about. */
  ghost predicate Decided(outcome: ArmOutcome, ready: bool, room: bool, starts: bool) {
    && (outcome.Skipped? <==> !ready)
    && (outcome.Suppressed? <==> ready && !room)
    && (outcome.StartFailed? <==> ready && room && !starts)
    && (outcome.Started? <==> ready && room && starts)
  }

  /** What the findings of a cycle are tried against. */
  datatype Trial = Trial(armed: bool, newly: seq<Finding>, anomalies: set<string>,
                         starts: nat -> bool, window: int, max: nat)

  /** The i-th outcome is decided by the window as it was at its check: the starts there had been, the
      last of the cycle among them, since one window before. */
  ghost predicate DecidedAt(t: Trial, before: seq<int>, history: seq<int>, outcomes: seq<ArmOutcome>,
                            checks: seq<int>, i: nat)
    requires i < |outcomes| && |outcomes| <= |t.newly| && |checks| == |outcomes|
  {
    var size := |before| + StartedCount(outcomes[..i]);
    && size <= |history|
    && Decided(outcomes[i], t.armed && t.newly[i].id in t.anomalies,
               |Since(history[..size], checks[i] - t.window)| < t.max, t.starts(i))
  }

  /** Every outcome of a cycle is decided so, its checks lie within the cycle, and the starts are those
      there were and one for each outcome that says so. */
  ghost predicate AllDecided(t: Trial, before: seq<int>, history: seq<int>, outcomes: seq<ArmOutcome>,
                             start: int, checks: seq<int>, now: int)
  {
    && |checks| == |outcomes| <= |t.newly|
    && before <= history && |history| == |before| + StartedCount(outcomes)
    && (forall i :: 0 <= i < |checks| ==> start <= checks[i] <= now)
    && (forall i :: 0 <= i < |outcomes| ==> DecidedAt(t, before, history, outcomes, checks, i))
  }

  lemma StillDecided(t: Trial, before: seq<int>, history: seq<int>, outcomes: seq<ArmOutcome>, checks: seq<int>,
                     more: seq<int>, o: ArmOutcome, check: int, i: nat)
    requires i < |outcomes| < |t.newly| && |checks| == |outcomes| && history <= more
    requires DecidedAt(t, before, history, outcomes, checks, i)
    ensures DecidedAt(t, before, more, outcomes + [o], checks + [check], i)
  {
    assert (outcomes + [o])[..i] == outcomes[..i];
    var size := |before| + StartedCount(outcomes[..i]);
    assert more[..size] == history[..size];
  }

  lemma OneMoreDecided(t: Trial, before: seq<int>, history: seq<int>, outcomes: seq<ArmOutcome>, start: int,
                       checks: seq<int>, now: int, more: seq<int>, o: ArmOutcome, check: int, later: int)
    requires AllDecided(t, before, history, outcomes, start, checks, now)
    requires |outcomes| < |t.newly| && start <= now <= check <= later
    requires more == if o.Started? then history + [later] else history
    requires Decided(o, t.armed && t.newly[|outcomes|].id in t.anomalies,
                     |Since(history, check - t.window)| < t.max, t.starts(|outcomes|))
    ensures AllDecided(t, before, more, outcomes + [o], start, checks + [check], later)
  {
    var n := |outcomes|;
    StartedCountOneMore(outcomes, o);
    forall i | 0 <= i < n ensures DecidedAt(t, before, more, outcomes + [o], checks + [check], i) {
      StillDecided(t, before, history, outcomes, checks, more, o, check, i);
    }
    assert (outcomes + [o])[..n] == outcomes;
    assert more[..|history|] == history;
    assert DecidedAt(t, before, more, outcomes + [o], checks + [check], n);
  }

  /** The ids of a cycle, and its newly appeared baseline findings. */
  method Appeared(fs: seq<Finding>, prev: set<string>) returns (cur: set<string>, newly: seq<Finding>)
    ensures cur == set f | f in fs :: f.id
    ensures newly == NewlyAppeared(fs, prev)
  {
    cur, newly := {}, [];
    for i := 0 to |fs|
      invariant cur == set f | f in fs[..i] :: f.id
      invariant newly == NewlyAppeared(fs[..i], prev)
    {
      assert fs[..i + 1] == fs[..i] + [fs[i]];
      NewlyAppearedOneMore(fs[..i], fs[i], prev);
      cur := cur + {fs[i].id};
      if fs[i].fromBaseline && fs[i].id !in prev {
        newly := newly + [fs[i]];
      }
    }
    assert fs[..|fs|] == fs;
  }

  // ----- the tracker -----

  class AutoCaptureTracker {
    const enabled: bool
    const hasBaseline: bool
    const maxPerWindow: nat
    const windowNanos: int
    var wired: bool
    var prev: set<string>
    var buf: array<int>
    var len: nat
    var clock: int

    /** Every start so far, and the cutoff of the last pruning. */
    ghost var history: seq<int>
    ghost var cutoff: int

    /** The window in whole seconds, the unit of the start times. */
    function WindowSeconds(): (seconds: int)
      ensures 1_000_000_000 * seconds <= windowNanos < 1_000_000_000 * (seconds + 1)
    {
      windowNanos / NANOS_PER_SECOND
    }

    /** The live part of the buffer. */
    function Fired(): seq<int>
      reads this, buf
      requires len <= buf.Length
    {
      buf[..len]
    }

    ghost predicate Valid()
      reads this, buf
    {
      && len <= buf.Length
      && maxPerWindow > 0 && windowNanos > 0
      && Sorted(history) && (forall t :: t in history ==> t <= clock)
      && cutoff <= clock - WindowSeconds()
      && Fired() == Since(history, cutoff)
      && Spread(history, maxPerWindow, WindowSeconds())
    }

    constructor (enabled: bool, hasBaseline: bool, maxPerWindow: int, windowNanos: int, clock: int)
      ensures Valid() && history == [] && prev == {} && !wired && this.enabled == enabled
      ensures this.maxPerWindow == if maxPerWindow <= 0 then 3 else maxPerWindow
      ensures this.windowNanos == if windowNanos <= 0 then 3_600_000_000_000 else windowNanos
      ensures fresh(buf)
    {
      this.enabled, this.hasBaseline, this.clock := enabled, hasBaseline, clock;
      this.maxPerWindow := if maxPerWindow <= 0 then DEFAULT_MAX_PER_WINDOW else maxPerWindow;
      this.windowNanos := if windowNanos <= 0 then DEFAULT_WINDOW_NANOS else windowNanos;
      wired, prev, buf, len := false, {}, new int[0], 0;
      history := [];
      new;
      cutoff := clock - WindowSeconds();
    }

    method Wire()
      modifies this`wired
      ensures wired
    {
      wired := true;
    }

    /** Read the wall clock. */
    method Now() returns (t: int)
      modifies this`clock
      ensures t == clock && clock >= old(clock)
    {
      var passed :| 0 <= passed;
      clock := clock + passed;
      t := clock;
    }

    /** Drop the entries older than the trailing window, compacting the buffer in place. */
    method PruneFired()
      requires Valid()
      modifies this`clock, this`len, this`cutoff, buf
      ensures Valid() && clock >= old(clock)
      ensures cutoff == clock - WindowSeconds()
      ensures Fired() == Since(old(Fired()), cutoff) == Since(history, cutoff)
    {
      var now := Now();
      var limit := now - WindowSeconds();
      SinceTwice(history, cutoff, limit);
      len := Compact(buf, len, limit);
      cutoff := limit;
    }

    /** Whether the window has room for one more start. Nothing is reserved. */
    method BudgetAvailable() returns (room: bool)
      requires Valid()
      modifies this`clock, this`len, this`cutoff, buf
      ensures Valid() && clock >= old(clock) && cutoff == clock - WindowSeconds()
      ensures room <==> |Since(history, cutoff)| < maxPerWindow
    {
      PruneFired();
      room := len < maxPerWindow;
    }

    method Append(t: int)
      requires len <= buf.Length
      modifies this`len, this`buf, buf
      ensures len <= buf.Length && Fired() == old(Fired()) + [t]
      ensures buf == old(buf) || fresh(buf)
    {
      if len == buf.Length { buf := Grown(buf, len); }
      buf[len] := t;
      len := len + 1;
    }

    method Push()
      requires Valid() && cutoff == clock - WindowSeconds() && |Fired()| < maxPerWindow
      modifies this`clock, this`len, this`buf, this`history, buf
      ensures Valid() && clock >= old(clock)
      ensures history == old(history) + [clock]
      ensures buf == old(buf) || fresh(buf)
    {
      var t := Now();
      OneMoreStart(history, t, cutoff, maxPerWindow, WindowSeconds());
      Append(t);
      history := history + [t];
    }

    /** Record a start that has just happened, at a later reading of the clock. */
    method RecordStart()
      requires Valid() && |Since(history, cutoff)| < maxPerWindow
      modifies this`clock, this`len, this`cutoff, this`buf, this`history, buf
      ensures Valid() && clock >= old(clock)
      ensures history == old(history) + [clock]
      ensures buf == old(buf) || fresh(buf)
    {
      PruneFired();
      SinceShrinks(old(Fired()), cutoff);
      Push();
    }

    /** Start one capture for a finding, if there is an anomaly behind it and the window has room at
        the time `checked`; `starts` says whether the coordinator manages to. A failed start consumes
        nothing. */
    method Arm(id: string, anomalies: set<string>, starts: bool) returns (outcome: ArmOutcome, ghost checked: int)
      requires Valid()
      modifies this`clock, this`len, this`cutoff, this`buf, this`history, buf
      ensures Valid() && (buf == old(buf) || fresh(buf))
      ensures old(clock) <= checked <= clock
      ensures Decided(outcome, hasBaseline && wired && id in anomalies,
                      |Since(old(history), checked - WindowSeconds())| < maxPerWindow, starts)
      ensures history == if outcome.Started? then old(history) + [clock] else old(history)
    {
      checked := clock;
      if !hasBaseline || id !in anomalies { return Skipped, checked; }
      if !wired { return Skipped, checked; }
      var room := BudgetAvailable();
      checked := clock;
      if !room { return Suppressed, checked; }
      if !starts { return StartFailed, checked; }
      RecordStart();
      outcome := Started;
    }

    /** Try each finding in turn, in order; `checks` are the times of the checks. */
    method ArmAll(newly: seq<Finding>, anomalies: set<string>, starts: nat -> bool)
      returns (outcomes: seq<ArmOutcome>, ghost checks: seq<int>)
      requires Valid()
      modifies this`clock, this`len, this`cutoff, this`buf, this`history, buf
      ensures Valid() && clock >= old(clock) && (buf == old(buf) || fresh(buf))
      ensures |outcomes| == |newly|
      ensures AllDecided(Trial(hasBaseline && wired, newly, anomalies, starts, WindowSeconds(), maxPerWindow),
                         old(history), history, outcomes, old(clock), checks, clock)
    {
      outcomes, checks := [], [];
      ghost var trial := Trial(hasBaseline && wired, newly, anomalies, starts, WindowSeconds(), maxPerWindow);
      ghost var before, start := history, clock;
      for i := 0 to |newly|
        invariant Valid() && clock >= start && (buf == old(buf) || fresh(buf))
        invariant |outcomes| == i
        invariant AllDecided(trial, before, history, outcomes, start, checks, clock)
      {
        ghost var soFar, now := history, clock;
        var outcome;
        ghost var checked;
        outcome, checked := Arm(newly[i].id, anomalies, starts(i));
        OneMoreDecided(trial, before, soFar, outcomes, start, checks, now, history, outcome, checked, clock);
        outcomes, checks := outcomes + [outcome], checks + [checked];
      }
    }

    /** One findings cycle: every newly appeared baseline finding is tried, and what becomes of it is
        decided by the starts there had been and the time at its own check. */
    method Observe(fs: seq<Finding>, anomalies: set<string>, starts: nat -> bool)
      returns (outcomes: seq<ArmOutcome>, ghost checks: seq<int>)
      requires Valid()
      modifies this`prev, this`clock, this`len, this`cutoff, this`buf, this`history, buf
      ensures Valid() && clock >= old(clock) && (buf == old(buf) || fresh(buf))
      ensures !enabled ==> outcomes == [] && prev == old(prev) && history == old(history)
      ensures enabled ==> prev == set f | f in fs :: f.id
      ensures enabled ==>
        var newly := NewlyAppeared(fs, old(prev));
        && |outcomes| == |newly|
        && AllDecided(Trial(hasBaseline && wired, newly, anomalies, starts, WindowSeconds(), maxPerWindow),
                      old(history), history, outcomes, old(clock), checks, clock)
    {
      if !enabled { return [], []; }
      var cur, newly := Appeared(fs, prev);
      prev := cur;
      outcomes, checks := ArmAll(newly, anomalies, starts);
    }
  }
}
