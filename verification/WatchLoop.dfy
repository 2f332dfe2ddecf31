/** `vnproxctl watch`: dial, subscribe, read, reconnect. The daemon, the network, the clock and
    Ctrl-C are a script of replies, one per blocking call, so a run is any prefix of any script. */
module WatchLoop {
  import opened Prelude
  import opened Text

  datatype Payload = Malformed | Event(name: string)

  /** How one blocking call ended: whether it succeeded, whether the context is cancelled by then,
      the clock, and what was read. */
  datatype Reply = Reply(ok: bool, done: bool, at: int, payload: Payload)

  /** What the operator sees. A Reconnecting line follows a failed dial or a failed subscribe. */
  datatype Report =
    | Connected(at: int)
    | Reconnected(at: int, attempt: int, gap: int)
    | Reconnecting(at: int, attempt: int, subscribeFailed: bool)
    | Disconnected(at: int)
    | Rendered(name: string)
    | Stopped

  // ----- the filter -----

  /** What a comma-separated list names: its parts, trimmed, blanks left out. */
  ghost predicate Names(raw: string, name: string) {
    name != "" && exists i :: 0 <= i < |Split(raw, ',')| && TrimSpace(Split(raw, ',')[i]) == name
  }

  /** No filter is no filter; so is a list that names nothing. */
  method ParseKindFilter(raw: string) returns (kinds: Option<set<string>>)
    ensures kinds.Some? ==> kinds.value != {} && forall name :: name in kinds.value <==> Names(TrimSpace(raw), name)
    ensures kinds.None? ==> forall name :: !Names(TrimSpace(raw), name)
  {
    var list := TrimSpace(raw);
    if list == "" {
      assert Split(list, ',') == [""];
      return None;
    }
    var out: set<string> := {};
    var parts := Split(list, ',');
    for i := 0 to |parts|
      invariant forall name :: name in out <==> name != "" && exists j :: 0 <= j < i && TrimSpace(parts[j]) == name
    {
      var k := TrimSpace(parts[i]);
      if k != "" { out := out + {k}; }
    }
    if |out| == 0 {
      forall name ensures !Names(list, name) {
        assert name !in out;
      }
      return None;
    }
    kinds := Some(out);
  }

  /** No filter allows everything. */
  predicate KindAllowed(kinds: Option<set<string>>, name: string) {
    kinds.None? || name in kinds.value
  }

  // ----- reading a report -----

  predicate IsUp(r: Report) {
    r.Connected? || r.Reconnected?
  }

  /** The reports that end a connection. */
  predicate IsDrop(r: Report) {
    r.Disconnected? || (r.Reconnecting? && r.subscribeFailed)
  }

  predicate EverUp(out: seq<Report>) {
    out != [] && (IsUp(out[|out| - 1]) || EverUp(out[..|out| - 1]))
  }

  /** The stream is up: the last report to open or end a connection opened one. */
  predicate Up(out: seq<Report>) {
    out != [] && (IsUp(out[|out| - 1]) || (!IsDrop(out[|out| - 1]) && Up(out[..|out| - 1])))
  }

  /** The time of the last drop. */
  function DropTime(out: seq<Report>): Option<int> {
    if out == [] then None
    else if IsDrop(out[|out| - 1]) then Some(out[|out| - 1].at)
    else DropTime(out[..|out| - 1])
  }

  /** The failed tries since the last connection was opened. */
  function Tries(out: seq<Report>): nat {
    if out == [] || IsUp(out[|out| - 1]) then 0
    else Tries(out[..|out| - 1]) + (if out[|out| - 1].Reconnecting? then 1 else 0)
  }

  function RenderedCount(out: seq<Report>): nat {
    if out == [] then 0
    else RenderedCount(out[..|out| - 1]) + (if out[|out| - 1].Rendered? then 1 else 0)
  }

  /** Whether a report is right after the ones before it. */
  predicate Fits(kinds: Option<set<string>>, before: seq<Report>, r: Report) {
    match r
    case Connected(_) => !EverUp(before)
    case Reconnected(at, attempt, gap) =>
      EverUp(before) && !Up(before) && attempt == Tries(before)
      && DropTime(before).Some? && gap == at - DropTime(before).value
    case Reconnecting(_, attempt, subscribeFailed) =>
      attempt == Tries(before) + 1 && (subscribeFailed <==> Up(before))
    case Disconnected(_) => Up(before)
    case Rendered(name) => Up(before) && KindAllowed(kinds, name)
    case Stopped => true
  }

  predicate Sound(kinds: Option<set<string>>, out: seq<Report>) {
    out == [] || (Sound(kinds, out[..|out| - 1]) && Fits(kinds, out[..|out| - 1], out[|out| - 1])
                  && (|out| > 1 ==> !out[|out| - 2].Stopped?))
  }

  predicate Ended(out: seq<Report>) {
    out != [] && out[|out| - 1].Stopped?
  }

  // ----- the loop, one reply at a time -----

  /** Where the loop stands: before a dial, dialling, waiting after a failed dial, subscribing,
      reading, or returned. */
  datatype Mode = Top | Dialling | Waiting | Subscribing | Reading | Finished

  datatype Loop = Loop(mode: Mode, attempt: int, everConnected: bool, rendered: int,
                       gapSince: Option<int>, out: seq<Report>)

  const START := Loop(Top, 0, false, 0, None, [])

  function Stop(l: Loop): Loop {
    l.(mode := Finished, out := l.out + [Stopped])
  }

  /** The report of a dial that got through. */
  function UpReport(l: Loop, at: int): Report {
    if l.everConnected then Reconnected(at, l.attempt, if l.gapSince.Some? then at - l.gapSince.value else 0)
    else Connected(at)
  }

  function Take(l: Loop, r: Reply, kinds: Option<set<string>>, maxEvents: int): Loop {
    match l.mode
    case Finished => l
    case Top => if r.done then Stop(l) else l.(mode := Dialling)
    case Waiting => if r.done then Stop(l) else l.(mode := Top)
    case Dialling =>
      if r.ok then l.(mode := Subscribing, attempt := 0, everConnected := true, out := l.out + [UpReport(l, r.at)])
      else if r.done then Stop(l)
      else l.(mode := Waiting, attempt := l.attempt + 1,
              gapSince := if l.gapSince.None? then Some(r.at) else l.gapSince,
              out := l.out + [Reconnecting(r.at, l.attempt + 1, false)])
    case Subscribing =>
      if r.ok then l.(mode := Reading)
      else if r.done then Stop(l)
      else l.(mode := Top, attempt := l.attempt + 1, gapSince := Some(r.at),
              out := l.out + [Reconnecting(r.at, l.attempt + 1, true)])
    case Reading =>
      if !r.ok then
        if r.done then Stop(l) else l.(mode := Top, gapSince := Some(r.at), out := l.out + [Disconnected(r.at)])
      else if r.payload.Malformed? || !KindAllowed(kinds, r.payload.name) then l
      else
        l.(mode := if maxEvents > 0 && l.rendered + 1 >= maxEvents then Finished else Reading,
           rendered := l.rendered + 1, out := l.out + [Rendered(r.payload.name)])
  }

  /** The loop after the first n replies of a script. */
  function After(script: seq<Reply>, n: nat, kinds: Option<set<string>>, maxEvents: int): Loop
    requires n <= |script|
  {
    if n == 0 then START else Take(After(script, n - 1, kinds, maxEvents), script[n - 1], kinds, maxEvents)
  }

  lemma {:induction false} FinishedStays(script: seq<Reply>, i: nat, n: nat, kinds: Option<set<string>>, maxEvents: int)
    requires i <= n <= |script| && After(script, i, kinds, maxEvents).mode.Finished?
    ensures After(script, n, kinds, maxEvents) == After(script, i, kinds, maxEvents)
  {
    if i < n { FinishedStays(script, i, n - 1, kinds, maxEvents); }
  }

  /** Read and render events from reply `start` on, while the stream is up. */
  method ReadEvents(script: seq<Reply>, start: nat, kinds: Option<set<string>>, maxEvents: int, before: seq<Report>,
                    count: int, since: Option<int>)
    returns (out: seq<Report>, i: nat, rendered: int, gapSince: Option<int>, end: Mode)
    requires start <= |script|
    requires After(script, start, kinds, maxEvents) == Loop(Reading, 0, true, count, since, before)
    ensures start <= i <= |script|
    ensures After(script, i, kinds, maxEvents) == Loop(end, 0, true, rendered, gapSince, out)
    ensures end.Reading? ==> i == |script|
    ensures end.Top? ==> start < i
    ensures end in {Reading, Top, Finished}
  {
    out, i, rendered, gapSince, end := before, start, count, since, Reading;
    while i < |script|
      invariant start <= i <= |script|
      invariant After(script, i, kinds, maxEvents) == Loop(Reading, 0, true, rendered, gapSince, out)
    {
      var read := script[i];
      i := i + 1;
      if !read.ok {
        if read.done {
          out := out + [Stopped];
          end := Finished;
          return;
        }
        gapSince := Some(read.at);
        out := out + [Disconnected(read.at)];
        end := Top;
        return;
      }
      if read.payload.Malformed? { continue; }
      if !KindAllowed(kinds, read.payload.name) { continue; }
      out := out + [Rendered(read.payload.name)];
      rendered := rendered + 1;
      if maxEvents > 0 && rendered >= maxEvents {
        end := Finished;
        return;
      }
    }
  }

  /** One round of dialling and subscribing, with the wait when the dial fails. */
  method Connect(script: seq<Reply>, start: nat, kinds: Option<set<string>>, maxEvents: int, before: seq<Report>,
                 tries: int, ever: bool, rendered: int, since: Option<int>)
    returns (out: seq<Report>, i: nat, attempt: int, everConnected: bool, gapSince: Option<int>, end: Mode)
    requires start <= |script|
    requires After(script, start, kinds, maxEvents) == Loop(Dialling, tries, ever, rendered, since, before)
    ensures start <= i <= |script|
    ensures After(script, i, kinds, maxEvents) == Loop(end, attempt, everConnected, rendered, gapSince, out)
    ensures end in {Dialling, Waiting, Subscribing} ==> i == |script|
    ensures end.Reading? ==> attempt == 0 && everConnected
  {
    out, i, attempt, everConnected, gapSince, end := before, start, tries, ever, since, Dialling;
    if i == |script| { return; }
    var dial := script[i];
    i := i + 1;
    if !dial.ok {
      if dial.done {
        out := out + [Stopped];
        end := Finished;
        return;
      }
      if gapSince.None? { gapSince := Some(dial.at); }
      attempt := attempt + 1;
      out := out + [Reconnecting(dial.at, attempt, false)];
      end := Waiting;
      if i == |script| { return; }
      var wait := script[i];
      i := i + 1;
      if wait.done {
        out := out + [Stopped];
        end := Finished;
        return;
      }
      end := Top;
      return;
    }
    if everConnected {
      var gap := 0;
      if gapSince.Some? { gap := dial.at - gapSince.value; }
      out := out + [Reconnected(dial.at, attempt, gap)];
    } else {
      out := out + [Connected(dial.at)];
      everConnected := true;
    }
    attempt := 0;
    end := Subscribing;
    if i == |script| { return; }
    var write := script[i];
    i := i + 1;
    if write.ok {
      end := Reading;
      return;
    }
    if write.done {
      out := out + [Stopped];
      end := Finished;
      return;
    }
    gapSince := Some(write.at);
    attempt := attempt + 1;
    out := out + [Reconnecting(write.at, attempt, true)];
    end := Top;
  }

  /** Run the loop over a script. `finished` says the loop returned; otherwise the script ran out
      in mid-run. */
  method Watch(script: seq<Reply>, kinds: Option<set<string>>, maxEvents: int)
    returns (out: seq<Report>, finished: bool)
    ensures out == After(script, |script|, kinds, maxEvents).out
    ensures finished <==> After(script, |script|, kinds, maxEvents).mode.Finished?
  {
    out, finished := [], false;
    var attempt, everConnected, rendered := 0, false, 0;
    var gapSince: Option<int> := None;
    var i := 0;
    while i < |script|
      invariant i <= |script|
      invariant After(script, i, kinds, maxEvents) == Loop(Top, attempt, everConnected, rendered, gapSince, out)
      invariant !finished
    {
      if script[i].done {
        out := out + [Stopped];
        FinishedStays(script, i + 1, |script|, kinds, maxEvents);
        return out, true;
      }
      var end;
      out, i, attempt, everConnected, gapSince, end :=
        Connect(script, i + 1, kinds, maxEvents, out, attempt, everConnected, rendered, gapSince);
      if end.Reading? {
        out, i, rendered, gapSince, end := ReadEvents(script, i, kinds, maxEvents, out, rendered, gapSince);
      }
      if end.Finished? {
        FinishedStays(script, i, |script|, kinds, maxEvents);
        return out, true;
      }
      if !end.Top? { return; }
    }
  }

  // ----- what the loop keeps -----

  /** The report is sound, and the loop's variables are what the report says. */
  ghost predicate Inv(kinds: Option<set<string>>, maxEvents: int, l: Loop) {
    && Sound(kinds, l.out)
    && l.rendered == RenderedCount(l.out) && l.everConnected == EverUp(l.out)
    && (maxEvents > 0 ==> if l.mode.Finished? then l.rendered <= maxEvents else l.rendered < maxEvents)
    && if l.mode.Finished? then Ended(l.out) || (maxEvents > 0 && l.rendered == maxEvents)
       else InvRunning(l)
  }

  ghost predicate InvRunning(l: Loop) {
    && !Ended(l.out) && l.attempt == Tries(l.out)
    && (l.mode.Subscribing? || l.mode.Reading? <==> Up(l.out))
    && (!Up(l.out) && l.everConnected ==> l.gapSince.Some? && l.gapSince == DropTime(l.out))
  }

  /** What one more line does to the reading of a report. */
  lemma OneMoreLine(kinds: Option<set<string>>, out: seq<Report>, r: Report)
    requires Sound(kinds, out) && !Ended(out) && Fits(kinds, out, r)
    ensures var more := out + [r];
      && Sound(kinds, more)
      && EverUp(more) == (IsUp(r) || EverUp(out))
      && Up(more) == (IsUp(r) || (!IsDrop(r) && Up(out)))
      && DropTime(more) == (if IsDrop(r) then Some(r.at) else DropTime(out))
      && Tries(more) == (if IsUp(r) then 0 else Tries(out) + (if r.Reconnecting? then 1 else 0))
      && RenderedCount(more) == RenderedCount(out) + (if r.Rendered? then 1 else 0)
      && (Ended(more) <==> r.Stopped?)
  {
    assert (out + [r])[..|out|] == out;
  }

  lemma StopKeeps(kinds: Option<set<string>>, maxEvents: int, l: Loop)
    requires Inv(kinds, maxEvents, l) && !l.mode.Finished?
    ensures Inv(kinds, maxEvents, Stop(l))
  {
    OneMoreLine(kinds, l.out, Stopped);
  }

  lemma DialKeeps(kinds: Option<set<string>>, maxEvents: int, l: Loop, r: Reply)
    requires Inv(kinds, maxEvents, l) && l.mode.Dialling? && (r.ok || !r.done)
    ensures Inv(kinds, maxEvents, Take(l, r, kinds, maxEvents))
  {
    OneMoreLine(kinds, l.out, if r.ok then UpReport(l, r.at) else Reconnecting(r.at, l.attempt + 1, false));
  }

  lemma SubscribeKeeps(kinds: Option<set<string>>, maxEvents: int, l: Loop, r: Reply)
    requires Inv(kinds, maxEvents, l) && l.mode.Subscribing? && (r.ok || !r.done)
    ensures Inv(kinds, maxEvents, Take(l, r, kinds, maxEvents))
  {
    if !r.ok { OneMoreLine(kinds, l.out, Reconnecting(r.at, l.attempt + 1, true)); }
  }

  lemma ReadKeeps(kinds: Option<set<string>>, maxEvents: int, l: Loop, r: Reply)
    requires Inv(kinds, maxEvents, l) && l.mode.Reading? && (r.ok || !r.done)
    ensures Inv(kinds, maxEvents, Take(l, r, kinds, maxEvents))
  {
    if !r.ok {
      OneMoreLine(kinds, l.out, Disconnected(r.at));
    } else if r.payload.Event? && KindAllowed(kinds, r.payload.name) {
      OneMoreLine(kinds, l.out, Rendered(r.payload.name));
    }
  }

  /** Every reply keeps the invariant. */
  lemma TakeKeeps(kinds: Option<set<string>>, maxEvents: int, l: Loop, r: Reply)
    requires Inv(kinds, maxEvents, l)
    ensures Inv(kinds, maxEvents, Take(l, r, kinds, maxEvents))
  {
    if l.mode.Finished? {
      assert Take(l, r, kinds, maxEvents) == l;
    } else if Take(l, r, kinds, maxEvents) == Stop(l) {
      StopKeeps(kinds, maxEvents, l);
    } else {
      match l.mode
      case Dialling => DialKeeps(kinds, maxEvents, l, r);
      case Subscribing => SubscribeKeeps(kinds, maxEvents, l, r);
      case Reading => ReadKeeps(kinds, maxEvents, l, r);
      case _ =>
    }
  }

  /** After any script: the report is sound, no more than the asked-for events are rendered, and the
      loop has returned exactly when it was stopped or had rendered them all. */
  lemma {:induction false} ReportIsSound(script: seq<Reply>, n: nat, kinds: Option<set<string>>, maxEvents: int)
    requires n <= |script|
    ensures Inv(kinds, maxEvents, After(script, n, kinds, maxEvents))
    ensures var l := After(script, n, kinds, maxEvents);
      && Sound(kinds, l.out)
      && (maxEvents > 0 ==> RenderedCount(l.out) <= maxEvents)
      && (l.mode.Finished? <==> Ended(l.out) || (maxEvents > 0 && RenderedCount(l.out) == maxEvents))
  {
    if n > 0 {
      ReportIsSound(script, n - 1, kinds, maxEvents);
      TakeKeeps(kinds, maxEvents, After(script, n - 1, kinds, maxEvents), script[n - 1]);
    }
  }

  // ----- what a sound report means -----

  lemma {:induction false} SoundPrefix(kinds: Option<set<string>>, out: seq<Report>, k: nat)
    requires Sound(kinds, out) && k <= |out|
    ensures Sound(kinds, out[..k])
    ensures k < |out| ==> Fits(kinds, out[..k], out[k])
  {
    if k < |out| {
      var front := out[..|out| - 1];
      if k < |front| {
        SoundPrefix(kinds, front, k);
        assert front[..k] == out[..k];
      }
    } else {
      assert out[..k] == out;
    }
  }

  lemma {:induction false} EverUpMeans(out: seq<Report>)
    ensures EverUp(out) <==> exists k :: 0 <= k < |out| && IsUp(out[k])
  {
    if out != [] {
      var front := out[..|out| - 1];
      EverUpMeans(front);
      assert forall k :: 0 <= k < |front| ==> front[k] == out[k];
    }
  }

  /** "connected" is reported at most once, and no "reconnected" comes before it. */
  lemma ConnectedOnce(kinds: Option<set<string>>, out: seq<Report>, i: nat, j: nat)
    requires Sound(kinds, out) && i < j < |out| && IsUp(out[i])
    ensures !out[j].Connected?
  {
    SoundPrefix(kinds, out, j);
    EverUpMeans(out[..j]);
    assert out[..j][i] == out[i];
  }

  lemma FirstUpIsConnected(kinds: Option<set<string>>, out: seq<Report>, j: nat)
    requires Sound(kinds, out) && j < |out| && out[j].Reconnected?
    ensures exists i :: 0 <= i < j && out[i].Connected?
    decreases j
  {
    SoundPrefix(kinds, out, j);
    EverUpMeans(out[..j]);
    var i :| 0 <= i < j && IsUp(out[..j][i]);
    if out[i].Reconnected? { FirstUpIsConnected(kinds, out, i); }
  }

  /** After an up-report the stream stays up until a drop is reported. */
  lemma {:induction false} UpUntilDrop(out: seq<Report>, i: nat, j: nat)
    requires i < j <= |out| && IsUp(out[i])
    requires forall k :: i < k < j ==> !IsDrop(out[k])
    ensures Up(out[..j])
  {
    if j > i + 1 && !IsUp(out[j - 1]) {
      UpUntilDrop(out, i, j - 1);
      assert out[..j][..j - 1] == out[..j - 1];
    }
  }

  /** Between any two reports that the stream is up, at least one loss is reported. */
  lemma LossBetweenUps(kinds: Option<set<string>>, out: seq<Report>, i: nat, j: nat)
    requires Sound(kinds, out) && i < j < |out| && IsUp(out[i]) && IsUp(out[j])
    ensures exists d :: i < d < j && IsDrop(out[d])
  {
    SoundPrefix(kinds, out, j);
    ConnectedOnce(kinds, out, i, j);
    if forall k :: i < k < j ==> !IsDrop(out[k]) {
      UpUntilDrop(out, i, j);
    }
  }

  lemma {:induction false} DropTimeMeans(out: seq<Report>, d: nat)
    requires d < |out| && IsDrop(out[d]) && forall k :: d < k < |out| ==> !IsDrop(out[k])
    ensures DropTime(out) == Some(out[d].at)
  {
    if d < |out| - 1 { DropTimeMeans(out[..|out| - 1], d); }
  }

  lemma {:induction false} DownAfterDrop(out: seq<Report>, d: nat, j: nat)
    requires d < j <= |out| && IsDrop(out[d])
    requires forall k :: d < k < j ==> !IsUp(out[k])
    ensures !Up(out[..j])
  {
    if j > d + 1 {
      DownAfterDrop(out, d, j - 1);
      assert out[..j][..j - 1] == out[..j - 1];
    }
  }

  /** The gap given when the stream comes back is the time since the drop that ended the previous
      connection: whatever is reported in between, there is exactly one drop since the stream was
      last reported up, and the gap counts from it. */
  lemma GapIsSinceTheDrop(kinds: Option<set<string>>, out: seq<Report>, i: nat, d: nat, j: nat)
    requires Sound(kinds, out) && i < d < j < |out|
    requires IsUp(out[i]) && IsDrop(out[d]) && out[j].Reconnected?
    requires forall k :: i < k < j ==> !IsUp(out[k])
    ensures out[j].gap == out[j].at - out[d].at
    ensures forall k :: i < k < j && IsDrop(out[k]) ==> k == d
  {
    forall k | i < k < j && IsDrop(out[k]) ensures k == d {
      var first, second := if k < d then k else d, if k < d then d else k;
      if first < second {
        SoundPrefix(kinds, out, second);
        DownAfterDrop(out, first, second);
        assert false;
      }
    }
    SoundPrefix(kinds, out, j);
    DropTimeMeans(out[..j], d);
  }

  // ----- backing off between dials -----

  const MIN_BACKOFF := 500
  const MAX_BACKOFF := 15_000

  function Pow2(n: nat): (p: nat)
    ensures p >= 1
  {
    if n == 0 then 1 else 2 * Pow2(n - 1)
  }

  lemma {:induction false} Pow2Grows(a: nat, b: nat)
    requires a <= b
    ensures Pow2(a) <= Pow2(b)
  {
    if a < b { Pow2Grows(a, b - 1); }
  }

  lemma Scale(base: real, factor: real)
    requires base > 0.0 && 0.5 <= factor < 1.0
    ensures base / 2.0 <= base * factor < base
  {
    assert base * factor < base * 1.0;
  }

  /** A delay drawn from the upper half of [0, base). */
  function Jittered(base: real, jitter: real): (delay: real)
    requires base > 0.0 && 0.0 <= jitter < 1.0
    ensures base / 2.0 <= delay < base
  {
    var factor := 0.5 + jitter * 0.5;
    Scale(base, factor);
    base * factor
  }

  /** Doubling from the floor with every try, up to the ceiling. */
  function BackoffBase(attempt: int): (base: nat)
    ensures MIN_BACKOFF <= base <= MAX_BACKOFF
  {
    var doubled := MIN_BACKOFF * Pow2(if attempt < 1 then 0 else attempt - 1);
    if doubled < MAX_BACKOFF then doubled else MAX_BACKOFF
  }

  /** Half a second before the second try, then doubled with every try up to fifteen seconds. */
  lemma BackoffDoubles(attempt: int)
    ensures attempt <= 1 ==> BackoffBase(attempt) == 500
    ensures attempt >= 1 ==>
      BackoffBase(attempt + 1) == if 2 * BackoffBase(attempt) < 15_000 then 2 * BackoffBase(attempt) else 15_000
  {
    if attempt >= 1 { assert Pow2(attempt) == 2 * Pow2(attempt - 1); }
  }

  method DoubleUp(attempt: int) returns (d: int)
    ensures d == BackoffBase(attempt)
  {
    d := MIN_BACKOFF;
    var i := 1;
    while i < attempt
      invariant 1 <= i && (i <= attempt || i == 1)
      invariant d == MIN_BACKOFF * Pow2(i - 1) < MAX_BACKOFF
    {
      d := d * 2;
      assert d == MIN_BACKOFF * Pow2(i);
      if d >= MAX_BACKOFF {
        Pow2Grows(i, attempt - 1);
        assert MIN_BACKOFF * Pow2(attempt - 1) >= MIN_BACKOFF * Pow2(i);
        return MAX_BACKOFF;
      }
      i := i + 1;
    }
  }

  /** The delay before try `attempt + 1`, in milliseconds: the base jittered down by at most half. */
  method WatchBackoff(attempt: int, jitter: real) returns (delay: real)
    requires 0.0 <= jitter < 1.0
    ensures BackoffBase(attempt) as real / 2.0 <= delay < BackoffBase(attempt) as real
    ensures delay == BackoffBase(attempt) as real * (0.5 + jitter * 0.5)
  {
    var d := DoubleUp(attempt);
    delay := Jittered(d as real, jitter);
    if delay <= 0.0 { delay := MIN_BACKOFF as real; }
  }
}
