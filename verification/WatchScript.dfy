/** What a run of `vnproxctl watch` shows, read off the script of replies alone: which call each reply
    answers follows from how the calls before it ended, whatever is rendered. */
module WatchScript {
  import opened Prelude
  import opened WatchLoop

  /** The call after one that was answered so: a cancelled context ends the loop at the next failure or
      between two rounds; a failed dial is followed by a wait, a failed subscribe or read by a new round. */
  function NextCall(call: Mode, r: Reply): Mode {
    match call
    case Top => if r.done then Finished else Dialling
    case Dialling => if r.ok then Subscribing else if r.done then Finished else Waiting
    case Waiting => if r.done then Finished else Top
    case Subscribing => if r.ok then Reading else if r.done then Finished else Top
    case Reading => if r.ok then Reading else if r.done then Finished else Top
    case Finished => Finished
  }

  /** The call reply n answers. */
  function CallAt(script: seq<Reply>, n: nat): Mode
    requires n <= |script|
  {
    if n == 0 then Top else NextCall(CallAt(script, n - 1), script[n - 1])
  }

  /** Reply i is an event read while the stream was up, well formed and allowed by the filter. */
  predicate IsShown(script: seq<Reply>, i: nat, kinds: Option<set<string>>)
    requires i < |script|
  {
    && CallAt(script, i).Reading? && script[i].ok && script[i].payload.Event?
    && (kinds.None? || script[i].payload.name in kinds.value)
  }

  /** The names of those events, in order. */
  function ShownNames(script: seq<Reply>, n: nat, kinds: Option<set<string>>): seq<string>
    requires n <= |script|
  {
    if n == 0 then []
    else ShownNames(script, n - 1, kinds) + if IsShown(script, n - 1, kinds) then [script[n - 1].payload.name] else []
  }

  /** As many of them as were asked for are among the first n replies. */
  predicate LimitReached(script: seq<Reply>, n: nat, kinds: Option<set<string>>, maxEvents: int)
    requires n <= |script|
  {
    maxEvents > 0 && |ShownNames(script, n, kinds)| >= maxEvents
  }

  function UpTo(names: seq<string>, maxEvents: int): seq<string> {
    if 0 < maxEvents < |names| then names[..maxEvents] else names
  }

  function RenderedNames(out: seq<Report>): seq<string> {
    if out == [] then []
    else RenderedNames(out[..|out| - 1]) + if out[|out| - 1].Rendered? then [out[|out| - 1].name] else []
  }

  /** The replies that have a line: every dial, every failed subscribe or read, every event shown, and
      the cancellation that ends the loop. */
  predicate HasLine(script: seq<Reply>, i: nat, kinds: Option<set<string>>)
    requires i < |script|
  {
    match CallAt(script, i)
    case Top => script[i].done
    case Waiting => script[i].done
    case Dialling => true
    case Subscribing => !script[i].ok
    case Reading => !script[i].ok || IsShown(script, i, kinds)
    case Finished => false
  }

  /** The line of a reply. The number of the try and the length of the gap in it are those of a sound
      report. */
  predicate IsLineOf(line: Report, call: Mode, r: Reply) {
    match call
    case Dialling =>
      if r.ok then (line.Connected? || line.Reconnected?) && line.at == r.at
      else if r.done then line == Stopped
      else line.Reconnecting? && line.at == r.at && !line.subscribeFailed
    case Subscribing =>
      if r.done then line == Stopped else line.Reconnecting? && line.at == r.at && line.subscribeFailed
    case Reading =>
      if r.ok then r.payload.Event? && line == Rendered(r.payload.name)
      else if r.done then line == Stopped
      else line == Disconnected(r.at)
    case _ => line == Stopped
  }

  /** The replies with a line, in order, as long as fewer events than asked for have been shown. */
  function Told(script: seq<Reply>, n: nat, kinds: Option<set<string>>, maxEvents: int): (told: seq<nat>)
    requires n <= |script|
    ensures forall j :: 0 <= j < |told| ==> told[j] < n
  {
    if n == 0 then []
    else
      Told(script, n - 1, kinds, maxEvents) +
      if HasLine(script, n - 1, kinds) && !LimitReached(script, n - 1, kinds, maxEvents) then [n - 1] else []
  }

  /** The report has one line per reply told of, and it is that reply's. */
  ghost predicate TellsAll(script: seq<Reply>, told: seq<nat>, out: seq<Report>) {
    && |out| == |told|
    && forall j :: 0 <= j < |told| ==>
      told[j] < |script| && IsLineOf(out[j], CallAt(script, told[j]), script[told[j]])
  }

  /** The loop and the script are in the same place: it awaits the call the script answers next, or has
      shown as many events as asked for and returned. */
  ghost predicate InPlace(script: seq<Reply>, n: nat, kinds: Option<set<string>>, maxEvents: int, l: Loop)
    requires n <= |script|
  {
    var names := ShownNames(script, n, kinds);
    && RenderedNames(l.out) == UpTo(names, maxEvents)
    && if LimitReached(script, n, kinds, maxEvents) then l.mode.Finished?
       else l.mode == CallAt(script, n) && l.rendered == |names|
  }

  lemma OneMoreName(out: seq<Report>, r: Report)
    ensures RenderedNames(out + [r]) == RenderedNames(out) + if r.Rendered? then [r.name] else []
  {
    assert (out + [r])[..|out|] == out;
  }

  /** What one reply does to the loop's lines. */
  lemma OneReply(l: Loop, r: Reply, kinds: Option<set<string>>, maxEvents: int)
    ensures var now := Take(l, r, kinds, maxEvents);
      now.out == l.out || (now.out == l.out + [now.out[|l.out|]] && IsLineOf(now.out[|l.out|], l.mode, r))
  {
  }

  /** The reply is an event to show, for a loop that is reading. */
  predicate Shows(call: Mode, r: Reply, kinds: Option<set<string>>) {
    call.Reading? && r.ok && r.payload.Event? && (kinds.None? || r.payload.name in kinds.value)
  }

  /** One reply to a loop in place: the event shown, if it is one, and the call after it. */
  ghost predicate Moves(l: Loop, r: Reply, kinds: Option<set<string>>, maxEvents: int, now: Loop) {
    var shows := Shows(l.mode, r, kinds);
    && RenderedNames(now.out) == RenderedNames(l.out) + (if shows then [r.payload.name] else [])
    && now.rendered == l.rendered + (if shows then 1 else 0)
    && now.mode == if shows && maxEvents > 0 && now.rendered >= maxEvents then Finished else NextCall(l.mode, r)
  }

  lemma TakeCounts(l: Loop, r: Reply, kinds: Option<set<string>>, maxEvents: int)
    ensures var now, shows := Take(l, r, kinds, maxEvents), Shows(l.mode, r, kinds);
      && now.rendered == l.rendered + (if shows then 1 else 0)
      && now.mode == if shows && maxEvents > 0 && now.rendered >= maxEvents then Finished else NextCall(l.mode, r)
  {
  }

  lemma TakeWrites(l: Loop, r: Reply, kinds: Option<set<string>>, maxEvents: int)
    ensures var now, shows := Take(l, r, kinds, maxEvents), Shows(l.mode, r, kinds);
      && (shows ==> now.out == l.out + [Rendered(r.payload.name)])
      && (!shows ==> now.out == l.out || (now.out == l.out + [now.out[|l.out|]] && !now.out[|l.out|].Rendered?))
  {
  }

  lemma TakeMoves(l: Loop, r: Reply, kinds: Option<set<string>>, maxEvents: int, now: Loop)
    requires now == Take(l, r, kinds, maxEvents)
    ensures Moves(l, r, kinds, maxEvents, now)
  {
    TakeCounts(l, r, kinds, maxEvents);
    TakeWrites(l, r, kinds, maxEvents);
    LineNames(l.out, now.out, if Shows(l.mode, r, kinds) then [r.payload.name] else []);
  }

  lemma LineNames(out: seq<Report>, more: seq<Report>, names: seq<string>)
    requires
      || (more == out && names == [])
      || (|more| > |out| && more == out + [more[|out|]]
          && names == if more[|out|].Rendered? then [more[|out|].name] else [])
    ensures RenderedNames(more) == RenderedNames(out) + names
  {
    if more != out { OneMoreName(out, more[|out|]); }
  }

  lemma MoveInPlace(script: seq<Reply>, n: nat, kinds: Option<set<string>>, maxEvents: int, l: Loop, now: Loop)
    requires n < |script| && InPlace(script, n, kinds, maxEvents, l) && !LimitReached(script, n, kinds, maxEvents)
    requires Moves(l, script[n], kinds, maxEvents, now)
    ensures InPlace(script, n + 1, kinds, maxEvents, now)
  {
    assert Shows(l.mode, script[n], kinds) <==> IsShown(script, n, kinds);
  }

  lemma StepInPlace(script: seq<Reply>, n: nat, kinds: Option<set<string>>, maxEvents: int, l: Loop)
    requires n < |script| && InPlace(script, n, kinds, maxEvents, l)
    ensures InPlace(script, n + 1, kinds, maxEvents, Take(l, script[n], kinds, maxEvents))
  {
    if LimitReached(script, n, kinds, maxEvents) {
      UpToStays(ShownNames(script, n, kinds), ShownNames(script, n + 1, kinds), maxEvents);
    } else {
      TakeMoves(l, script[n], kinds, maxEvents, Take(l, script[n], kinds, maxEvents));
      MoveInPlace(script, n, kinds, maxEvents, l, Take(l, script[n], kinds, maxEvents));
    }
  }

  lemma UpToStays(names: seq<string>, more: seq<string>, maxEvents: int)
    requires names <= more && 0 < maxEvents <= |names|
    ensures UpTo(names, maxEvents) == UpTo(more, maxEvents)
  {
  }

  lemma StepTellsAll(script: seq<Reply>, n: nat, kinds: Option<set<string>>, maxEvents: int, l: Loop)
    requires n < |script| && InPlace(script, n, kinds, maxEvents, l)
    requires TellsAll(script, Told(script, n, kinds, maxEvents), l.out)
    ensures TellsAll(script, Told(script, n + 1, kinds, maxEvents), Take(l, script[n], kinds, maxEvents).out)
  {
    OneReply(l, script[n], kinds, maxEvents);
  }

  lemma {:induction false} RunInPlace(script: seq<Reply>, n: nat, kinds: Option<set<string>>, maxEvents: int)
    requires n <= |script|
    ensures InPlace(script, n, kinds, maxEvents, After(script, n, kinds, maxEvents))
    ensures TellsAll(script, Told(script, n, kinds, maxEvents), After(script, n, kinds, maxEvents).out)
  {
    if n > 0 {
      RunInPlace(script, n - 1, kinds, maxEvents);
      StepInPlace(script, n - 1, kinds, maxEvents, After(script, n - 1, kinds, maxEvents));
      StepTellsAll(script, n - 1, kinds, maxEvents, After(script, n - 1, kinds, maxEvents));
    }
  }

  /** Over any script: the names rendered are, in order and with multiplicity, those of the well-formed
      allowed events read while the stream was up, up to the number asked for; every dial, drop, failed
      try and cancellation has its line, in order, and nothing else has one; and the loop has returned
      if and only if it was cancelled or has shown as many events as asked for. */
  lemma WatchTellsAll(script: seq<Reply>, kinds: Option<set<string>>, maxEvents: int)
    ensures RenderedNames(After(script, |script|, kinds, maxEvents).out)
         == UpTo(ShownNames(script, |script|, kinds), maxEvents)
    ensures TellsAll(script, Told(script, |script|, kinds, maxEvents), After(script, |script|, kinds, maxEvents).out)
    ensures After(script, |script|, kinds, maxEvents).mode.Finished? <==>
      CallAt(script, |script|).Finished? || LimitReached(script, |script|, kinds, maxEvents)
  {
    RunInPlace(script, |script|, kinds, maxEvents);
  }

  /** The replies told of are exactly those with a line that come before the limit is reached ... */
  lemma {:induction false} ToldAre(script: seq<Reply>, n: nat, kinds: Option<set<string>>, maxEvents: int, i: nat)
    requires i < n <= |script|
    ensures i in Told(script, n, kinds, maxEvents) <==>
      HasLine(script, i, kinds) && !LimitReached(script, i, kinds, maxEvents)
  {
    if i < n - 1 { ToldAre(script, n - 1, kinds, maxEvents, i); }
  }

  ghost predicate Ascending(xs: seq<nat>) {
    forall j, k :: 0 <= j < k < |xs| ==> xs[j] < xs[k]
  }

  lemma AscendingOneMore(xs: seq<nat>, x: nat)
    requires Ascending(xs) && forall j :: 0 <= j < |xs| ==> xs[j] < x
    ensures Ascending(xs + [x])
  {
  }

  /** ... each once and in order. */
  lemma {:induction false} ToldInOrder(script: seq<Reply>, n: nat, kinds: Option<set<string>>, maxEvents: int)
    requires n <= |script|
    ensures Ascending(Told(script, n, kinds, maxEvents))
  {
    if n > 0 {
      ToldInOrder(script, n - 1, kinds, maxEvents);
      AscendingOneMore(Told(script, n - 1, kinds, maxEvents), n - 1);
      assert Told(script, n - 1, kinds, maxEvents) + [] == Told(script, n - 1, kinds, maxEvents);
    }
  }

  /** The input: a connection, then one allowed event, and one asked for. The loop shows it and returns. */
  lemma OneEventShown(at: int, name: string)
    ensures var fine := Reply(true, false, at, Malformed);
      var script := [fine, fine, fine, Reply(true, false, at, Event(name))];
      var l := After(script, 4, None, 1);
      l.out == [Connected(at), Rendered(name)] && l.mode.Finished?
  {
    var fine := Reply(true, false, at, Malformed);
    var script := [fine, fine, fine, Reply(true, false, at, Event(name))];
    assert After(script, 1, None, 1) == START.(mode := Dialling);
    assert After(script, 2, None, 1).mode.Subscribing?;
    assert After(script, 3, None, 1).mode.Reading?;
  }
}
