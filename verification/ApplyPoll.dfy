/** `vnproxctl apply --apply`: polling a changeset until it is committed, confirming on the way,
    against a daemon and a clock that may do anything. */
module ApplyPoll {
  import opened Prelude

  const POLL_INTERVAL := 2_000  // milliseconds

  datatype Status = Committed | AwaitingConfirm | RolledBack | Failed | InProgress(name: string)

  /** A request fails on the network or otherwise (an undecodable answer), or the daemon refuses it. */
  datatype GetReply = GetFailed(network: bool) | GetRefused | Got(status: Status)

  /** A confirm the daemon refuses is benign: the next GET decides. */
  datatype PostReply = PostFailed(network: bool) | PostRefused | Posted(status: Status)

  datatype Request = Get(reply: GetReply) | Confirm(answer: PostReply)

  datatype PollResult = RequestError(network: bool) | ApiError | Final(status: Status, timedOut: bool)

  /** The environment: what the k-th GET and the confirm after it answer, how long round k takes up
      to its deadline check, and how much longer than asked its sleep lasts. */
  datatype World = World(gets: nat -> GetReply, posts: nat -> PostReply, lag: nat -> nat, oversleep: nat -> nat)

  predicate IsTerminal(s: Status) {
    s.Committed? || s.RolledBack? || s.Failed?
  }

  // ----- rounds -----

  function Round(w: World, k: nat): seq<Request> {
    if w.gets(k) == Got(AwaitingConfirm) then [Get(w.gets(k)), Confirm(w.posts(k))] else [Get(w.gets(k))]
  }

  function Rounds(w: World, n: nat): seq<Request> {
    if n == 0 then [] else Rounds(w, n - 1) + Round(w, n - 1)
  }

  /** The clock at the deadline check of round k, counted from the start. */
  function CheckTime(w: World, k: nat): nat {
    if k == 0 then w.lag(0) else CheckTime(w, k - 1) + POLL_INTERVAL + w.oversleep(k - 1) + w.lag(k)
  }

  /** How the poll would end in round k, if it ends there. */
  function Ending(w: World, k: nat, timeout: int): Option<PollResult> {
    match w.gets(k)
    case GetFailed(network) => Some(RequestError(network))
    case GetRefused => Some(ApiError)
    case Got(status) =>
      if IsTerminal(status) then Some(Final(status, false))
      else if status.AwaitingConfirm? && w.posts(k).PostFailed? then Some(RequestError(w.posts(k).network))
      else if CheckTime(w, k) >= timeout then
        Some(Final(if status.AwaitingConfirm? && w.posts(k).Posted? then w.posts(k).status else status, true))
      else None
  }

  // ----- the loop -----

  method Poll(w: World, timeout: int) returns (result: PollResult, trace: seq<Request>, rounds: nat)
    ensures rounds > 0 && trace == Rounds(w, rounds)
    ensures forall k :: 0 <= k < rounds - 1 ==> Ending(w, k, timeout).None?
    ensures Ending(w, rounds - 1, timeout) == Some(result)
  {
    trace, rounds := [], 0;
    var now := 0;
    while true
      invariant trace == Rounds(w, rounds)
      invariant forall k :: 0 <= k < rounds ==> Ending(w, k, timeout).None?
      invariant now + w.lag(rounds) == CheckTime(w, rounds)
      decreases timeout - now
    {
      var reply := w.gets(rounds);
      trace := trace + [Get(reply)];
      now := now + w.lag(rounds);
      rounds := rounds + 1;
      if reply.GetFailed? { return RequestError(reply.network), trace, rounds; }
      if reply.GetRefused? { return ApiError, trace, rounds; }
      var final := reply.status;
      match reply.status {
        case Committed => return Final(final, false), trace, rounds;
        case AwaitingConfirm =>
          var confirm := w.posts(rounds - 1);
          trace := trace + [Confirm(confirm)];
          assert trace == Rounds(w, rounds);
          if confirm.PostFailed? { return RequestError(confirm.network), trace, rounds; }
          if confirm.Posted? { final := confirm.status; }
        case RolledBack => return Final(final, false), trace, rounds;
        case Failed => return Final(final, false), trace, rounds;
        case InProgress(_) =>
      }
      if now >= timeout { return Final(final, true), trace, rounds; }
      now := now + POLL_INTERVAL + w.oversleep(rounds - 1);
    }
  }

  /** Exit codes of `apply --apply`, for a poll that was reached. */
  const EXIT_SUCCESS := 0
  const EXIT_ERROR := 1
  const EXIT_NETWORK := 5
  const EXIT_APPLY_TIMEOUT := 6

  function ExitCode(r: PollResult): int {
    match r
    case RequestError(network) => if network then EXIT_NETWORK else EXIT_ERROR
    case ApiError => EXIT_ERROR
    case Final(status, timedOut) =>
      if timedOut then EXIT_APPLY_TIMEOUT
      else if status.Committed? then EXIT_SUCCESS
      else EXIT_ERROR
  }

  // ----- theorems -----

  /** How a round goes, by what the daemon answers. A failed or refused GET ends the poll, with exit code 5
      when the network failed and 1 otherwise; so does a confirm that cannot be sent. A changeset seen
      committed, rolled back or failed ends it at once, with 0 for the first and 1 for the others. Any
      other answer ends it with 6 once the deadline has passed, and goes on before. */
  lemma RoundMeans(w: World, k: nat, timeout: int)
    ensures var e, late := Ending(w, k, timeout), CheckTime(w, k) >= timeout;
      && (w.gets(k) == GetFailed(true) ==> e == Some(RequestError(true)) && ExitCode(e.value) == 5)
      && (w.gets(k) == GetFailed(false) ==> e == Some(RequestError(false)) && ExitCode(e.value) == 1)
      && (w.gets(k) == GetRefused ==> e == Some(ApiError) && ExitCode(e.value) == 1)
      && (w.gets(k) == Got(Committed) ==> e == Some(Final(Committed, false)) && ExitCode(e.value) == 0)
      && (w.gets(k) == Got(RolledBack) ==> e == Some(Final(RolledBack, false)) && ExitCode(e.value) == 1)
      && (w.gets(k) == Got(Failed) ==> e == Some(Final(Failed, false)) && ExitCode(e.value) == 1)
      && (w.gets(k) == Got(AwaitingConfirm) && w.posts(k).PostFailed? ==>
            e == Some(RequestError(w.posts(k).network)) && ExitCode(e.value) == if w.posts(k).network then 5 else 1)
      && (w.gets(k) == Got(AwaitingConfirm) && w.posts(k).PostRefused? ==>
            e == if late then Some(Final(AwaitingConfirm, true)) else None)
      && (w.gets(k) == Got(AwaitingConfirm) && w.posts(k).Posted? ==>
            e == if late then Some(Final(w.posts(k).status, true)) else None)
      && (w.gets(k).Got? && w.gets(k).status.InProgress? ==>
            e == if late then Some(Final(w.gets(k).status, true)) else None)
      && (e.Some? && e.value.Final? && e.value.timedOut ==> ExitCode(e.value) == 6)
  {
  }

  /** Between the deadline checks of two rounds lie one poll interval, whatever the sleep took longer, and
      the next round. */
  lemma ChecksFollow(w: World, k: nat)
    ensures CheckTime(w, 0) == w.lag(0)
    ensures CheckTime(w, k + 1) == CheckTime(w, k) + 2_000 + w.oversleep(k) + w.lag(k + 1)
  {
  }

  lemma {:induction false} ChecksAreApart(w: World, k: nat)
    ensures CheckTime(w, k) >= k * POLL_INTERVAL
  {
    if k > 0 { ChecksAreApart(w, k - 1); }
  }

  function CeilDiv(a: int, b: int): int
    requires b > 0
  {
    if a <= 0 then 0 else (a + b - 1) / b
  }

  /** However the daemon answers, the poll makes at most ceil(timeout / 2s) + 1 GETs. */
  lemma GetsAreBounded(w: World, timeout: int, rounds: nat)
    requires rounds > 0 && forall k :: 0 <= k < rounds - 1 ==> Ending(w, k, timeout).None?
    ensures rounds <= CeilDiv(timeout, POLL_INTERVAL) + 1
    ensures rounds > 1 ==> (rounds - 2) * 2_000 < timeout
  {
    if rounds > 1 {
      assert Ending(w, rounds - 2, timeout).None?;
      ChecksAreApart(w, rounds - 2);
      assert (rounds - 2) * POLL_INTERVAL < timeout;
    }
  }

  function GetCount(trace: seq<Request>): nat {
    if trace == [] then 0 else (if trace[0].Get? then 1 else 0) + GetCount(trace[1..])
  }

  lemma {:induction false} GetCountJoin(a: seq<Request>, b: seq<Request>)
    ensures GetCount(a + b) == GetCount(a) + GetCount(b)
  {
    if a == [] {
      assert a + b == b;
    } else {
      assert (a + b)[1..] == a[1..] + b;
      GetCountJoin(a[1..], b);
    }
  }

  lemma OneGetInARound(w: World, k: nat)
    ensures GetCount(Round(w, k)) == 1
  {
    var get, post := Get(w.gets(k)), Confirm(w.posts(k));
    assert GetCount([get]) == 1 by { assert [get][1..] == []; }
    assert GetCount([get, post]) == 1 by { assert [get, post][1..] == [post] && [post][1..] == []; }
  }

  lemma OneMoreGet(w: World, n: nat)
    ensures GetCount(Rounds(w, n) + Round(w, n)) == GetCount(Rounds(w, n)) + 1
  {
    GetCountJoin(Rounds(w, n), Round(w, n));
    OneGetInARound(w, n);
  }

  lemma {:induction false} OneGetPerRound(w: World, n: nat)
    ensures GetCount(Rounds(w, n)) == n
  {
    if n > 0 {
      OneGetPerRound(w, n - 1);
      OneMoreGet(w, n - 1);
    }
  }

  /** A confirm is sent right after a GET that showed awaiting_confirm, and after every such GET. */
  lemma {:induction false} ConfirmsFollowAwaiting(w: World, n: nat, i: nat)
    requires i < |Rounds(w, n)|
    ensures Rounds(w, n)[i].Confirm? ==> i > 0 && Rounds(w, n)[i - 1] == Get(Got(AwaitingConfirm))
    ensures Rounds(w, n)[i] == Get(Got(AwaitingConfirm)) ==> i + 1 < |Rounds(w, n)| && Rounds(w, n)[i + 1].Confirm?
  {
    if i < |Rounds(w, n - 1)| {
      ConfirmsFollowAwaiting(w, n - 1, i);
    }
  }

  /** The command exits with success exactly when the last request was a GET and that GET itself
      showed committed; a confirm's answer never counts. */
  lemma SuccessIsAnObservedCommit(w: World, timeout: int, result: PollResult, rounds: nat)
    requires rounds > 0 && Ending(w, rounds - 1, timeout) == Some(result)
    ensures ExitCode(result) == EXIT_SUCCESS <==> Rounds(w, rounds)[|Rounds(w, rounds)| - 1] == Get(Got(Committed))
  {
    assert Rounds(w, rounds) == Rounds(w, rounds - 1) + Round(w, rounds - 1);
  }

  /** The poll gives up only past the deadline, and never in a round whose GET showed a terminal status. */
  lemma TimeoutIsPastTheDeadline(w: World, timeout: int, result: PollResult, rounds: nat)
    requires rounds > 0 && Ending(w, rounds - 1, timeout) == Some(result)
    ensures ExitCode(result) == EXIT_APPLY_TIMEOUT ==>
      CheckTime(w, rounds - 1) >= timeout && w.gets(rounds - 1).Got? && !IsTerminal(w.gets(rounds - 1).status)
  {
  }

  /** What it gives up on can be committed all the same, through the answer to its own confirm: the
      timed-out result is committed if and only if the last request is a confirm answered committed,
      and in the round of that confirm the deadline has passed. */
  lemma TimedOutYetCommitted(w: World, timeout: int, result: PollResult, rounds: nat)
    requires rounds > 0 && Ending(w, rounds - 1, timeout) == Some(result)
    ensures result == Final(Committed, true) <==>
      Rounds(w, rounds)[|Rounds(w, rounds)| - 1] == Confirm(Posted(Committed))
    ensures result == Final(Committed, true) <==>
      && w.gets(rounds - 1) == Got(AwaitingConfirm) && w.posts(rounds - 1) == Posted(Committed)
      && CheckTime(w, rounds - 1) >= timeout
    ensures result == Final(Committed, true) ==> ExitCode(result) == EXIT_APPLY_TIMEOUT
  {
    assert Rounds(w, rounds) == Rounds(w, rounds - 1) + Round(w, rounds - 1);
  }

  /** The input: a changeset awaiting its confirm, a confirm that commits it, and a clock at the
      deadline. The command exits with the timeout code. */
  lemma CommittedReportedAsTimeout(timeout: nat)
    ensures var w := World(_ => Got(AwaitingConfirm), _ => Posted(Committed), _ => timeout, _ => 0);
      && Ending(w, 0, timeout) == Some(Final(Committed, true))
      && ExitCode(Final(Committed, true)) == EXIT_APPLY_TIMEOUT
  {
  }
}
