/** The polling loop of `vignemale login` (runtimes/python/python/vignemale_cli/auth.py), the
    device authorization grant of RFC 8628.

    Time is counted in ticks.  The environment gives, for each round, what the server answers
    and how long the round took beyond the wait itself; a round takes at least one tick. */
module DeviceFlow {
  import opened Wrappers

  function Ticks(seconds: int): int { seconds * 1_000_000 }

  /** The answer to the code request; fields the server left out are None. */
  datatype CodeReply = CodeReply(status: int, deviceCode: Option<string>, interval: Option<int>, expiresIn: Option<int>)

  /** The `error` field of a poll reply: "authorization_pending", "slow_down", any other, none. */
  datatype ErrorField = AuthorizationPending | SlowDownError | OtherError | NoError

  /** The answer to one poll; a missing access token is empty.  None: the request raised. */
  datatype PollReply = PollReply(status: int, accessToken: string, error: ErrorField)

  datatype Round = Round(elapsed: nat, reply: Option<PollReply>)

  /** `status < 400 and t.get("access_token")` */
  predicate HasToken(r: PollReply) { r.status < 400 && r.accessToken != "" }

  /** The reply lets the loop go on. */
  predicate GoesOn(reply: Option<PollReply>) {
    reply.Some? && !HasToken(reply.value) && (reply.value.error.AuthorizationPending? || reply.value.error.SlowDownError?)
  }

  predicate SlowsDown(reply: Option<PollReply>) {
    reply.Some? && !HasToken(reply.value) && reply.value.error.SlowDownError?
  }

  datatype Outcome =
    | NoCode                // the code request failed
    | LoggedIn(token: string)
    | LoginRefused
    | Failed                // an exception left the loop
    | TimedOut

  // ------------------------------------------------------- the rounds of a run

  function SlowDowns(env: nat -> Round, k: nat): nat {
    if k == 0 then 0 else SlowDowns(env, k - 1) + if SlowsDown(env(k - 1).reply) then 1 else 0
  }

  /** The wait before round k, in seconds. */
  function Wait(interval: int, env: nat -> Round, k: nat): int {
    interval + 5 * SlowDowns(env, k)
  }

  function WaitSum(interval: int, env: nat -> Round, k: nat): int {
    if k == 0 then 0 else WaitSum(interval, env, k - 1) + Wait(interval, env, k - 1)
  }

  function Latency(env: nat -> Round, k: nat): nat {
    if k == 0 then 0 else Latency(env, k - 1) + env(k - 1).elapsed
  }

  /** How long after the code reply round k begins, if the rounds before it all go on. */
  function Elapsed(interval: int, env: nat -> Round, k: nat): int {
    Ticks(WaitSum(interval, env, k)) + Latency(env, k)
  }

  // ---------------------------------------------------------------- the command

  /** The sleeps: the first interval, then 5 seconds more after each reply that carries no token
      and says slow_down. */
  ghost predicate Slept(first: int, env: nat -> Round, sleeps: seq<int>) {
    && (sleeps != [] ==> sleeps[0] == first)
    && forall k :: 0 <= k < |sleeps| - 1 ==> sleeps[k + 1] == sleeps[k] + Extra(env(k).reply)
  }

  function Extra(reply: Option<PollReply>): int {
    match reply
    case Some(r) => if !(r.status < 400 && r.accessToken != "") && r.error.SlowDownError? then 5 else 0
    case None => 0
  }

  /** The first n replies carry no token, and say authorization_pending or slow_down. */
  ghost predicate WentOn(env: nat -> Round, n: int) {
    forall k :: 0 <= k < n ==>
      && env(k).reply.Some? && !(env(k).reply.value.status < 400 && env(k).reply.value.accessToken != "")
      && env(k).reply.value.error in {AuthorizationPending, SlowDownError}
  }

  /** What the last reply makes of the login, TimedOut being that it was to go on. */
  predicate Decides(reply: Option<PollReply>, outcome: Outcome) {
    match reply
    case None => outcome.Failed?
    case Some(r) =>
      if r.status < 400 && r.accessToken != "" then outcome == LoggedIn(r.accessToken)
      else if r.error in {AuthorizationPending, SlowDownError} then outcome.TimedOut?
      else outcome.LoginRefused?
  }

  lemma {:induction false} SleptSnoc(first: int, env: nat -> Round, sleeps: seq<int>)
    requires Slept(first, env, sleeps) && sleeps != []
    ensures var n := |sleeps| - 1; Slept(first, env, sleeps + [sleeps[n] + Extra(env(n).reply)])
  {
    var n := |sleeps| - 1;
    var more := sleeps + [sleeps[n] + Extra(env(n).reply)];
    assert forall k :: 0 <= k <= n ==> more[k] == sleeps[k];
  }

  class Cli {
    var credentials: Option<string>

    constructor (credentials: Option<string>)
      ensures this.credentials == credentials
    {
      this.credentials := credentials;
    }

    /** `login`.  `polls` is how many polls were sent, `sleeps` the seconds slept before each. */
    method Login(code: CodeReply, env: nat -> Round) returns (outcome: Outcome, polls: nat, sleeps: seq<int>)
      requires forall k :: env(k).elapsed >= 1
      modifies this
      ensures outcome.NoCode? <==> code.status >= 400 || code.deviceCode.None?
      ensures outcome.NoCode? ==> polls == 0
      ensures !outcome.NoCode? ==> Followed(code, env, outcome, polls)
      ensures |sleeps| == polls && (!outcome.NoCode? ==> Slept(if code.interval.Some? then code.interval.value else 5, env, sleeps))
      ensures WentOn(env, polls - 1) && (polls > 0 ==> Decides(env(polls - 1).reply, outcome))
      ensures polls == 0 ==> outcome.NoCode? || outcome.TimedOut? || outcome.Failed?
      // a token is stored only on a successful reply, and it is the one of that reply
      ensures credentials == if outcome.LoggedIn? then Some(outcome.token) else old(credentials)
    {
      if code.status >= 400 || code.deviceCode.None? { return NoCode, 0, []; }
      var interval := if code.interval.Some? then code.interval.value else 5;
      var expiresIn := if code.expiresIn.Some? then code.expiresIn.value else 600;
      outcome, polls, sleeps := PollToken(interval, Ticks(expiresIn), env);
      if outcome.LoggedIn? { credentials := Some(outcome.token); }
    }

    /** The second part of `login`: time.time() is `now` after the code reply. */
    static method PollToken(first: int, deadline: int, env: nat -> Round) returns (outcome: Outcome, polls: nat, sleeps: seq<int>)
      requires forall k :: env(k).elapsed >= 1
      ensures Ended(first, env, deadline, outcome, polls) && |sleeps| == polls && Slept(first, env, sleeps)
      ensures WentOn(env, polls - 1) && (polls > 0 ==> Decides(env(polls - 1).reply, outcome))
      ensures !outcome.NoCode? && (polls == 0 ==> outcome.TimedOut? || outcome.Failed?)
    {
      polls, sleeps := 0, [];
      var interval, now := first, 0;
      while now < deadline
        invariant Looping(first, env, deadline, polls, interval, now, sleeps)
        decreases deadline - now
      {
        if interval < 0 {
          NeverNegative(first, env, deadline, polls, interval, now, sleeps);
          return Failed, polls, sleeps; // time.sleep rejects it
        }
        var round := env(polls);
        LastRound(first, env, deadline, polls, interval, now, sleeps);
        NextRound(first, env, deadline, polls, interval, now, sleeps);
        sleeps := sleeps + [interval];
        now := now + Ticks(interval) + round.elapsed;
        polls := polls + 1;
        if round.reply.None? { return Failed, polls, sleeps; }
        var r := round.reply.value;
        if r.status < 400 && r.accessToken != "" { return LoggedIn(r.accessToken), polls, sleeps; }
        if r.error.AuthorizationPending? { continue; }
        if r.error.SlowDownError? {
          interval := interval + 5;
          continue;
        }
        return LoginRefused, polls, sleeps;
      }
      Overtime(first, env, deadline, polls, interval, now, sleeps);
      return TimedOut, polls, sleeps;
    }
  }

  /** Where the loop is after so many polls. */
  ghost predicate Looping(first: int, env: nat -> Round, limit: int, polls: nat, interval: int, now: int, sleeps: seq<int>) {
    && interval == Wait(first, env, polls) && now == Elapsed(first, env, polls) && Going(first, env, polls, limit)
    && |sleeps| == polls && Slept(first, env, sleeps + [interval]) && WentOn(env, polls)
    && (polls > 0 ==> Decides(env(polls - 1).reply, TimedOut))
  }

  lemma {:induction false} NextRound(first: int, env: nat -> Round, limit: int, polls: nat, interval: int, now: int, sleeps: seq<int>)
    requires Looping(first, env, limit, polls, interval, now, sleeps) && now < limit && interval >= 0
    ensures GoesOn(env(polls).reply) ==>
              Looping(first, env, limit, polls + 1, interval + Extra(env(polls).reply), now + Ticks(interval) + env(polls).elapsed, sleeps + [interval])
  {
    WaitsAddUp(interval, now, first, env, polls);
    SleptSnoc(first, env, sleeps + [interval]);
  }

  lemma {:induction false} LastRound(first: int, env: nat -> Round, limit: int, polls: nat, interval: int, now: int, sleeps: seq<int>)
    requires Looping(first, env, limit, polls, interval, now, sleeps) && now < limit && interval >= 0
    ensures LastPoll(first, env, polls + 1, limit) && Slept(first, env, sleeps + [interval]) && WentOn(env, polls)
  {}

  /** Only the first wait can be negative. */
  lemma {:induction false} NeverNegative(first: int, env: nat -> Round, limit: int, polls: nat, interval: int, now: int, sleeps: seq<int>)
    requires Looping(first, env, limit, polls, interval, now, sleeps) && interval < 0
    ensures polls == 0 && first < 0 && sleeps == [] && WentOn(env, -1)
  {}

  lemma {:induction false} Overtime(first: int, env: nat -> Round, limit: int, polls: nat, interval: int, now: int, sleeps: seq<int>)
    requires Looping(first, env, limit, polls, interval, now, sleeps)
    ensures Slept(first, env, sleeps) && WentOn(env, polls - 1)
  {
    assert forall k :: 0 <= k < |sleeps| ==> sleeps[k] == (sleeps + [interval])[k];
  }

  lemma {:induction false} WaitsAddUp(interval: int, now: int, first: int, env: nat -> Round, k: nat)
    requires interval == Wait(first, env, k) && now == Elapsed(first, env, k)
    ensures now + Ticks(interval) + env(k).elapsed == Elapsed(first, env, k + 1)
  {}

  /** Round k begins before the deadline, with a wait that can be slept. */
  ghost predicate Begins(interval: int, env: nat -> Round, k: nat, limit: int) {
    Elapsed(interval, env, k) < limit && Wait(interval, env, k) >= 0
  }

  /** The first n rounds begin in time and are answered "go on". */
  ghost predicate Going(interval: int, env: nat -> Round, n: nat, limit: int) {
    n > 0 ==> Going(interval, env, n - 1, limit) && Begins(interval, env, n - 1, limit) && GoesOn(env(n - 1).reply)
  }

  /** A finished loop: every poll but the last was answered "go on", every poll began before
      the deadline, and the outcome is what the last answer (or the clock) says. */
  ghost predicate Ended(interval: int, env: nat -> Round, limit: int, outcome: Outcome, polls: nat) {
    match outcome
    case NoCode => false
    case TimedOut => Going(interval, env, polls, limit) && Elapsed(interval, env, polls) >= limit
    case Failed =>
      // the first wait is negative, or the last poll raised
      || (polls == 0 && interval < 0 < limit)
      || (polls > 0 && LastPoll(interval, env, polls, limit) && env(polls - 1).reply.None?)
    case _ => polls > 0 && LastPoll(interval, env, polls, limit) && Decides(env(polls - 1).reply, outcome)
  }

  ghost predicate Followed(code: CodeReply, env: nat -> Round, outcome: Outcome, polls: nat) {
    Ended(if code.interval.Some? then code.interval.value else 5, env,
          Ticks(if code.expiresIn.Some? then code.expiresIn.value else 600), outcome, polls)
  }

  ghost predicate LastPoll(interval: int, env: nat -> Round, polls: nat, limit: int)
    requires polls > 0
  {
    Going(interval, env, polls - 1, limit) && Begins(interval, env, polls - 1, limit)
  }

  // ---------------------------------------------------------------- properties

  /** Which of the first k replies carry no token and say slow_down. */
  function SlowRounds(env: nat -> Round, k: nat): set<nat> {
    set j: nat | j < k && env(j).reply.Some? && env(j).reply.value.error.SlowDownError?
                 && !(env(j).reply.value.status < 400 && env(j).reply.value.accessToken != "")
  }

  /** Section 3.5 of RFC 8628: the wait before a round is the first interval and 5 seconds for each
      earlier slow_down; so a slow_down makes all later waits longer, and nothing else changes
      them. */
  lemma {:induction false} SlowDownLastsForever(interval: int, env: nat -> Round, k: nat)
    ensures Wait(interval, env, k) == interval + 5 * |SlowRounds(env, k)|
    ensures Wait(interval, env, k + 1) - Wait(interval, env, k) == if k in SlowRounds(env, k + 1) then 5 else 0
    ensures forall j :: 0 <= j <= k ==> Wait(interval, env, j) <= Wait(interval, env, k)
  {
    if k > 0 {
      SlowDownLastsForever(interval, env, k - 1);
      var before := SlowRounds(env, k - 1);
      assert SlowRounds(env, k) == if SlowsDown(env(k - 1).reply) then before + {k - 1} else before;
    } else {
      assert SlowRounds(env, 0) == {};
    }
  }

  lemma {:induction false} WaitsAtLeast(interval: int, env: nat -> Round, k: nat)
    ensures WaitSum(interval, env, k) >= k * interval
  {
    if k > 0 { WaitsAtLeast(interval, env, k - 1); }
  }

  lemma {:induction false} FewerThanProduct(n: nat, interval: int)
    requires interval >= 1
    ensures n <= n * interval
  {}

  /** The waits before the last one sum to less than `expires_in`, so with an interval of at
      least one second the number of polls is at most `expires_in` / interval, rounded up. */
  lemma {:induction false} PollsAreBounded(code: CodeReply, env: nat -> Round, outcome: Outcome, polls: nat)
    requires Followed(code, env, outcome, polls) && polls > 0
    ensures var interval := if code.interval.Some? then code.interval.value else 5;
            var expiresIn := if code.expiresIn.Some? then code.expiresIn.value else 600;
            && WaitSum(interval, env, polls - 1) < expiresIn
            && (polls - 1) * interval < expiresIn
            && (interval >= 1 ==> polls <= expiresIn)
  {
    var interval := if code.interval.Some? then code.interval.value else 5;
    var expiresIn := if code.expiresIn.Some? then code.expiresIn.value else 600;
    assert Elapsed(interval, env, polls - 1) < Ticks(expiresIn);
    WaitsAtLeast(interval, env, polls - 1);
    if interval >= 1 { FewerThanProduct(polls - 1, interval); }
  }
}
