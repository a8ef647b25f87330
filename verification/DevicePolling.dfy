/** Polling for the grant of one device code, backing off as section 3.5 of RFC 8628 asks. */
module DevicePolling {
  const INTERVAL := 5
  const BACK_OFF := 5

  datatype Answer = Granted | SlowDown | TooManyRequests | OtherError

  // One poll: how much longer than asked the sleep lasted, and how long the request took.
  datatype Poll = Poll(answer: Answer, oversleep: nat, latency: nat)

  predicate SlowsDown(a: Answer) {
    a == SlowDown || a == TooManyRequests
  }

  // The slow-down answers among the first n polls.
  function SlowDowns(polls: nat -> Poll, n: nat): nat {
    if n == 0 then 0 else SlowDowns(polls, n - 1) + (if SlowsDown(polls(n - 1).answer) then 1 else 0)
  }

  // The polls among the first n that are told to slow down, one way or the other.
  ghost function SlowedAt(polls: nat -> Poll, n: nat): set<nat> {
    set i: nat | i < n && (polls(i).answer == SlowDown || polls(i).answer == TooManyRequests)
  }

  lemma {:induction false} SlowDownsCount(polls: nat -> Poll, n: nat)
    ensures SlowDowns(polls, n) == |SlowedAt(polls, n)|
  {
    if n == 0 {
      assert SlowedAt(polls, n) == {};
    } else {
      SlowDownsCount(polls, n - 1);
      assert SlowedAt(polls, n) ==
             SlowedAt(polls, n - 1) + if SlowsDown(polls(n - 1).answer) then {n - 1} else {};
    }
  }

  // The least time n polls take to be sent.
  function LeastWait(polls: nat -> Poll, n: nat): nat {
    if n == 0 then 0 else LeastWait(polls, n - 1) + INTERVAL + BACK_OFF * SlowDowns(polls, n - 1)
  }

  lemma {:induction false} LeastWaitGrows(polls: nat -> Poll, n: nat)
    ensures LeastWait(polls, n) >= INTERVAL * n
  {
    if n > 0 {
      LeastWaitGrows(polls, n - 1);
    }
  }

  // ceil(expiresIn / 5), and none for a code that is already expired.
  function MostPolls(expiresIn: int): nat {
    if expiresIn <= 0 then 0 else (expiresIn + 4) / 5
  }

  // Only so many polls fit before the code expires.
  lemma PollBound(polls: nat -> Poll, expiresIn: int, n: nat)
    requires n > 0 ==> LeastWait(polls, n - 1) < expiresIn
    ensures n <= MostPolls(expiresIn)
  {
    if n > 0 {
      LeastWaitGrows(polls, n - 1);
    }
  }

  // Each later poll waits at least five seconds more for every slow-down before it.
  lemma {:induction false} LaterPollsWaitLonger(polls: nat -> Poll, m: nat, n: nat)
    requires m <= n
    ensures LeastWait(polls, n) - LeastWait(polls, m) >= (n - m) * (INTERVAL + BACK_OFF * SlowDowns(polls, m))
    ensures SlowDowns(polls, m) <= SlowDowns(polls, n)
  {
    if m < n {
      LaterPollsWaitLonger(polls, m, n - 1);
      var w := INTERVAL + BACK_OFF * SlowDowns(polls, m);
      assert (n - m) * w == (n - 1 - m) * w + w;
    }
  }

  // When the wait for poll i began: at the start, or when the poll before it returned.
  function WaitStart(done: seq<nat>, i: nat): nat
    requires i <= |done|
  {
    if i == 0 then 0 else done[i - 1]
  }

  // Poll i was begun before the code expired, and went out 5 + 5k seconds or more after the one
  // before it returned, k being the number of slow-downs so far.
  ghost predicate WellTimed(polls: nat -> Poll, sent: seq<nat>, done: seq<nat>, expiresIn: int, i: nat)
    requires i < |sent| == |done|
  {
    && WaitStart(done, i) < expiresIn
    && sent[i] >= WaitStart(done, i) + 5 + 5 * SlowDowns(polls, i)
    && done[i] >= sent[i]
  }

  ghost predicate AllWellTimed(polls: nat -> Poll, sent: seq<nat>, done: seq<nat>, expiresIn: int) {
    |sent| == |done| && forall i :: 0 <= i < |sent| ==> WellTimed(polls, sent, done, expiresIn, i)
  }

  // What holds of the polls sent so far.
  ghost predicate Polled(polls: nat -> Poll, sent: seq<nat>, done: seq<nat>, expiresIn: int) {
    && AllWellTimed(polls, sent, done, expiresIn)
    && LeastWait(polls, |sent|) <= WaitStart(done, |done|)
    && (|sent| > 0 ==> LeastWait(polls, |sent| - 1) < expiresIn)
  }

  lemma OneMorePoll(polls: nat -> Poll, sent: seq<nat>, done: seq<nat>, expiresIn: int, s: nat, d: nat)
    requires Polled(polls, sent, done, expiresIn) && WaitStart(done, |done|) < expiresIn
    requires WaitStart(done, |done|) + INTERVAL + BACK_OFF * SlowDowns(polls, |sent|) <= s <= d
    ensures Polled(polls, sent + [s], done + [d], expiresIn)
  {
    forall i | 0 <= i < |sent| + 1 ensures WellTimed(polls, sent + [s], done + [d], expiresIn, i) {
      assert WaitStart(done + [d], i) == WaitStart(done, i);
      assert i < |sent| ==> WellTimed(polls, sent, done, expiresIn, i);
    }
  }

  // No poll before the n-th was granted, and `granted` is whether the n-th, if any, was.
  ghost predicate UpToGrant(polls: nat -> Poll, n: nat, granted: bool) {
    && (forall i: nat :: i + 1 < n ==> !polls(i).answer.Granted?)
    && (granted ==> n > 0)
    && (n > 0 ==> (polls(n - 1).answer.Granted? <==> granted))
  }

  // Polls until granted or expired. `sent` are the times the polls went out, `done` when they returned.
  // No poll is begun once the code has expired, and only expiry or a grant ends the polling.
  method PollUntilGranted(polls: nat -> Poll, expiresIn: int)
      returns (granted: bool, interval: nat, sent: seq<nat>, done: seq<nat>)
    ensures |sent| == |done| && UpToGrant(polls, |sent|, granted)
    ensures !granted ==> WaitStart(done, |done|) >= expiresIn
    ensures interval == 5 + 5 * |SlowedAt(polls, |sent|)|
    ensures AllWellTimed(polls, sent, done, expiresIn)
    ensures |sent| <= MostPolls(expiresIn)
  {
    var now := 0;
    granted, interval, sent, done := false, INTERVAL, [], [];
    while now < expiresIn && !granted
      invariant Polled(polls, sent, done, expiresIn) && now == WaitStart(done, |done|)
      invariant UpToGrant(polls, |sent|, granted)
      invariant interval == INTERVAL + BACK_OFF * SlowDowns(polls, |sent|)
      decreases expiresIn - now, !granted
    {
      var poll := polls(|sent|);
      var out := now + interval + poll.oversleep;
      OneMorePoll(polls, sent, done, expiresIn, out, out + poll.latency);
      now := out + poll.latency;
      sent, done := sent + [out], done + [now];
      match poll.answer {
        case Granted => granted := true;
        case SlowDown => interval := interval + BACK_OFF;
        case TooManyRequests => interval := interval + BACK_OFF;
        case OtherError =>
      }
    }
    PollBound(polls, expiresIn, |sent|);
    SlowDownsCount(polls, |sent|);
  }
}
