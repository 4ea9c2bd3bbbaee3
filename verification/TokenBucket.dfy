/** The bandwidth limiter of the delay proxy, in exact arithmetic. Readings of the clock are
    inputs: a sleep wakes at or after the time it asked for. */
module TokenBucket {
  import Arith

  /** The most bytes the proxy reads, and so asks for, at a time. */
  const READ_LIMIT: nat := 65536

  datatype Bucket = Bucket(rate: real, tokens: real, last: real)

  predicate Valid(b: Bucket) {
    0.0 < b.rate && 0.0 <= b.tokens <= b.rate
  }

  function Min(x: real, y: real): real {
    if x < y then x else y
  }

  /** What the rate allows in a span of time. */
  function Earned(rate: real, from: real, to: real): real {
    rate * (to - from)
  }

  function Refill(b: Bucket, now: real): Bucket {
    b.(tokens := Min(b.rate, b.tokens + Earned(b.rate, b.last, now)), last := now)
  }

  /** One look at the clock by a caller that wants to pass n bytes. */
  datatype Poll = Poll(now: real, bytes: real)

  predicate Passes(b: Bucket, p: Poll) {
    Refill(b, p.now).tokens >= p.bytes
  }

  function AfterPoll(b: Bucket, p: Poll): Bucket {
    var full := Refill(b, p.now);
    if Passes(b, p) then full.(tokens := full.tokens - p.bytes) else full
  }

  function After(b: Bucket, polls: seq<Poll>): Bucket
    decreases |polls|
  {
    if polls == [] then b else After(AfterPoll(b, polls[0]), polls[1..])
  }

  /** The bytes let through by a run of polls. */
  function Granted(b: Bucket, polls: seq<Poll>): real
    decreases |polls|
  {
    if polls == [] then 0.0
    else (if Passes(b, polls[0]) then polls[0].bytes else 0.0) + Granted(AfterPoll(b, polls[0]), polls[1..])
  }

  /** The clock does not run backward, and nobody asks for a negative number of bytes. */
  predicate Ordered(last: real, polls: seq<Poll>)
    decreases |polls|
  {
    polls == [] || (last <= polls[0].now && 0.0 <= polls[0].bytes && Ordered(polls[0].now, polls[1..]))
  }

  // ---------------------------------------------------------------- runs

  lemma EarnedAdds(rate: real, t0: real, t1: real, t2: real)
    ensures Earned(rate, t0, t1) + Earned(rate, t1, t2) == Earned(rate, t0, t2)
    ensures Earned(rate, t0, t0) == 0.0
    ensures 0.0 <= rate && t0 <= t1 ==> 0.0 <= Earned(rate, t0, t1)
  {
    if 0.0 <= rate && t0 <= t1 {
      Arith.NonNegative(rate, t1 - t0);
    }
    assert rate * (t0 - t0) == 0.0;
  }

  lemma PollKeeps(b: Bucket, p: Poll)
    requires Valid(b) && b.last <= p.now && 0.0 <= p.bytes
    ensures Valid(AfterPoll(b, p)) && AfterPoll(b, p).last == p.now && AfterPoll(b, p).rate == b.rate
  {
    EarnedAdds(b.rate, b.last, p.now, p.now);
    hide Earned;
  }

  /** What does not fit the bucket when it is refilled: tokens above the rate are lost. */
  function Overflow(b: Bucket, now: real): real {
    var there := b.tokens + Earned(b.rate, b.last, now);
    if there > b.rate then there - b.rate else 0.0
  }

  /** The tokens lost over a run. */
  function Spilled(b: Bucket, polls: seq<Poll>): real
    decreases |polls|
  {
    if polls == [] then 0.0 else Overflow(b, polls[0].now) + Spilled(AfterPoll(b, polls[0]), polls[1..])
  }

  /** A poll is granted exactly when its bytes fit what is there, and it takes exactly them. */
  lemma PollExactly(b: Bucket, p: Poll)
    ensures var there := b.tokens + Earned(b.rate, b.last, p.now) - Overflow(b, p.now);
            && (Passes(b, p) <==> p.bytes <= there)
            && AfterPoll(b, p) == b.(last := p.now, tokens := if p.bytes <= there then there - p.bytes else there)
  {
    hide Earned;
  }

  /** The balance of every run: what is granted, what is left and what was spilled is exactly what
      was there and the rate times the time passed. */
  lemma RunsBalance(b: Bucket, polls: seq<Poll>)
    ensures After(b, polls).last == if polls == [] then b.last else polls[|polls| - 1].now
    ensures Granted(b, polls) + After(b, polls).tokens + Spilled(b, polls)
         == b.tokens + b.rate * (After(b, polls).last - b.last)
  {
    EarnedBalance(b, polls);
    hide Granted, After, Spilled;
  }

  lemma {:induction false} EarnedBalance(b: Bucket, polls: seq<Poll>)
    ensures After(b, polls).rate == b.rate
    ensures After(b, polls).last == if polls == [] then b.last else polls[|polls| - 1].now
    ensures Granted(b, polls) + After(b, polls).tokens + Spilled(b, polls)
         == b.tokens + Earned(b.rate, b.last, After(b, polls).last)
    decreases |polls|
  {
    hide Earned, Overflow, AfterPoll, Passes;
    if polls == [] {
      EarnedAdds(b.rate, b.last, b.last, b.last);
    } else {
      var b' := AfterPoll(b, polls[0]);
      PollExactly(b, polls[0]);
      EarnedBalance(b', polls[1..]);
      EarnedAdds(b.rate, b.last, b'.last, After(b, polls).last);
    }
  }

  /** No refill of the run finds more than fits. */
  predicate NeverOver(b: Bucket, polls: seq<Poll>)
    decreases |polls|
  {
    polls == []
    || (b.tokens + Earned(b.rate, b.last, polls[0].now) <= b.rate && NeverOver(AfterPoll(b, polls[0]), polls[1..]))
  }

  /** Nothing is spilled exactly when no refill finds more than fits, and then what is granted and
      left is exactly what was there and allowed. */
  lemma {:induction false} NothingSpilledExactly(b: Bucket, polls: seq<Poll>)
    ensures 0.0 <= Spilled(b, polls)
    ensures NeverOver(b, polls) <==> Spilled(b, polls) == 0.0
    ensures NeverOver(b, polls) <==>
            Granted(b, polls) + After(b, polls).tokens == b.tokens + Earned(b.rate, b.last, After(b, polls).last)
    decreases |polls|
  {
    hide Earned, AfterPoll, Granted, After;
    EarnedBalance(b, polls);
    if polls != [] {
      NothingSpilledExactly(AfterPoll(b, polls[0]), polls[1..]);
    }
  }

  /** Over any run the tokens stay between 0 and rate, and what is granted together with what is
      left never exceeds what was there plus what the rate allowed in the time passed. */
  lemma {:induction false} RunsConserve(b: Bucket, polls: seq<Poll>)
    requires Valid(b) && Ordered(b.last, polls)
    ensures Valid(After(b, polls)) && After(b, polls).rate == b.rate
    ensures After(b, polls).last == if polls == [] then b.last else polls[|polls| - 1].now
    ensures Granted(b, polls) + After(b, polls).tokens <= b.tokens + Earned(b.rate, b.last, After(b, polls).last)
    decreases |polls|
  {
    hide Earned, AfterPoll;
    EarnedBalance(b, polls);
    NothingSpilledExactly(b, polls);
    if polls != [] {
      PollKeeps(b, polls[0]);
      RunsConserve(AfterPoll(b, polls[0]), polls[1..]);
    }
  }

  function Sum(requests: seq<real>): real {
    if requests == [] then 0.0 else requests[0] + Sum(requests[1..])
  }

  /** Requests made one after the other at one time. */
  function AtOnce(requests: seq<real>, now: real): (r: seq<Poll>)
    ensures |r| == |requests| && forall i :: 0 <= i < |r| ==> r[i] == Poll(now, requests[i])
  {
    seq(|requests|, i requires 0 <= i < |requests| => Poll(now, requests[i]))
  }

  /** Requests made at one time that together fit what is there are all granted, and leave what
      is there less their sum. */
  lemma {:induction false} TogetherGranted(b: Bucket, requests: seq<real>, now: real)
    requires Valid(b) && b.last <= now && forall i :: 0 <= i < |requests| ==> 0.0 <= requests[i]
    requires requests != [] && Sum(requests) <= b.tokens + Earned(b.rate, b.last, now) - Overflow(b, now)
    ensures var polls := AtOnce(requests, now);
            && Granted(b, polls) == Sum(requests)
            && (forall i :: 0 <= i < |requests| ==> Passes(After(b, polls[..i]), polls[i]))
            && After(b, polls).tokens == b.tokens + Earned(b.rate, b.last, now) - Overflow(b, now) - Sum(requests)
    decreases |requests|
  {
    var polls, rest := AtOnce(requests, now), requests[1..];
    var b' := AfterPoll(b, polls[0]);
    assert polls[1..] == AtOnce(rest, now);
    SumNonNegative(rest);
    PollExactly(b, polls[0]);
    PollKeeps(b, polls[0]);
    EarnedAdds(b'.rate, now, now, now);
    hide Earned, AfterPoll, Passes;
    if rest == [] {
      assert polls[..0] == [];
    } else {
      TogetherGranted(b', rest, now);
      forall i | 0 <= i < |requests| ensures Passes(After(b, polls[..i]), polls[i]) {
        if i > 0 {
          assert polls[..i][1..] == polls[1..][..i - 1];
          assert Passes(After(b', polls[1..][..i - 1]), polls[1..][i - 1]);
        }
      }
    }
  }

  lemma {:induction false} SumNonNegative(requests: seq<real>)
    requires forall i :: 0 <= i < |requests| ==> 0.0 <= requests[i]
    ensures 0.0 <= Sum(requests)
  {
    if requests != [] {
      SumNonNegative(requests[1..]);
    }
  }

  /** Looking twice at the same time is looking once. */
  lemma RefillTwice(b: Bucket, now: real)
    requires Valid(b) && b.last <= now
    ensures Valid(Refill(b, now)) && Refill(Refill(b, now), now) == Refill(b, now)
  {
    EarnedAdds(b.rate, b.last, now, now);
    EarnedAdds(b.rate, now, now, now);
    hide Earned;
  }

  /** A burst: from its first poll to its last, at most rate bytes more than rate times the time
      between them. */
  lemma BurstLimited(b: Bucket, polls: seq<Poll>)
    requires Valid(b) && Ordered(b.last, polls) && polls != []
    ensures Granted(b, polls) <= Earned(b.rate, polls[0].now, polls[|polls| - 1].now) + b.rate
  {
    hide Earned;
    var full := Refill(b, polls[0].now);
    RefillTwice(b, polls[0].now);
    assert AfterPoll(full, polls[0]) == AfterPoll(b, polls[0]);
    assert Granted(full, polls) == Granted(b, polls);
    RunsConserve(full, polls);
  }

  lemma TailSlices<T>(s: seq<T>, i: nat, j: nat)
    requires 0 < i <= j <= |s|
    ensures s[..i][1..] == s[1..][..i - 1]
    ensures s[i..j] == s[1..][i - 1..j - 1]
  {
    var a, b, c, d := s[..i][1..], s[1..][..i - 1], s[i..j], s[1..][i - 1..j - 1];
    assert |a| == |b| && forall k :: 0 <= k < |a| ==> a[k] == s[k + 1] == b[k];
    assert |c| == |d| && forall k :: 0 <= k < |c| ==> c[k] == s[i + k] == d[k];
  }

  lemma {:induction false} OrderedParts(last: real, polls: seq<Poll>, i: nat, j: nat)
    requires Ordered(last, polls) && i <= j <= |polls|
    ensures Ordered(last, polls[..i])
    ensures Ordered(if i == 0 then last else polls[i - 1].now, polls[i..j])
    decreases |polls|
  {
    if i > 0 {
      OrderedParts(polls[0].now, polls[1..], i - 1, j - 1);
      TailSlices(polls, i, j);
    } else if j > 0 {
      OrderedParts(polls[0].now, polls[1..], 0, j - 1);
      TailSlices(polls, j, j);
      assert polls[i..j] == polls[..j];
    }
  }

  /** Every stretch of every run: between its i-th and its (j-1)-th poll a bucket lets through at
      most rate bytes more than its rate allows for that time. */
  lemma AnyStretchLimited(b: Bucket, polls: seq<Poll>, i: nat, j: nat)
    requires Valid(b) && Ordered(b.last, polls) && i < j <= |polls|
    ensures Granted(After(b, polls[..i]), polls[i..j]) <= Earned(b.rate, polls[i].now, polls[j - 1].now) + b.rate
  {
    hide Earned, Granted;
    OrderedParts(b.last, polls, i, j);
    RunsConserve(b, polls[..i]);
    hide Ordered, After, AfterPoll;
    assert polls[i..j][0] == polls[i] && polls[i..j][|polls[i..j]| - 1] == polls[j - 1];
    BurstLimited(After(b, polls[..i]), polls[i..j]);
  }

  // ---------------------------------------------------------------- consuming

  datatype Outcome = Outcome(bucket: Bucket, passed: bool, sleeps: nat, waited: real)

  /** How long it takes to earn the tokens that are missing. */
  function WaitTime(b: Bucket, bytes: real): real
    requires b.rate != 0.0
  {
    (bytes - b.tokens) / b.rate
  }

  /** A consumer polls, sleeps until its bytes should be there, and polls again. late[k] is how
      long after the time asked for the k-th sleep wakes; a consumer still short of tokens after
      |late| sleeps has not passed. waited is the time from the first poll to the last. */
  function Consume(b: Bucket, bytes: real, now: real, late: seq<real>): Outcome
    decreases |late|
  {
    if b.rate <= 0.0 then Outcome(b, true, 0, 0.0)
    else
      var b' := AfterPoll(b, Poll(now, bytes));
      if Passes(b, Poll(now, bytes)) then Outcome(b', true, 0, 0.0)
      else if late == [] then Outcome(b', false, 0, 0.0)
      else
        var sleep := WaitTime(b', bytes) + late[0];
        var rest := Consume(b', bytes, now + sleep, late[1..]);
        Outcome(rest.bucket, rest.passed, rest.sleeps + 1, sleep + rest.waited)
  }

  predicate NeverEarly(late: seq<real>) {
    forall k :: 0 <= k < |late| ==> 0.0 <= late[k]
  }

  lemma RefillOver(b: Bucket, sleep: real, now: real, bytes: real)
    requires Valid(b) && now == b.last + sleep && b.tokens < bytes && sleep >= WaitTime(b, bytes)
    ensures b.last <= now && Refill(b, now).tokens >= Min(b.rate, bytes)
  {
    var d := WaitTime(b, bytes);
    Arith.NonNegative(b.rate, sleep - d);
    assert b.rate * (sleep - d) == b.rate * sleep - b.rate * d;
  }

  /** The wait is exact: at its end the bytes are just there, and at no earlier time. */
  lemma WaitsExactly(b: Bucket, bytes: real, sleep: real)
    requires Valid(b) && b.tokens < bytes <= b.rate && 0.0 <= sleep
    ensures WaitTime(b, bytes) > 0.0 && Refill(b, b.last + WaitTime(b, bytes)).tokens == bytes
    ensures Passes(b, Poll(b.last + sleep, bytes)) <==> sleep >= WaitTime(b, bytes)
  {
    var d := WaitTime(b, bytes);
    assert b.rate * d == bytes - b.tokens;
    if sleep < d {
      assert b.rate * sleep < b.rate * d;
    } else {
      RefillOver(b, sleep, b.last + sleep, bytes);
    }
  }

  /** Bytes that fit the bucket pass after at most one sleep, however late it wakes; a consumer
      that has to sleep waits no longer than it takes to earn the bytes it lacks, plus the delay. */
  lemma PassesWithinOneSleep(b: Bucket, bytes: real, now: real, late: seq<real>)
    requires Valid(b) && b.last <= now && 0.0 <= bytes <= b.rate && NeverEarly(late) && late != []
    ensures var o := Consume(b, bytes, now, late);
            && o.passed && o.sleeps <= 1
            && (o.sleeps == 1 ==> o.waited == WaitTime(Refill(b, now), bytes) + late[0])
  {
    var b' := AfterPoll(b, Poll(now, bytes));
    PollKeeps(b, Poll(now, bytes));
    if !Passes(b, Poll(now, bytes)) {
      var sleep := WaitTime(b', bytes) + late[0];
      RefillOver(b', sleep, now + sleep, bytes);
    }
  }

  /** More bytes than the bucket can hold never pass, however often the consumer looks. */
  lemma {:induction false} NeverPasses(b: Bucket, bytes: real, now: real, late: seq<real>)
    requires Valid(b) && b.last <= now && b.rate < bytes && NeverEarly(late)
    ensures var o := Consume(b, bytes, now, late); !o.passed && o.sleeps == |late|
    decreases |late|
  {
    var b' := AfterPoll(b, Poll(now, bytes));
    PollKeeps(b, Poll(now, bytes));
    if late == [] {
    } else {
      var sleep := WaitTime(b', bytes) + late[0];
      RefillOver(b', sleep, now + sleep, bytes);
      NeverPasses(b', bytes, now + sleep, late[1..]);
    }
  }

  /** A consumer that may sleep at all gets through exactly when limiting is off or its bytes
      fit the bucket. */
  lemma PassesExactly(b: Bucket, bytes: real, now: real, late: seq<real>)
    requires b.rate <= 0.0 || Valid(b)
    requires b.last <= now && 0.0 <= bytes && NeverEarly(late) && late != []
    ensures Consume(b, bytes, now, late).passed <==> b.rate <= 0.0 || bytes <= b.rate
    ensures b.rate <= 0.0 ==> Consume(b, bytes, now, late) == Outcome(b, true, 0, 0.0)
  {
    if b.rate > 0.0 {
      if bytes <= b.rate {
        PassesWithinOneSleep(b, bytes, now, late);
      } else {
        NeverPasses(b, bytes, now, late);
      }
    }
  }

  predicate Forwards(b: Bucket, now: real, late: seq<real>, read: nat) {
    Consume(b, read as real, now, late).passed
  }

  /** The proxy asks for as many bytes as it read: it forwards every read, whatever its size,
      exactly when the bucket holds a full read. */
  lemma ProxyForwardsExactly(b: Bucket, now: real, late: seq<real>)
    requires Valid(b) && b.last <= now && NeverEarly(late) && late != []
    ensures READ_LIMIT as real <= b.rate <==> (forall n: nat :: n <= READ_LIMIT ==> Forwards(b, now, late, n))
  {
    forall n: nat | n <= READ_LIMIT
      ensures Forwards(b, now, late, n) <==> n as real <= b.rate
    {
      PassesExactly(b, n as real, now, late);
    }
    assert Forwards(b, now, late, READ_LIMIT) <==> READ_LIMIT as real <= b.rate;
  }

  /** A consumer's looks at the clock. */
  function PollsOf(b: Bucket, bytes: real, now: real, late: seq<real>): seq<Poll>
    decreases |late|
  {
    if b.rate <= 0.0 then []
    else
      var b' := AfterPoll(b, Poll(now, bytes));
      if Passes(b, Poll(now, bytes)) || late == [] then [Poll(now, bytes)]
      else [Poll(now, bytes)] + PollsOf(b', bytes, now + WaitTime(b', bytes) + late[0], late[1..])
  }

  /** Consuming is a run of polls that grants the bytes once if it passes and nothing if not, so
      the limits on runs hold for any sequence of consumers. There is one poll more than sleeps,
      and the time waited is that from the first poll to the last. */
  lemma {:induction false} ConsumeIsARun(b: Bucket, bytes: real, now: real, late: seq<real>)
    requires Valid(b) && b.last <= now && 0.0 <= bytes && NeverEarly(late)
    ensures var o, polls := Consume(b, bytes, now, late), PollsOf(b, bytes, now, late);
            && Ordered(b.last, polls)
            && After(b, polls) == o.bucket
            && Granted(b, polls) == (if o.passed then bytes else 0.0)
            && |polls| == o.sleeps + 1 && polls[0].now == now && polls[o.sleeps].now == now + o.waited
    decreases |late|
  {
    var p := Poll(now, bytes);
    var b' := AfterPoll(b, p);
    PollKeeps(b, p);
    if Passes(b, p) || late == [] {
      assert PollsOf(b, bytes, now, late)[1..] == [];
    } else {
      var sleep := WaitTime(b', bytes) + late[0];
      RefillOver(b', sleep, now + sleep, bytes);
      ConsumeIsARun(b', bytes, now + sleep, late[1..]);
      assert PollsOf(b, bytes, now, late)[1..] == PollsOf(b', bytes, now + sleep, late[1..]);
    }
  }

  // ---------------------------------------------------------------- in place

  class Limiter {
    const rate: real
    var tokens: real
    var lastTime: real

    constructor (rate: real, now: real)
      ensures View() == Bucket(rate, rate, now)
      ensures rate > 0.0 ==> Valid(View())
    {
      this.rate, tokens, lastTime := rate, rate, now;
    }

    function View(): Bucket
      reads this
    {
      Bucket(rate, tokens, lastTime)
    }

    method TryTake(bytes: real, now: real) returns (ok: bool)
      modifies this
      ensures View() == AfterPoll(old(View()), Poll(now, bytes))
      ensures ok == Passes(old(View()), Poll(now, bytes))
    {
      var elapsed := now - lastTime;
      tokens := Min(rate, tokens + rate * elapsed);
      lastTime := now;
      ok := tokens >= bytes;
      if ok {
        tokens := tokens - bytes;
      }
    }

    /** The clock is read once at start and once after every sleep. */
    method ConsumeBytes(bytes: real, start: real, late: seq<real>) returns (passed: bool, sleeps: nat)
      modifies this
      ensures var o := Consume(old(View()), bytes, start, late);
              View() == o.bucket && passed == o.passed && sleeps == o.sleeps
    {
      hide AfterPoll, Passes, WaitTime;
      sleeps := 0;
      if rate <= 0.0 {
        return true, 0;
      }
      var now := start;
      assert late[0..] == late;
      while true
        invariant sleeps <= |late|
        invariant var o, rest := Consume(old(View()), bytes, start, late), Consume(View(), bytes, now, late[sleeps..]);
                  o.bucket == rest.bucket && o.passed == rest.passed && o.sleeps == rest.sleeps + sleeps
        decreases |late| - sleeps
      {
        passed := TryTake(bytes, now);
        if passed {
          return;
        }
        if sleeps == |late| {
          return;
        }
        assert late[sleeps..][1..] == late[sleeps + 1..];
        now := now + (WaitTime(View(), bytes) + late[sleeps]);
        sleeps := sleeps + 1;
      }
    }
  }
}
