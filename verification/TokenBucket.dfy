// The helper's burst limiter (callback_limiter.go). Times are seconds, as reals.
module TokenBucket {

  datatype Bucket = Bucket(capacity: real, perSecond: real, tokens: real, last: real)

  predicate WellFormed(b: Bucket) {
    0.0 <= b.tokens <= b.capacity && 0.0 <= b.perSecond
  }

  // What the steady rate yields in a time.
  function Earned(perSecond: real, elapsed: real): real {
    elapsed * perSecond
  }

  lemma EarnedFacts(perSecond: real, a: real, b: real)
    ensures Earned(perSecond, a) + Earned(perSecond, b) == Earned(perSecond, a + b)
    ensures 0.0 <= perSecond && 0.0 <= a ==> 0.0 <= Earned(perSecond, a)
    ensures Earned(perSecond, 0.0) == 0.0
  {
  }

  function Refilled(b: Bucket, now: real): Bucket {
    var elapsed := if now < b.last then 0.0 else now - b.last;
    var tokens := b.tokens + Earned(b.perSecond, elapsed);
    b.(tokens := if tokens > b.capacity then b.capacity else tokens, last := now)
  }

  datatype Taken = Taken(bucket: Bucket, ok: bool)

  function Take(b: Bucket, now: real): Taken {
    var r := Refilled(b, now);
    if r.tokens < 1.0 then Taken(r, false) else Taken(r.(tokens := r.tokens - 1.0), true)
  }

  datatype Served = Served(bucket: Bucket, accepted: nat)

  // A run of calls at the given times.
  function Serve(b: Bucket, times: seq<real>): Served {
    if times == [] then Served(b, 0)
    else
      var before := Serve(b, times[..|times| - 1]);
      var taken := Take(before.bucket, times[|times| - 1]);
      Served(taken.bucket, before.accepted + if taken.ok then 1 else 0)
  }

  predicate Monotone(times: seq<real>) {
    forall i, j | 0 <= i <= j < |times| :: times[i] <= times[j]
  }

  lemma TakeKeeps(b: Bucket, now: real)
    requires WellFormed(b)
    ensures var r := Take(b, now).bucket;
            WellFormed(r) && r.last == now && r.capacity == b.capacity && r.perSecond == b.perSecond
  {
    hide Earned;
    EarnedFacts(b.perSecond, now - b.last, 0.0);
  }

  // The tokens never leave [0, capacity], whatever the clock does.
  lemma {:induction false} ServeKeeps(b: Bucket, times: seq<real>)
    requires WellFormed(b)
    ensures var r := Serve(b, times).bucket;
            && WellFormed(r) && r.capacity == b.capacity && r.perSecond == b.perSecond
            && r.last == if times == [] then b.last else times[|times| - 1]
  {
    if times != [] {
      ServeKeeps(b, times[..|times| - 1]);
      TakeKeeps(Serve(b, times[..|times| - 1]).bucket, times[|times| - 1]);
    }
  }

  lemma {:induction false} ServeSplit(b: Bucket, times: seq<real>, i: nat)
    requires i <= |times|
    ensures var first := Serve(b, times[..i]); var rest := Serve(first.bucket, times[i..]);
            Serve(b, times) == Served(rest.bucket, first.accepted + rest.accepted)
    decreases |times| - i
  {
    if i == |times| {
      assert times[..i] == times && times[i..] == [];
    } else {
      var n := |times| - 1;
      ServeSplit(b, times[..n], i);
      assert times[..n][..i] == times[..i] && times[..n][i..] == times[i..][..n - i];
      assert times[i..][|times[i..]| - 1] == times[n];
    }
  }

  lemma RefillTwice(b: Bucket, now: real)
    requires WellFormed(b)
    ensures Refilled(Refilled(b, now), now) == Refilled(b, now)
  {
    hide Earned;
    EarnedFacts(b.perSecond, 0.0, 0.0);
  }

  // Refilling just before the first call changes nothing.
  lemma {:induction false} RefillFirst(b: Bucket, times: seq<real>)
    requires WellFormed(b) && times != []
    ensures Serve(Refilled(b, times[0]), times) == Serve(b, times)
  {
    var filled := Refilled(b, times[0]);
    if |times| == 1 {
      assert times[..0] == [];
      RefillTwice(b, times[0]);
    } else {
      RefillFirst(b, times[..|times| - 1]);
    }
  }

  // ---- Any clock --------------------------------------------------------

  // How far the clock moved forward in all, over the calls.
  function Upward(times: seq<real>): (r: real)
    ensures 0.0 <= r
  {
    if |times| < 2 then 0.0
    else
      var n := |times|;
      Upward(times[..n - 1]) + if times[n - 2] < times[n - 1] then times[n - 1] - times[n - 2] else 0.0
  }

  // A clock moves forward by the distance between its ends at least, and by no more
  // exactly when it never steps back.
  lemma {:induction false} UpwardIsDistanceExactly(times: seq<real>)
    requires times != []
    ensures times[|times| - 1] - times[0] <= Upward(times)
    ensures Upward(times) == times[|times| - 1] - times[0] <==> Monotone(times)
  {
    var n := |times|;
    if n > 1 {
      var init := times[..n - 1];
      UpwardIsDistanceExactly(init);
      if Monotone(times) {
        assert forall i, j | 0 <= i <= j < n - 1 :: times[i] <= times[j];
        assert times[n - 2] <= times[n - 1];
      } else if Monotone(init) && times[n - 2] <= times[n - 1] {
        forall i, j | 0 <= i <= j < n ensures times[i] <= times[j] {
          if i < n - 1 { assert init[i] <= init[n - 2]; }
          if j < n - 1 { assert init[i] <= init[j]; }
        }
      }
    }
  }

  lemma TakeIsFundedByUpward(b: Bucket, now: real)
    requires 0.0 <= b.perSecond
    ensures var r := Take(b, now);
            (if r.ok then 1.0 else 0.0) + r.bucket.tokens
            <= b.tokens + Earned(b.perSecond, if b.last < now then now - b.last else 0.0)
  {
    hide Earned;
  }

  // Whatever the clock does, every accepted call consumes a token that was there or was
  // refilled while the clock moved forward.
  lemma {:induction false} AcceptedAreFundedByUpward(b: Bucket, times: seq<real>)
    requires WellFormed(b)
    ensures var r := Serve(b, times);
            r.accepted as real + r.bucket.tokens <= b.tokens + Earned(b.perSecond, Upward([b.last] + times))
  {
    hide Earned, Take;
    EarnedFacts(b.perSecond, 0.0, 0.0);
    if times != [] {
      var n := |times|;
      var init, now, all := times[..n - 1], times[n - 1], [b.last] + times;
      assert [b.last] + init == all[..n];
      AcceptedAreFundedByUpward(b, init);
      ServeKeeps(b, init);
      var before := Serve(b, init).bucket;
      assert before.last == all[n - 1] && now == all[n];
      TakeIsFundedByUpward(before, now);
      TakeKeeps(before, now);
      EarnedFacts(b.perSecond, Upward([b.last] + init), if before.last < now then now - before.last else 0.0);
    }
  }

  lemma {:induction false} UpwardOfRepeated(times: seq<real>)
    requires times != []
    ensures Upward([times[0]] + times) == Upward(times)
  {
    var n := |times|;
    var all := [times[0]] + times;
    assert all[..n] == [times[0]] + times[..n - 1];
    if n > 1 {
      assert all[n - 1] == times[n - 2];
      UpwardOfRepeated(times[..n - 1]);
    }
  }

  // The limiter's promise for any clock: over any run and any window of it, what is
  // accepted is at most the capacity and the steady rate times the time the clock moved
  // forward in the window.
  lemma AnyClockBound(b: Bucket, times: seq<real>, i: nat, j: nat)
    requires WellFormed(b) && i < j <= |times|
    ensures var accepted := Serve(b, times[..j]).accepted - Serve(b, times[..i]).accepted;
            accepted as real <= b.capacity + Earned(b.perSecond, Upward(times[i..j]))
  {
    hide Earned, Serve;
    var start := Serve(b, times[..i]).bucket;
    ServeKeeps(b, times[..i]);
    assert times[..j][..i] == times[..i] && times[..j][i..] == times[i..j];
    ServeSplit(b, times[..j], i);
    AnyWindowIsFunded(start, times[i..j]);
  }

  lemma AnyWindowIsFunded(b: Bucket, window: seq<real>)
    requires WellFormed(b) && window != []
    ensures Serve(b, window).accepted as real <= b.capacity + Earned(b.perSecond, Upward(window))
  {
    hide Earned, Serve;
    var filled := Refilled(b, window[0]);
    EarnedFacts(b.perSecond, if window[0] < b.last then 0.0 else window[0] - b.last, 0.0);
    assert WellFormed(filled) && filled.last == window[0];
    RefillFirst(b, window);
    AcceptedAreFundedByUpward(filled, window);
    UpwardOfRepeated(window);
    ServeKeeps(filled, window);
  }

  // Over any run and any window of it, from one call to a later one, with a clock that
  // does not step back in it: at most `capacity` plus the steady rate times the window's
  // length is accepted.
  lemma WindowBound(b: Bucket, times: seq<real>, i: nat, j: nat)
    requires WellFormed(b) && i < j <= |times| && Monotone(times[i..j])
    ensures var accepted := Serve(b, times[..j]).accepted - Serve(b, times[..i]).accepted;
            accepted as real <= b.capacity + Earned(b.perSecond, times[j - 1] - times[i])
  {
    hide Earned, Serve;
    AnyClockBound(b, times, i, j);
    UpwardIsDistanceExactly(times[i..j]);
  }

  // ---- What is served ----------------------------------------------------

  // A burst of as many calls as there are tokens is served, at whatever times they come.
  lemma {:induction false} BurstIsServed(b: Bucket, times: seq<real>)
    requires WellFormed(b) && |times| as real <= b.tokens
    ensures Serve(b, times).accepted == |times| && Serve(b, times).bucket.tokens >= b.tokens - |times| as real
  {
    if times != [] {
      var init, now := times[..|times| - 1], times[|times| - 1];
      BurstIsServed(b, init);
      ServeKeeps(b, init);
      EarnedFacts(b.perSecond, if now < Serve(b, init).bucket.last then 0.0 else now - Serve(b, init).bucket.last, 0.0);
      hide Earned;
    }
  }

  // The time of the call before, or of the limiter's last refill.
  function Previous(b: Bucket, times: seq<real>, i: nat): real
    requires i <= |times|
  {
    if i == 0 then b.last else times[i - 1]
  }

  // Each call comes when a token has been earned since the one before.
  predicate Spaced(b: Bucket, times: seq<real>) {
    forall i: nat | i < |times| ::
      Previous(b, times, i) <= times[i] && Earned(b.perSecond, times[i] - Previous(b, times, i)) >= 1.0
  }

  // Calls at the steady rate are served for ever, by a limiter that can hold a token.
  lemma {:induction false} SteadyIsServed(b: Bucket, times: seq<real>)
    requires WellFormed(b) && 1.0 <= b.capacity && Spaced(b, times)
    ensures Serve(b, times).accepted == |times|
  {
    hide Earned;
    if times != [] {
      var n := |times| - 1;
      var init := times[..n];
      forall i: nat | i < n ensures Previous(b, init, i) == Previous(b, times, i) && init[i] == times[i] { }
      SteadyIsServed(b, init);
      ServeKeeps(b, init);
      assert Previous(b, times, n) == Serve(b, init).bucket.last;
      ServesTheNext(Serve(b, init).bucket, times[n]);
    }
  }

  lemma ServesTheNext(b: Bucket, now: real)
    requires WellFormed(b) && 1.0 <= b.capacity && b.last <= now && Earned(b.perSecond, now - b.last) >= 1.0
    ensures Take(b, now).ok
  {
    hide Earned;
  }

  // ---- What the promise needs of the clock ------------------------------

  // A bucket of one token that earns the next over the whole forward movement.
  function Slow(total: real, first: real): Bucket
    requires 0.0 < total
  {
    Bucket(1.0, 1.0 / total, 1.0, first)
  }

  lemma EarnedWhole(total: real, part: real)
    requires 0.0 < total && 0.0 <= part
    ensures part < total ==> Earned(1.0 / total, part) < 1.0
    ensures Earned(1.0 / total, total) == 1.0
    ensures 0.0 <= Earned(1.0 / total, part)
  {
    assert Earned(1.0 / total, part) == part / total;
  }

  lemma {:induction false} SlowWaits(total: real, times: seq<real>)
    requires 0.0 < total && times != [] && Upward(times) < total
    ensures Serve(Slow(total, times[0]), times)
            == Served(Bucket(1.0, 1.0 / total, Earned(1.0 / total, Upward(times)), times[|times| - 1]), 1)
  {
    var b := Slow(total, times[0]);
    var n := |times|;
    EarnedFacts(b.perSecond, 0.0, 0.0);
    hide Earned;
    if n == 1 {
      assert times[..0] == [];
      assert Serve(b, times[..0]) == Served(b, 0);
    } else {
      var init := times[..n - 1];
      SlowWaits(total, init);
      EarnedFacts(b.perSecond, Upward(init), if times[n - 2] < times[n - 1] then times[n - 1] - times[n - 2] else 0.0);
      EarnedWhole(total, Upward(times));
    }
  }

  lemma {:induction false} SlowEarnsTwo(total: real, times: seq<real>)
    requires 0.0 < total == Upward(times) && times != []
    ensures Serve(Slow(total, times[0]), times).accepted >= 2
  {
    var b := Slow(total, times[0]);
    var n := |times|;
    var init := times[..n - 1];
    if Upward(init) < total {
      SlowWaits(total, init);
      EarnedFacts(b.perSecond, Upward(init), times[n - 1] - times[n - 2]);
      EarnedWhole(total, total);
      hide Earned;
      assert times[n - 2] < times[n - 1];
      assert Take(Serve(b, init).bucket, times[n - 1]).ok;
    } else {
      SlowEarnsTwo(total, init);
    }
  }

  // The promise, for every bucket that may be in use when the window starts.
  ghost predicate KeepsPromise(window: seq<real>)
    requires window != []
  {
    forall b | WellFormed(b) ::
      Serve(b, window).accepted as real <= b.capacity + Earned(b.perSecond, window[|window| - 1] - window[0])
  }

  // The promise holds in a window, for every limiter, exactly when the clock does not
  // step back in it. A clock that does is not the default one, but one passed in.
  lemma PromiseNeedsTheClockExactly(window: seq<real>)
    requires window != []
    ensures KeepsPromise(window) <==> Monotone(window)
  {
    UpwardIsDistanceExactly(window);
    var length, total := window[|window| - 1] - window[0], Upward(window);
    if Monotone(window) {
      forall b | WellFormed(b)
        ensures Serve(b, window).accepted as real <= b.capacity + Earned(b.perSecond, length)
      {
        hide Earned, Serve;
        AnyWindowIsFunded(b, window);
      }
    } else if total > 0.0 {
      SlowEarnsTwo(total, window);
      EarnedWhole(total, if length < 0.0 then 0.0 else length);
      TwoIsTooMany(total, length);
      assert WellFormed(Slow(total, window[0]));
    } else {
      OneIsTooMany(window);
    }
  }

  lemma TwoIsTooMany(total: real, length: real)
    requires length < total && 0.0 < total
    ensures Earned(1.0 / total, length) < 1.0
  {
    assert Earned(1.0 / total, length) == length / total;
  }

  lemma OneIsTooMany(window: seq<real>)
    requires window != [] && window[|window| - 1] < window[0] && Upward(window) == 0.0
    ensures !KeepsPromise(window)
  {
    var b := Slow(1.0, window[0]);
    SlowWaits(1.0, window);
    assert WellFormed(b);
    assert Earned(b.perSecond, window[|window| - 1] - window[0]) == window[|window| - 1] - window[0];
  }

  class Limiter {
    const capacity: real
    const perSecond: real
    var tokens: real
    var last: real

    ghost function State(): Bucket
      reads this
    {
      Bucket(capacity, perSecond, tokens, last)
    }

    constructor (capacity: nat, perSecond: real, now: real)
      ensures State() == Bucket(capacity as real, perSecond, capacity as real, now)
    {
      this.capacity, this.perSecond := capacity as real, perSecond;
      tokens, last := capacity as real, now;
    }

    method TryTake(now: real) returns (ok: bool)
      modifies this
      ensures State() == Take(old(State()), now).bucket && ok == Take(old(State()), now).ok
    {
      var elapsed := now - last;
      if elapsed < 0.0 { elapsed := 0.0; }
      tokens := tokens + elapsed * perSecond;
      if tokens > capacity { tokens := capacity; }
      last := now;
      if tokens < 1.0 { return false; }
      tokens := tokens - 1.0;
      return true;
    }
  }
}
