/** The five one-second buckets behind the requests-per-second figure of network.cpp. */
module Rate {
  import opened Packet

  const RPS_RESOLUTION := 5
  const TWO_64 := 0x1_0000_0000_0000_0000

  datatype Rate = Rate(prev: nat, ring: seq<nat>)

  predicate Proper(r: Rate) {
    |r.ring| == RPS_RESOLUTION
  }

  const ZERO := Rate(0, [0, 0, 0, 0, 0])

  /** The increment passes through an `int` before it is stored in 64 unsigned bits. */
  function Stored(increment: nat): (s: nat)
    ensures increment < 0x8000_0000 ==> s == increment
    ensures s < TWO_64
  {
    var i := ToInt32(increment);
    if i < 0 then i + TWO_64 else i
  }

  function Tick(r: Rate, now: nat, counter: nat): (s: Rate)
    requires Proper(r) && r.prev <= counter
    ensures Proper(s)
  {
    Rate(counter, r.ring[now % RPS_RESOLUTION := Stored(counter - r.prev)])
  }

  function Sum(ring: seq<nat>): nat
    decreases |ring|
  {
    if ring == [] then 0 else Sum(ring[..|ring| - 1]) + ring[|ring| - 1]
  }

  lemma SumOfFive(ring: seq<nat>)
    requires |ring| == 5
    ensures Sum(ring) == ring[0] + ring[1] + ring[2] + ring[3] + ring[4]
  {
    var a, b, c, d, e := ring[0], ring[1], ring[2], ring[3], ring[4];
    assert ring[..4] == [a, b, c, d] && [a, b, c, d][..3] == [a, b, c];
    assert [a, b, c][..2] == [a, b] && [a, b][..1] == [a];
    assert Sum([a]) == a;
    assert Sum([a, b]) == a + b;
    assert Sum([a, b, c]) == a + b + c;
    assert Sum([a, b, c, d]) == a + b + c + d;
  }

  // ---- Consecutive seconds ------------------------------------------------------------------------------

  /** New connections per tick, each number fitting in an `int`. */
  predicate Small(news: seq<nat>) {
    forall k :: 0 <= k < |news| ==> news[k] < 0x8000_0000
  }

  /** One tick a second, the first at `start`; the counter has grown by `news[k]` when tick `k` comes. */
  function Ticks(start: nat, news: seq<nat>): (r: Rate)
    ensures Proper(r) && r.prev == Sum(news)
    decreases |news|
  {
    if news == [] then ZERO else
      var r := Ticks(start, news[..|news| - 1]);
      Tick(r, start + |news| - 1, r.prev + news[|news| - 1])
  }

  /** Nothing happened before the first tick. */
  function At(news: seq<nat>, k: int): nat
    requires k < |news|
  {
    if k < 0 then 0 else news[k]
  }

  /** The bucket `j` places after `b`. */
  function Wrap(b: nat, j: nat): (r: nat)
    requires b < 5 && j < 5
    ensures r < 5
  {
    if b + j < 5 then b + j else b + j - 5
  }

  /** The bucket whose turn it is after `n` ticks. */
  function Turn(start: nat, n: nat): (b: nat)
    ensures b < 5
  {
    if n == 0 then start % 5 else Wrap(Turn(start, n - 1), 1)
  }

  lemma {:induction false} TurnIsModulo(start: nat, n: nat)
    ensures Turn(start, n) == (start + n) % 5
  {
    if n == 0 {
    } else {
      TurnIsModulo(start, n - 1);
    }
  }

  /** The buckets, read from `b` on. */
  predicate ReadsFrom(ring: seq<nat>, b: nat, v: nat, w: nat, x: nat, y: nat, z: nat) {
    && |ring| == 5 && b < 5
    && ring[Wrap(b, 0)] == v && ring[Wrap(b, 1)] == w && ring[Wrap(b, 2)] == x
    && ring[Wrap(b, 3)] == y && ring[Wrap(b, 4)] == z
  }

  /** Overwriting the bucket whose turn it is moves the window on by one. */
  lemma TurnRing(ring: seq<nat>, b: nat, v: nat, w: nat, x: nat, y: nat, z: nat, latest: nat)
    requires ReadsFrom(ring, b, v, w, x, y, z)
    ensures ReadsFrom(ring[b := latest], Wrap(b, 1), w, x, y, z, latest)
  {
  }

  lemma TicksNext(start: nat, news: seq<nat>)
    requires news != [] && Small(news)
    ensures var n := |news| - 1;
      Ticks(start, news).ring == Ticks(start, news[..n]).ring[Turn(start, n) := news[n]]
  {
    TurnIsModulo(start, |news| - 1);
  }

  /** The buckets hold what the last five ticks saw. */
  predicate Window(start: nat, news: seq<nat>) {
    var n := |news|;
    ReadsFrom(Ticks(start, news).ring, Turn(start, n), At(news, n - 5), At(news, n - 4), At(news, n - 3),
              At(news, n - 2), At(news, n - 1))
  }

  lemma {:induction false} WindowHeld(start: nat, news: seq<nat>)
    requires Small(news)
    ensures Window(start, news)
    decreases |news|
  {
    if news == [] {
    } else {
      var n := |news|;
      TicksNext(start, news);
      WindowHeld(start, news[..n - 1]);
      TurnRing(Ticks(start, news[..n - 1]).ring, Turn(start, n - 1), At(news, n - 6), At(news, n - 5),
               At(news, n - 4), At(news, n - 3), At(news, n - 2), At(news, n - 1));
    }
  }

  lemma RotatedSum(ring: seq<nat>, b: nat, v: nat, w: nat, x: nat, y: nat, z: nat)
    requires ReadsFrom(ring, b, v, w, x, y, z)
    ensures Sum(ring) == v + w + x + y + z
  {
    SumOfFive(ring);
  }

  lemma LateSum(ring: seq<nat>, b: nat, v: nat, w: nat, x: nat, y: nat, z: nat, late: nat)
    requires ReadsFrom(ring, b, v, w, x, y, z)
    ensures Sum(ring[Wrap(b, 1) := late]) == v + late + x + y + z
  {
    RotatedSum(ring[Wrap(b, 1) := late], b, v, late, x, y, z);
  }

  /** A run of ticks splits at any point into what happened before and what came after. */
  lemma LastTick(news: seq<nat>, n: nat)
    requires 0 < n <= |news|
    ensures Sum(news[..n]) == Sum(news[..n - 1]) + news[n - 1]
  {
    assert news[..n][..n - 1] == news[..n - 1];
  }

  lemma Telescope(news: seq<nat>, k: nat)
    requires k <= |news| < k + 5
    ensures var n := |news|;
      Sum(news) == Sum(news[..k]) + (if k + 4 == n then news[k] else 0) + (if k + 3 <= n then news[n - 3] else 0)
                   + (if k + 2 <= n then news[n - 2] else 0) + (if k + 1 <= n then news[n - 1] else 0)
  {
    assert news[..|news|] == news;
    if k < |news| { LastTick(news, |news|); }
    if k + 1 < |news| { LastTick(news, |news| - 1); }
    if k + 2 < |news| { LastTick(news, |news| - 2); }
    if k + 3 < |news| { LastTick(news, |news| - 3); }
  }

  /** The buckets always add up to the growth of the counter over the last five seconds. */
  lemma WindowSum(start: nat, news: seq<nat>)
    requires Small(news)
    ensures Sum(Ticks(start, news).ring) ==
            Ticks(start, news).prev - if |news| < 5 then 0 else Sum(news[..|news| - 5])
  {
    var n := |news|;
    WindowHeld(start, news);
    RotatedSum(Ticks(start, news).ring, Turn(start, n), At(news, n - 5), At(news, n - 4), At(news, n - 3),
               At(news, n - 2), At(news, n - 1));
    if n < 5 {
      Telescope(news, 0);
      assert news[..0] == [];
    } else {
      LastTick(news, n - 4);
      Telescope(news, n - 4);
    }
  }

  lemma SumSmall(ring: seq<nat>)
    requires |ring| == 5 && forall b :: 0 <= b < 5 ==> ring[b] < 0x8000_0000
    ensures Sum(ring) % TWO_64 == Sum(ring)
  {
    SumOfFive(ring);
  }

  /** The figure saved is the growth of the counter over the last five seconds, divided by five and rounded down. */
  lemma SavedRate(start: nat, news: seq<nat>)
    requires Small(news)
    ensures var r, n := Ticks(start, news), |news|;
      Sum(r.ring) % TWO_64 / RPS_RESOLUTION == (r.prev - if n < 5 then 0 else Sum(news[..n - 5])) / RPS_RESOLUTION
  {
    WindowSum(start, news);
    RingSmall(start, news);
    SumSmall(Ticks(start, news).ring);
  }

  lemma {:induction false} RingSmall(start: nat, news: seq<nat>)
    requires Small(news)
    ensures forall b :: 0 <= b < 5 ==> Ticks(start, news).ring[b] < 0x8000_0000
    decreases |news|
  {
    if news == [] {
    } else {
      RingSmall(start, news[..|news| - 1]);
      TicksNext(start, news);
    }
  }

  /** When the clock skips a second, one bucket is not renewed and keeps what was seen six seconds ago: the sum is the
      growth over the last five seconds only if nothing was seen then. The last tick comes two seconds after the one
      before it, so of the five seconds three have ticks of their own. */
  lemma SkippedSecond(start: nat, news: seq<nat>, latest: nat)
    requires Small(news) && |news| >= 5 && latest < 0x8000_0000
    ensures var n, before := |news|, Ticks(start, news);
      var late := Tick(before, start + n + 1, before.prev + latest);
      Sum(late.ring) == late.prev - Sum(news[..n - 3]) <==> news[n - 5] == 0
  {
    var n := |news|;
    WindowHeld(start, news);
    LateRing(start, news, latest);
    LateSum(Ticks(start, news).ring, Turn(start, n), news[n - 5], news[n - 4], news[n - 3], news[n - 2], news[n - 1],
            latest);
    LastTick(news, n - 3);
    Telescope(news, n - 4);
  }

  lemma LateRing(start: nat, news: seq<nat>, latest: nat)
    requires latest < 0x8000_0000
    ensures var n, before := |news|, Ticks(start, news);
      Tick(before, start + n + 1, before.prev + latest).ring == before.ring[Wrap(Turn(start, n), 1) := latest]
  {
    TurnIsModulo(start, |news| + 1);
    assert Turn(start, |news| + 1) == Wrap(Turn(start, |news|), 1);
  }

  // ---- Ticks at any times -------------------------------------------------------------------------------

  /** A tick at `time`, when the counter has `grown` since the tick before. */
  datatype Beat = Beat(time: nat, grown: nat)

  predicate Fit(beats: seq<Beat>) {
    forall i :: 0 <= i < |beats| ==> beats[i].grown < 0x8000_0000
  }

  function Beats(beats: seq<Beat>): (r: Rate)
    ensures Proper(r)
    decreases |beats|
  {
    if beats == [] then ZERO else
      var r, last := Beats(beats[..|beats| - 1]), beats[|beats| - 1];
      Tick(r, last.time, r.prev + last.grown)
  }

  /** What the counter had grown by in the ticks up to second `t`. */
  function CounterAt(beats: seq<Beat>, t: int): nat
    decreases |beats|
  {
    if beats == [] then 0 else
      CounterAt(beats[..|beats| - 1], t) + if beats[|beats| - 1].time <= t then beats[|beats| - 1].grown else 0
  }

  /** The last tick that wrote bucket `b`. */
  function Writer(beats: seq<Beat>, b: nat): (w: int)
    ensures -1 <= w < |beats| && (w >= 0 ==> beats[w].time % 5 == b)
    ensures forall i :: w < i < |beats| ==> beats[i].time % 5 != b
    decreases |beats|
  {
    if beats == [] then -1
    else if beats[|beats| - 1].time % 5 == b then |beats| - 1
    else Writer(beats[..|beats| - 1], b)
  }

  const NEVER := -5

  /** When bucket `b` was written last. */
  function Stamp(beats: seq<Beat>, b: nat): int {
    if Writer(beats, b) < 0 then NEVER else beats[Writer(beats, b)].time
  }

  lemma {:induction false} BucketHolds(beats: seq<Beat>, b: nat)
    requires Fit(beats) && b < 5
    ensures Beats(beats).ring[b] == if Writer(beats, b) < 0 then 0 else beats[Writer(beats, b)].grown
    decreases |beats|
  {
    if beats == [] {
    } else {
      BucketHolds(beats[..|beats| - 1], b);
    }
  }

  /** A later tick has written the same bucket. */
  predicate Overwritten(beats: seq<Beat>, i: nat)
    requires i < |beats|
  {
    exists j :: i < j < |beats| && beats[j].time % 5 == beats[i].time % 5
  }

  /** What the first `n` ticks saw after second `since` that later ticks have overwritten. */
  function Lost(beats: seq<Beat>, since: int, n: nat): nat
    requires n <= |beats|
  {
    if n == 0 then 0 else
      Lost(beats, since, n - 1) +
      if beats[n - 1].time > since && Overwritten(beats, n - 1) then beats[n - 1].grown else 0
  }

  /** The buckets written after second `since`; the others count as empty. */
  function Renewed(beats: seq<Beat>, since: int): (s: seq<nat>)
    ensures |s| == 5
  {
    seq(5, b requires 0 <= b < 5 => if Stamp(beats, b) > since then Beats(beats).ring[b] else 0)
  }

  /** The buckets not written after second `since`; the others count as empty. */
  function Stale(beats: seq<Beat>, since: int): (s: seq<nat>)
    ensures |s| == 5
  {
    seq(5, b requires 0 <= b < 5 => if Stamp(beats, b) <= since then Beats(beats).ring[b] else 0)
  }

  lemma {:induction false} SumUpdate(s: seq<nat>, i: nat, v: nat)
    requires i < |s|
    ensures Sum(s[i := v]) == Sum(s) - s[i] + v
    decreases |s|
  {
    var n := |s| - 1;
    if i == n {
      assert s[i := v][..n] == s[..n];
    } else {
      assert s[i := v][..n] == s[..n][i := v];
      SumUpdate(s[..n], i, v);
    }
  }

  lemma OverwrittenNext(beats: seq<Beat>, i: nat)
    requires i + 1 < |beats|
    ensures var init, last := beats[..|beats| - 1], beats[|beats| - 1];
      Overwritten(beats, i) <==> Overwritten(init, i) || init[i].time % 5 == last.time % 5
  {
    var init := beats[..|beats| - 1];
    if Overwritten(init, i) {
      var j :| i < j < |init| && init[j].time % 5 == init[i].time % 5;
      assert beats[j].time % 5 == beats[i].time % 5;
    }
  }

  /** A tick overwrites what the last writer of its bucket saw, and nothing else. */
  lemma {:induction false} LostNext(beats: seq<Beat>, since: int, n: nat)
    requires n < |beats|
    ensures var init, last := beats[..|beats| - 1], beats[|beats| - 1];
      var w := Writer(init, last.time % 5);
      Lost(beats, since, n) ==
      Lost(init, since, n) + if 0 <= w < n && init[w].time > since then init[w].grown else 0
    decreases n
  {
    if n == 0 {
    } else {
      LostNext(beats, since, n - 1);
      OverwrittenNext(beats, n - 1);
    }
  }

  lemma RenewedAt(beats: seq<Beat>, since: int, b: nat)
    requires b < 5
    ensures Renewed(beats, since)[b] == if Stamp(beats, b) > since then Beats(beats).ring[b] else 0
  {
  }

  lemma RenewedNext(beats: seq<Beat>, since: int)
    requires beats != [] && Fit(beats)
    ensures var init, last := beats[..|beats| - 1], beats[|beats| - 1];
      Renewed(beats, since) == Renewed(init, since)[last.time % 5 := if last.time > since then last.grown else 0]
  {
    var init, last := beats[..|beats| - 1], beats[|beats| - 1];
    forall b | 0 <= b < 5
      ensures Renewed(beats, since)[b] ==
              if b != last.time % 5 then Renewed(init, since)[b]
              else if last.time > since then last.grown else 0
    {
      RenewedAt(beats, since, b);
      RenewedAt(init, since, b);
      BucketHolds(beats, b);
      BucketHolds(init, b);
    }
  }

  /** Every increment after `since` is in its bucket or overwritten. */
  lemma {:induction false} RenewedSum(beats: seq<Beat>, since: int)
    requires Fit(beats) && since >= NEVER
    ensures Beats(beats).prev == CounterAt(beats, since) + Sum(Renewed(beats, since)) + Lost(beats, since, |beats|)
    decreases |beats|
  {
    if beats == [] {
      SumOfFive(Renewed(beats, since));
    } else {
      var n, last := |beats| - 1, beats[|beats| - 1];
      var init, b := beats[..n], last.time % 5;
      RenewedSum(init, since);
      RenewedNext(beats, since);
      SumUpdate(Renewed(init, since), b, if last.time > since then last.grown else 0);
      LostNext(beats, since, n);
      RenewedAt(init, since, b);
      BucketHolds(init, b);
    }
  }

  lemma SumSplits(ring: seq<nat>, part: seq<nat>, rest: seq<nat>)
    requires |ring| == |part| == |rest| == 5 && forall b :: 0 <= b < 5 ==> ring[b] == part[b] + rest[b]
    ensures Sum(ring) == Sum(part) + Sum(rest)
  {
    SumOfFive(ring);
    SumOfFive(part);
    SumOfFive(rest);
  }

  /** For ticks at any times, repeated seconds and a clock set back included: the buckets add up to the growth of the
      counter since any second, plus what buckets not written since then still hold, minus what ticks since then have
      overwritten of each other. */
  lemma BeatsSum(beats: seq<Beat>, since: int)
    requires Fit(beats) && since >= NEVER
    ensures Sum(Beats(beats).ring) ==
            Beats(beats).prev - CounterAt(beats, since) + Sum(Stale(beats, since)) - Lost(beats, since, |beats|)
  {
    RenewedSum(beats, since);
    SumSplits(Beats(beats).ring, Renewed(beats, since), Stale(beats, since));
  }

  /** The second tick of one second takes away what the first one saw. */
  lemma SameSecond(time: nat, first: nat, second: nat)
    requires first < 0x8000_0000 && second < 0x8000_0000
    ensures var r := Beats([Beat(time, first), Beat(time, second)]);
      r.prev == first + second && Sum(r.ring) == second
  {
    var beats, b := [Beat(time, first), Beat(time, second)], time % 5;
    var one := beats[..1];
    assert one[..0] == [] && Beats(one) == Rate(first, ZERO.ring[b := first]);
    assert Beats(beats).ring == ZERO.ring[b := first][b := second];
    SumOfFive(Beats(beats).ring);
  }

  predicate InOrder(beats: seq<Beat>) {
    forall i, j :: 0 <= i < j < |beats| ==> beats[i].time <= beats[j].time
  }

  /** While the clock is not set back, what is lost of the last five seconds is what was seen by every tick but the last
      of each second. */
  lemma OverwrittenInOrder(beats: seq<Beat>, i: nat)
    requires InOrder(beats) && i < |beats| && beats[i].time > beats[|beats| - 1].time - 5
    ensures Overwritten(beats, i) <==> i + 1 < |beats| && beats[i + 1].time == beats[i].time
  {
    if Overwritten(beats, i) {
      var j :| i < j < |beats| && beats[j].time % 5 == beats[i].time % 5;
      assert beats[i].time <= beats[i + 1].time && (i + 1 < j ==> beats[i + 1].time <= beats[j].time);
      assert j < |beats| - 1 ==> beats[j].time <= beats[|beats| - 1].time;
      SameBucket(beats[i].time, beats[j].time);
    }
  }

  lemma SameBucket(a: nat, b: nat)
    requires a <= b < a + 5 && a % 5 == b % 5
    ensures a == b
  {
  }

  lemma StaleAt(beats: seq<Beat>, since: int, b: nat)
    requires b < 5
    ensures Stale(beats, since)[b] == if Stamp(beats, b) <= since then Beats(beats).ring[b] else 0
  {
  }

  /** Every bucket that was not written after `since` is empty. */
  predicate StaleEmpty(beats: seq<Beat>, since: int) {
    forall b :: 0 <= b < 5 && Stamp(beats, b) <= since ==> Beats(beats).ring[b] == 0
  }

  lemma StaleSum(beats: seq<Beat>, since: int)
    ensures Sum(Stale(beats, since)) == 0 <==> StaleEmpty(beats, since)
  {
    SumOfFive(Stale(beats, since));
    forall b | 0 <= b < 5
      ensures Stale(beats, since)[b] == if Stamp(beats, b) <= since then Beats(beats).ring[b] else 0
    {
      StaleAt(beats, since, b);
    }
  }

  predicate Rising(beats: seq<Beat>) {
    Fit(beats) && forall i, j :: 0 <= i < j < |beats| ==> beats[i].time < beats[j].time
  }

  lemma {:induction false} RisingLosesNothing(beats: seq<Beat>, n: nat)
    requires Rising(beats) && beats != [] && n <= |beats|
    ensures Lost(beats, beats[|beats| - 1].time - 5, n) == 0
    decreases n
  {
    if n == 0 {
    } else {
      RisingLosesNothing(beats, n - 1);
      if beats[n - 1].time > beats[|beats| - 1].time - 5 { OverwrittenInOrder(beats, n - 1); }
    }
  }

  /** So for ticks in different seconds the buckets add up to the growth over the last five seconds exactly if every
      bucket that was not written within them is empty; otherwise they add up to more. */
  lemma RisingSum(beats: seq<Beat>)
    requires Rising(beats) && beats != []
    ensures var r, t := Beats(beats), beats[|beats| - 1].time as int;
      && Sum(r.ring) >= r.prev - CounterAt(beats, t - 5)
      && (Sum(r.ring) == r.prev - CounterAt(beats, t - 5) <==> StaleEmpty(beats, t - 5))
  {
    var since := beats[|beats| - 1].time as int - 5;
    BeatsSum(beats, since);
    RisingLosesNothing(beats, |beats|);
    StaleSum(beats, since);
  }

  /** An increment survives the detour through `int` exactly if it fits. */
  lemma StoredExact(increment: nat)
    requires increment < 0x8000_0000_0000_0000
    ensures Stored(increment) == increment <==> increment < 0x8000_0000
  {
  }
}
