/**
 The circuit breaker's sliding-window log and the supervision loop it guards.
 Times are clock readings; every call takes the readings it makes, which never go back.
 */
module Supervisor {

  predicate Sorted(s: seq<int>) {
    forall i, j :: 0 <= i <= j < |s| ==> s[i] <= s[j]
  }

  /** How many of the first `n` records are not before `cutoff`. */
  function CountIn(records: seq<int>, n: nat, cutoff: int): nat
    requires n <= |records|
  {
    if n == 0 then 0 else CountIn(records, n - 1, cutoff) + if records[n - 1] < cutoff then 0 else 1
  }

  /** How many records are not before `cutoff`. */
  function CountFrom(records: seq<int>, cutoff: int): nat {
    CountIn(records, |records|, cutoff)
  }

  /** In a sorted log the counted records are a suffix. */
  lemma {:induction false} CountIsSuffix(s: seq<int>, cutoff: int, k: nat, n: nat)
    requires k <= n <= |s|
    requires forall i :: 0 <= i < k ==> s[i] < cutoff
    requires forall i :: k <= i < |s| ==> cutoff <= s[i]
    ensures CountIn(s, n, cutoff) == n - k
    decreases n
  {
    if n > k {
      CountIsSuffix(s, cutoff, k, n - 1);
    } else {
      NoneCounted(s, cutoff, n);
    }
  }

  lemma {:induction false} NoneCounted(s: seq<int>, cutoff: int, n: nat)
    requires n <= |s| && forall i :: 0 <= i < n ==> s[i] < cutoff
    ensures CountIn(s, n, cutoff) == 0
  {
    if n > 0 { NoneCounted(s, cutoff, n - 1); }
  }

  lemma {:induction false} SuffixStart(s: seq<int>, cutoff: int) returns (k: nat)
    requires Sorted(s)
    ensures k <= |s|
    ensures forall i :: 0 <= i < k ==> s[i] < cutoff
    ensures forall i :: k <= i < |s| ==> cutoff <= s[i]
  {
    k := 0;
    while k < |s| && s[k] < cutoff
      invariant k <= |s|
      invariant forall i :: 0 <= i < k ==> s[i] < cutoff
    {
      k := k + 1;
    }
  }

  /** A sorted log counts at least `m` records exactly when its m-th last one is recent. */
  lemma CountReaches(s: seq<int>, cutoff: int, m: nat)
    requires Sorted(s) && m >= 1
    ensures CountFrom(s, cutoff) >= m <==> |s| >= m && cutoff <= s[|s| - m]
  {
    var k := SuffixStart(s, cutoff);
    CountIsSuffix(s, cutoff, k, |s|);
  }

  /** The log is what is left of the history after dropping records that can never count again. */
  ghost predicate IsLogOf(log: seq<int>, history: seq<int>, clock: int, window: int) {
    && Sorted(history)
    && (forall i :: 0 <= i < |history| ==> history[i] <= clock)
    && |log| <= |history| && log == history[|history| - |log|..]
    && (forall i :: 0 <= i < |history| - |log| ==> history[i] < clock - window)
  }

  ghost predicate AllBefore(log: seq<int>, i: nat, cutoff: int) {
    i <= |log| && forall k :: 0 <= k < i ==> log[k] < cutoff
  }

  /** Dropping the front of the log down to the cutoff leaves exactly the records that count. */
  lemma DropFront(history: seq<int>, log: seq<int>, clock: int, now: int, window: int, i: nat)
    requires IsLogOf(log, history, clock, window) && clock <= now && i <= |log|
    requires AllBefore(log, i, now - window)
    requires i < |log| ==> now - window <= log[i]
    ensures IsLogOf(log[i..], history, now, window)
    ensures |log[i..]| == CountFrom(history, now - window)
    ensures i == 0 ==> log[i..] == log
  {
    var d := |history| - |log|;
    assert forall k :: d <= k < |history| ==> history[k] == log[k - d];
    CountIsSuffix(history, now - window, d + i, |history|);
  }

  lemma AppendRecord(history: seq<int>, log: seq<int>, clock: int, now: int, window: int)
    requires IsLogOf(log, history, clock, window) && clock <= now
    ensures IsLogOf(log + [now], history + [now], now, window)
  {}

  class CircuitBreaker {
    const maxRestarts: int
    const window: int
    var timestamps: seq<int>
    /** Every record since the last reset, and the latest clock reading. */
    ghost var history: seq<int>
    ghost var clock: int

    ghost predicate Valid()
      reads this
    {
      IsLogOf(timestamps, history, clock, window)
    }

    constructor (maxRestarts: int, window: int, ghost start: int)
      ensures Valid() && history == [] && timestamps == [] && clock == start
      ensures this.maxRestarts == maxRestarts && this.window == window
    {
      this.maxRestarts, this.window := maxRestarts, window;
      timestamps, history, clock := [], [], start;
    }

    /** `now` is the reading of the append, `pruneNow` the later one of the pruning. */
    method Record(now: int, pruneNow: int)
      requires Valid() && clock <= now <= pruneNow
      modifies this
      ensures Valid() && history == old(history) + [now] && clock == pruneNow
      ensures |timestamps| <= |old(timestamps)| + 1
    {
      AppendRecord(history, timestamps, clock, now, window);
      timestamps := timestamps + [now];
      history, clock := history + [now], now;
      Prune(pruneNow);
    }

    /** Open exactly when enough of all the records since the last reset lie within the window. */
    method IsOpen(now: int) returns (open: bool)
      requires Valid() && clock <= now
      modifies this
      ensures Valid() && history == old(history) && clock == now
      ensures open <==> CountFrom(history, now - window) >= maxRestarts
      ensures open <==> |timestamps| >= maxRestarts
      ensures |timestamps| <= |old(timestamps)|
    {
      Prune(now);
      open := |timestamps| >= maxRestarts;
    }

    method Reset()
      requires Valid()
      modifies this`timestamps, this`history
      ensures Valid() && history == [] && timestamps == []
    {
      timestamps, history := [], [];
    }

    method Prune(now: int)
      requires Valid() && clock <= now
      modifies this`timestamps, this`clock
      ensures Valid() && clock == now
      ensures |timestamps| == CountFrom(history, now - window)
      ensures |timestamps| <= |old(timestamps)|
    {
      var cutoff := now - window;
      var i := 0;
      while i < |timestamps| && timestamps[i] < cutoff
        invariant i <= |timestamps|
        invariant AllBefore(timestamps, i, cutoff)
      {
        i := i + 1;
      }
      DropFront(history, timestamps, clock, now, window, i);
      if i > 0 {
        timestamps := timestamps[i..];
      }
      clock := now;
    }
  }

  // ----- the supervision loop -----

  /**
   One turn of the loop as its surroundings decide it: whether the context is found cancelled before
   the check, after the child or in the backoff, and the clock readings the turn makes. The time
   between `check` and `exit` is the life of the child, however it ends.
   */
  datatype Turn = Turn(
    cancelledBefore: bool, check: int, cancelledInChild: bool, exit: int, pruned: int, cancelledInBackoff: bool)

  /** `StillRunning` is a run seen after the turns decided so far. */
  datatype Verdict = StillRunning | Cancelled | BreakerOpen

  /** The admitted child starts, the recorded exits, and how the run ended. */
  datatype Outcome = Outcome(starts: seq<int>, exits: seq<int>, verdict: Verdict)

  predicate Monotone(clock: int, turns: seq<Turn>) {
    && (forall i :: 0 <= i < |turns| ==> clock <= turns[i].check <= turns[i].exit <= turns[i].pruned)
    && (forall i, j :: 0 <= i < j < |turns| ==> turns[i].pruned <= turns[j].check)
  }

  /**
   The loop against a breaker that forgets nothing, from turn `k` on and after the given starts
   and exits; `history` is every exit recorded before the run.
   */
  function SuperviseFrom(max: int, window: int, history: seq<int>, starts: seq<int>, exits: seq<int>,
                         turns: seq<Turn>, k: nat): Outcome
    requires k <= |turns|
    decreases |turns| - k
  {
    if k == |turns| then Outcome(starts, exits, StillRunning)
    else
      var t := turns[k];
      if t.cancelledBefore then Outcome(starts, exits, Cancelled)
      else if CountFrom(history + exits, t.check - window) >= max then Outcome(starts, exits, BreakerOpen)
      else if t.cancelledInChild then Outcome(starts + [t.check], exits, Cancelled)
      else if t.cancelledInBackoff then Outcome(starts + [t.check], exits + [t.exit], Cancelled)
      else SuperviseFrom(max, window, history, starts + [t.check], exits + [t.exit], turns, k + 1)
  }

  function Supervise(max: int, window: int, history: seq<int>, turns: seq<Turn>): Outcome {
    SuperviseFrom(max, window, history, [], [], turns, 0)
  }

  class Supervisor {
    const breaker: CircuitBreaker

    constructor (breaker: CircuitBreaker)
      ensures this.breaker == breaker
    {
      this.breaker := breaker;
    }

    /**
     The loop, with the pruned log, behaves as the loop that remembers every exit; and its log
     never outgrows the limit.
     */
    method Run(turns: seq<Turn>) returns (out: Outcome)
      requires breaker.Valid() && Monotone(breaker.clock, turns)
      modifies breaker
      ensures breaker.Valid()
      ensures out == Supervise(breaker.maxRestarts, breaker.window, old(breaker.history), turns)
      ensures breaker.history == old(breaker.history) + out.exits
      ensures old(|breaker.timestamps|) <= breaker.maxRestarts && breaker.maxRestarts >= 1 ==>
                |breaker.timestamps| <= breaker.maxRestarts
    {
      var starts, exits := [], [];
      var k := 0;
      ghost var max, window, past := breaker.maxRestarts, breaker.window, breaker.history;
      while k < |turns|
        invariant k <= |turns|
        invariant breaker.Valid() && (k < |turns| ==> breaker.clock <= turns[k].check)
        invariant breaker.history == past + exits
        invariant old(|breaker.timestamps|) <= max && max >= 1 ==> |breaker.timestamps| <= max
        invariant SuperviseFrom(max, window, past, starts, exits, turns, k) == Supervise(max, window, past, turns)
      {
        var t := turns[k];
        if t.cancelledBefore { return Outcome(starts, exits, Cancelled); }
        var open := breaker.IsOpen(t.check);
        if open { return Outcome(starts, exits, BreakerOpen); }
        starts := starts + [t.check];
        if t.cancelledInChild { return Outcome(starts, exits, Cancelled); }
        breaker.Record(t.exit, t.pruned);
        exits := exits + [t.exit];
        if t.cancelledInBackoff { return Outcome(starts, exits, Cancelled); }
        k := k + 1;
      }
      out := Outcome(starts, exits, StillRunning);
    }
  }

  // ----- the rate of child starts -----

  /** The first `k` turns all ran to their end, with these starts and exits. */
  predicate Logged(starts: seq<int>, exits: seq<int>, turns: seq<Turn>, k: nat) {
    && |starts| == |exits| == k <= |turns|
    && forall i :: 0 <= i < k ==> starts[i] == turns[i].check && exits[i] == turns[i].exit
  }

  lemma {:induction false} StartsGrow(max: int, window: int, history: seq<int>, starts: seq<int>, exits: seq<int>,
                                      turns: seq<Turn>, k: nat)
    requires k <= |turns|
    ensures var out := SuperviseFrom(max, window, history, starts, exits, turns, k);
            && starts <= out.starts
            && |out.starts| <= |starts| + |turns| - k
            && (|starts| < |out.starts| ==> starts + [turns[k].check] <= out.starts)
    decreases |turns| - k
  {
    if k < |turns| {
      StartsGrow(max, window, history, starts + [turns[k].check], exits + [turns[k].exit], turns, k + 1);
    }
  }

  /** The j-th start is the check of the j-th turn, admitted with fewer than `max` recent exits before it. */
  lemma {:induction false} StartIsAdmitted(max: int, window: int, history: seq<int>, starts: seq<int>, exits: seq<int>,
                                           turns: seq<Turn>, k: nat, j: nat) returns (before: seq<int>)
    requires Logged(starts, exits, turns, k)
    requires k <= j < |SuperviseFrom(max, window, history, starts, exits, turns, k).starts|
    ensures j < |turns| && SuperviseFrom(max, window, history, starts, exits, turns, k).starts[j] == turns[j].check
    ensures |before| == j && forall i :: 0 <= i < j ==> before[i] == turns[i].exit
    ensures CountFrom(history + before, turns[j].check - window) < max
    decreases j - k
  {
    StartsGrow(max, window, history, starts, exits, turns, k);
    if k == j {
      before := exits;
    } else {
      before := StartIsAdmitted(max, window, history, starts + [turns[k].check], exits + [turns[k].exit],
                                turns, k + 1, j);
    }
  }

  // ----- how a run ends -----

  function ChecksOf(turns: seq<Turn>, n: nat): seq<int>
    requires n <= |turns|
  {
    seq(n, i requires 0 <= i < n => turns[i].check)
  }

  function ExitsOf(turns: seq<Turn>, n: nat): seq<int>
    requires n <= |turns|
  {
    seq(n, i requires 0 <= i < n => turns[i].exit)
  }

  /** The breaker finds enough recent exits at the n-th check, if all turns before it ran to their end. */
  predicate OpenAt(max: int, window: int, history: seq<int>, turns: seq<Turn>, n: nat)
    requires n < |turns|
  {
    CountFrom(history + ExitsOf(turns, n), turns[n].check - window) >= max
  }

  /** The n-th turn runs to its end and goes on to the next. */
  predicate GoesOn(max: int, window: int, history: seq<int>, turns: seq<Turn>, n: nat)
    requires n < |turns|
  {
    var t := turns[n];
    !t.cancelledBefore && !OpenAt(max, window, history, turns, n) && !t.cancelledInChild && !t.cancelledInBackoff
  }

  /** The run up to turn `n`, and how it ends there. */
  function EndAt(max: int, window: int, history: seq<int>, turns: seq<Turn>, n: nat): Outcome
    requires n <= |turns|
  {
    if n == |turns| then Outcome(ChecksOf(turns, n), ExitsOf(turns, n), StillRunning)
    else if turns[n].cancelledBefore then Outcome(ChecksOf(turns, n), ExitsOf(turns, n), Cancelled)
    else if OpenAt(max, window, history, turns, n) then Outcome(ChecksOf(turns, n), ExitsOf(turns, n), BreakerOpen)
    else if turns[n].cancelledInChild then Outcome(ChecksOf(turns, n + 1), ExitsOf(turns, n), Cancelled)
    else Outcome(ChecksOf(turns, n + 1), ExitsOf(turns, n + 1), Cancelled)
  }

  lemma OneTurnMore(turns: seq<Turn>, n: nat)
    requires n < |turns|
    ensures ChecksOf(turns, n) + [turns[n].check] == ChecksOf(turns, n + 1)
    ensures ExitsOf(turns, n) + [turns[n].exit] == ExitsOf(turns, n + 1)
  {}

  lemma {:induction false} RunsUpTo(max: int, window: int, history: seq<int>, turns: seq<Turn>, k: nat, n: nat)
    requires k <= n <= |turns| && forall i :: k <= i < n ==> GoesOn(max, window, history, turns, i)
    requires n < |turns| ==> !GoesOn(max, window, history, turns, n)
    ensures SuperviseFrom(max, window, history, ChecksOf(turns, k), ExitsOf(turns, k), turns, k)
         == EndAt(max, window, history, turns, n)
    decreases n - k
  {
    if k < |turns| { OneTurnMore(turns, k); }
    if k < n {
      assert GoesOn(max, window, history, turns, k);
      RunsUpTo(max, window, history, turns, k + 1, n);
    }
  }

  /**
   A run does exactly this: it goes through the first turns that go on, and ends at the first that
   does not. A cancellation before the check starts no child, one in the child records no exit, and
   one in the backoff comes after the exit is recorded; the verdict is then never an open breaker.
   */
  lemma RunEndsExactly(max: int, window: int, history: seq<int>, turns: seq<Turn>, n: nat)
    requires n <= |turns| && forall i :: 0 <= i < n ==> GoesOn(max, window, history, turns, i)
    requires n < |turns| ==> !GoesOn(max, window, history, turns, n)
    ensures var out := Supervise(max, window, history, turns);
            && |out.starts| <= |turns| && |out.exits| <= |turns|
            && out.starts == ChecksOf(turns, |out.starts|) && out.exits == ExitsOf(turns, |out.exits|)
            && (n == |turns| ==> out.verdict == StillRunning && |out.starts| == |out.exits| == n)
            && (n < |turns| && turns[n].cancelledBefore ==>
                  out.verdict == Cancelled && |out.starts| == |out.exits| == n)
            && (n < |turns| && !turns[n].cancelledBefore && OpenAt(max, window, history, turns, n) ==>
                  out.verdict == BreakerOpen && |out.starts| == |out.exits| == n)
            && (n < |turns| && !turns[n].cancelledBefore && !OpenAt(max, window, history, turns, n) ==>
                  && out.verdict == Cancelled && |out.starts| == n + 1
                  && |out.exits| == if turns[n].cancelledInChild then n else n + 1)
  {
    assert ChecksOf(turns, 0) == [] && ExitsOf(turns, 0) == [];
    RunsUpTo(max, window, history, turns, 0, n);
  }

  lemma {:induction false} CountAtLeast(s: seq<int>, cutoff: int, i: nat, n: nat)
    requires i <= n <= |s| && forall k :: i <= k < n ==> cutoff <= s[k]
    ensures CountIn(s, n, cutoff) >= n - i
  {
    if i < n { CountAtLeast(s, cutoff, i, n - 1); }
  }

  /** Starts that are `max` apart in the run are more than a window apart in time. */
  lemma StartsAreSpread(max: int, window: int, history: seq<int>, clock: int, turns: seq<Turn>, i: nat, j: nat)
    requires Monotone(clock, turns)
    requires var out := Supervise(max, window, history, turns); i <= j < |out.starts| && j - i >= max
    ensures var out := Supervise(max, window, history, turns); out.starts[j] - out.starts[i] > window
  {
    var _ := StartIsAdmitted(max, window, history, [], [], turns, 0, i);
    var before := StartIsAdmitted(max, window, history, [], [], turns, 0, j);
    var cutoff := turns[j].check - window;
    if cutoff <= turns[i].check {
      CountAtLeast(history + before, cutoff, |history| + i, |history| + j);
    }
  }

  lemma {:induction false} RangeSize(s: set<int>, lo: int, n: nat)
    requires forall x :: x in s ==> lo <= x < lo + n
    ensures |s| <= n
    decreases n
  {
    if n > 0 {
      RangeSize(s - {lo + n - 1}, lo, n - 1);
      assert |s| <= |s - {lo + n - 1}| + 1;
    } else {
      assert forall x :: x !in s;
    }
  }

  /**
   Any closed interval of time no longer than the window holds at most `max` child starts,
   whatever the lives of the children, the cancellations and the breaker's earlier history.
   */
  lemma RateBound(max: int, window: int, history: seq<int>, clock: int, turns: seq<Turn>, from: int, to: int)
    requires Monotone(clock, turns) && to - from <= window
    ensures var starts := Supervise(max, window, history, turns).starts;
            |set i | 0 <= i < |starts| && from <= starts[i] <= to| <= if max < 0 then 0 else max
  {
    var starts := Supervise(max, window, history, turns).starts;
    var inside := set i | 0 <= i < |starts| && from <= starts[i] <= to;
    if inside != {} {
      var lo := First(starts, from, to);
      forall j | j in inside ensures lo <= j < lo + max {
        if j - lo >= max { StartsAreSpread(max, window, history, clock, turns, lo, j); }
      }
      RangeSize(inside, lo, max);
    }
  }

  lemma First(starts: seq<int>, from: int, to: int) returns (lo: nat)
    requires exists i :: 0 <= i < |starts| && from <= starts[i] <= to
    ensures lo < |starts| && from <= starts[lo] <= to
    ensures forall i :: 0 <= i < lo ==> !(from <= starts[i] <= to)
  {
    lo := 0;
    while !(from <= starts[lo] <= to)
      invariant lo < |starts|
      invariant forall i :: 0 <= i < lo ==> !(from <= starts[i] <= to)
      decreases |starts| - lo
    {
      lo := lo + 1;
    }
  }

  // ----- when the breaker trips -----

  predicate Uncancelled(turns: seq<Turn>) {
    forall i :: 0 <= i < |turns| ==>
      !turns[i].cancelledBefore && !turns[i].cancelledInChild && !turns[i].cancelledInBackoff
  }

  /** The n-th check comes within a window of the exit `max` turns before it. */
  predicate Crowded(max: nat, window: int, turns: seq<Turn>, n: nat)
    requires n < |turns|
  {
    max <= n && turns[n].check - turns[n - max].exit <= window
  }

  lemma CrowdedIsOpen(max: nat, window: int, exits: seq<int>, turns: seq<Turn>, n: nat)
    requires Sorted(exits) && |exits| == n < |turns| && max >= 1
    requires max <= n ==> exits[n - max] == turns[n - max].exit
    ensures CountFrom([] + exits, turns[n].check - window) >= max <==> Crowded(max, window, turns, n)
  {
    NoPast(exits);
    CountReaches(exits, turns[n].check - window, max);
  }

  lemma NoPast(exits: seq<int>)
    ensures [] + exits == exits
  {}

  lemma ExitsAreSorted(clock: int, starts: seq<int>, exits: seq<int>, turns: seq<Turn>, n: nat)
    requires Monotone(clock, turns) && Logged(starts, exits, turns, n)
    ensures Sorted(exits)
  {}

  /** The first crowded check from turn `k` on, or the number of turns. */
  function FirstCrowded(max: nat, window: int, turns: seq<Turn>, k: nat): (n: nat)
    requires k <= |turns|
    ensures k <= n <= |turns|
    ensures n < |turns| ==> Crowded(max, window, turns, n)
    ensures forall p :: k <= p < n ==> !Crowded(max, window, turns, p)
    decreases |turns| - k
  {
    if k == |turns| || Crowded(max, window, turns, k) then k else FirstCrowded(max, window, turns, k + 1)
  }

  lemma {:induction false} RunsToFirstCrowded(max: nat, window: int, clock: int, starts: seq<int>, exits: seq<int>,
                                              turns: seq<Turn>, k: nat)
    requires Monotone(clock, turns) && Uncancelled(turns) && max >= 1 && Logged(starts, exits, turns, k)
    ensures var out, n := SuperviseFrom(max, window, [], starts, exits, turns, k), FirstCrowded(max, window, turns, k);
            && out.verdict == (if n < |turns| then BreakerOpen else StillRunning)
            && |out.starts| == n
    decreases |turns| - k
  {
    if k < |turns| {
      ExitsAreSorted(clock, starts, exits, turns, k);
      CrowdedIsOpen(max, window, exits, turns, k);
      if !Crowded(max, window, turns, k) {
        RunsToFirstCrowded(max, window, clock, starts + [turns[k].check], exits + [turns[k].exit], turns, k + 1);
      }
    }
  }

  /**
   From a fresh breaker and without cancellation the run trips at the n-th check exactly when that
   is the first check within a window of the exit `max` turns earlier; it has then started n children.
   */
  lemma TripsExactly(max: nat, window: int, clock: int, turns: seq<Turn>)
    requires Monotone(clock, turns) && Uncancelled(turns) && max >= 1
    ensures var out := Supervise(max, window, [], turns);
            && (out.verdict == BreakerOpen <==> exists n :: 0 <= n < |turns| && Crowded(max, window, turns, n))
            && (out.verdict == BreakerOpen ==>
                  var n := |out.starts|;
                  && n < |turns| && Crowded(max, window, turns, n)
                  && forall p :: 0 <= p < n ==> !Crowded(max, window, turns, p))
            && (out.verdict != BreakerOpen ==> out.verdict == StillRunning && |out.starts| == |turns|)
  {
    RunsToFirstCrowded(max, window, clock, [], [], turns, 0);
  }

  /** A crash loop: `max` exits and a check within one window end the run after exactly `max` starts. */
  lemma CrashLoopTrips(max: nat, window: int, clock: int, turns: seq<Turn>)
    requires Monotone(clock, turns) && Uncancelled(turns) && max >= 1
    requires max < |turns| && turns[max].check - turns[0].exit <= window
    ensures var out := Supervise(max, window, [], turns); out.verdict == BreakerOpen && |out.starts| == max
  {
    TripsExactly(max, window, clock, turns);
    assert Crowded(max, window, turns, max);
  }

  lemma {:induction false} GapsAddUp(turns: seq<Turn>, g: int, i: nat, n: nat)
    requires i + n < |turns| && forall k :: 0 <= k < |turns| - 1 ==> turns[k + 1].exit - turns[k].exit >= g
    ensures turns[i + n].exit - turns[i].exit >= g * n
    decreases n
  {
    if n > 0 {
      GapsAddUp(turns, g, i, n - 1);
      assert turns[i + (n - 1) + 1].exit - turns[i + (n - 1)].exit >= g;
      assert g * n == g * (n - 1) + g;
    }
  }

  /** Children whose exits are far enough apart never trip the breaker. */
  lemma SpacedExitsNeverTrip(max: nat, window: int, clock: int, turns: seq<Turn>, g: int)
    requires Monotone(clock, turns) && Uncancelled(turns) && max >= 2
    requires forall k :: 0 <= k < |turns| - 1 ==> turns[k + 1].exit - turns[k].exit >= g
    requires g * (max - 1) > window
    ensures Supervise(max, window, [], turns).verdict == StillRunning
  {
    TripsExactly(max, window, clock, turns);
    forall n | 0 <= n < |turns| ensures !Crowded(max, window, turns, n) {
      if max <= n {
        GapsAddUp(turns, g, n - max, max - 1);
        assert turns[n - 1].exit <= turns[n].check;
      }
    }
  }
}
