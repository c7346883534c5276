/**
 The agent: a bounded queue fed from anywhere, and one goroutine that takes requests, dreams when
 idle, and drains the queue when its context is cancelled.

 `Next` gives the atomic steps of all parties; runs are sequences of steps in any interleaving.
 The class below has the source's shape, and its runs are exactly the sequences of enabled steps.
 */
module Agent {
  import opened Wrappers
  import Claude

  datatype Life = Starting | Ready | Processing | Idle | Stopped

  datatype Request = Request(message: string, handler: nat)

  /** `idle` is the idle timeout if idle detection is on, `hook` whether there is a shutdown hook. */
  datatype Config = Config(capacity: nat, idle: Option<nat>, hook: bool)

  /** An idle timeout takes time. */
  predicate Positive(c: Config) {
    c.idle.Some? ==> c.idle.value > 0
  }

  /** A queue size of zero means 64; idle detection needs a positive timeout and something to call. */
  function ConfigOf(queueSize: nat, timeout: int, onIdle: bool, hook: bool): (c: Config)
    ensures c.capacity >= 1 && Positive(c)
  {
    Config(if queueSize == 0 then 64 else queueSize, if timeout > 0 && onIdle then Some(timeout) else None, hook)
  }

  /** Where the goroutine is. A request is in flight from its receipt to its completion. */
  datatype Phase =
    | NotStarted
    | Rearming
    | Selecting
    | Received(req: Request, draining: bool)
    | Handling(req: Request, draining: bool)
    | Ticked
    | Dreaming
    | Draining
    | Drained
    | InHook
    | Done

  type Sent = Result<seq<Claude.Event>, Claude.SendFailure>

  /** A completed request, what sending it to the session gave, and the calls its handler got. */
  datatype Told = Told(req: Request, sent: Sent, calls: seq<Claude.Call>)

  /** A call of OnIdle: when, with what queue length observed, and what had happened before. */
  datatype IdleCall = IdleCall(at: int, queued: nat, began: int, finished: int, woke: int)

  /**
   The state: what the program holds (phase, state, queue, armed timer, context), the clock, and
   the histories of requests, states and calls. `finished` and `woke` are the times of the last
   completed request and the last return of OnIdle, or of the start; `told` what the handlers saw.
   */
  datatype Sys = Sys(
    phase: Phase, life: Life, queue: seq<Request>, deadline: Option<int>, cancelled: bool, now: int,
    accepted: seq<Request>, completed: seq<Request>, told: seq<Told>, lives: seq<Life>, calls: seq<IdleCall>,
    began: int, finished: int, woke: int, sawEmpty: Option<nat>, hooks: nat)

  datatype Label =
    | Submit(req: Request)   // from any goroutine
    | Advance(time: int)     // the clock
    | Cancel                 // the context
    | Finish(sent: Sent)     // with what sending the request in hand gave
    | Begin | Rearm | Take | Enter | Tick | CheckIdle | Wake | Quit | SeeEmpty | RunHook | Stop

  predicate Outside(l: Label) {
    l.Submit? || l.Advance? || l.Cancel?
  }

  function Initial(start: int): Sys {
    Sys(NotStarted, Starting, [], None, false, start, [], [], [], [Starting], [], start, start, start, None, 0)
  }

  function Entered(s: Sys, phase: Phase, life: Life): Sys {
    s.(phase := phase, life := life, lives := s.lives + [life])
  }

  /** One atomic step, if it is enabled. A submission to a full queue is refused and changes nothing. */
  function Next(c: Config, s: Sys, l: Label): Option<Sys> {
    match l
    case Submit(req) =>
      if |s.queue| < c.capacity then Some(s.(queue := s.queue + [req], accepted := s.accepted + [req]))
      else Some(s)
    case Advance(time) =>
      if s.now <= time then Some(s.(now := time)) else None
    case Cancel =>
      Some(s.(cancelled := true))
    case Begin =>
      if s.phase.NotStarted? then
        Some(Entered(s, Rearming, Ready).(began := s.now, finished := s.now, woke := s.now))
      else None
    case Rearm =>
      if s.phase.Rearming? then
        Some(s.(phase := Selecting, deadline := if c.idle.Some? then Some(s.now + c.idle.value) else None))
      else None
    case Take =>
      if (s.phase.Selecting? || s.phase.Draining?) && s.queue != [] then
        Some(s.(phase := Received(s.queue[0], s.phase.Draining?), queue := s.queue[1..], deadline := None))
      else None
    case Enter =>
      if s.phase.Received? then Some(Entered(s, Handling(s.phase.req, s.phase.draining), Processing)) else None
    case Finish(sent) =>
      if s.phase.Handling? && Claude.Sendable(sent) then
        Some(Entered(s, if s.phase.draining then Draining else Rearming, Ready)
             .(completed := s.completed + [s.phase.req], finished := s.now,
               told := s.told + [Told(s.phase.req, sent, Claude.CallsFor(sent))]))
      else None
    case Tick =>
      if s.phase.Selecting? && s.deadline.Some? && s.deadline.value <= s.now then
        Some(s.(phase := Ticked, deadline := None))
      else None
    case CheckIdle =>
      if !s.phase.Ticked? then None
      else if s.life == Ready && s.queue == [] then
        Some(Entered(s, Dreaming, Idle)
             .(calls := s.calls + [IdleCall(s.now, |s.queue|, s.began, s.finished, s.woke)]))
      else Some(s.(phase := Rearming))
    case Wake =>
      if s.phase.Dreaming? then Some(Entered(s, Rearming, Ready).(woke := s.now)) else None
    case Quit =>
      if s.phase.Selecting? && s.cancelled then Some(s.(phase := Draining, deadline := None)) else None
    case SeeEmpty =>
      if s.phase.Draining? && s.queue == [] then Some(s.(phase := Drained, sawEmpty := Some(|s.accepted|)))
      else None
    case RunHook =>
      if s.phase.Drained? && c.hook then Some(s.(phase := InHook, hooks := s.hooks + 1)) else None
    case Stop =>
      if (s.phase.Drained? && !c.hook) || s.phase.InHook? then Some(Entered(s, Done, Stopped)) else None
  }

  // ----- the invariant -----

  function InFlight(s: Sys): seq<Request> {
    if s.phase.Received? || s.phase.Handling? then [s.phase.req] else []
  }

  /** No request is lost, duplicated or reordered, and the queue keeps its bound. */
  ghost predicate Conserves(c: Config, s: Sys) {
    s.accepted == s.completed + InFlight(s) + s.queue && |s.queue| <= c.capacity
  }

  /** Each completed request's handler, in order, got its events and then exactly one completion. */
  ghost predicate Tells(s: Sys) {
    && |s.told| == |s.completed|
    && forall i :: 0 <= i < |s.told| ==>
         && s.told[i].req == s.completed[i]
         && Claude.Sendable(s.told[i].sent) && Claude.WellHandled(s.told[i].sent, s.told[i].calls)
  }

  predicate AfterDrain(p: Phase) {
    p.Drained? || p.InHook? || p.Done?
  }

  /** Once the drain has seen the queue empty, what is left is exactly what was accepted since. */
  ghost predicate KeepsResidue(s: Sys) {
    && (s.sawEmpty.Some? <==> AfterDrain(s.phase))
    && (s.sawEmpty.Some? ==>
          && s.sawEmpty.value <= |s.accepted|
          && s.completed == s.accepted[..s.sawEmpty.value]
          && s.queue == s.accepted[s.sawEmpty.value..])
  }

  predicate HookCount(c: Config, s: Sys) {
    (s.phase.InHook? ==> c.hook) && s.hooks == if s.phase.InHook? || (s.phase.Done? && c.hook) then 1 else 0
  }

  function LifeIn(p: Phase): Life {
    if p.NotStarted? then Starting
    else if p.Handling? then Processing
    else if p.Dreaming? then Idle
    else if p.Done? then Stopped
    else Ready
  }

  predicate Follows(a: Life, b: Life) {
    match a
    case Starting => b == Ready
    case Ready => b == Processing || b == Idle || b == Stopped
    case Processing => b == Ready
    case Idle => b == Ready
    case Stopped => false
  }

  ghost predicate LegalOrder(lives: seq<Life>) {
    forall i :: 0 <= i < |lives| - 1 ==> Follows(lives[i], lives[i + 1])
  }

  /** The states stored: from Starting to Ready, rounds of Processing or Idle back to Ready, Stopped last. */
  ghost predicate LegalLives(s: Sys) {
    && s.life == LifeIn(s.phase)
    && |s.lives| >= 1 && s.lives[0] == Starting && s.lives[|s.lives| - 1] == s.life
    && LegalOrder(s.lives)
  }

  predicate LongSince(t: int, timeout: nat, began: int, finished: int, woke: int) {
    t >= began + timeout && t >= finished + timeout && t >= woke + timeout
  }

  /** Every OnIdle comes a full timeout after the start, the last request and the last OnIdle, on an empty queue. */
  ghost predicate IdleWell(c: Config, s: Sys) {
    && (s.began <= s.now && s.finished <= s.now && s.woke <= s.now)
    && (s.deadline.Some? ==>
          s.phase.Selecting? && c.idle.Some? && LongSince(s.deadline.value, c.idle.value, s.began, s.finished, s.woke))
    && (s.phase.Ticked? ==> c.idle.Some? && LongSince(s.now, c.idle.value, s.began, s.finished, s.woke))
    && CallsAreLate(c, s.calls)
  }

  /** Only a cancelled agent drains or stops. */
  predicate StopsIfCancelled(s: Sys) {
    var p := s.phase;
    p.Draining? || AfterDrain(p) || ((p.Received? || p.Handling?) && p.draining) ==> s.cancelled
  }

  ghost predicate Inv(c: Config, s: Sys) {
    && Conserves(c, s) && Tells(s) && KeepsResidue(s) && HookCount(c, s) && LegalLives(s) && IdleWell(c, s)
    && StopsIfCancelled(s)
  }

  lemma StepConserves(c: Config, s: Sys, l: Label)
    requires Conserves(c, s) && Next(c, s, l).Some?
    ensures Conserves(c, Next(c, s, l).value)
  {
    match l
    case Submit(req) =>
      assert s.completed + InFlight(s) + (s.queue + [req]) == s.completed + InFlight(s) + s.queue + [req];
    case Take =>
      assert s.completed + [] + s.queue == s.completed + [s.queue[0]] + s.queue[1..];
    case Finish(_) =>
      assert s.completed + [s.phase.req] + s.queue == (s.completed + [s.phase.req]) + [] + s.queue;
    case _ =>
  }

  lemma StepTells(c: Config, s: Sys, l: Label)
    requires Tells(s) && Next(c, s, l).Some?
    ensures Tells(Next(c, s, l).value)
  {
    if l.Finish? && s.phase.Handling? {
      Claude.CallsAreWell(l.sent);
      ToldAppend(s, Told(s.phase.req, l.sent, Claude.CallsFor(l.sent)), Next(c, s, l).value);
    }
  }

  lemma ToldAppend(s: Sys, one: Told, t: Sys)
    requires Tells(s) && Claude.Sendable(one.sent) && Claude.WellHandled(one.sent, one.calls)
    requires t.told == s.told + [one] && t.completed == s.completed + [one.req]
    ensures Tells(t)
  {}

  /** The drain has seen the queue empty exactly after it, and served what was accepted until then. */
  predicate SawEmptyAfter(s: Sys) {
    && (s.sawEmpty.Some? <==> AfterDrain(s.phase))
    && (s.sawEmpty.Some? ==> |s.completed| == s.sawEmpty.value)
  }

  lemma SawEmptyStays(c: Config, s: Sys, l: Label)
    requires Conserves(c, s) && SawEmptyAfter(s) && Next(c, s, l).Some?
    ensures SawEmptyAfter(Next(c, s, l).value)
  {}

  lemma ResidueSplits(c: Config, s: Sys)
    requires Conserves(c, s) && SawEmptyAfter(s)
    ensures KeepsResidue(s)
  {
    if s.sawEmpty.Some? {
      assert s.accepted == s.completed + s.queue;
      assert s.accepted[..|s.completed|] == s.completed && s.accepted[|s.completed|..] == s.queue;
    }
  }

  lemma StepKeepsResidue(c: Config, s: Sys, l: Label)
    requires Conserves(c, s) && KeepsResidue(s) && Next(c, s, l).Some?
    ensures KeepsResidue(Next(c, s, l).value)
  {
    StepConserves(c, s, l);
    SawEmptyStays(c, s, l);
    ResidueSplits(c, Next(c, s, l).value);
  }

  lemma StepKeepsHooks(c: Config, s: Sys, l: Label)
    requires HookCount(c, s) && Next(c, s, l).Some?
    ensures HookCount(c, Next(c, s, l).value)
  {}

  lemma StepKeepsCancelled(c: Config, s: Sys, l: Label)
    requires StopsIfCancelled(s) && Next(c, s, l).Some?
    ensures StopsIfCancelled(Next(c, s, l).value)
  {}

  lemma LivesAppend(lives: seq<Life>, life: Life)
    requires lives != [] && LegalOrder(lives) && Follows(lives[|lives| - 1], life)
    ensures LegalOrder(lives + [life])
  {}

  lemma StepKeepsLives(c: Config, s: Sys, l: Label)
    requires LegalLives(s) && Next(c, s, l).Some?
    ensures LegalLives(Next(c, s, l).value)
  {
    var t := Next(c, s, l).value;
    if t.lives != s.lives {
      assert t.lives == s.lives + [t.life];
      assert Follows(s.life, t.life);
      LivesAppend(s.lives, t.life);
    }
  }

  ghost predicate CallsAreLate(c: Config, calls: seq<IdleCall>) {
    forall i :: 0 <= i < |calls| ==>
      && c.idle.Some? && calls[i].queued == 0
      && LongSince(calls[i].at, c.idle.value, calls[i].began, calls[i].finished, calls[i].woke)
  }

  lemma StepKeepsIdle(c: Config, s: Sys, l: Label)
    requires IdleWell(c, s) && Next(c, s, l).Some?
    ensures IdleWell(c, Next(c, s, l).value)
  {
    var t := Next(c, s, l).value;
    if t.calls != s.calls {
      var one := IdleCall(s.now, 0, s.began, s.finished, s.woke);
      assert t.calls == s.calls + [one];
      LateAppend(c, s.calls, one);
    }
  }

  lemma LateAppend(c: Config, calls: seq<IdleCall>, one: IdleCall)
    requires CallsAreLate(c, calls) && c.idle.Some? && one.queued == 0
    requires LongSince(one.at, c.idle.value, one.began, one.finished, one.woke)
    ensures CallsAreLate(c, calls + [one])
  {}

  /** Every step of every party keeps the invariant. */
  lemma StepKeeps(c: Config, s: Sys, l: Label)
    requires Inv(c, s) && Next(c, s, l).Some?
    ensures Inv(c, Next(c, s, l).value)
  {
    StepConserves(c, s, l);
    StepTells(c, s, l);
    StepKeepsResidue(c, s, l);
    StepKeepsHooks(c, s, l);
    StepKeepsCancelled(c, s, l);
    StepKeepsLives(c, s, l);
    StepKeepsIdle(c, s, l);
  }

  // ----- runs -----

  /** The state `n` steps on, if they were all enabled. */
  function Further(c: Config, s: Sys, steps: seq<Label>, n: nat): Option<Sys>
    requires n <= |steps|
  {
    if n == 0 then Some(s)
    else
      var before := Further(c, s, steps, n - 1);
      if before.None? then None else Next(c, before.value, steps[n - 1])
  }

  /** The state after the first `n` steps of a run. */
  function After(c: Config, start: int, run: seq<Label>, n: nat): Option<Sys>
    requires n <= |run|
  {
    Further(c, Initial(start), run, n)
  }

  /** The invariant holds at every point of every interleaving. */
  lemma {:induction false} RunKeeps(c: Config, start: int, run: seq<Label>, n: nat)
    requires n <= |run| && After(c, start, run, n).Some?
    ensures Inv(c, After(c, start, run, n).value)
  {
    if n > 0 {
      RunKeeps(c, start, run, n - 1);
      StepKeeps(c, After(c, start, run, n - 1).value, run[n - 1]);
    }
  }

  /**
   When the agent has stopped: every request accepted before the drain saw an empty queue is
   completed, in order; the rest is still queued; the hook ran once if there is one; and no step
   of any party completes a request, calls the hook or leaves the stopped state any more.
   */
  lemma StoppedForGood(c: Config, start: int, run: seq<Label>, n: nat, l: Label)
    requires n <= |run| && After(c, start, run, n).Some? && After(c, start, run, n).value.life == Stopped
    ensures var s := After(c, start, run, n).value;
            && s.sawEmpty.Some? && s.sawEmpty.value <= |s.accepted|
            && s.completed == s.accepted[..s.sawEmpty.value] && s.queue == s.accepted[s.sawEmpty.value..]
            && s.hooks == (if c.hook then 1 else 0) && s.cancelled
            && (Next(c, s, l).Some? ==>
                  var t := Next(c, s, l).value;
                  && Outside(l) && t.life == Stopped && t.completed == s.completed && t.told == s.told
                  && t.hooks == s.hooks && t.calls == s.calls)
  {
    RunKeeps(c, start, run, n);
  }

  // ----- draining -----

  lemma OneRound(c: Config, s: Sys, sent: Sent) returns (a: Sys, b: Sys, t: Sys)
    requires s.phase.Draining? && s.queue != [] && Claude.Sendable(sent)
    ensures Next(c, s, Take) == Some(a) && Next(c, a, Enter) == Some(b) && Next(c, b, Finish(sent)) == Some(t)
    ensures t.phase == Draining && t.accepted == s.accepted
    ensures t.completed == s.completed + [s.queue[0]] && t.queue == s.queue[1..]
  {
    a := Next(c, s, Take).value;
    b := Next(c, a, Enter).value;
    t := Next(c, b, Finish(sent)).value;
  }

  lemma {:induction false} FurtherPrefix(c: Config, s: Sys, steps: seq<Label>, more: seq<Label>, n: nat)
    requires n <= |steps|
    ensures Further(c, s, steps + more, n) == Further(c, s, steps, n)
  {
    if n > 0 { FurtherPrefix(c, s, steps, more, n - 1); }
  }

  lemma OneFurther(c: Config, s: Sys, steps: seq<Label>, x: Label, u: Sys, t: Sys)
    requires Further(c, s, steps, |steps|) == Some(u) && Next(c, u, x) == Some(t)
    ensures Further(c, s, steps + [x], |steps + [x]|) == Some(t)
  {
    FurtherPrefix(c, s, steps, [x], |steps|);
  }

  predicate DrainStep(l: Label) {
    l.Take? || l.Enter? || l.Finish?
  }

  lemma {:induction false} DrainRounds(c: Config, s: Sys, answers: seq<Sent>, n: nat)
      returns (steps: seq<Label>, t: Sys)
    requires s.phase.Draining? && n <= |s.queue| == |answers|
    requires forall i :: 0 <= i < |answers| ==> Claude.Sendable(answers[i])
    ensures forall l :: l in steps ==> DrainStep(l)
    ensures Further(c, s, steps, |steps|) == Some(t)
    ensures t.phase == Draining && t.completed == s.completed + s.queue[..n] && t.queue == s.queue[n..]
  {
    if n == 0 {
      steps, t := [], s;
    } else {
      var u;
      steps, u := DrainRounds(c, s, answers, n - 1);
      var a, b, v := OneRound(c, u, answers[n - 1]);
      OneFurther(c, s, steps, Take, u, a);
      OneFurther(c, s, steps + [Take], Enter, a, b);
      OneFurther(c, s, steps + [Take] + [Enter], Finish(answers[n - 1]), b, v);
      steps, t := steps + [Take] + [Enter] + [Finish(answers[n - 1])], v;
      assert s.queue[n - 1..][1..] == s.queue[n..];
      assert s.completed + s.queue[..n - 1] + [s.queue[n - 1]] == s.completed + s.queue[..n];
    }
  }

  /**
   Left alone, the drain completes everything queued, in order and whatever the session answers,
   and then sees the queue empty.
   */
  lemma DrainServesAll(c: Config, s: Sys, answers: seq<Sent>) returns (steps: seq<Label>, t: Sys)
    requires s.phase.Draining? && |answers| == |s.queue|
    requires forall i :: 0 <= i < |answers| ==> Claude.Sendable(answers[i])
    ensures forall l :: l in steps ==> DrainStep(l)
    ensures Further(c, s, steps, |steps|) == Some(t)
    ensures t.completed == s.completed + s.queue && t.queue == [] && Next(c, t, SeeEmpty).Some?
  {
    steps, t := DrainRounds(c, s, answers, |s.queue|);
    assert s.queue[..|s.queue|] == s.queue;
  }

  // ----- dreaming -----

  lemma {:induction false} StampsGrow(c: Config, start: int, run: seq<Label>, m: nat, k: nat)
    requires m <= k <= |run| && After(c, start, run, k).Some?
    ensures After(c, start, run, m).Some?
    ensures var s, t := After(c, start, run, m).value, After(c, start, run, k).value;
            s.began <= t.began && s.finished <= t.finished && s.woke <= t.woke
    decreases k
  {
    if m < k {
      StampsGrow(c, start, run, m, k - 1);
      RunKeeps(c, start, run, k - 1);
      StampsStep(c, After(c, start, run, k - 1).value, run[k - 1]);
    }
  }

  lemma StampsStep(c: Config, s: Sys, l: Label)
    requires IdleWell(c, s) && Next(c, s, l).Some?
    ensures var t := Next(c, s, l).value; s.began <= t.began && s.finished <= t.finished && s.woke <= t.woke
    ensures l.Begin? || l.Finish? || l.Wake? ==>
              var t := Next(c, s, l).value;
              s.now <= if l.Begin? then t.began else if l.Finish? then t.finished else t.woke
  {}

  /**
   In any run, when the agent goes to dream, a full timeout has passed since it began, since every
   completion and since every return from a dream before, and it has nothing queued.
   */
  lemma DreamsAreLate(c: Config, start: int, run: seq<Label>, j: nat, k: nat)
    requires j < k < |run| && After(c, start, run, k + 1).Some?
    requires After(c, start, run, k).value.phase.Ticked? && After(c, start, run, k + 1).value.phase.Dreaming?
    requires run[j].Begin? || run[j].Finish? || run[j].Wake?
    ensures After(c, start, run, j).Some? && c.idle.Some?
    ensures var earlier, now := After(c, start, run, j).value, After(c, start, run, k).value;
            now.now >= earlier.now + c.idle.value && now.queue == []
  {
    RunKeeps(c, start, run, k);
    StampsGrow(c, start, run, j + 1, k);
    StampsGrow(c, start, run, j, k);
    RunKeeps(c, start, run, j);
    StampsStep(c, After(c, start, run, j).value, run[j]);
    GoesToDream(c, After(c, start, run, k).value, run[k]);
  }

  lemma GoesToDream(c: Config, s: Sys, l: Label)
    requires Next(c, s, l).Some? && s.phase.Ticked? && Next(c, s, l).value.phase.Dreaming?
    ensures s.queue == []
  {}

  /** And it does dream: with nothing to do, once the timeout has passed, OnIdle is called. */
  lemma DreamsWhenDue(c: Config, s: Sys) returns (t: Sys)
    requires LegalLives(s) && s.phase.Rearming? && s.queue == [] && c.idle.Some?
    ensures Further(c, s, [Rearm] + [Advance(s.now + c.idle.value)] + [Tick] + [CheckIdle], 4) == Some(t)
    ensures t.phase.Dreaming? && t.life == Idle && |t.calls| == |s.calls| + 1
    ensures t.calls[|s.calls|].at == t.now == s.now + c.idle.value
  {
    var due := s.now + c.idle.value;
    var a := Next(c, s, Rearm).value;
    var b := Next(c, a, Advance(due)).value;
    var d := Next(c, b, Tick).value;
    t := Next(c, d, CheckIdle).value;
    OneFurther(c, s, [], Rearm, s, a);
    assert [] + [Rearm] == [Rearm];
    OneFurther(c, s, [Rearm], Advance(due), a, b);
    OneFurther(c, s, [Rearm] + [Advance(due)], Tick, b, d);
    OneFurther(c, s, [Rearm] + [Advance(due)] + [Tick], CheckIdle, d, t);
  }

  /** A tick that finds something queued brings no dream: the timer is armed again. */
  lemma NoDreamIfBusy(c: Config, s: Sys)
    requires s.phase.Ticked? && s.queue != []
    ensures Next(c, s, CheckIdle) == Some(s.(phase := Rearming))
  {}

  // ----- late submissions -----

  lemma DrainIsReachable(c: Config, start: int) returns (steps: seq<Label>, s: Sys)
    ensures steps == [Begin] + [Rearm] + [Cancel] + [Quit] && After(c, start, steps, |steps|) == Some(s)
    ensures s.phase.Draining? && s.queue == [] && s.completed == []
  {
    var i := Initial(start);
    var a := Next(c, i, Begin).value;
    var b := Next(c, a, Rearm).value;
    var d := Next(c, b, Cancel).value;
    s := Next(c, d, Quit).value;
    OneFurther(c, i, [], Begin, i, a);
    assert [] + [Begin] == [Begin];
    OneFurther(c, i, [Begin], Rearm, a, b);
    OneFurther(c, i, [Begin] + [Rearm], Cancel, b, d);
    OneFurther(c, i, [Begin] + [Rearm] + [Cancel], Quit, d, s);
    steps := [Begin] + [Rearm] + [Cancel] + [Quit];
  }

  /** From any drain of an empty queue: a submission accepted after it was seen empty is never served. */
  lemma LateSubmissionStays(c: Config, start: int, steps: seq<Label>, s: Sys, req: Request)
      returns (run: seq<Label>, t: Sys)
    requires After(c, start, steps, |steps|) == Some(s)
    requires s.phase.Draining? && s.queue == [] && c.capacity >= 1
    ensures run == steps + [SeeEmpty] + [Submit(req)] + (if c.hook then [RunHook] else []) + [Stop]
    ensures After(c, start, run, |run|) == Some(t)
    ensures t.life == Stopped && t.queue == [req] && t.completed == s.completed
  {
    var i := Initial(start);
    var a := Next(c, s, SeeEmpty).value;
    var b := Next(c, a, Submit(req)).value;
    OneFurther(c, i, steps, SeeEmpty, s, a);
    OneFurther(c, i, steps + [SeeEmpty], Submit(req), a, b);
    run := steps + [SeeEmpty] + [Submit(req)];
    if c.hook {
      var u := Next(c, b, RunHook).value;
      OneFurther(c, i, run, RunHook, b, u);
      run, b := run + [RunHook], u;
    } else {
      assert run == run + [];
    }
    t := Next(c, b, Stop).value;
    OneFurther(c, i, run, Stop, b, t);
    run := run + [Stop];
  }

  /** So any agent has a run that ends stopped, with a request accepted and never served. */
  lemma SomeRunLeavesResidue(c: Config, start: int, req: Request) returns (run: seq<Label>, t: Sys)
    requires c.capacity >= 1
    ensures After(c, start, run, |run|) == Some(t)
    ensures t.life == Stopped && t.queue == [req] && t.completed == []
  {
    var steps, s := DrainIsReachable(c, start);
    run, t := LateSubmissionStays(c, start, steps, s, req);
  }

  // ----- scripts -----

  /** `path` are the states that a script leads through. */
  ghost predicate Leads(c: Config, start: int, script: seq<Label>, path: seq<Sys>) {
    && |path| == |script| + 1 && path[0] == Initial(start)
    && forall i {:trigger script[i]} :: 0 <= i < |script| ==> Next(c, path[i], script[i]) == Some(path[i + 1])
  }

  lemma {:induction false} PathIsRun(c: Config, start: int, script: seq<Label>, path: seq<Sys>, k: nat)
    requires Leads(c, start, script, path) && k <= |script|
    ensures After(c, start, script, k) == Some(path[k])
  {
    if k > 0 {
      PathIsRun(c, start, script, path, k - 1);
      assert script[k - 1] == script[k - 1];
    }
  }

  lemma {:induction false} RunHasPath(c: Config, start: int, script: seq<Label>, n: nat) returns (path: seq<Sys>)
    requires n <= |script| && After(c, start, script, n).Some?
    ensures Leads(c, start, script[..n], path) && path[n] == After(c, start, script, n).value
  {
    if n == 0 {
      path := [Initial(start)];
    } else {
      var before := RunHasPath(c, start, script, n - 1);
      path := before + [After(c, start, script, n).value];
      assert forall i :: 0 <= i < n - 1 ==> script[..n][i] == script[..n - 1][i];
    }
  }

  /** What the goroutine can do next where it stands: one thing, but for its select and the end of a drain. */
  predicate Fits(c: Config, s: Sys, l: Label) {
    match s.phase
    case NotStarted => l == Begin
    case Rearming => l == Rearm
    case Selecting =>
      || (l == Take && s.queue != [])
      || (l == Tick && s.deadline.Some? && s.deadline.value <= s.now)
      || (l == Quit && s.cancelled)
    case Received(_, _) => l == Enter
    case Handling(_, _) => l.Finish? && Claude.Sendable(l.sent)
    case Ticked => l == CheckIdle
    case Dreaming => l == Wake
    case Draining => l == if s.queue == [] then SeeEmpty else Take
    case Drained => l == if c.hook then RunHook else Stop
    case InHook => l == Stop
    case Done => false
  }

  lemma EnabledFits(c: Config, s: Sys, l: Label)
    requires !Outside(l)
    ensures Next(c, s, l).Some? <==> Fits(c, s, l)
  {}

  // ----- progress -----

  predicate Due(s: Sys) {
    s.deadline.Some? && s.deadline.value <= s.now
  }

  /** Waiting in the select, with nothing to take. */
  predicate Waits(s: Sys) {
    s.phase.Selecting? && s.queue == [] && !Due(s) && !s.cancelled
  }

  /** The goroutine has no step to take exactly when it is done or waits in its select. */
  lemma StuckExactly(c: Config, s: Sys)
    ensures (forall l :: !Outside(l) ==> Next(c, s, l).None?) <==> s.phase.Done? || Waits(s)
  {
    var l := SomeStep(c, s);
    EnabledFits(c, s, l);
    if s.phase.Done? || Waits(s) {
      forall l | !Outside(l) ensures Next(c, s, l).None? { EnabledFits(c, s, l); }
    }
  }

  /** A step that is enabled if any is. */
  function SomeStep(c: Config, s: Sys): (l: Label)
    ensures !Outside(l) && (s.phase.Done? || Waits(s) || Fits(c, s, l))
  {
    match s.phase
    case NotStarted => Begin
    case Rearming => Rearm
    case Selecting => if s.queue != [] then Take else if s.cancelled then Quit else Tick
    case Received(_, _) => Enter
    case Handling(_, _) => Finish(Err(Claude.NotStarted))
    case Ticked => CheckIdle
    case Dreaming => Wake
    case Draining => if s.queue == [] then SeeEmpty else Take
    case Drained => if c.hook then RunHook else Stop
    case InHook => Stop
    case Done => Stop
  }

  /** How many steps the goroutine can take by itself, at most. */
  function Rank(s: Sys): nat {
    4 * |s.queue|
    + match s.phase
      case NotStarted => 6
      case Rearming => 5
      case Selecting => if Due(s) then 8 else 4
      case Received(_, draining) => if draining then 5 else 7
      case Handling(_, draining) => if draining then 4 else 6
      case Ticked => 7
      case Dreaming => 6
      case Draining => 3
      case Drained => 2
      case InHook => 1
      case Done => 0
  }

  lemma StepLowersRank(c: Config, s: Sys, l: Label)
    requires Positive(c) && Next(c, s, l).Some?
    ensures Rank(Next(c, s, l).value) <= if Outside(l) then Rank(s) + 4 else Rank(s) - 1
  {}

  /** How many of the first `n` steps are the goroutine's own. */
  function Inner(steps: seq<Label>, n: nat): (k: nat)
    requires n <= |steps|
    ensures k <= n
  {
    if n == 0 then 0 else Inner(steps, n - 1) + if Outside(steps[n - 1]) then 0 else 1
  }

  /**
   In any interleaving the goroutine takes at most four steps for each one of the surroundings,
   beyond those it could take from the start: it never runs on by itself.
   */
  lemma {:induction false} WorkIsBounded(c: Config, s: Sys, steps: seq<Label>, n: nat)
    requires Positive(c) && n <= |steps| && Further(c, s, steps, n).Some?
    ensures Inner(steps, n) + Rank(Further(c, s, steps, n).value) <= Rank(s) + 4 * (n - Inner(steps, n))
  {
    if n > 0 {
      WorkIsBounded(c, s, steps, n - 1);
      StepLowersRank(c, Further(c, s, steps, n - 1).value, steps[n - 1]);
    }
  }

  lemma CancelStays(c: Config, s: Sys, l: Label)
    requires s.cancelled && Next(c, s, l).Some?
    ensures Next(c, s, l).value.cancelled
  {}

  lemma {:induction false} StaysCancelled(c: Config, s: Sys, steps: seq<Label>, n: nat)
    requires s.cancelled && n <= |steps| && Further(c, s, steps, n).Some?
    ensures Further(c, s, steps, n).value.cancelled
  {
    if n > 0 {
      StaysCancelled(c, s, steps, n - 1);
      CancelStays(c, Further(c, s, steps, n - 1).value, steps[n - 1]);
    }
  }

  /**
   Once cancelled, the agent always comes to its end: whatever it and its surroundings do, it takes
   a bounded number of steps, and it has one to take until it is stopped.
   */
  lemma CancellationStops(c: Config, s: Sys, steps: seq<Label>)
    requires Positive(c) && s.cancelled && Further(c, s, steps, |steps|).Some?
    ensures var t := Further(c, s, steps, |steps|).value;
            && Inner(steps, |steps|) <= Rank(s) + 4 * (|steps| - Inner(steps, |steps|))
            && (t.phase.Done? <==> forall l :: !Outside(l) ==> Next(c, t, l).None?)
  {
    WorkIsBounded(c, s, steps, |steps|);
    StaysCancelled(c, s, steps, |steps|);
    StuckExactly(c, Further(c, s, steps, |steps|).value);
  }

  /** In particular, left alone after its cancellation, it stops. */
  lemma {:induction false} CancelledStops(c: Config, start: int, steps: seq<Label>, s: Sys)
      returns (run: seq<Label>, t: Sys)
    requires Positive(c) && After(c, start, steps, |steps|) == Some(s) && s.cancelled
    ensures steps <= run && |run| <= |steps| + Rank(s)
    ensures forall i :: |steps| <= i < |run| ==> !Outside(run[i])
    ensures After(c, start, run, |run|) == Some(t) && t.life == Stopped
    decreases Rank(s)
  {
    RunKeeps(c, start, steps, |steps|);
    if s.phase.Done? {
      run, t := steps, s;
    } else {
      var l := SomeStep(c, s);
      EnabledFits(c, s, l);
      StepLowersRank(c, s, l);
      CancelStays(c, s, l);
      OneFurther(c, Initial(start), steps, l, s, Next(c, s, l).value);
      run, t := CancelledStops(c, start, steps + [l], Next(c, s, l).value);
    }
  }

  // ----- the program -----

  /**
   The agent as a program. A script says what happens: which steps the surroundings take wherever
   the goroutine gives way, which ready case its select takes, and what the session gives for each
   request; everything else the program decides itself. Any script whose steps are enabled is
   performed step by step; where it ends, the run is left as it is.
   */
  class Agent {
    const cfg: Config
    var state: Life
    var queue: seq<Request>
    var timer: Option<int>
    var clock: int
    var cancelled: bool
    var told: seq<Told>

    /** What happens: the steps of a run, in order. */
    const script: seq<Label>
    ghost const start: int
    /** The states the script leads through. */
    ghost const path: seq<Sys>

    /** The steps taken so far, and the state they lead to. */
    ghost var run: seq<Label>
    ghost var sys: Sys

    /** The fields are those of the state. */
    ghost predicate Valid()
      reads this
    {
      && state == sys.life && queue == sys.queue && timer == sys.deadline && clock == sys.now
      && cancelled == sys.cancelled && told == sys.told
    }

    /** The first `k` steps of the script were taken. */
    ghost predicate At(k: nat)
      reads this
    {
      && Leads(cfg, start, script, path)
      && k <= |script| && run == script[..k] && sys == path[k]
      && Valid()
    }

    constructor (queueSize: nat, timeout: int, onIdle: bool, hook: bool, start: int, script: seq<Label>)
      requires After(ConfigOf(queueSize, timeout, onIdle, hook), start, script, |script|).Some?
      ensures At(0) && cfg == ConfigOf(queueSize, timeout, onIdle, hook) && this.start == start && this.script == script
      ensures cfg.capacity == (if queueSize == 0 then 64 else queueSize) && cfg.hook == hook
      ensures cfg.idle == if timeout > 0 && onIdle then Some(timeout) else None
      ensures state == Starting && queue == []
    {
      cfg := ConfigOf(queueSize, timeout, onIdle, hook);
      state, queue, timer, clock, cancelled, told := Starting, [], None, start, false, [];
      this.script, this.start, run, sys := script, start, [], Initial(start);
      ghost var states := RunHasPath(ConfigOf(queueSize, timeout, onIdle, hook), start, script, |script|);
      path := states;
      new;
      assert script[..|script|] == script;
    }

    /** What is proved of runs holds of this object at every point. */
    lemma AtIsInv(k: nat)
      requires At(k)
      ensures After(cfg, start, script, k) == Some(sys) && Inv(cfg, sys)
    {
      PathIsRun(cfg, start, script, path, k);
      RunKeeps(cfg, start, script, k);
    }

    /** Takes the next step of the script. */
    ghost method LogNext(k: nat)
      requires Leads(cfg, start, script, path) && k < |script| && run == script[..k] && sys == path[k]
      modifies this`run, this`sys
      ensures run == script[..k + 1] && sys == path[k + 1]
      ensures Next(cfg, old(sys), script[k]) == Some(sys)
    {
      run, sys := run + [script[k]], path[k + 1];
    }

    method Submit(req: Request) returns (ok: bool)
      requires Valid()
      modifies this
      ensures Valid() && run == old(run) + [Label.Submit(req)]
      ensures Next(cfg, old(sys), Label.Submit(req)) == Some(sys)
      ensures ok <==> |old(queue)| < cfg.capacity
      ensures queue == if ok then old(queue) + [req] else old(queue)
      ensures sys.accepted == if ok then old(sys.accepted) + [req] else old(sys.accepted)
    {
      ok := |queue| < cfg.capacity;
      if ok { queue := queue + [req]; }
      run, sys := run + [Label.Submit(req)], Next(cfg, sys, Label.Submit(req)).value;
    }

    /** One step of the surroundings. */
    method LetIn(k: nat)
      requires At(k) && k < |script| && Outside(script[k])
      modifies this
      ensures At(k + 1)
      ensures sys.phase == old(sys.phase) && sys.completed == old(sys.completed) && sys.told == old(sys.told)
    {
      match script[k] {
        case Submit(req) =>
          var _ := Submit(req);
        case Advance(time) =>
          clock := time;
          LogNext(k);
        case Cancel =>
          cancelled := true;
          LogNext(k);
      }
    }

    /** Lets the surroundings move, until the goroutine is to go on or the script ends. */
    method Await(from: nat) returns (k: nat)
      requires At(from)
      modifies this
      ensures At(k) && from <= k
      ensures forall i :: from <= i < k ==> Outside(script[i])
      ensures k < |script| ==> !Outside(script[k]) && Fits(cfg, sys, script[k])
      ensures sys.phase == old(sys.phase) && sys.completed == old(sys.completed) && sys.told == old(sys.told)
    {
      k := from;
      while k < |script| && Outside(script[k])
        invariant At(k) && from <= k
        invariant forall i :: from <= i < k ==> Outside(script[i])
        invariant sys.phase == old(sys.phase) && sys.completed == old(sys.completed) && sys.told == old(sys.told)
      {
        LetIn(k);
        k := k + 1;
      }
      if k < |script| { EnabledFits(cfg, sys, script[k]); }
    }

    // ----- the goroutine: giving way, then one atomic section -----

    /** Arms the timer for the next turn of the loop. `go` is whether the script lasts that long, here and below. */
    method NextTurn(from: nat) returns (k: nat, go: bool)
      requires At(from) && sys.phase.Rearming?
      modifies this
      ensures At(k) && from <= k
      ensures if go then sys.phase.Selecting? else k == |script| && !sys.phase.Done?
    {
      k := Await(from);
      if k == |script| { return k, false; }
      timer := if cfg.idle.Some? then Some(clock + cfg.idle.value) else None;
      LogNext(k);
      k, go := k + 1, true;
    }

    method StartProcessing(from: nat) returns (k: nat, go: bool)
      requires At(from) && sys.phase.Received?
      modifies this
      ensures At(k) && from <= k
      ensures if go then sys.phase == Handling(old(sys.phase.req), old(sys.phase.draining))
              else k == |script| && !sys.phase.Done?
      ensures sys.completed == old(sys.completed) && told == old(told)
    {
      k := Await(from);
      if k == |script| { return k, false; }
      state := Processing;
      LogNext(k);
      k, go := k + 1, true;
    }

    method HandlerCalls(sent: Sent) returns (calls: seq<Claude.Call>)
      ensures calls == Claude.CallsFor(sent)
    {
      calls := Claude.ProcessRequest(sent);
    }

    /** The handler gets its calls, the last of them the completion. */
    method Report(sent: Sent, req: Request, ghost k: nat)
      requires At(k) && k < |script| && script[k] == Finish(sent)
      requires sys.phase.Handling? && sys.phase.req == req
      modifies this
      ensures At(k + 1)
      ensures sys.phase == if old(sys.phase.draining) then Draining else Rearming
      ensures sys.completed == old(sys.completed) + [req]
      ensures told == old(told) + [Told(req, sent, Claude.CallsFor(sent))]
    {
      var calls := HandlerCalls(sent);
      told := told + [Told(req, sent, calls)];
      state := Ready;
      LogNext(k);
    }

    method Complete(from: nat, req: Request) returns (k: nat, go: bool, ghost sent: Sent)
      requires At(from) && sys.phase.Handling? && sys.phase.req == req
      modifies this
      ensures At(k) && from <= k
      ensures if go then sys.phase == if old(sys.phase.draining) then Draining else Rearming
              else k == |script| && !sys.phase.Done?
      ensures go ==> sys.completed == old(sys.completed) + [req]
      ensures go ==> told == old(told) + [Told(req, sent, Claude.CallsFor(sent))]
    {
      sent := Ok([]);
      k := Await(from);
      if k == |script| { return k, false, sent; }
      sent := script[k].sent;
      Report(script[k].sent, req, k);
      k, go := k + 1, true;
    }

    /** After a tick: goes to dream if there is still nothing to do. */
    method CheckQueue(from: nat) returns (k: nat, go: bool, idle: bool)
      requires At(from) && sys.phase.Ticked?
      modifies this
      ensures At(k) && from <= k
      ensures if go then sys.phase == if idle then Dreaming else Rearming else k == |script| && !sys.phase.Done?
    {
      k := Await(from);
      if k == |script| { return k, false, false; }
      idle := state == Ready && queue == [];
      if idle { state := Idle; }
      LogNext(k);
      k, go := k + 1, true;
    }

    method WakeUp(from: nat) returns (k: nat, go: bool)
      requires At(from) && sys.phase.Dreaming?
      modifies this
      ensures At(k) && from <= k
      ensures if go then sys.phase.Rearming? else k == |script| && !sys.phase.Done?
    {
      k := Await(from);
      if k == |script| { return k, false; }
      state := Ready;
      LogNext(k);
      k, go := k + 1, true;
    }

    method CallHook(from: nat) returns (k: nat, go: bool)
      requires At(from) && sys.phase.Drained? && cfg.hook
      modifies this
      ensures At(k) && from <= k
      ensures if go then sys.phase.InHook? else k == |script| && !sys.phase.Done?
    {
      k := Await(from);
      if k == |script| { return k, false; }
      LogNext(k);
      k, go := k + 1, true;
    }

    /** The last step of the goroutine; after it only the surroundings go on. */
    method StopRunning(from: nat) returns (stopped: bool)
      requires At(from) && (sys.phase.InHook? || (sys.phase.Drained? && !cfg.hook))
      modifies this
      ensures At(|script|) && (stopped <==> sys.phase.Done?)
    {
      var k := Await(from);
      if k == |script| { return false; }
      state := Stopped;
      LogNext(k);
      k := Await(k + 1);
      stopped := true;
    }

    /** Receiving from the queue, by the select or the drain; an armed timer is stopped. */
    method Receive(ghost k: nat) returns (req: Request)
      requires At(k) && k < |script| && script[k] == Take && queue != []
      modifies this
      ensures At(k + 1) && req == old(queue)[0]
      ensures sys.phase == Received(req, old(sys.phase.Draining?)) && queue == old(queue)[1..]
    {
      req := queue[0];
      queue, timer := queue[1..], None;
      LogNext(k);
    }

    method ReceiveTick(ghost k: nat)
      requires At(k) && k < |script| && script[k] == Tick
      modifies this
      ensures At(k + 1) && sys.phase.Ticked?
    {
      timer := None;
      LogNext(k);
    }

    method BeginDrain(ghost k: nat)
      requires At(k) && k < |script| && script[k] == Quit
      modifies this
      ensures At(k + 1) && sys.phase.Draining?
    {
      timer := None;
      LogNext(k);
    }

    // ----- its loops -----

    /** Handles a request just received: in the end its handler has got the calls for what the session gave. */
    method ProcessRequest(from: nat, req: Request) returns (k: nat, go: bool, ghost sent: Sent)
      requires At(from) && sys.phase.Received? && sys.phase.req == req
      modifies this
      ensures At(k) && from <= k
      ensures if go then sys.phase == if old(sys.phase.draining) then Draining else Rearming
              else k == |script| && !sys.phase.Done?
      ensures go ==> sys.completed == old(sys.completed) + [req]
      ensures go ==> told == old(told) + [Told(req, sent, Claude.CallsFor(sent))]
    {
      sent := Ok([]);
      k, go := StartProcessing(from);
      if go { k, go, sent := Complete(k, req); }
    }

    /** The drain's look at the queue: the first request, or none if it is empty. */
    method Poll(from: nat) returns (k: nat, go: bool, req: Option<Request>)
      requires At(from) && sys.phase.Draining?
      modifies this
      ensures At(k) && from <= k
      ensures if go then from < k && sys.phase == (if req.Some? then Received(req.value, true) else Drained)
              else k == |script| && !sys.phase.Done?
    {
      k := Await(from);
      if k == |script| { return k, false, None; }
      if queue == [] {
        LogNext(k);
        req := None;
      } else {
        var first := Receive(k);
        req := Some(first);
      }
      k, go := k + 1, true;
    }

    /** Serves the queue until it is seen empty. */
    method Drain(from: nat) returns (k: nat, go: bool)
      requires At(from) && sys.phase.Draining?
      modifies this
      ensures At(k) && from <= k
      ensures if go then sys.phase.Drained? else k == |script| && !sys.phase.Done?
    {
      k := from;
      while true
        invariant At(k) && from <= k && sys.phase.Draining?
        decreases |script| - k
      {
        var req;
        k, go, req := Poll(k);
        if !go || req.None? { return; }
        ghost var sent;
        k, go, sent := ProcessRequest(k, req.value);
        if !go { return; }
      }
    }

    /** After a tick of the idle timer. */
    method Dream(from: nat) returns (k: nat, go: bool)
      requires At(from) && sys.phase.Ticked?
      modifies this
      ensures At(k) && from <= k
      ensures if go then sys.phase.Rearming? else k == |script| && !sys.phase.Done?
    {
      var idle;
      k, go, idle := CheckQueue(from);
      if go && idle { k, go := WakeUp(k); }
    }

    /** Drains the queue, runs the hook if there is one, and stops. */
    method Shutdown(from: nat) returns (stopped: bool)
      requires At(from) && sys.phase.Draining?
      modifies this
      ensures At(|script|) && (stopped <==> sys.phase.Done?)
    {
      var k, go := Drain(from);
      if go && cfg.hook { k, go := CallHook(k); }
      if !go { return false; }
      stopped := StopRunning(k);
    }

    /** One turn of the loop, from its select on; the script names the case taken. */
    method Turn(from: nat) returns (k: nat, go: bool, stopped: bool)
      requires At(from) && sys.phase.Selecting?
      modifies this
      ensures At(k) && from <= k
      ensures if go then from < k && sys.phase.Rearming? else k == |script| && (stopped <==> sys.phase.Done?)
    {
      stopped := false;
      k := Await(from);
      if k == |script| { return k, false, false; }
      if script[k] == Take {
        var req := Receive(k);
        ghost var sent;
        k, go, sent := ProcessRequest(k + 1, req);
      } else if script[k] == Tick {
        ReceiveTick(k);
        k, go := Dream(k + 1);
      } else {
        BeginDrain(k);
        stopped := Shutdown(k + 1);
        k, go := |script|, false;
      }
    }

    method Loop(from: nat) returns (stopped: bool)
      requires At(from) && sys.phase.Rearming?
      modifies this
      ensures At(|script|) && (stopped <==> sys.phase.Done?)
    {
      var k, go := from, true;
      stopped := false;
      while true
        invariant At(k) && sys.phase.Rearming?
        decreases |script| - k
      {
        k, go := NextTurn(k);
        if !go { return false; }
        k, go, stopped := Turn(k);
        if !go { return; }
      }
    }

    /**
     The agent's run. It performs the script exactly, to its end, and has returned by then exactly
     when the agent is stopped.
     */
    method Run(from: nat) returns (stopped: bool)
      requires At(from) && from < |script| && script[from] == Begin
      modifies this
      ensures Valid() && run == script && After(cfg, start, script, |script|) == Some(sys)
      ensures stopped <==> state == Stopped
    {
      state := Ready;
      LogNext(from);
      stopped := Loop(from + 1);
      assert script[..|script|] == script;
      AtIsInv(|script|);
    }
  }

  /** Every run of the protocol is a run of the program, from a new agent on. */
  method Perform(queueSize: nat, timeout: int, onIdle: bool, hook: bool, start: int, script: seq<Label>)
      returns (a: Agent)
    requires After(ConfigOf(queueSize, timeout, onIdle, hook), start, script, |script|).Some?
    ensures fresh(a) && a.Valid() && a.run == script
    ensures After(ConfigOf(queueSize, timeout, onIdle, hook), start, script, |script|) == Some(a.sys)
  {
    a := new Agent(queueSize, timeout, onIdle, hook, start, script);
    var k := a.Await(0);
    if k == |script| {
      assert script[..|script|] == script;
      a.AtIsInv(k);
    } else {
      var _ := a.Run(k);
    }
  }
}
