/** The health scope's fan-out and fan-in: one goroutine per workload, a buffered channel, a wait group, a
    goroutine that closes the channel, and the collector. */
module HealthFanIn {
  import opened Wrappers
  import opened Health
  import opened Sorting

  datatype ScopeCondition = ScopeCondition(status: HealthStatus, total: int, healthy: int, unhealthy: int, unknown: int)

  /** What the checkers find for one workload: the trait checker, the built-in ones in order, and the unknown one. */
  datatype Findings = Findings(byTrait: Option<HealthCondition>, builtIn: seq<Option<HealthCondition>>, fallback: HealthCondition)

  predicate IsFirstAnswer(builtIn: seq<Option<HealthCondition>>, k: nat) {
    k < |builtIn| && builtIn[k].Some? && forall j :: 0 <= j < k ==> builtIn[j].None?
  }

  function FirstAnswer(builtIn: seq<Option<HealthCondition>>, fallback: HealthCondition): HealthCondition {
    if builtIn == [] then fallback else if builtIn[0].Some? then builtIn[0].value else FirstAnswer(builtIn[1..], fallback)
  }

  /** The condition a goroutine sends. */
  function Answer(f: Findings): HealthCondition {
    if f.byTrait.Some? then f.byTrait.value else FirstAnswer(f.builtIn, f.fallback)
  }

  function Answers(fs: seq<Findings>): (conds: seq<HealthCondition>)
    ensures |conds| == |fs| && forall i :: 0 <= i < |fs| ==> conds[i] == Answer(fs[i])
  {
    seq(|fs|, i requires 0 <= i < |fs| => Answer(fs[i]))
  }

  /** What a goroutine sends for its workload: the trait checker's answer, else the first built-in checker
      that has one, else the unknown checker's. */
  method CheckWorkload(f: Findings) returns (sent: HealthCondition)
    ensures sent == Answer(f)
    ensures f.byTrait.Some? ==> sent == f.byTrait.value
    ensures f.byTrait.None? ==>
              forall k: nat | IsFirstAnswer(f.builtIn, k) :: sent == f.builtIn[k].value
    ensures f.byTrait.None? && (forall k :: 0 <= k < |f.builtIn| ==> f.builtIn[k].None?) ==> sent == f.fallback
  {
    if f.byTrait.Some? {
      return f.byTrait.value;
    }
    for i := 0 to |f.builtIn|
      invariant forall k :: 0 <= k < i ==> f.builtIn[k].None?
      invariant FirstAnswer(f.builtIn, f.fallback) == FirstAnswer(f.builtIn[i..], f.fallback)
    {
      assert f.builtIn[i..][0] == f.builtIn[i] && f.builtIn[i..][1..] == f.builtIn[i + 1..];
      if f.builtIn[i].Some? {
        assert forall k: nat | IsFirstAnswer(f.builtIn, k) :: k == i;
        return f.builtIn[i].value;
      }
    }
    return f.fallback;
  }

  // ---------- the step system ----------

  /** A goroutine checks its workload, sends one condition, and signals the wait group as it returns. */
  datatype Worker = Checking | Sent | Returned

  datatype State = State(
    workers: seq<Worker>,
    waitGroup: int,
    channel: seq<HealthCondition>,
    closed: bool,
    received: seq<HealthCondition>,
    ended: bool)

  datatype Step = Send(i: nat) | Done(i: nat) | Close | Receive | End

  function Init(n: nat): State {
    State(seq(n, _ => Checking), n, [], false, [], false)
  }

  /** The channel's capacity is the number of workloads; a send blocks while it is full. */
  predicate Enabled(conds: seq<HealthCondition>, s: State, step: Step) {
    match step
    case Send(i) => i < |s.workers| && i < |conds| && s.workers[i].Checking? && |s.channel| < |conds|
    case Done(i) => i < |s.workers| && s.workers[i].Sent?
    case Close => s.waitGroup == 0 && !s.closed
    case Receive => s.channel != [] && !s.ended
    case End => s.channel == [] && s.closed && !s.ended
  }

  function Next(conds: seq<HealthCondition>, s: State, step: Step): State
    requires Enabled(conds, s, step)
  {
    match step
    case Send(i) => s.(workers := s.workers[i := Sent], channel := s.channel + [conds[i]])
    case Done(i) => s.(workers := s.workers[i := Returned], waitGroup := s.waitGroup - 1)
    case Close => s.(closed := true)
    case Receive => s.(channel := s.channel[1..], received := s.received + [s.channel[0]])
    case End => s.(ended := true)
  }

  /** Sending on a closed channel panics. */
  predicate Panics(s: State, step: Step) {
    step.Send? && s.closed
  }

  // ---------- the invariant ----------

  function NotReturned(workers: seq<Worker>): nat {
    if workers == [] then 0
    else NotReturned(workers[..|workers| - 1]) + (if workers[|workers| - 1].Returned? then 0 else 1)
  }

  function Unsent(workers: seq<Worker>): nat {
    if workers == [] then 0
    else Unsent(workers[..|workers| - 1]) + (if workers[|workers| - 1].Checking? then 1 else 0)
  }

  /** The items whose flag is set. */
  function Selected<T>(flags: seq<bool>, items: seq<T>): multiset<T>
    requires |flags| == |items|
  {
    if flags == [] then multiset{}
    else
      var n := |flags| - 1;
      Selected(flags[..n], items[..n]) + (if flags[n] then multiset{items[n]} else multiset{})
  }

  function HasSent(workers: seq<Worker>): (flags: seq<bool>)
    ensures |flags| == |workers|
  {
    seq(|workers|, i requires 0 <= i < |workers| => !workers[i].Checking?)
  }

  function SentConditions(workers: seq<Worker>, conds: seq<HealthCondition>): multiset<HealthCondition>
    requires |workers| == |conds|
  {
    Selected(HasSent(workers), conds)
  }

  ghost predicate Inv(conds: seq<HealthCondition>, s: State) {
    && |s.workers| == |conds|
    && s.waitGroup == NotReturned(s.workers)
    && multiset(s.channel) + multiset(s.received) == SentConditions(s.workers, conds)
    && |s.channel| + |s.received| + Unsent(s.workers) == |conds|
    && (s.closed ==> s.waitGroup == 0)
    && (s.ended ==> s.closed && s.channel == [])
  }

  /** The steps a run has left. */
  function Left(s: State): nat {
    2 * Unsent(s.workers) + NotReturned(s.workers) + |s.channel| + (if s.closed then 0 else 1) + (if s.ended then 0 else 1)
  }

  lemma {:induction false} InitCounts(n: nat)
    ensures NotReturned(Init(n).workers) == n && Unsent(Init(n).workers) == n
  {
    if n > 0 {
      InitCounts(n - 1);
      assert Init(n).workers[..n - 1] == Init(n - 1).workers;
    }
  }

  lemma {:induction false} CountsAfter(workers: seq<Worker>, i: nat, w: Worker)
    requires i < |workers| && workers[i] != w && !w.Checking? && !workers[i].Returned?
    ensures NotReturned(workers[i := w]) == NotReturned(workers) - (if w.Returned? then 1 else 0)
    ensures Unsent(workers[i := w]) == Unsent(workers) - (if workers[i].Checking? then 1 else 0)
    decreases |workers|
  {
    var n, after := |workers| - 1, workers[i := w];
    if i == n {
      assert after[..n] == workers[..n];
    } else {
      assert after[..n] == workers[..n][i := w];
      CountsAfter(workers[..n], i, w);
    }
  }

  lemma {:induction false} SelectOne<T>(flags: seq<bool>, items: seq<T>, i: nat)
    requires |flags| == |items| && i < |flags| && !flags[i]
    ensures Selected(flags[i := true], items) == Selected(flags, items) + multiset{items[i]}
    decreases |flags|
  {
    var n, after := |flags| - 1, flags[i := true];
    if i == n {
      assert after[..n] == flags[..n];
    } else {
      assert after[..n] == flags[..n][i := true];
      SelectOne(flags[..n], items[..n], i);
    }
  }

  lemma {:induction false} SelectNone<T>(n: nat, items: seq<T>)
    requires |items| == n
    ensures Selected(seq(n, _ => false), items) == multiset{}
  {
    if n > 0 {
      assert seq(n, _ => false)[..n - 1] == seq(n - 1, _ => false);
      SelectNone(n - 1, items[..n - 1]);
    }
  }

  lemma {:induction false} SelectAll<T>(flags: seq<bool>, items: seq<T>)
    requires |flags| == |items| && forall i :: 0 <= i < |flags| ==> flags[i]
    ensures Selected(flags, items) == multiset(items)
  {
    if flags != [] {
      var n := |flags| - 1;
      SelectAll(flags[..n], items[..n]);
      assert items == items[..n] + [items[n]];
    }
  }

  lemma SentAfter(workers: seq<Worker>, conds: seq<HealthCondition>, i: nat, w: Worker)
    requires |workers| == |conds| && i < |workers| && !w.Checking? && workers[i] != w
    ensures SentConditions(workers[i := w], conds)
         == SentConditions(workers, conds) + (if workers[i].Checking? then multiset{conds[i]} else multiset{})
  {
    if workers[i].Checking? {
      assert HasSent(workers[i := w]) == HasSent(workers)[i := true];
      SelectOne(HasSent(workers), conds, i);
    } else {
      assert HasSent(workers[i := w]) == HasSent(workers);
    }
  }

  lemma {:induction false} Counted(workers: seq<Worker>)
    ensures Unsent(workers) <= NotReturned(workers)
    ensures Unsent(workers) > 0 <==> exists i :: 0 <= i < |workers| && workers[i].Checking?
    ensures NotReturned(workers) > 0 <==> exists i :: 0 <= i < |workers| && !workers[i].Returned?
  {
    if workers != [] {
      var n := |workers| - 1;
      Counted(workers[..n]);
      forall i | 0 <= i < n ensures workers[..n][i] == workers[i] {}
    }
  }

  lemma AllSent(workers: seq<Worker>, conds: seq<HealthCondition>)
    requires |workers| == |conds| && Unsent(workers) == 0
    ensures SentConditions(workers, conds) == multiset(conds)
  {
    Counted(workers);
    SelectAll(HasSent(workers), conds);
  }

  lemma InitHolds(conds: seq<HealthCondition>)
    ensures Inv(conds, Init(|conds|)) && Left(Init(|conds|)) == 3 * |conds| + 2
  {
    var n := |conds|;
    InitCounts(n);
    assert HasSent(Init(n).workers) == seq(n, _ => false);
    SelectNone(n, conds);
  }

  lemma SendHolds(conds: seq<HealthCondition>, s: State, i: nat)
    requires Inv(conds, s) && Enabled(conds, s, Send(i))
    ensures Inv(conds, Next(conds, s, Send(i))) && Left(Next(conds, s, Send(i))) == Left(s) - 1
    ensures !s.closed
  {
    CountsAfter(s.workers, i, Sent);
    SentAfter(s.workers, conds, i, Sent);
    Counted(s.workers);
    var c, sent := conds[i], multiset(s.channel) + multiset(s.received);
    assert multiset(s.channel + [c]) + multiset(s.received) == sent + multiset{c};
  }

  lemma DoneHolds(conds: seq<HealthCondition>, s: State, i: nat)
    requires Inv(conds, s) && Enabled(conds, s, Done(i))
    ensures Inv(conds, Next(conds, s, Done(i))) && Left(Next(conds, s, Done(i))) == Left(s) - 1
  {
    CountsAfter(s.workers, i, Returned);
    SentAfter(s.workers, conds, i, Returned);
    Counted(s.workers);
  }

  lemma ReceiveHolds(conds: seq<HealthCondition>, s: State)
    requires Inv(conds, s) && Enabled(conds, s, Receive)
    ensures Inv(conds, Next(conds, s, Receive)) && Left(Next(conds, s, Receive)) == Left(s) - 1
  {
    var c, rest := s.channel[0], s.channel[1..];
    assert s.channel == [c] + rest;
    assert multiset(rest) + multiset(s.received + [c]) == multiset([c] + rest) + multiset(s.received);
  }

  /** Every step keeps the invariant and uses up exactly one of the steps left. */
  lemma StepHolds(conds: seq<HealthCondition>, s: State, step: Step)
    requires Inv(conds, s) && Enabled(conds, s, step)
    ensures Inv(conds, Next(conds, s, step)) && Left(Next(conds, s, step)) == Left(s) - 1
    ensures !Panics(s, step)
  {
    match step {
      case Send(i) => SendHolds(conds, s, i);
      case Done(i) => DoneHolds(conds, s, i);
      case Receive => ReceiveHolds(conds, s);
      case _ =>
    }
  }

  // ---------- every interleaving ----------

  ghost predicate IsRun(conds: seq<HealthCondition>, states: seq<State>, steps: seq<Step>) {
    && |states| == |steps| + 1 && states[0] == Init(|conds|)
    && forall t :: 0 <= t < |steps| ==> Enabled(conds, states[t], steps[t]) && states[t + 1] == Next(conds, states[t], steps[t])
  }

  lemma {:induction false} RunHolds(conds: seq<HealthCondition>, states: seq<State>, steps: seq<Step>, t: nat)
    requires IsRun(conds, states, steps) && t < |states|
    ensures Inv(conds, states[t]) && Left(states[t]) == 3 * |conds| + 2 - t
  {
    if t == 0 {
      InitHolds(conds);
    } else {
      RunHolds(conds, states, steps, t - 1);
      StepHolds(conds, states[t - 1], steps[t - 1]);
    }
  }

  /** In every interleaving a goroutine that still has to send finds room in the channel and finds it open. */
  lemma NoSendBlocksOrPanics(conds: seq<HealthCondition>, states: seq<State>, steps: seq<Step>, t: nat, i: nat)
    requires IsRun(conds, states, steps) && t < |states| && i < |conds|
    requires i < |states[t].workers| && states[t].workers[i].Checking?
    ensures Enabled(conds, states[t], Send(i)) && !Panics(states[t], Send(i))
  {
    RunHolds(conds, states, steps, t);
    Counted(states[t].workers);
  }

  ghost predicate Maximal(conds: seq<HealthCondition>, s: State) {
    forall step :: !Enabled(conds, s, step)
  }

  lemma NoDeadlock(conds: seq<HealthCondition>, s: State)
    requires Inv(conds, s)
    ensures s.ended <==> Maximal(conds, s)
  {
    Counted(s.workers);
    if !s.ended {
      if i :| 0 <= i < |s.workers| && s.workers[i].Checking? {
        assert Enabled(conds, s, Send(i));
      } else if i :| 0 <= i < |s.workers| && s.workers[i].Sent? {
        assert Enabled(conds, s, Done(i));
      } else {
        assert Enabled(conds, s, if !s.closed then Close else if s.channel != [] then Receive else End);
      }
    } else {
      forall step ensures !Enabled(conds, s, step) {}
    }
  }

  /** Every interleaving terminates: no run is longer than 3n + 2 steps, and a run that can go no further has
      taken exactly that many, has ended the collector's loop, and has collected exactly the conditions the
      goroutines found, in some order. */
  lemma MaximalRunsCollectEverything(conds: seq<HealthCondition>, states: seq<State>, steps: seq<Step>)
    requires IsRun(conds, states, steps)
    ensures |steps| <= 3 * |conds| + 2
    ensures Maximal(conds, states[|steps|]) <==> |steps| == 3 * |conds| + 2
    ensures Maximal(conds, states[|steps|]) ==>
              states[|steps|].ended && multiset(states[|steps|].received) == multiset(conds)
  {
    var s := states[|steps|];
    RunHolds(conds, states, steps, |steps|);
    NoDeadlock(conds, s);
    Counted(s.workers);
    if Unsent(s.workers) == 0 {
      AllSent(s.workers, conds);
    }
  }

  // ---------- what the scope reports ----------

  function Count(conds: seq<HealthCondition>, status: HealthStatus): nat {
    if conds == [] then 0
    else Count(conds[..|conds| - 1], status) + (if conds[|conds| - 1].status == status then 1 else 0)
  }

  lemma {:induction false} CountAppend(a: seq<HealthCondition>, b: seq<HealthCondition>, status: HealthStatus)
    ensures Count(a + b, status) == Count(a, status) + Count(b, status)
    decreases |b|
  {
    if b == [] {
      assert a + b == a;
    } else {
      assert (a + b)[..|a + b| - 1] == a + b[..|b| - 1];
      CountAppend(a, b[..|b| - 1], status);
    }
  }

  lemma WithoutOne(b: seq<HealthCondition>, k: nat, status: HealthStatus)
    requires k < |b|
    ensures Count(b, status) == Count(b[..k] + b[k + 1..], status) + Count([b[k]], status)
  {
    assert b == b[..k] + ([b[k]] + b[k + 1..]);
    CountAppend(b[..k], [b[k]] + b[k + 1..], status);
    CountAppend([b[k]], b[k + 1..], status);
    CountAppend(b[..k], b[k + 1..], status);
  }

  lemma {:induction false} CountPermuted(a: seq<HealthCondition>, b: seq<HealthCondition>, status: HealthStatus)
    requires multiset(a) == multiset(b)
    ensures Count(a, status) == Count(b, status) && |a| == |b|
    decreases |a|
  {
    if a == [] {
      SameMembers(a, b);
    } else {
      var k := FindHead(a, b);
      WithoutOne(b, k, status);
      assert a == [a[0]] + a[1..];
      CountAppend([a[0]], a[1..], status);
      CountPermuted(a[1..], b[..k] + b[k + 1..], status);
    }
  }

  lemma {:induction false} HealthyCounts(conds: seq<HealthCondition>)
    ensures Count(conds, Healthy) + Count(conds, Unhealthy) <= |conds|
    ensures Count(conds, Healthy) == |conds| <==> forall i :: 0 <= i < |conds| ==> conds[i].status.Healthy?
    decreases |conds|
  {
    if conds != [] {
      var front := conds[..|conds| - 1];
      HealthyCounts(front);
      forall i | 0 <= i < |front| ensures front[i] == conds[i] {}
    }
  }

  /** What is promised of the scope's condition and the list beside it. */
  ghost predicate Summarises(conds: seq<HealthCondition>, scope: ScopeCondition, list: seq<HealthCondition>) {
    && multiset(list) == multiset(conds)
    && scope.total == |conds| == scope.healthy + scope.unhealthy + scope.unknown
    && scope.healthy == Count(conds, Healthy)
    && scope.unhealthy == Count(conds, Unhealthy)
    && scope.status == (if forall i :: 0 <= i < |conds| ==> conds[i].status.Healthy? then Healthy else Unhealthy)
  }

  /** Two runs over the same findings report the same condition, and lists that differ in order only. */
  lemma ReportsDoNotDependOnTheSchedule(conds: seq<HealthCondition>, a: ScopeCondition, la: seq<HealthCondition>,
                                        b: ScopeCondition, lb: seq<HealthCondition>)
    requires Summarises(conds, a, la) && Summarises(conds, b, lb)
    ensures a == b && multiset(la) == multiset(lb)
  {
  }

  /** The scheduler: it may take any step that can be taken. */
  method Schedule(ghost conds: seq<HealthCondition>, s: State) returns (step: Step)
    requires Inv(conds, s) && !s.ended
    ensures Enabled(conds, s, step)
  {
    Counted(s.workers);
    if {
      case exists i :: 0 <= i < |s.workers| && s.workers[i].Checking? =>
        var i :| 0 <= i < |s.workers| && s.workers[i].Checking?;
        step := Send(i);
      case exists i :: 0 <= i < |s.workers| && s.workers[i].Sent? =>
        var i :| 0 <= i < |s.workers| && s.workers[i].Sent?;
        step := Done(i);
      case s.waitGroup == 0 && !s.closed => step := Close;
      case s.channel != [] => step := Receive;
      case s.channel == [] && s.closed => step := End;
    }
  }

  predicate Tallied(list: seq<HealthCondition>, healthy: int, unhealthy: int, unknown: int) {
    && healthy == Count(list, Healthy) && unhealthy == Count(list, Unhealthy)
    && healthy + unhealthy + unknown == |list|
  }

  lemma TallyOne(list: seq<HealthCondition>, c: HealthCondition)
    ensures Count(list + [c], Healthy) == Count(list, Healthy) + (if c.status.Healthy? then 1 else 0)
    ensures Count(list + [c], Unhealthy) == Count(list, Unhealthy) + (if c.status.Unhealthy? then 1 else 0)
  {
    assert (list + [c])[..|list|] == list;
  }

  /** The step taken: a goroutine that sends runs the checkers first. */
  method Take(fs: seq<Findings>, s: State, step: Step) returns (next: State)
    requires Enabled(Answers(fs), s, step)
    ensures next == Next(Answers(fs), s, step)
  {
    match step {
      case Send(i) =>
        var sent := CheckWorkload(fs[i]);
        next := s.(workers := s.workers[i := Sent], channel := s.channel + [sent]);
      case Done(i) =>
        next := s.(workers := s.workers[i := Returned], waitGroup := s.waitGroup - 1);
      case Close =>
        next := s.(closed := true);
      case Receive =>
        next := s.(channel := s.channel[1..], received := s.received + [s.channel[0]]);
      case End =>
        next := s.(ended := true);
    }
  }

  /** GetScopeHealthStatus, under an arbitrary scheduler. */
  method GetScopeHealthStatus(fs: seq<Findings>) returns (scope: ScopeCondition, list: seq<HealthCondition>)
    ensures Summarises(Answers(fs), scope, list)
  {
    scope := ScopeCondition(Healthy, 0, 0, 0, 0);
    list := [];
    ghost var conds := Answers(fs);
    if |fs| == 0 {
      assert conds == [];
      return;
    }
    var healthy, unhealthy, unknown := 0, 0, 0;
    var s := Init(|fs|);
    InitHolds(conds);
    while !s.ended
      invariant Inv(conds, s) && list == s.received
      invariant Tallied(list, healthy, unhealthy, unknown)
      decreases Left(s)
    {
      var step := Schedule(conds, s);
      StepHolds(conds, s, step);
      if step.Receive? {
        var c := s.channel[0];
        TallyOne(list, c);
        list := list + [c];
        match c.status {
          case Healthy => healthy := healthy + 1;
          case Unhealthy => unhealthy := unhealthy + 1;
          case Unknown => unknown := unknown + 1;
          case OtherStatus(_) => unknown := unknown + 1;
        }
      }
      s := Take(fs, s, step);
    }
    Counted(s.workers);
    AllSent(s.workers, conds);
    CountPermuted(list, conds, Healthy);
    CountPermuted(list, conds, Unhealthy);
    HealthyCounts(conds);
    if unhealthy > 0 || unknown > 0 {
      scope := scope.(status := Unhealthy);
    }
    scope := scope.(total := |fs|, healthy := healthy, unhealthy := unhealthy, unknown := unknown);
  }
}
