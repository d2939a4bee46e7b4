/** The lock-free subscription limiter as an interleaving of atomic steps by any number of calls.

    A call of `try_acquire` loads the counter, then either gives up or tries a weak compare-exchange
    that may fail spuriously; a guard's drop decrements the counter and then the gauge.  Loads are
    relaxed: a load may return any value the counter has had so far. */
module Subscriptions {
  import opened Common

  type CallId = nat

  /** Where a call in flight stands. */
  datatype Call =
    | AtLoad                 // about to load the counter
    | AtCas(seen: nat)       // loaded `seen` below the limit, about to compare-exchange
    | AtReject(seen: nat)    // loaded `seen` at the limit, about to count the rejection
    | AtInc                  // won the compare-exchange, about to raise the gauge
    | AtDec                  // a drop that has decremented the counter, about to lower the gauge

  datatype Config = Config(max: nat, metrics: bool)

  /** The shared counters, the guards handed out and not yet dropped, the refusals returned, and the
      calls in flight. */
  datatype State = State(
    active: nat, gauge: int, rejected: nat,
    history: seq<nat>, live: nat, refusals: nat, calls: map<CallId, Call>)

  datatype Step =
    | Begin(call: CallId)
    | Load(call: CallId, version: nat)
    | Cas(call: CallId, spurious: bool)
    | FinishReject(call: CallId)
    | FinishAcquire(call: CallId)
    | BeginDrop(call: CallId)
    | FinishDrop(call: CallId)

  const START: State := State(0, 0, 0, [0], 0, 0, map[])

  function Goto(s: State, c: CallId, at: Call): State
  {
    s.(calls := s.calls[c := at])
  }

  function Leave(s: State, c: CallId): State
  {
    s.(calls := s.calls - {c})
  }

  function SetActive(s: State, n: nat): State
  {
    s.(active := n, history := s.history + [n])
  }

  /** One atomic step; `None` when the call is not at a point where it could take it. */
  function Next(cfg: Config, s: State, step: Step): Option<State>
  {
    var c := step.call;
    var at := if c in s.calls then Some(s.calls[c]) else None;
    var one := if cfg.metrics then 1 else 0;
    match step
    case Begin(_) => if at == None then Some(Goto(s, c, AtLoad)) else None
    case Load(_, version) =>
      if at == Some(AtLoad) && version < |s.history| then
        var current := s.history[version];
        Some(Goto(s, c, if current >= cfg.max then AtReject(current) else AtCas(current)))
      else None
    case Cas(_, spurious) =>
      if at.Some? && at.value.AtCas? then
        if s.active == at.value.seen && !spurious
        then Some(SetActive(Goto(s, c, AtInc), (at.value.seen + 1) % U32_BOUND))
        else Some(Goto(s, c, AtLoad))
      else None
    case FinishReject(_) =>
      if at.Some? && at.value.AtReject?
      then Some(Leave(s.(rejected := s.rejected + one, refusals := s.refusals + 1), c))
      else None
    case FinishAcquire(_) =>
      if at == Some(AtInc) then Some(Leave(s.(gauge := s.gauge + one, live := s.live + 1), c)) else None
    case BeginDrop(_) =>
      if at == None && s.live > 0
      then Some(SetActive(Goto(s.(live := s.live - 1), c, AtDec), (s.active - 1) % U32_BOUND))
      else None
    case FinishDrop(_) =>
      if at == Some(AtDec) then Some(Leave(s.(gauge := s.gauge - one), c)) else None
  }

  /** A whole run; `None` if some step was not possible. */
  function Run(cfg: Config, steps: seq<Step>): Option<State>
  {
    if steps == [] then Some(START)
    else
      match Run(cfg, steps[..|steps| - 1])
      case None => None
      case Some(s) => Next(cfg, s, steps[|steps| - 1])
  }

  // ----- The invariant -----

  function Winners(calls: map<CallId, Call>): set<CallId>
  {
    set c | c in calls && calls[c].AtInc?
  }

  function Droppers(calls: map<CallId, Call>): set<CallId>
  {
    set c | c in calls && calls[c].AtDec?
  }

  /** The counter, the gauge and the rejection count in terms of guards and calls in flight. */
  ghost predicate Balanced(cfg: Config, s: State)
  {
    && s.active == s.live + |Winners(s.calls)|
    && s.active <= cfg.max
    && s.gauge == (if cfg.metrics then s.live + |Droppers(s.calls)| else 0)
    && s.rejected == (if cfg.metrics then s.refusals else 0)
  }

  /** The counter never exceeded the limit, and every call in flight saw a value it really had. */
  ghost predicate Remembered(cfg: Config, s: State)
  {
    && |s.history| > 0 && s.history[|s.history| - 1] == s.active
    && (forall i :: 0 <= i < |s.history| ==> s.history[i] <= cfg.max)
    && (forall c :: c in s.calls && s.calls[c].AtCas? ==> s.calls[c].seen < cfg.max)
    && (forall c :: c in s.calls && s.calls[c].AtReject? ==>
          s.calls[c].seen == cfg.max && s.calls[c].seen in s.history)
  }

  ghost predicate Inv(cfg: Config, s: State)
  {
    Balanced(cfg, s) && Remembered(cfg, s)
  }

  function Bit(b: bool): nat { if b then 1 else 0 }

  /** How the two counts of calls in flight change when a call moves. */
  lemma WinnersMoved(calls: map<CallId, Call>, c: CallId, at: Call)
    ensures |Winners(calls[c := at])| == |Winners(calls)| + Bit(at.AtInc?) - Bit(c in calls && calls[c].AtInc?)
  {
    if at.AtInc? {
      assert Winners(calls[c := at]) == Winners(calls) + {c};
    } else {
      assert Winners(calls[c := at]) == Winners(calls) - {c};
    }
  }

  lemma DroppersMoved(calls: map<CallId, Call>, c: CallId, at: Call)
    ensures |Droppers(calls[c := at])| == |Droppers(calls)| + Bit(at.AtDec?) - Bit(c in calls && calls[c].AtDec?)
  {
    if at.AtDec? {
      assert Droppers(calls[c := at]) == Droppers(calls) + {c};
    } else {
      assert Droppers(calls[c := at]) == Droppers(calls) - {c};
    }
  }

  /** How the two counts of calls in flight change when a call returns. */
  lemma Left(calls: map<CallId, Call>, c: CallId)
    requires c in calls
    ensures |Winners(calls - {c})| == |Winners(calls)| - Bit(calls[c].AtInc?)
    ensures |Droppers(calls - {c})| == |Droppers(calls)| - Bit(calls[c].AtDec?)
  {
    assert Winners(calls - {c}) == Winners(calls) - {c};
    assert Droppers(calls - {c}) == Droppers(calls) - {c};
  }

  lemma StepKeepsBalance(cfg: Config, s: State, step: Step)
    requires cfg.max < U32_BOUND && Inv(cfg, s) && Next(cfg, s, step).Some?
    ensures Balanced(cfg, Next(cfg, s, step).value)
  {
    hide Winners, Droppers;
    var c := step.call;
    var s' := Next(cfg, s, step).value;
    if c in s'.calls {
      WinnersMoved(s.calls, c, s'.calls[c]);
      DroppersMoved(s.calls, c, s'.calls[c]);
    } else {
      Left(s.calls, c);
    }
  }

  lemma StepKeepsMemory(cfg: Config, s: State, step: Step)
    requires cfg.max < U32_BOUND && Inv(cfg, s) && Next(cfg, s, step).Some?
    ensures Remembered(cfg, Next(cfg, s, step).value)
  {
    var s' := Next(cfg, s, step).value;
    assert s.history <= s'.history;
    assert forall i :: 0 <= i < |s'.history| ==> i < |s.history| || (i == |s.history| && s'.history[i] == s'.active);
    assert forall n :: n in s.history ==> n in s'.history;
    StepKeepsBalance(cfg, s, step);
    hide Winners, Droppers;
  }

  /** Every run of every number of calls keeps the invariant. */
  lemma {:induction false} RunKeepsInv(cfg: Config, steps: seq<Step>)
    requires cfg.max < U32_BOUND && Run(cfg, steps).Some?
    ensures Inv(cfg, Run(cfg, steps).value)
  {
    if steps == [] {
      assert Winners(START.calls) == {} && Droppers(START.calls) == {};
    } else {
      var k := |steps| - 1;
      RunKeepsInv(cfg, steps[..k]);
      StepKeepsBalance(cfg, Run(cfg, steps[..k]).value, steps[k]);
      StepKeepsMemory(cfg, Run(cfg, steps[..k]).value, steps[k]);
    }
  }

  // ----- What a caller sees -----

  /** At every point of every interleaving: the counter is the live guards plus the acquisitions past
      their compare-exchange, so no more guards than the limit are ever out, and neither the counter
      nor the gauge ever wraps. */
  lemma NeverMoreThanMax(cfg: Config, steps: seq<Step>)
    requires cfg.max < U32_BOUND && Run(cfg, steps).Some?
    ensures var s := Run(cfg, steps).value;
            && s.active == s.live + |Winners(s.calls)|
            && s.live <= s.active <= cfg.max
            && s.gauge >= 0
            && (s.live > 0 ==> s.active > 0)
  {
    RunKeepsInv(cfg, steps);
  }

  /** When no call is in flight the counter is the number of guards out, the gauge shows it, and the
      rejection count is the number of refusals. */
  lemma QuietCountersAreExact(cfg: Config, steps: seq<Step>)
    requires cfg.max < U32_BOUND && Run(cfg, steps).Some? && Run(cfg, steps).value.calls == map[]
    ensures var s := Run(cfg, steps).value;
            && s.active == s.live
            && (cfg.metrics ==> s.gauge == s.active && s.rejected == s.refusals)
  {
    RunKeepsInv(cfg, steps);
    assert Winners(map[]) == {} && Droppers(map[]) == {};
  }

  /** A refusal is honest: the call about to refuse loaded exactly the limit, a value the counter had
      at some point of the run, when every slot was taken. */
  lemma RefusalsAreHonest(cfg: Config, steps: seq<Step>, c: CallId) returns (when: nat)
    requires cfg.max < U32_BOUND && Run(cfg, steps).Some?
    requires c in Run(cfg, steps).value.calls && Run(cfg, steps).value.calls[c].AtReject?
    ensures when <= |steps| && Run(cfg, steps[..when]).Some?
    ensures Run(cfg, steps[..when]).value.active == cfg.max == Run(cfg, steps).value.calls[c].seen
  {
    RunKeepsInv(cfg, steps);
    var s := Run(cfg, steps).value;
    var i :| 0 <= i < |s.history| && s.history[i] == cfg.max;
    when := HistoryIsReal(cfg, steps, i);
  }

  /** Every remembered value was the counter's value after some prefix of the run. */
  lemma {:induction false} HistoryIsReal(cfg: Config, steps: seq<Step>, i: nat) returns (when: nat)
    requires Run(cfg, steps).Some? && i < |Run(cfg, steps).value.history|
    requires cfg.max < U32_BOUND
    ensures when <= |steps| && Run(cfg, steps[..when]).Some?
    ensures Run(cfg, steps[..when]).value.active == Run(cfg, steps).value.history[i]
  {
    var s := Run(cfg, steps).value;
    RunKeepsInv(cfg, steps);
    assert steps[..|steps|] == steps;
    if i == |s.history| - 1 {
      when := |steps|;
    } else {
      var k := |steps| - 1;
      when := HistoryIsReal(cfg, steps[..k], i);
      assert steps[..k][..when] == steps[..when];
    }
  }

  /** A call left alone always decides: with a fresh load and no spurious failure it wins exactly when
      a slot is free, and is refused exactly when none is. */
  lemma AloneItDecides(cfg: Config, s: State, c: CallId)
    requires cfg.max < U32_BOUND && Inv(cfg, s) && c in s.calls && s.calls[c] == AtLoad
    ensures var loaded := Next(cfg, s, Load(c, |s.history| - 1));
            && loaded.Some?
            && (s.active >= cfg.max ==> loaded.value.calls[c] == AtReject(cfg.max))
            && (s.active < cfg.max ==>
                  && Next(cfg, loaded.value, Cas(c, false)).Some?
                  && Next(cfg, loaded.value, Cas(c, false)).value.calls[c] == AtInc
                  && Next(cfg, loaded.value, Cas(c, false)).value.active == s.active + 1)
  {
  }

  // ----- Lock-freedom -----

  lemma {:induction false} PrefixRuns(cfg: Config, steps: seq<Step>, k: nat)
    requires k <= |steps| && Run(cfg, steps).Some?
    ensures Run(cfg, steps[..k]).Some?
  {
    if k == |steps| {
      assert steps[..k] == steps;
    } else {
      PrefixRuns(cfg, steps[..|steps| - 1], k);
      assert steps[..|steps| - 1][..k] == steps[..k];
    }
  }

  /** A step that gets somebody on: an exchange that succeeds, or a drop. */
  predicate GetsOn(s: State, step: Step)
  {
    || step.BeginDrop?
    || (step.Cas? && !step.spurious && step.call in s.calls && s.calls[step.call] == AtCas(s.active))
  }

  /** The counter has moved since the call loaded it. */
  predicate Outrun(s: State, c: CallId)
  {
    c in s.calls && s.calls[c].AtCas? && s.calls[c].seen != s.active
  }

  /** An exchange that fails for that reason. */
  predicate LosesRace(s: State, step: Step)
  {
    step.Cas? && !step.spurious && Outrun(s, step.call)
  }

  /** A load that returns the current value. */
  predicate LoadsCurrent(s: State, step: Step)
  {
    step.Load? && step.version < |s.history| && s.history[step.version] == s.active
  }

  /** The counter moves only when somebody gets on. */
  lemma OnlyProgressMoves(cfg: Config, s: State, step: Step)
    requires Next(cfg, s, step).Some? && Next(cfg, s, step).value.active != s.active
    ensures GetsOn(s, step)
  {
  }

  /** Contention always means that somebody else got on: between a load of the current value and an
      exchange that fails because of it, another call exchanged successfully or dropped a guard. */
  lemma {:induction false} LostRaceMeansProgress(cfg: Config, steps: seq<Step>, c: CallId, i: nat, j: nat)
    returns (k: nat)
    requires i < j <= |steps| && Run(cfg, steps[..i]).Some? && Run(cfg, steps[..j]).Some?
    requires steps[i].call == c && LoadsCurrent(Run(cfg, steps[..i]).value, steps[i])
    requires forall l :: i < l < j ==> steps[l].call != c
    requires Outrun(Run(cfg, steps[..j]).value, c)
    ensures i < k < j && steps[k].call != c
    ensures Run(cfg, steps[..k]).Some? && GetsOn(Run(cfg, steps[..k]).value, steps[k])
  {
    k := j - 1;
    assert steps[..j][..k] == steps[..k];
    if k > i {
      var s := Run(cfg, steps[..k]).value;
      if s.active == Run(cfg, steps[..j]).value.active {
        k := LostRaceMeansProgress(cfg, steps, c, i, k);
      } else {
        OnlyProgressMoves(cfg, s, steps[k]);
      }
    }
  }

  /** How often a call has lost a race so far. */
  function LostRaces(cfg: Config, steps: seq<Step>, c: CallId): nat
    requires Run(cfg, steps).Some?
  {
    if steps == [] then 0
    else
      var k := |steps| - 1;
      LostRaces(cfg, steps[..k], c)
      + Bit(steps[k].call == c && LosesRace(Run(cfg, steps[..k]).value, steps[k]))
  }

  /** How often others have got on so far. */
  function OthersGotOn(cfg: Config, steps: seq<Step>, c: CallId): nat
    requires Run(cfg, steps).Some?
  {
    if steps == [] then 0
    else
      var k := |steps| - 1;
      OthersGotOn(cfg, steps[..k], c)
      + Bit(steps[k].call != c && GetsOn(Run(cfg, steps[..k]).value, steps[k]))
  }

  predicate AlwaysLoadsCurrent(cfg: Config, steps: seq<Step>, c: CallId)
    requires Run(cfg, steps).Some?
  {
    steps != [] ==>
      var k := |steps| - 1;
      && AlwaysLoadsCurrent(cfg, steps[..k], c)
      && (steps[k].call == c && steps[k].Load? ==> LoadsCurrent(Run(cfg, steps[..k]).value, steps[k]))
  }

  lemma StepPaysForRace(cfg: Config, s: State, step: Step, c: CallId)
    requires Next(cfg, s, step).Some?
    requires step.call == c && step.Load? ==> LoadsCurrent(s, step)
    ensures Bit(Outrun(Next(cfg, s, step).value, c)) + Bit(step.call == c && LosesRace(s, step))
         <= Bit(Outrun(s, c)) + Bit(step.call != c && GetsOn(s, step))
  {
  }

  /** The limiter is lock-free: in every run, a call whose loads are current has lost at most as many
      races as others have got on, so no call is held up unless the others advance. */
  lemma {:induction false} LostRacesArePaidFor(cfg: Config, steps: seq<Step>, c: CallId)
    requires Run(cfg, steps).Some? && AlwaysLoadsCurrent(cfg, steps, c)
    ensures LostRaces(cfg, steps, c) + Bit(Outrun(Run(cfg, steps).value, c)) <= OthersGotOn(cfg, steps, c)
  {
    if steps != [] {
      var k := |steps| - 1;
      LostRacesArePaidFor(cfg, steps[..k], c);
      StepPaysForRace(cfg, Run(cfg, steps[..k]).value, steps[k], c);
    }
  }

  // ----- The tracker as an object -----

  /** What happens around one attempt of a call: the steps others take before its load, the value it
      loads (a stale one, or the current one), the steps others take before its compare-exchange, whether
      that fails spuriously, and the steps others take before the call returns. */
  datatype Moment = Moment(
    before: seq<Step>, stale: Option<nat>, between: seq<Step>, spurious: bool, after: seq<Step>)

  const CALM := Moment([], None, [], false, [])

  /** Every load returns the current value. */
  predicate Fresh(weather: seq<Moment>)
  {
    forall i :: 0 <= i < |weather| ==> weather[i].stale.None?
  }

  predicate Still(m: Moment)
  {
    m.before == [] && m.stale.None? && m.between == [] && m.after == []
  }

  /** Nobody else takes a step and loads are fresh; spurious failures may happen. */
  predicate Undisturbed(weather: seq<Moment>)
  {
    forall i :: 0 <= i < |weather| ==> Still(weather[i])
  }

  /** From some point of a trace on, a call has only loaded and tried to exchange. */
  predicate OnlyTries(trace: seq<Step>, from: nat, c: CallId)
  {
    forall k :: from <= k < |trace| && trace[k].call == c ==> trace[k].Load? || trace[k].Cas?
  }

  /** Exactly one call by `c` spans the trace from some point on. */
  predicate OneCall(trace: seq<Step>, from: nat, c: CallId, guard: bool)
  {
    && from + 1 < |trace|
    && trace[from] == Begin(c)
    && OnlyTries(trace[..|trace| - 1], from + 1, c)
    && trace[|trace| - 1] == (if guard then FinishAcquire(c) else FinishReject(c))
  }

  /** The step at which a call decides: it takes a slot that is free at that very moment, or it loads a
      value the counter has had, with every slot taken. */
  predicate Decides(cfg: Config, trace: seq<Step>, at: nat, c: CallId, guard: bool)
    requires at < |trace|
  {
    && Run(cfg, trace[..at]).Some?
    && var s := Run(cfg, trace[..at]).value;
       && c in s.calls
       && if guard then trace[at] == Cas(c, false) && s.calls[c] == AtCas(s.active) && s.active < cfg.max
          else trace[at].Load? && trace[at].call == c && trace[at].version < |s.history|
               && s.history[trace[at].version] == cfg.max
  }

  /** A slot was free at that point of the trace. */
  predicate SlotFree(cfg: Config, trace: seq<Step>, at: nat)
    requires at < |trace| && Run(cfg, trace[..at]).Some?
  {
    Run(cfg, trace[..at]).value.active < cfg.max
  }

  lemma DecidedForGood(cfg: Config, trace: seq<Step>, trace': seq<Step>, at: nat, c: CallId, guard: bool)
    requires at < |trace| && trace <= trace' && Decides(cfg, trace, at, c, guard)
    ensures Decides(cfg, trace', at, c, guard)
    ensures SlotFree(cfg, trace', at) <==> SlotFree(cfg, trace, at)
  {
    assert trace'[..at] == trace[..at];
  }

  /** Where a load of the current value leads. */
  function Loaded(cfg: Config, s: State): Call
  {
    if s.active >= cfg.max then AtReject(s.active) else AtCas(s.active)
  }

  lemma HistoryIsBounded(cfg: Config, s: State, i: nat)
    requires Inv(cfg, s) && i < |s.history|
    ensures s.history[i] <= cfg.max
  {
  }

  lemma TriersSawRoom(cfg: Config, s: State, c: CallId)
    requires Inv(cfg, s) && c in s.calls && s.calls[c].AtCas?
    ensures s.calls[c].seen < cfg.max
  {
  }

  lemma HistoryEndsWithActive(cfg: Config, s: State)
    requires Inv(cfg, s)
    ensures |s.history| > 0 && s.history[|s.history| - 1] == s.active <= cfg.max
  {
  }

  /** Steps of other calls that can all be taken, in this order, after a trace. */
  predicate Possible(cfg: Config, trace: seq<Step>, c: CallId, steps: seq<Step>)
  {
    (forall k :: 0 <= k < |steps| ==> steps[k].call != c) && Run(cfg, trace + steps).Some?
  }

  lemma PossibleNext(cfg: Config, trace: seq<Step>, c: CallId, steps: seq<Step>, i: nat)
    requires i < |steps| && Possible(cfg, trace, c, steps)
    ensures Run(cfg, trace + steps[..i]).Some?
    ensures Next(cfg, Run(cfg, trace + steps[..i]).value, steps[i]).Some?
  {
    var n := |trace| + i;
    PrefixRuns(cfg, trace + steps, n + 1);
    assert (trace + steps)[..n + 1][..n] == trace + steps[..i];
    assert (trace + steps)[..n + 1][n] == steps[i];
  }

  /** The tracker, with the steps taken on it so far. */
  class Tracker {
    const cfg: Config
    var state: State
    ghost var trace: seq<Step>

    constructor (cfg: Config)
      requires cfg.max < U32_BOUND
      ensures this.cfg == cfg && state == START && trace == [] && Valid()
    {
      this.cfg := cfg;
      this.state := START;
      this.trace := [];
    }

    ghost predicate Valid()
      reads this
    {
      cfg.max < U32_BOUND && Run(cfg, trace) == Some(state)
    }

    lemma ValidMeansInv()
      requires Valid()
      ensures Inv(cfg, state)
    {
      RunKeepsInv(cfg, trace);
    }

    method Take(step: Step)
      requires Valid() && Next(cfg, state, step).Some?
      modifies this
      ensures Valid() && trace == old(trace) + [step] && Next(cfg, old(state), step) == Some(state)
    {
      assert (trace + [step])[..|trace|] == trace;
      state := Next(cfg, state, step).value;
      trace := trace + [step];
    }

    /** Steps of other calls, each taken if it is possible at that point; so any steps that others could
        take here can be made to happen. */
    method Interfere(c: CallId, steps: seq<Step>)
      requires Valid() && c in state.calls
      modifies this
      ensures Valid() && old(trace) <= trace && c in state.calls && state.calls[c] == old(state.calls[c])
      ensures forall k :: |old(trace)| <= k < |trace| ==> trace[k].call != c
      ensures steps == [] ==> trace == old(trace) && state == old(state)
      ensures Possible(cfg, old(trace), c, steps) ==> trace == old(trace) + steps
    {
      hide Run;
      for i := 0 to |steps|
        invariant Valid() && old(trace) <= trace && c in state.calls && state.calls[c] == old(state.calls[c])
        invariant forall k :: |old(trace)| <= k < |trace| ==> trace[k].call != c
        invariant steps == [] ==> trace == old(trace) && state == old(state)
        invariant Possible(cfg, old(trace), c, steps) ==> trace == old(trace) + steps[..i]
      {
        if Possible(cfg, old(trace), c, steps) {
          PossibleNext(cfg, old(trace), c, steps, i);
          assert Run(cfg, trace) == Some(state);
        }
        if steps[i].call != c && Next(cfg, state, steps[i]).Some? {
          Take(steps[i]);
        }
      }
    }

    /** The load of one round, with what others do before it. */
    method LoadOnce(c: CallId, m: Moment) returns (ghost at: nat)
      requires Valid() && c in state.calls && state.calls[c] == AtLoad
      modifies this
      ensures Valid() && old(trace) <= trace && OnlyTries(trace, |old(trace)|, c)
      ensures |old(trace)| <= at < |trace|
      ensures c in state.calls && (state.calls[c].AtCas? || state.calls[c].AtReject?)
      ensures state.calls[c].AtReject? ==>
                Decides(cfg, trace, at, c, false) && (m.stale.None? ==> !SlotFree(cfg, trace, at))
      ensures Run(cfg, trace[..at]).Some?
      ensures Possible(cfg, old(trace), c, m.before) ==> trace[..at] == old(trace) + m.before
      ensures var seen := |Run(cfg, trace[..at]).value.history|;
              seen > 0 && trace[at] == Load(c, if m.stale.Some? && m.stale.value < seen then m.stale.value else seen - 1)
      ensures Still(m) ==> state == Goto(old(state), c, Loaded(cfg, old(state)))
    {
      hide Run, Inv;
      Interfere(c, m.before);
      ValidMeansInv();
      HistoryEndsWithActive(cfg, state);
      var version := if m.stale.Some? && m.stale.value < |state.history| then m.stale.value else |state.history| - 1;
      HistoryIsBounded(cfg, state, version);
      at := |trace|;
      ghost var until := trace;
      Take(Load(c, version));
      assert trace[..at] == until;
    }

    /** The compare-exchange of one round, with what others do before it. */
    method CasOnce(c: CallId, m: Moment) returns (ghost at: nat)
      requires Valid() && c in state.calls && state.calls[c].AtCas?
      modifies this
      ensures Valid() && old(trace) <= trace && OnlyTries(trace, |old(trace)|, c)
      ensures |old(trace)| <= at < |trace|
      ensures c in state.calls && (state.calls[c] == AtLoad || state.calls[c] == AtInc)
      ensures state.calls[c] == AtInc ==> Decides(cfg, trace, at, c, true) && SlotFree(cfg, trace, at)
      ensures Possible(cfg, old(trace), c, m.between) ==> trace[..at] == old(trace) + m.between
      ensures trace[at] == Cas(c, m.spurious)
      ensures Still(m) && old(state.calls[c].seen == state.active) ==>
                state == if m.spurious then Goto(old(state), c, AtLoad)
                         else SetActive(Goto(old(state), c, AtInc), old(state.active) + 1)
    {
      hide Run, Inv;
      Interfere(c, m.between);
      ValidMeansInv();
      TriersSawRoom(cfg, state, c);
      at := |trace|;
      ghost var until := trace;
      Take(Cas(c, m.spurious));
      assert trace[..at] == until;
    }

    /** The end of a call that has decided, with what others do before it. */
    method Return(c: CallId, others: seq<Step>, ghost at: nat, guard: bool)
      requires Valid() && c in state.calls && (if guard then state.calls[c] == AtInc else state.calls[c].AtReject?)
      requires at < |trace| && Decides(cfg, trace, at, c, guard)
      modifies this
      ensures Valid() && c !in state.calls && old(trace) < trace
      ensures Decides(cfg, trace, at, c, guard) && (SlotFree(cfg, trace, at) <==> old(SlotFree(cfg, trace, at)))
      ensures trace[|trace| - 1] == (if guard then FinishAcquire(c) else FinishReject(c))
      ensures forall k :: |old(trace)| <= k < |trace| - 1 ==> trace[k].call != c
      ensures others == [] ==>
                && state.calls == old(state.calls) - {c} && state.active == old(state.active)
                && state.live == old(state.live) + Bit(guard) && state.refusals == old(state.refusals) + Bit(!guard)
    {
      hide Valid, Run, Decides, SlotFree;
      Interfere(c, others);
      Take(if guard then FinishAcquire(c) else FinishReject(c));
      DecidedForGood(cfg, old(trace), trace, at, c, guard);
    }

    /** `try_acquire` in the midst of any other calls.  `weather` says what happens around each round;
        once it is used up the call is left alone.

        The call decides at one step of its own: it takes a slot that is free at that very moment, or is
        refused on a value the counter has had.  With fresh loads it gets a guard exactly if a slot is
        free when it decides, and undisturbed exactly if one is free when it starts. */
    method TryAcquire(c: CallId, weather: seq<Moment>) returns (guard: bool, ghost at: nat)
      requires Valid() && c !in state.calls
      modifies this
      ensures Valid() && c !in state.calls
      ensures old(trace) <= trace && OneCall(trace, |old(trace)|, c, guard)
      ensures |old(trace)| < at < |trace| && Decides(cfg, trace, at, c, guard)
      ensures Fresh(weather) ==> (guard <==> SlotFree(cfg, trace, at))
      ensures Undisturbed(weather) ==>
                && state.calls == old(state.calls)
                && (guard <==> old(state.active) < cfg.max)
                && state.active == old(state.active) + Bit(guard) && state.live == old(state.live) + Bit(guard)
                && state.refusals == old(state.refusals) + Bit(!guard)
    {
      hide Valid, Run, Inv, Decides, SlotFree;
      Take(Begin(c));
      var i := 0;
      while true
        invariant 0 <= i <= |weather| && Valid() && old(trace) + [Begin(c)] <= trace
        invariant OnlyTries(trace, |old(trace)| + 1, c) && c in state.calls && state.calls[c] == AtLoad
        invariant Undisturbed(weather) ==> state == Goto(old(state), c, AtLoad)
        decreases |weather| - i
      {
        var m := if i < |weather| then weather[i] else CALM;
        at := LoadOnce(c, m);
        if state.calls[c].AtReject? {
          Return(c, m.after, at, false);
          return false, at;
        }
        at := CasOnce(c, m);
        if state.calls[c] == AtInc {
          Return(c, m.after, at, true);
          return true, at;
        }
        i := i + 1;
      }
    }

    /** Dropping a guard gives its slot back. */
    method Drop(c: CallId)
      requires Valid() && c !in state.calls && state.live > 0
      modifies this
      ensures Valid() && state.calls == old(state.calls)
      ensures trace == old(trace) + [BeginDrop(c), FinishDrop(c)]
      ensures state.active == old(state.active) - 1 && state.live == old(state.live) - 1
      ensures state.gauge == old(state.gauge) - Bit(cfg.metrics)
    {
      hide Run, Winners, Droppers;
      ValidMeansInv();
      Take(BeginDrop(c));
      Take(FinishDrop(c));
      assert old(state.calls)[c := AtDec] - {c} == old(state.calls);
    }
  }
}
