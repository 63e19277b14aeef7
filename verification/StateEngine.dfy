/** The per-service threshold state machine, and what its incremental bookkeeping means in terms of the
    whole history of check results. */
module ServiceStates {
  import opened Options

  datatype State = OK | WARNING | CRITICAL | UNKNOWN

  datatype Kind = Soft | Hard | Recovery | Stable

  datatype Transition = Transition(before: State, after: State, kind: Kind, failures: nat, recoveredFromHard: bool)

  datatype Thresholds = Thresholds(warning: nat, critical: nat) {
    predicate Valid() { 1 <= warning <= critical }
  }

  /** What the engine remembers about one service. */
  datatype Tracked = Tracked(state: State, failures: nat)

  const FRESH := Tracked(UNKNOWN, 0)

  function FailureState(failures: nat, t: Thresholds): State {
    if failures >= t.critical then CRITICAL else if failures >= t.warning then WARNING else OK
  }

  /** One check result. */
  function Observe(s: Tracked, success: bool, t: Thresholds): (Tracked, Option<Transition>) {
    if success then
      (Tracked(OK, 0),
       if s.state == OK then None
       else Some(Transition(s.state, OK, if s.state == UNKNOWN then Stable else Recovery, 0, s.state == CRITICAL)))
    else
      var failures := s.failures + 1;
      if failures < t.warning then (Tracked(s.state, failures), None)
      else
        var after := FailureState(failures, t);
        (Tracked(after, failures),
         if after == s.state then None
         else Some(Transition(s.state, after, if after == CRITICAL then Hard else Soft, failures, false)))
  }

  /** What one result means: the count and the state it gives, and a transition exactly when the state
      changes, hard into CRITICAL, soft into WARNING, and a recovery into OK from either of them. */
  lemma ObserveMeaning(s: Tracked, success: bool, t: Thresholds)
    requires t.Valid()
    ensures var (after, x) := Observe(s, success, t);
            && after.failures == (if success then 0 else s.failures + 1)
            && after.state == (if success then OK
                               else if s.failures + 1 >= t.critical then CRITICAL
                               else if s.failures + 1 >= t.warning then WARNING
                               else s.state)
            && (x.Some? <==> after.state != s.state)
            && (x.Some? ==>
                  && x.value.before == s.state && x.value.after == after.state && x.value.failures == after.failures
                  && (x.value.kind == Hard <==> after.state == CRITICAL)
                  && (x.value.kind == Soft <==> after.state == WARNING)
                  && (x.value.kind == Recovery <==> after.state == OK && s.state in {WARNING, CRITICAL})
                  && (x.value.recoveredFromHard <==> success && s.state == CRITICAL))
  {
  }

  function Forced(s: Tracked, state: State, t: Thresholds): Tracked {
    Tracked(state, match state
                   case OK => 0
                   case WARNING => t.warning
                   case CRITICAL => t.critical
                   case UNKNOWN => s.failures)
  }

  // ---------------------------------------------------------------- the engine

  class StateEngine {
    const thresholds: Thresholds
    var failureCounts: map<int, nat>
    var states: map<int, State>

    ghost predicate Valid() { thresholds.Valid() }

    function TrackedState(id: int): Tracked
      reads this
    {
      Tracked(if id in states then states[id] else UNKNOWN, if id in failureCounts then failureCounts[id] else 0)
    }

    constructor (warning: int, critical: int)
      ensures Valid() && forall id :: TrackedState(id) == FRESH
      ensures thresholds.warning == (if warning < 1 then 1 else warning)
      ensures thresholds.critical == (if critical < thresholds.warning then thresholds.warning else critical)
    {
      var w: nat := if warning < 1 then 1 else warning;
      thresholds := Thresholds(w, if critical < w then w else critical);
      failureCounts, states := map[], map[];
    }

    method SetState(id: int, state: State)
      modifies this
      ensures TrackedState(id) == Forced(old(TrackedState(id)), state, thresholds)
      ensures forall other :: other != id ==> TrackedState(other) == old(TrackedState(other))
    {
      states := states[id := state];
      if state == OK {
        failureCounts := failureCounts[id := 0];
      } else if state == WARNING {
        failureCounts := failureCounts[id := thresholds.warning];
      } else if state == CRITICAL {
        failureCounts := failureCounts[id := thresholds.critical];
      }
    }

    method ProcessResult(id: int, success: bool) returns (transition: Option<Transition>)
      requires Valid()
      modifies this
      ensures (TrackedState(id), transition) == Observe(old(TrackedState(id)), success, thresholds)
      ensures forall other :: other != id ==> TrackedState(other) == old(TrackedState(other))
    {
      var current := if id in states then states[id] else UNKNOWN;
      var after, kind, fromHard;
      if success {
        failureCounts := failureCounts[id := 0];
        after := OK;
        kind := if current == WARNING || current == CRITICAL then Recovery else Stable;
        fromHard := current == CRITICAL;
      } else {
        var count := (if id in failureCounts then failureCounts[id] else 0) + 1;
        failureCounts := failureCounts[id := count];
        if count < thresholds.warning { return None; }
        after := FailureState(count, thresholds);
        kind := if after == CRITICAL then Hard else Soft;
        fromHard := false;
      }
      if after == current { return None; }
      states := states[id := after];
      transition := Some(Transition(current, after, kind, failureCounts[id], fromHard));
    }

    method RemoveService(id: int)
      modifies this
      ensures TrackedState(id) == FRESH
      ensures forall other :: other != id ==> TrackedState(other) == old(TrackedState(other))
    {
      failureCounts, states := failureCounts - {id}, states - {id};
    }

    method Reset()
      modifies this
      ensures forall id :: TrackedState(id) == FRESH
    {
      failureCounts, states := map[], map[];
    }
  }

  // ---------------------------------------------------------------- meaning of a history

  function Replay(history: seq<bool>, t: Thresholds): Tracked {
    if history == [] then FRESH
    else Observe(Replay(history[..|history| - 1], t), history[|history| - 1], t).0
  }

  function Transitions(history: seq<bool>, t: Thresholds): seq<Transition> {
    if history == [] then []
    else
      var init := history[..|history| - 1];
      match Observe(Replay(init, t), history[|history| - 1], t).1
      case None => Transitions(init, t)
      case Some(x) => Transitions(init, t) + [x]
  }

  /** "n" is the length of the run of failures the history ends with. */
  ghost predicate EndsWithFailures(history: seq<bool>, n: nat) {
    && n <= |history|
    && (forall i :: |history| - n <= i < |history| ==> !history[i])
    && (n < |history| ==> history[|history| - n - 1])
  }

  /** After any history of a fresh service the count is the trailing failure run, and the state follows
      from that run and from whether there ever was a success. */
  lemma {:induction false} HistoryMeaning(history: seq<bool>, t: Thresholds)
    requires t.Valid()
    ensures var s := Replay(history, t);
            && EndsWithFailures(history, s.failures)
            && s.state == if s.failures >= t.critical then CRITICAL
                          else if s.failures >= t.warning then WARNING
                          else if s.failures < |history| then OK
                          else UNKNOWN
  {
    if history != [] {
      var init := history[..|history| - 1];
      HistoryMeaning(init, t);
      assert history == init + [history[|history| - 1]];
    }
  }

  /** Transitions change the state and follow on from each other, from UNKNOWN to the current state. */
  lemma {:induction false} TransitionsChain(history: seq<bool>, t: Thresholds)
    requires t.Valid()
    ensures var ts := Transitions(history, t);
            && (forall i :: 0 <= i < |ts| ==> ts[i].before != ts[i].after)
            && (forall i :: 0 < i < |ts| ==> ts[i].before == ts[i - 1].after)
            && (if ts == [] then Replay(history, t).state == UNKNOWN
                else ts[0].before == UNKNOWN && ts[|ts| - 1].after == Replay(history, t).state)
  {
    if history != [] {
      TransitionsChain(history[..|history| - 1], t);
    }
  }

  /** Where the maximal failure runs of length at least "n" start. */
  ghost function LongRuns(history: seq<bool>, n: nat): set<nat> {
    set a: nat | a <= |history| && LongRunAt(history, n, a)
  }

  ghost predicate LongRunAt(history: seq<bool>, n: nat, a: nat) {
    a + n <= |history| && (a == 0 || history[a - 1]) && AllFailed(history, a, a + n)
  }

  ghost predicate AllFailed(history: seq<bool>, from: nat, to: nat)
    requires to <= |history|
  {
    forall i :: from <= i < to ==> !history[i]
  }

  ghost function HardOf(ts: seq<Transition>): set<nat> {
    set i | 0 <= i < |ts| && ts[i].kind == Hard
  }

  /** Hard transitions number exactly the maximal failure runs that reach the critical threshold. */
  lemma {:induction false} HardTransitionsAreLongRuns(history: seq<bool>, t: Thresholds)
    requires t.Valid()
    ensures |HardOf(Transitions(history, t))| == |LongRuns(history, t.critical)|
  {
    if history == [] {
      assert HardOf(Transitions(history, t)) == {} && LongRuns(history, t.critical) == {};
    } else {
      var init := history[..|history| - 1];
      HardTransitionsAreLongRuns(init, t);
      HistoryMeaning(history, t);
      LongRunsGrow(history, t.critical, Replay(history, t).failures);
      HardGrow(history, t);
    }
  }

  lemma HardGrow(history: seq<bool>, t: Thresholds)
    requires t.Valid() && history != []
    ensures var shorter := |HardOf(Transitions(history[..|history| - 1], t))|;
            var more := if Replay(history, t).failures == t.critical then 1 else 0;
            |HardOf(Transitions(history, t))| == shorter + more
  {
    var init, last := history[..|history| - 1], history[|history| - 1];
    HistoryMeaning(init, t);
    var s := Replay(init, t);
    var (after, x) := Observe(s, last, t);
    assert Replay(history, t) == after;
    HardOnce(s, last, t);
    if x.Some? { AppendHard(Transitions(init, t), x.value); }
  }

  lemma HardOnce(s: Tracked, success: bool, t: Thresholds)
    requires t.Valid() && (s.state == CRITICAL <==> s.failures >= t.critical)
    ensures var (after, x) := Observe(s, success, t);
            (x.Some? && x.value.kind == Hard) <==> after.failures == t.critical
  {
  }

  lemma AppendHard(ts: seq<Transition>, x: Transition)
    ensures |HardOf(ts + [x])| == |HardOf(ts)| + if x.kind == Hard then 1 else 0
  {
    var n := |ts|;
    assert forall i :: 0 <= i < n ==> (ts + [x])[i] == ts[i];
    assert HardOf(ts + [x]) == HardOf(ts) + if x.kind == Hard then {n} else {};
  }

  lemma LongRunsGrow(history: seq<bool>, n: nat, trailing: nat)
    requires history != [] && n >= 1 && EndsWithFailures(history, trailing)
    ensures |LongRuns(history, n)| == |LongRuns(history[..|history| - 1], n)| + if trailing == n then 1 else 0
  {
    LongRunsAfter(history, n, trailing);
    hide LongRuns, EndsWithFailures;
  }

  lemma LongRunsAfter(history: seq<bool>, n: nat, trailing: nat)
    requires history != [] && n >= 1 && EndsWithFailures(history, trailing)
    ensures trailing == n ==>
              && |history| - n >= 0 && (|history| - n) as nat !in LongRuns(history[..|history| - 1], n)
              && LongRuns(history, n) == LongRuns(history[..|history| - 1], n) + {(|history| - n) as nat}
    ensures trailing != n ==> LongRuns(history, n) == LongRuns(history[..|history| - 1], n)
  {
    hide LongRunAt;
    var init := history[..|history| - 1];
    forall a: nat
      ensures a in LongRuns(history, n) <==> a in LongRuns(init, n) || (a + n == |history| && trailing == n)
      ensures a + n == |history| ==> a !in LongRuns(init, n)
    {
      LongRunGrows(history, n, trailing, a);
    }
  }

  lemma LongRunGrows(history: seq<bool>, n: nat, trailing: nat, a: nat)
    requires history != [] && n >= 1 && EndsWithFailures(history, trailing)
    ensures LongRunAt(history, n, a) <==>
              LongRunAt(history[..|history| - 1], n, a) || (a + n == |history| && trailing == n)
    ensures LongRunAt(history, n, a) ==> a + n <= |history|
    ensures LongRunAt(history[..|history| - 1], n, a) ==> a + n < |history|
  {
    var init := history[..|history| - 1];
    if a + n < |history| {
      assert forall i :: 0 <= i < |init| ==> init[i] == history[i];
    } else if a + n == |history| {
      LastRun(history, n, trailing);
    }
  }

  lemma LastRun(history: seq<bool>, n: nat, trailing: nat)
    requires 1 <= n <= |history| && EndsWithFailures(history, trailing)
    ensures LongRunAt(history, n, |history| - n) <==> trailing == n
  {
    var a: nat := |history| - n;
    if trailing < n {
      assert history[|history| - trailing - 1];
    } else if trailing > n {
      assert !history[a - 1];
    }
  }

  /** Forcing UNKNOWN keeps the old failure count, so that a service can turn CRITICAL on its next
      single failure; every other forced state makes the count agree with the state. */
  lemma ForcedUnknownKeepsCount(s: Tracked, state: State, t: Thresholds)
    requires t.Valid()
    ensures var f := Forced(s, state, t);
            (Observe(f, false, t).0.state == CRITICAL) <==>
              match state
              case CRITICAL => true
              case WARNING => t.warning + 1 >= t.critical
              case OK => t.critical == 1
              case UNKNOWN => s.failures + 1 >= t.critical
  {
  }
}
