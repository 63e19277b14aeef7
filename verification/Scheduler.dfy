/** One service check from retries to alert, and what holds over every run of checks. */
module Scheduling {
  import opened Numbers
  import opened Options
  import opened ServiceStates
  import opened Alerts

  // ---------------------------------------------------------------- retries

  datatype Message = Plain(text: string) | AfterAttempts(text: string, attempts: nat)

  /** "retryable" is the flag in the response's extra data, which counts only for failures. */
  datatype Response = Response(success: bool, retryable: bool, text: string, milliseconds: real)

  /** What one execution of a checker does: it returns, or raises after some time. */
  datatype Attempt = Returned(response: Response) | Raised(error: string, milliseconds: real)

  datatype Final = Final(response: Response, message: Message, attempts: nat, retryExhausted: bool)

  /** A raised error counts as a retryable failure; it never propagates. */
  function Answer(a: Attempt): Response {
    match a
    case Returned(r) => r
    case Raised(error, ms) => Response(false, true, error, ms)
  }

  predicate TryAgain(r: Response) { !r.success && r.retryable }

  function Delay(backoff: real, attempt: nat): real
    requires attempt >= 1
  {
    var d := backoff * Power2(attempt - 1) as real;
    if d < 5.0 then d else 5.0
  }

  /** The attempts a run makes: attempt "n" is the last because every earlier one asked for another,
      and it either settled the matter or used up the limit. */
  ghost predicate LastAttempt(checker: nat -> Attempt, n: nat, limit: nat) {
    && 1 <= n <= limit
    && (forall i :: 1 <= i < n ==> TryAgain(Answer(checker(i))))
    && (TryAgain(Answer(checker(n))) ==> n == limit)
  }

  /** Which attempt is the last: every one before it raised, or failed and could be retried; and it did not, or
      it was the last one allowed. */
  lemma LastAttemptMeaning(checker: nat -> Attempt, n: nat, limit: nat)
    ensures LastAttempt(checker, n, limit) <==>
              && 1 <= n <= limit
              && (forall i :: 1 <= i < n ==>
                    checker(i).Raised? || (!checker(i).response.success && checker(i).response.retryable))
              && (n < limit ==>
                    checker(n).Returned? && (checker(n).response.success || !checker(n).response.retryable))
    ensures var answer := Answer(checker(n));
            && (checker(n).Returned? ==> answer == checker(n).response)
            && (checker(n).Raised? ==>
                  && !answer.success && answer.milliseconds == checker(n).milliseconds
                  && answer.text == checker(n).error)
  {
  }

  method ExecuteWithRetries(checker: nat -> Attempt, limit: nat, backoff: real) returns (final: Final, slept: seq<real>)
    requires limit >= 1 && backoff >= 0.0
    ensures LastAttempt(checker, final.attempts, limit)
    ensures final.response == Answer(checker(final.attempts))
    ensures final.message ==
              if final.attempts > 1 then AfterAttempts(final.response.text, final.attempts)
              else Plain(final.response.text)
    ensures final.retryExhausted <==> TryAgain(final.response)
    ensures slept == if backoff == 0.0 then [] else seq(final.attempts - 1, i requires 0 <= i => Delay(backoff, i + 1))
  {
    slept := [];
    var response := Answer(checker(1));
    var attempt := 1;
    while TryAgain(response) && attempt != limit
      invariant 1 <= attempt <= limit
      invariant response == Answer(checker(attempt))
      invariant forall i :: 1 <= i < attempt ==> TryAgain(Answer(checker(i)))
      invariant slept == if backoff == 0.0 then [] else seq(attempt - 1, i requires 0 <= i => Delay(backoff, i + 1))
      decreases limit - attempt
    {
      if backoff != 0.0 { slept := slept + [Delay(backoff, attempt)]; }
      attempt := attempt + 1;
      response := Answer(checker(attempt));
    }
    final := Final(response, if attempt > 1 then AfterAttempts(response.text, attempt) else Plain(response.text),
                   attempt, TryAgain(response) && attempt == limit);
  }

  /** A stored attempt limit: absent, a number, or text that is not one. */
  datatype Stored = Missing | Number(n: int) | Garbage

  function MaxAttempts(maxAttempts: Stored, retryCount: Stored, default_: nat): (n: nat)
    requires default_ >= 1
    ensures n >= 1
  {
    match maxAttempts
    case Number(n) => if n < 1 then 1 else n
    case Garbage => default_
    case Missing =>
      match retryCount
      case Missing => default_
      case Garbage => default_
      case Number(n) => if n + 1 < 1 then 1 else n + 1
  }

  /** The attempt limit wins over the retry count, which leaves out the first attempt. */
  lemma MaxAttemptsMeaning(maxAttempts: Stored, retryCount: Stored, default_: nat)
    requires default_ >= 1
    ensures var n := MaxAttempts(maxAttempts, retryCount, default_);
            && (maxAttempts.Number? && maxAttempts.n >= 1 ==> n == maxAttempts.n)
            && (maxAttempts.Number? && maxAttempts.n < 1 ==> n == 1)
            && (maxAttempts.Missing? && retryCount.Number? && retryCount.n >= 0 ==> n == 1 + retryCount.n)
            && (maxAttempts.Missing? && retryCount.Number? && retryCount.n < 0 ==> n == 1)
            && (maxAttempts.Garbage? || (maxAttempts.Missing? && !retryCount.Number?) ==> n == default_)
  {
  }

  /** The first pause is the backoff; every later one is twice the one before; none is longer than 5 seconds. */
  lemma DelayMeaning(backoff: real, attempt: nat)
    requires backoff >= 0.0 && attempt >= 1
    ensures Delay(backoff, 1) == if backoff < 5.0 then backoff else 5.0
    ensures var doubled := 2.0 * Delay(backoff, attempt);
            Delay(backoff, attempt + 1) == if doubled < 5.0 then doubled else 5.0
  {
    var d := backoff * Power2(attempt - 1) as real;
    assert Power2(0) == 1 && Power2(attempt) as real == 2.0 * Power2(attempt - 1) as real;
    assert backoff * Power2(attempt) as real == 2.0 * d;
  }

  function ResultStatus(success: bool, transition: Option<Transition>, current: State): State {
    if success then OK
    else if transition.Some? then transition.value.after
    else if current == WARNING || current == CRITICAL then current
    else WARNING
  }

  // ---------------------------------------------------------------- one check, one service

  datatype Config = Config(thresholds: Thresholds, cooldown: int)

  datatype Watch = Watch(tracked: Tracked, alerts: AlertView)

  datatype Event =
    | Check(success: bool, checkedAt: int, recordedAt: int, maintenance: bool)
    | Forget   // the service is removed or rescheduled

  function Step(w: Watch, e: Event, c: Config): Watch {
    match e
    case Forget => w.(tracked := FRESH)
    case Check(success, checkedAt, recordedAt, maintenance) =>
      var (tracked, transition) := Observe(w.tracked, success, c.thresholds);
      match transition
      case None => w.(tracked := tracked)
      case Some(t) =>
        var report := Report(t.before, t.after, Some(t.kind), checkedAt, recordedAt, maintenance);
        Watch(tracked, Alerted(w.alerts, report, c.cooldown))
  }

  class Scheduler {
    const states: StateEngine
    const alerts: AlertEngine
    const defaultAttempts: nat
    const backoff: real

    ghost predicate Valid() { states.Valid() && defaultAttempts >= 1 && backoff >= 0.0 }

    ghost function WatchOf(id: int): Watch
      reads states, alerts
    {
      Watch(states.TrackedState(id), alerts.View(id))
    }

    ghost function Configured(): Config { Config(states.thresholds, alerts.cooldown) }

    constructor (states: StateEngine, alerts: AlertEngine, maxCheckAttempts: int, backoff: real)
      requires states.Valid()
      ensures Valid() && this.states == states && this.alerts == alerts
      ensures maxCheckAttempts >= 1 ==> defaultAttempts == maxCheckAttempts
      ensures maxCheckAttempts < 1 ==> defaultAttempts == 1
      ensures backoff >= 0.0 ==> this.backoff == backoff
      ensures backoff < 0.0 ==> this.backoff == 0.0
    {
      this.states, this.alerts := states, alerts;
      this.defaultAttempts := if maxCheckAttempts < 1 then 1 else maxCheckAttempts;
      this.backoff := if backoff < 0.0 then 0.0 else backoff;
    }

    /** Retries, then the state engine, then the alert engine, in that order. */
    method RunCheck(id: int, checker: nat -> Attempt, maxAttempts: Stored, retryCount: Stored,
                    checkedAt: int, recordedAt: int, maintenance: bool)
      returns (status: State, final: Final)
      requires Valid()
      modifies states, alerts
      ensures LastAttempt(checker, final.attempts, MaxAttempts(maxAttempts, retryCount, defaultAttempts))
      ensures final.response == Answer(checker(final.attempts))
      ensures var e := Check(final.response.success, checkedAt, recordedAt, maintenance);
              WatchOf(id) == Step(old(WatchOf(id)), e, Configured())
      ensures forall other :: other != id ==> WatchOf(other) == old(WatchOf(other))
      ensures status == if WatchOf(id).tracked.state in {WARNING, CRITICAL} || final.response.success
                        then WatchOf(id).tracked.state else WARNING
    {
      var slept;
      final, slept := ExecuteWithRetries(checker, MaxAttempts(maxAttempts, retryCount, defaultAttempts), backoff);
      var transition := states.ProcessResult(id, final.response.success);
      status := ResultStatus(final.response.success, transition, states.TrackedState(id).state);
      if transition.Some? {
        var t := transition.value;
        var report := Report(t.before, t.after, Some(t.kind), checkedAt, recordedAt, maintenance);
        var _ := alerts.ProcessStateChange(id, report);
      }
    }
  }

  // ---------------------------------------------------------------- every run

  function Run(w: Watch, events: seq<Event>, c: Config): Watch {
    if events == [] then w else Step(Run(w, events[..|events| - 1], c), events[|events| - 1], c)
  }

  /** A CRITICAL service has the failures to show for it, as after every start-up synchronisation. */
  predicate Consistent(s: Tracked, t: Thresholds) {
    s.state == CRITICAL ==> s.failures >= t.critical
  }

  lemma SynchronisedIsConsistent(state: State, t: Thresholds)
    ensures Consistent(Forced(FRESH, state, t), t)
  {
  }

  ghost predicate IsCritical(issued: seq<Alert>, i: int) { 0 <= i < |issued| && issued[i].severity == SeverityCritical }

  ghost predicate RecoveryWithin(issued: seq<Alert>, lo: int, hi: int) {
    exists k :: lo < k < hi && 0 <= k < |issued| && issued[k].severity == SeverityRecovery
  }

  ghost predicate RecoveredBetween(issued: seq<Alert>) {
    forall i, j :: IsCritical(issued, i) && IsCritical(issued, j) && i < j ==> RecoveryWithin(issued, i, j)
  }

  ghost predicate Spaced(issued: seq<Alert>, cooldown: int) {
    forall i, j :: IsCritical(issued, i) && IsCritical(issued, j) && i < j ==> issued[j].at - issued[i].at >= cooldown
  }

  ghost predicate LastIsLatest(v: AlertView) {
    forall i :: IsCritical(v.issued, i) ==> v.last.Some? && v.issued[i].at <= v.last.value
  }

  /** Critical alerts of a service are a cooldown apart in every run, with maintenance, removals and a
      clock that may even step back between checks. */
  lemma {:induction false} CooldownAlways(w: Watch, events: seq<Event>, c: Config)
    requires c.cooldown >= 0 && w.alerts == NO_ALERTS
    requires forall i :: 0 <= i < |events| && events[i].Check? ==> events[i].checkedAt <= events[i].recordedAt
    ensures var v := Run(w, events, c).alerts; Spaced(v.issued, c.cooldown) && LastIsLatest(v)
  {
    if events != [] {
      var init, e := events[..|events| - 1], events[|events| - 1];
      CooldownAlways(w, init, c);
      var v, v' := Run(w, init, c).alerts, Run(w, events, c).alerts;
      if v'.issued != v.issued {
        assert v'.issued[..|v.issued|] == v.issued;
        assert forall i :: IsCritical(v'.issued, i) && i < |v.issued| ==>
                 IsCritical(v.issued, i) && v'.issued[i] == v.issued[i];
      }
    }
  }

  /** The invariant of the composed pipeline. */
  ghost predicate Sound(w: Watch, t: Thresholds) {
    && Consistent(w.tracked, t)
    && (w.alerts.active ==> w.tracked.state == CRITICAL)
    && RecoveredBetween(w.alerts.issued)
    && (w.tracked.state != CRITICAL ==>
          forall i :: IsCritical(w.alerts.issued, i) ==> RecoveryWithin(w.alerts.issued, i, |w.alerts.issued|))
  }

  predicate Ordinary(e: Event) { e.Check? && !e.maintenance }

  /** With maintenance off and no removal or rescheduling: an active incident is a CRITICAL service, and
      every two critical alerts have a recovery between them. */
  lemma {:induction false} PipelineSound(w: Watch, events: seq<Event>, c: Config)
    requires c.thresholds.Valid() && w.alerts == NO_ALERTS && Consistent(w.tracked, c.thresholds)
    requires forall i :: 0 <= i < |events| ==> Ordinary(events[i])
    ensures Sound(Run(w, events, c), c.thresholds)
  {
    if events != [] {
      PipelineSound(w, events[..|events| - 1], c);
      SoundStep(Run(w, events[..|events| - 1], c), events[|events| - 1], c);
    }
  }

  lemma SoundStep(w: Watch, e: Event, c: Config)
    requires c.thresholds.Valid() && Sound(w, c.thresholds) && Ordinary(e)
    ensures Sound(Step(w, e, c), c.thresholds)
  {
    var next := Step(w, e, c);
    var issued, issued' := w.alerts.issued, next.alerts.issued;
    if issued' != issued {
      var n := |issued|;
      assert issued'[..n] == issued;
      forall i, j | IsCritical(issued', i) && IsCritical(issued', j) && i < j
        ensures RecoveryWithin(issued', i, j)
      {
        assert IsCritical(issued, i);
        if j < n {
          assert IsCritical(issued, j) && RecoveryWithin(issued, i, j);
          var k :| i < k < j && issued[k].severity == SeverityRecovery;
          assert issued'[k] == issued[k];
        } else {
          assert RecoveryWithin(issued, i, n);
          var k :| i < k < n && issued[k].severity == SeverityRecovery;
          assert issued'[k] == issued[k];
        }
      }
      if next.tracked.state != CRITICAL {
        assert issued'[n].severity == SeverityRecovery;
      }
    }
  }

  /** The check takes the service into CRITICAL, not under maintenance and outside the cooldown. */
  predicate GoesCritical(w: Watch, e: Event, c: Config) {
    && e.Check? && !e.maintenance && !e.success
    && w.tracked.state != CRITICAL && w.tracked.failures + 1 >= c.thresholds.critical
    && (w.alerts.last == None || e.checkedAt - w.alerts.last.value >= c.cooldown)
  }

  /** The check succeeds, not under maintenance, where the service was CRITICAL, or WARNING with an incident. */
  predicate Recovers(w: Watch, e: Event) {
    && e.Check? && !e.maintenance && e.success
    && (w.tracked.state == CRITICAL || (w.tracked.state == WARNING && w.alerts.active))
  }

  /** What any event does to the alerts of any service, exactly. */
  lemma StepIssues(w: Watch, e: Event, c: Config)
    requires c.thresholds.Valid()
    ensures Step(w, e, c).alerts ==
              if GoesCritical(w, e, c)
              then AlertView(Some(e.recordedAt), true, w.alerts.issued + [Alert(SeverityCritical, e.recordedAt)])
              else if Recovers(w, e)
              then AlertView(w.alerts.last, false, w.alerts.issued + [Alert(SeverityRecovery, e.recordedAt)])
              else w.alerts
  {
  }

  /** A check under maintenance leaves last alert, incident and issued alerts as they were; the tracked state
      advances as it would without. */
  lemma MaintenanceIsSilent(w: Watch, e: Event, c: Config)
    requires c.thresholds.Valid() && e.Check? && e.maintenance
    ensures Step(w, e, c).alerts == w.alerts
    ensures Step(w, e, c).tracked == Step(w, e.(maintenance := false), c).tracked
    ensures Step(w, e, c).tracked.failures == if e.success then 0 else w.tracked.failures + 1
  {
    StepIssues(w, e, c);
    hide Alerted;
  }

  /** The k-th event is the check that issued the i-th alert of the run. */
  ghost predicate Causes(w: Watch, events: seq<Event>, c: Config, k: nat, i: nat) {
    && k < |events| && events[k].Check? && !events[k].maintenance
    && Run(w, events[..k], c).alerts.issued + [IssuedBy(events[k])] == Run(w, events[..k + 1], c).alerts.issued
    && i == |Run(w, events[..k], c).alerts.issued|
  }

  function IssuedBy(e: Event): Alert
    requires e.Check?
  {
    Alert(if e.success then SeverityRecovery else SeverityCritical, e.recordedAt)
  }

  /** Over every run each alert was recorded by a check without maintenance, at that check's time. */
  lemma {:induction false} IssuedHaveCauses(w: Watch, events: seq<Event>, c: Config, i: nat) returns (k: nat)
    requires c.thresholds.Valid() && w.alerts == NO_ALERTS && i < |Run(w, events, c).alerts.issued|
    ensures Causes(w, events, c, k, i) && Run(w, events, c).alerts.issued[i] == IssuedBy(events[k])
  {
    hide Step;
    var init, e := events[..|events| - 1], events[|events| - 1];
    var before := Run(w, init, c);
    StepIssues(before, e, c);
    if i < |before.alerts.issued| {
      k := IssuedHaveCauses(w, init, c, i);
      assert events[..k] == init[..k] && events[..k + 1] == init[..k + 1] && events[k] == init[k];
    } else {
      k := |init|;
      assert events[..k] == init && events[..k + 1] == events;
    }
  }

  /** The transition a check reports, with its clock readings. */
  function ReportOf(w: Watch, e: Event, c: Config): seq<Report> {
    if e.Forget? then []
    else
      match Observe(w.tracked, e.success, c.thresholds).1
      case None => []
      case Some(t) => [Report(t.before, t.after, Some(t.kind), e.checkedAt, e.recordedAt, e.maintenance)]
  }

  function Reports(w: Watch, events: seq<Event>, c: Config): seq<Report> {
    if events == [] then []
    else
      var init := events[..|events| - 1];
      Reports(w, init, c) + ReportOf(Run(w, init, c), events[|events| - 1], c)
  }

  /** The reports that were not made under maintenance. */
  function Loud(reports: seq<Report>): seq<Report> {
    if reports == [] then []
    else
      var last := reports[|reports| - 1];
      Loud(reports[..|reports| - 1]) + if last.maintenance then [] else [last]
  }

  function AllAlerted(v: AlertView, reports: seq<Report>, cooldown: int): AlertView {
    if reports == [] then v
    else Alerted(AllAlerted(v, reports[..|reports| - 1], cooldown), reports[|reports| - 1], cooldown)
  }

  /** Over every run, leaving out all reports made under maintenance changes no alert: the alerts are those
      the alert engine gives for the other reports alone. */
  lemma {:induction false} MaintenanceReportsDoNotCount(w: Watch, events: seq<Event>, c: Config)
    requires c.thresholds.Valid()
    ensures Run(w, events, c).alerts == AllAlerted(w.alerts, Loud(Reports(w, events, c)), c.cooldown)
  {
    if events != [] {
      var init, e := events[..|events| - 1], events[|events| - 1];
      MaintenanceReportsDoNotCount(w, init, c);
      var before := Run(w, init, c);
      LoudOneMore(Reports(w, init, c), ReportOf(before, e, c));
      if e.Check? && e.maintenance { MaintenanceIsSilent(before, e, c); }
      OneReport(AllAlerted(w.alerts, Loud(Reports(w, init, c)), c.cooldown), ReportOf(before, e, c), c.cooldown);
      AllAlertedJoin(w.alerts, Loud(Reports(w, init, c)), Loud(ReportOf(before, e, c)), c.cooldown);
      hide Alerted, Loud;
    }
  }

  lemma LoudOneMore(reports: seq<Report>, more: seq<Report>)
    requires |more| <= 1
    ensures Loud(reports + more) == Loud(reports) + Loud(more)
  {
    if more == [] {
      assert reports + more == reports;
    } else {
      assert (reports + more)[..|reports|] == reports && more[..0] == [];
      assert Loud([]) == [];
    }
  }

  lemma OneReport(v: AlertView, more: seq<Report>, cooldown: int)
    requires |more| <= 1
    ensures more != [] && !more[0].maintenance ==> Loud(more) == more
    ensures more != [] && more[0].maintenance ==> Loud(more) == []
    ensures more == [] ==> Loud(more) == []
    ensures AllAlerted(v, [], cooldown) == v
    ensures more != [] ==> AllAlerted(v, more, cooldown) == Alerted(v, more[0], cooldown)
  {
    if more != [] { assert more[..0] == [] && Loud([]) == [] && [more[0]] == more; }
    hide Alerted;
  }

  lemma AllAlertedJoin(v: AlertView, reports: seq<Report>, more: seq<Report>, cooldown: int)
    requires |more| <= 1
    ensures AllAlerted(v, reports + more, cooldown) == AllAlerted(AllAlerted(v, reports, cooldown), more, cooldown)
  {
    if more == [] {
      assert reports + more == reports;
    } else {
      assert (reports + more)[..|reports|] == reports && more[..0] == [];
    }
    hide Alerted;
  }

  /** Why maintenance and removal are excluded, exactly: one step keeps "active means CRITICAL" unless
      it takes a service with an active incident out of CRITICAL silently. */
  lemma ActiveMeansCriticalKept(w: Watch, e: Event, c: Config)
    requires c.thresholds.Valid() && Consistent(w.tracked, c.thresholds)
    requires w.alerts.active ==> w.tracked.state == CRITICAL
    ensures var next := Step(w, e, c);
            (next.alerts.active ==> next.tracked.state == CRITICAL) <==>
              !(w.alerts.active && (e.Forget? || (e.success && e.maintenance)))
  {
  }

  /** Some critical alert has not been followed by a recovery yet. */
  ghost predicate Unrecovered(issued: seq<Alert>) {
    exists i :: IsCritical(issued, i) && !RecoveryWithin(issued, i, |issued|)
  }

  /** The step issues a critical alert while the incident of an earlier one is still active. */
  predicate Repeats(w: Watch, e: Event, c: Config) {
    && w.alerts.active && e.Check? && !e.maintenance
    && w.tracked.state != CRITICAL && Step(w, e, c).tracked.state == CRITICAL
    && !InCooldown(w.alerts.last, e.checkedAt, c.cooldown)
  }

  lemma RecoveryAppended(issued: seq<Alert>, x: Alert, i: int, j: int)
    requires i < j <= |issued|
    ensures RecoveryWithin(issued + [x], i, j) <==> RecoveryWithin(issued, i, j)
    ensures IsCritical(issued, i) <==> i < |issued| && IsCritical(issued + [x], i)
    ensures RecoveryWithin(issued + [x], i, |issued| + 1) <==>
              RecoveryWithin(issued, i, |issued|) || x.severity == SeverityRecovery
  {
    var more := issued + [x];
    assert forall k :: 0 <= k < |issued| ==> more[k] == issued[k];
    assert more[|issued|] == x;
    if RecoveryWithin(issued, i, j) {
      var k :| i < k < j && 0 <= k < |issued| && issued[k].severity == SeverityRecovery;
      assert more[k].severity == SeverityRecovery;
    }
    if RecoveryWithin(issued, i, |issued|) {
      var k :| i < k < |issued| && 0 <= k < |issued| && issued[k].severity == SeverityRecovery;
      assert more[k].severity == SeverityRecovery;
    }
  }

  lemma CriticalAppended(issued: seq<Alert>, x: Alert)
    ensures RecoveredBetween(issued + [x]) <==>
              RecoveredBetween(issued) && !(x.severity == SeverityCritical && Unrecovered(issued))
    ensures x.severity == SeverityCritical ==> Unrecovered(issued + [x])
    ensures x.severity == SeverityRecovery ==> !Unrecovered(issued + [x])
  {
    var more, n := issued + [x], |issued|;
    forall i, j | 0 <= i < j <= n
      ensures RecoveryWithin(more, i, j) <==> RecoveryWithin(issued, i, j)
      ensures IsCritical(issued, i) <==> IsCritical(more, i)
      ensures RecoveryWithin(more, i, n + 1) <==> RecoveryWithin(issued, i, n) || x.severity == SeverityRecovery
    {
      RecoveryAppended(issued, x, i, j);
    }
    assert IsCritical(more, n) <==> x.severity == SeverityCritical;
    assert !RecoveryWithin(more, n, n + 1);
    forall i | IsCritical(issued, i) ensures 0 <= i < n && IsCritical(more, i) {}
    forall i, j | IsCritical(issued, i) && IsCritical(issued, j) && i < j
      ensures RecoveryWithin(issued, i, j) <==> RecoveryWithin(more, i, j) && IsCritical(more, j)
    {
      assert 0 <= i < j <= n;
      assert issued[j] == more[j];
    }
    if x.severity == SeverityCritical && Unrecovered(issued) {
      var i :| IsCritical(issued, i) && !RecoveryWithin(issued, i, n);
      assert IsCritical(more, i) && IsCritical(more, n) && !RecoveryWithin(more, i, n);
    }
    if RecoveredBetween(more) {
      forall i, j | IsCritical(issued, i) && IsCritical(issued, j) && i < j ensures RecoveryWithin(issued, i, j) {
        assert IsCritical(more, i) && issued[j] == more[j] && IsCritical(more, j);
      }
    } else {
      var i, j :| IsCritical(more, i) && IsCritical(more, j) && i < j && !RecoveryWithin(more, i, j);
      assert IsCritical(issued, i) && !RecoveryWithin(issued, i, j);
      if j < n { assert issued[j] == more[j] && IsCritical(issued, j); }
    }
  }

  /** In every state an incident is active exactly while a critical alert waits for its recovery.  One step
      keeps "a recovery between every two critical alerts" exactly if it does not issue a critical alert
      over an active incident. */
  lemma RecoveredBetweenKept(w: Watch, e: Event, c: Config)
    requires c.thresholds.Valid() && Consistent(w.tracked, c.thresholds)
    requires w.alerts.active <==> Unrecovered(w.alerts.issued)
    ensures var next := Step(w, e, c);
            && Consistent(next.tracked, c.thresholds)
            && (next.alerts.active <==> Unrecovered(next.alerts.issued))
            && (RecoveredBetween(next.alerts.issued) <==> RecoveredBetween(w.alerts.issued) && !Repeats(w, e, c))
  {
    var next := Step(w, e, c);
    var issued, after := w.alerts.issued, next.alerts.issued;
    if after != issued {
      assert after == issued + [after[|issued|]];
      CriticalAppended(issued, after[|issued|]);
      hide RecoveredBetween, Unrecovered;
    }
  }

  lemma {:induction false} ActiveIsUnrecovered(w: Watch, events: seq<Event>, c: Config)
    requires c.thresholds.Valid() && Consistent(w.tracked, c.thresholds) && w.alerts == NO_ALERTS
    ensures var v := Run(w, events, c);
            Consistent(v.tracked, c.thresholds) && (v.alerts.active <==> Unrecovered(v.alerts.issued))
  {
    if events != [] {
      ActiveIsUnrecovered(w, events[..|events| - 1], c);
      RecoveredBetweenKept(Run(w, events[..|events| - 1], c), events[|events| - 1], c);
      hide Unrecovered, Step;
    }
  }

  ghost predicate NoRepeat(w: Watch, events: seq<Event>, c: Config) {
    forall k :: 0 <= k < |events| ==> !Repeats(Run(w, events[..k], c), events[k], c)
  }

  lemma NothingIssued()
    ensures RecoveredBetween([])
  {
  }

  /** Over any run, with maintenance, removals and any clock: every two critical alerts have a recovery
      between them if and only if no check of the run issues a critical alert over an active incident. */
  lemma {:induction false} RecoveredBetweenDecides(w: Watch, events: seq<Event>, c: Config)
    requires c.thresholds.Valid() && Consistent(w.tracked, c.thresholds) && w.alerts == NO_ALERTS
    ensures RecoveredBetween(Run(w, events, c).alerts.issued) <==> NoRepeat(w, events, c)
  {
    hide Repeats, RecoveredBetween, Step;
    if events == [] {
      NothingIssued();
    } else {
      var init, e := events[..|events| - 1], events[|events| - 1];
      RecoveredBetweenDecides(w, init, c);
      ActiveIsUnrecovered(w, init, c);
      RecoveredBetweenKept(Run(w, init, c), e, c);
      assert forall k :: 0 <= k < |init| ==> events[..k] == init[..k] && events[k] == init[k];
      assert events[..|init|] == init;
    }
  }

  /** Under maintenance two critical alerts can follow each other with no recovery between them. */
  lemma MaintenanceHidesRecovery()
    ensures var c := Config(Thresholds(1, 1), 0);
            var events := [Check(false, 0, 0, false), Check(true, 1, 1, true), Check(false, 2, 2, false)];
            !RecoveredBetween(Run(Watch(FRESH, NO_ALERTS), events, c).alerts.issued)
  {
    SecondRepeats(Check(true, 1, 1, true));
  }

  /** So can they when the service is removed or rescheduled in between. */
  lemma RemovalHidesRecovery()
    ensures var c := Config(Thresholds(1, 1), 0);
            var events := [Check(false, 0, 0, false), Forget, Check(false, 2, 2, false)];
            !RecoveredBetween(Run(Watch(FRESH, NO_ALERTS), events, c).alerts.issued)
  {
    SecondRepeats(Forget);
  }

  lemma SecondRepeats(between: Event)
    requires between == Forget || (between.Check? && between.success && between.maintenance)
    ensures var events := [Check(false, 0, 0, false), between, Check(false, 2, 2, false)];
            !RecoveredBetween(Run(Watch(FRESH, NO_ALERTS), events, Config(Thresholds(1, 1), 0)).alerts.issued)
  {
    var c := Config(Thresholds(1, 1), 0);
    var e0, e2, w := Check(false, 0, 0, false), Check(false, 2, 2, false), Watch(FRESH, NO_ALERTS);
    var events := [e0, between, e2];
    assert events[..2] == [e0, between] && [e0, between][..1] == [e0] && [e0][..0] == [];
    assert Run(w, [e0], c) == Step(w, e0, c);
    assert Run(w, [e0, between], c) == Step(Step(w, e0, c), between, c);
    assert Repeats(Run(w, events[..2], c), events[2], c);
    RecoveredBetweenDecides(w, events, c);
  }
}
