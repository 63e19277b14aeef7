/** State transitions become alerts: classification, cooldown and active incidents. */
module Alerts {
  import opened Options
  import opened ServiceStates

  datatype Severity = SeverityWarning | SeverityCritical | SeverityRecovery

  datatype Alert = Alert(severity: Severity, at: int)

  /** What the engine remembers about one service, and the alerts it has issued for it. */
  datatype AlertView = AlertView(last: Option<int>, active: bool, issued: seq<Alert>)

  const NO_ALERTS := AlertView(None, false, [])

  function Classify(before: State, after: State, given: Option<Kind>): Kind {
    if given.Some? && given.value != Stable then given.value
    else if after == OK && (before == WARNING || before == CRITICAL) then Recovery
    else if after == CRITICAL then Hard
    else if after == WARNING then Soft
    else Stable
  }

  function SeverityOf(after: State): Severity {
    match after
    case OK => SeverityRecovery
    case CRITICAL => SeverityCritical
    case WARNING | UNKNOWN => SeverityWarning
  }

  predicate ShouldAlert(active: bool, before: State, after: State, kind: Kind) {
    if kind == Hard && after == CRITICAL then true
    else if kind != Recovery || after != OK then false
    else before == CRITICAL || active
  }

  predicate InCooldown(last: Option<int>, now: int, cooldown: int) {
    last.Some? && now - last.value < cooldown
  }

  /** One reported transition.  The clock is read twice: for the cooldown test and when the alert is
      recorded. */
  datatype Report = Report(before: State, after: State, given: Option<Kind>,
                           checkedAt: int, recordedAt: int, maintenance: bool)

  function Alerted(v: AlertView, r: Report, cooldown: int): AlertView {
    var severity := SeverityOf(r.after);
    if r.maintenance || !ShouldAlert(v.active, r.before, r.after, Classify(r.before, r.after, r.given)) then v
    else if severity != SeverityRecovery && InCooldown(v.last, r.checkedAt, cooldown) then v
    else
      var issued := v.issued + [Alert(severity, r.recordedAt)];
      if severity == SeverityRecovery then AlertView(v.last, false, issued)
      else AlertView(Some(r.recordedAt), true, issued)
  }

  /** What one report does, by its own fields: nothing under maintenance; a critical alert for a hard or
      unclassified change to CRITICAL, unless the last one is less than the cooldown ago; a recovery alert for
      a recovery from CRITICAL or with an incident active; and nothing otherwise. */
  lemma AlertedMeaning(v: AlertView, r: Report, cooldown: int)
    ensures var unclassified := r.given == None || r.given == Some(Stable);
            var critical := !r.maintenance && r.after == CRITICAL && (unclassified || r.given == Some(Hard));
            var recovered := r.given == Some(Recovery) || (unclassified && r.before in {WARNING, CRITICAL});
            var recovery := !r.maintenance && r.after == OK && recovered && (r.before == CRITICAL || v.active);
            Alerted(v, r, cooldown) ==
              if critical && (v.last == None || r.checkedAt - v.last.value >= cooldown)
              then AlertView(Some(r.recordedAt), true, v.issued + [Alert(SeverityCritical, r.recordedAt)])
              else if recovery then AlertView(v.last, false, v.issued + [Alert(SeverityRecovery, r.recordedAt)])
              else v
  {
  }

  class AlertEngine {
    const cooldown: int
    var lastAlert: map<int, int>
    var activeIncidents: set<int>
    ghost var issued: map<int, seq<Alert>>

    ghost function View(id: int): AlertView
      reads this
    {
      AlertView(if id in lastAlert then Some(lastAlert[id]) else None, id in activeIncidents,
                if id in issued then issued[id] else [])
    }

    constructor (cooldown: int)
      ensures this.cooldown == cooldown && forall id :: View(id) == NO_ALERTS
    {
      this.cooldown, lastAlert, activeIncidents, issued := cooldown, map[], {}, map[];
    }

    method ProcessStateChange(id: int, r: Report) returns (created: bool)
      modifies this
      ensures View(id) == Alerted(old(View(id)), r, cooldown)
      ensures created <==> View(id) != old(View(id))
      ensures forall other :: other != id ==> View(other) == old(View(other))
    {
      var kind := Classify(r.before, r.after, r.given);
      var severity := SeverityOf(r.after);
      if r.maintenance { return false; }
      if !ShouldAlert(id in activeIncidents, r.before, r.after, kind) { return false; }
      if severity != SeverityRecovery {
        if id in lastAlert && r.checkedAt - lastAlert[id] < cooldown { return false; }
      }
      issued := issued[id := View(id).issued + [Alert(severity, r.recordedAt)]];
      if severity == SeverityRecovery {
        activeIncidents := activeIncidents - {id};
      } else {
        activeIncidents := activeIncidents + {id};
        lastAlert := lastAlert[id := r.recordedAt];
      }
      created := true;
      assert |View(id).issued| == |old(View(id)).issued| + 1;
    }

    method ClearRuntimeState()
      modifies this
      ensures forall id :: View(id) == old(View(id)).(last := None, active := false)
    {
      lastAlert, activeIncidents := map[], {};
    }
  }
}
