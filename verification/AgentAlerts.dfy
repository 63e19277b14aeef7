/** Agent metric thresholds and missing heartbeats, backed by the table of agent alerts. */
module AgentAlerts {
  import opened Options

  datatype Metric = Cpu | Memory | Disk
  datatype AlertType = OfMetric(metric: Metric) | MissingHeartbeat
  datatype Severity = Warning | Critical
  datatype Key = Key(agent: nat, alert: AlertType)

  datatype Status = Registered | Online | Offline | OtherStatus
  datatype Agent = Agent(enabled: bool, status: Status, lastHeartbeat: Option<int>)

  datatype Sample = Sample(cpu: real, memory: real, disk: real) {
    function Of(m: Metric): real { match m case Cpu => cpu case Memory => memory case Disk => disk }
  }

  datatype Rule = Rule(metric: Metric, warning: real, critical: real)
  datatype Config = Config(cpu: Rule, memory: Rule, disk: Rule, timeout: int) {
    predicate Valid() { cpu.metric == Cpu && memory.metric == Memory && disk.metric == Disk }
    function Rules(): seq<Rule> { [cpu, memory, disk] }
    function RuleOf(m: Metric): Rule { match m case Cpu => cpu case Memory => memory case Disk => disk }
  }

  /** None is the level "ok". */
  function Classify(value: real, r: Rule): Option<Severity> {
    if value >= r.critical then Some(Critical) else if value >= r.warning then Some(Warning) else None
  }

  // ---------------------------------------------------------------- the table

  /** Rows in the order they were created. */
  datatype Row = Row(key: Key, severity: Severity, resolved: bool)

  ghost predicate AtMostOne(rows: seq<Row>) {
    forall i, j :: 0 <= i < j < |rows| && !rows[i].resolved && !rows[j].resolved ==> rows[i].key != rows[j].key
  }

  /** The severity of the newest unresolved row. */
  function Open(rows: seq<Row>, key: Key): Option<Severity> {
    if rows == [] then None
    else
      var last := rows[|rows| - 1];
      if last.key == key && !last.resolved then Some(last.severity) else Open(rows[..|rows| - 1], key)
  }

  lemma {:induction false} OpenMeaning(rows: seq<Row>, key: Key)
    ensures match Open(rows, key)
            case None => forall i :: 0 <= i < |rows| && rows[i].key == key ==> rows[i].resolved
            case Some(s) => exists i :: 0 <= i < |rows| && rows[i] == Row(key, s, false)
  {
    if rows != [] {
      var init := rows[..|rows| - 1];
      OpenMeaning(init, key);
      if i :| 0 <= i < |init| && Open(init, key).Some? && init[i] == Row(key, Open(init, key).value, false) {
        assert rows[i] == init[i];
      }
    }
  }

  function Resolved(rows: seq<Row>, i: nat): seq<Row>
    requires i < |rows|
  {
    rows[i := rows[i].(resolved := true)]
  }

  lemma ResolveMeaning(rows: seq<Row>, i: nat)
    requires AtMostOne(rows) && i < |rows| && !rows[i].resolved
    ensures var after := Resolved(rows, i);
            AtMostOne(after) && forall key :: Open(after, key) == if key == rows[i].key then None else Open(rows, key)
  {
    var after := Resolved(rows, i);
    forall key ensures Open(after, key) == if key == rows[i].key then None else Open(rows, key) {
      OpenMeaning(rows, key);
      OpenMeaning(after, key);
      if key != rows[i].key && Open(rows, key).Some? {
        var k :| 0 <= k < |rows| && rows[k] == Row(key, Open(rows, key).value, false);
        assert after[k] == rows[k];
      }
    }
  }

  lemma CreateMeaning(rows: seq<Row>, row: Row)
    requires AtMostOne(rows) && !row.resolved && Open(rows, row.key).None?
    ensures var after := rows + [row];
            && AtMostOne(after)
            && forall key :: Open(after, key) == if key == row.key then Some(row.severity) else Open(rows, key)
  {
    OpenMeaning(rows, row.key);
    assert (rows + [row])[..|rows|] == rows;
  }

  // ---------------------------------------------------------------- what each operation means

  datatype World = World(agents: map<nat, Agent>, alerts: map<Key, Severity>)

  datatype Event = Submit(agent: nat, sample: Sample) | Heartbeat(agent: nat, now: int) | Sweep(now: int)

  function Lookup(alerts: map<Key, Severity>, key: Key): Option<Severity> {
    if key in alerts then Some(alerts[key]) else None
  }

  /** Afterwards the alert of this key is open exactly at this level. */
  function Settle(alerts: map<Key, Severity>, key: Key, level: Option<Severity>): map<Key, Severity> {
    if level.None? then alerts - {key} else alerts[key := level.value]
  }

  function SettleAll(alerts: map<Key, Severity>, agent: nat, rules: seq<Rule>, sample: Sample): map<Key, Severity> {
    if rules == [] then alerts
    else
      var r := rules[|rules| - 1];
      Settle(SettleAll(alerts, agent, rules[..|rules| - 1], sample), Key(agent, OfMetric(r.metric)),
             Classify(sample.Of(r.metric), r))
  }

  function SetStatus(agents: map<nat, Agent>, id: nat, status: Status): map<nat, Agent> {
    if id in agents then agents[id := agents[id].(status := status)] else agents
  }

  predicate Reporting(a: Agent) { a.enabled && a.status == Online && a.lastHeartbeat.Some? }
  predicate Stale(a: Agent, cutoff: int) { Reporting(a) && a.lastHeartbeat.value < cutoff }
  predicate Fresh(a: Agent, cutoff: int) { Reporting(a) && a.lastHeartbeat.value >= cutoff }

  function Step(w: World, e: Event, c: Config): World {
    match e
    case Submit(id, sample) =>
      if id !in w.agents then w
      else World(SetStatus(w.agents, id, Online), SettleAll(w.alerts, id, c.Rules(), sample))
    case Heartbeat(id, now) =>
      if id !in w.agents then w
      else w.(agents := w.agents[id := w.agents[id].(status := Online, lastHeartbeat := Some(now))])
    case Sweep(now) =>
      var cutoff := now - c.timeout;
      World(TakeOffline(w.agents, Late(w.agents, cutoff)),
            CloseAll(RaiseAll(w.alerts, Late(w.agents, cutoff)), Back(w.agents, cutoff)))
  }

  function Late(agents: map<nat, Agent>, cutoff: int): set<nat> { set id | id in agents && Stale(agents[id], cutoff) }
  function Back(agents: map<nat, Agent>, cutoff: int): set<nat> { set id | id in agents && Fresh(agents[id], cutoff) }

  function TakeOffline(agents: map<nat, Agent>, ids: set<nat>): map<nat, Agent> {
    map id | id in agents :: if id in ids then agents[id].(status := Offline) else agents[id]
  }

  function RaiseAll(alerts: map<Key, Severity>, ids: set<nat>): map<Key, Severity> {
    (map id | id in ids :: Key(id, MissingHeartbeat) := Critical) + alerts
  }

  function CloseAll(alerts: map<Key, Severity>, ids: set<nat>): map<Key, Severity> {
    alerts - set id | id in ids :: Key(id, MissingHeartbeat)
  }

  // ---------------------------------------------------------------- the monitor

  class Monitor {
    const config: Config
    var agents: map<nat, Agent>
    var rows: seq<Row>
    ghost var world: World

    /** At most one unresolved alert per agent and type, in every state between operations. */
    ghost predicate Valid()
      reads this
    {
      && config.Valid() && AtMostOne(rows)
      && world.agents == agents && Shows(world.alerts)
    }

    ghost predicate Shows(alerts: map<Key, Severity>)
      reads this`rows
    {
      forall key :: Open(rows, key) == Lookup(alerts, key)
    }

    constructor (config: Config, agents: map<nat, Agent>)
      requires config.Valid()
      ensures Valid() && this.config == config && world == World(agents, map[])
    {
      this.config, this.agents, rows, world := config, agents, [], World(agents, map[]);
    }

    method GetActive(key: Key) returns (found: Option<nat>)
      ensures match found
              case None => Open(rows, key).None?
              case Some(i) =>
                && i < |rows| && !rows[i].resolved && rows[i].key == key
                && Open(rows, key) == Some(rows[i].severity)
    {
      var i := |rows|;
      assert rows[..i] == rows;
      while i > 0
        invariant 0 <= i <= |rows| && Open(rows, key) == Open(rows[..i], key)
      {
        i := i - 1;
        assert rows[..i + 1][..i] == rows[..i];
        if rows[i].key == key && !rows[i].resolved { return Some(i); }
      }
      found := None;
    }

    /** Brings the alert of one key to a level: unchanged if it is there already, otherwise the old row
        is resolved and a new one is created. */
    method SettleRow(key: Key, level: Option<Severity>, ghost before: map<Key, Severity>)
      requires AtMostOne(rows) && Shows(before)
      modifies this`rows
      ensures AtMostOne(rows) && Shows(Settle(before, key, level))
      ensures |rows| == |old(rows)| + if level.Some? && Lookup(before, key) != level then 1 else 0
    {
      var active := GetActive(key);
      if level.Some? && active.Some? && rows[active.value].severity == level.value { return; }
      if active.Some? {
        ResolveMeaning(rows, active.value);
        rows := Resolved(rows, active.value);
      }
      if level.Some? {
        CreateMeaning(rows, Row(key, level.value, false));
        rows := rows + [Row(key, level.value, false)];
      }
    }

    /** process_agent_metrics.  The metrics row refers to the agent, so an unknown agent fails first. */
    method ProcessMetrics(id: nat, sample: Sample) returns (created: nat)
      requires Valid()
      modifies this
      ensures Valid() && world == Step(old(world), Submit(id, sample), config)
      ensures |rows| == |old(rows)| + created && created <= 3
    {
      created := 0;
      if id !in agents { return; }
      var rules := config.Rules();
      ghost var alerts := world.alerts;
      for i := 0 to |rules|
        invariant AtMostOne(rows) && Shows(alerts) && alerts == SettleAll(world.alerts, id, rules[..i], sample)
        invariant agents == old(agents) && world == old(world)
        invariant |rows| == |old(rows)| + created && created <= i
      {
        assert rules[..i + 1][..i] == rules[..i];
        var r, before := rules[i], |rows|;
        SettleRow(Key(id, OfMetric(r.metric)), Classify(sample.Of(r.metric), r), alerts);
        alerts := Settle(alerts, Key(id, OfMetric(r.metric)), Classify(sample.Of(r.metric), r));
        created := created + |rows| - before;
      }
      assert rules[..|rules|] == rules;
      if agents[id].status != Online { agents := SetStatus(agents, id, Online); }
      world := World(agents, alerts);
    }

    method RecordHeartbeat(id: nat, now: int)
      requires Valid()
      modifies this
      ensures Valid() && world == Step(old(world), Heartbeat(id, now), config) && rows == old(rows)
    {
      if id in agents {
        agents := agents[id := agents[id].(status := Online, lastHeartbeat := Some(now))];
        world := world.(agents := agents);
      }
    }

    /** Opens a heartbeat alert unless one is open already. */
    method RaiseRow(id: nat, ghost before: map<Key, Severity>)
      requires AtMostOne(rows) && Shows(before)
      modifies this`rows
      ensures AtMostOne(rows) && Shows(RaiseAll(before, {id}))
    {
      var active := GetActive(Key(id, MissingHeartbeat));
      if active.None? {
        CreateMeaning(rows, Row(Key(id, MissingHeartbeat), Critical, false));
        rows := rows + [Row(Key(id, MissingHeartbeat), Critical, false)];
      }
    }

    /** Resolves the heartbeat alert if one is open. */
    method CloseRow(id: nat, ghost before: map<Key, Severity>)
      requires AtMostOne(rows) && Shows(before)
      modifies this`rows
      ensures AtMostOne(rows) && Shows(CloseAll(before, {id}))
    {
      var active := GetActive(Key(id, MissingHeartbeat));
      if active.Some? {
        ResolveMeaning(rows, active.value);
        rows := Resolved(rows, active.value);
      }
      assert (set x | x in {id} :: Key(x, MissingHeartbeat)) == {Key(id, MissingHeartbeat)};
    }

    /** check_missing_heartbeats: the stale agents first, then the list as it is after that. */
    method CheckMissingHeartbeats(now: int) returns (count: nat)
      requires Valid()
      modifies this
      ensures Valid() && world == Step(old(world), Sweep(now), config)
      ensures count == |Late(old(agents), now - config.timeout)|
    {
      hide Late, Back, TakeOffline, RaiseAll, CloseAll;
      var cutoff := now - config.timeout;
      var late := Late(agents, cutoff);
      TakeLateOffline(late);
      count := |late|;
      BackAfterOffline(old(agents), cutoff);
      var back := Back(agents, cutoff);
      CloseBack(back);
    }

    /** The first loop of check_missing_heartbeats. */
    method TakeLateOffline(late: set<nat>)
      requires Valid()
      modifies this
      ensures Valid() && world == World(TakeOffline(old(agents), late), RaiseAll(old(world.alerts), late))
    {
      ghost var alerts, start := world.alerts, agents;
      RaiseNone(alerts);
      OfflineNone(start);
      hide RaiseAll, TakeOffline, AtMostOne, Shows;
      var left, done := late, {};
      while left != {}
        invariant left + done == late && world == old(world)
        invariant AtMostOne(rows) && Shows(RaiseAll(alerts, done)) && agents == TakeOffline(start, done)
        decreases |left|
      {
        var id :| id in left;
        TakeOneOffline(id, alerts, start, done);
        left, done := left - {id}, done + {id};
      }
      assert done == late;
      world := World(agents, RaiseAll(alerts, late));
    }

    method TakeOneOffline(id: nat, ghost alerts: map<Key, Severity>, ghost start: map<nat, Agent>, ghost done: set<nat>)
      requires AtMostOne(rows) && Shows(RaiseAll(alerts, done)) && agents == TakeOffline(start, done)
      modifies this`rows, this`agents
      ensures AtMostOne(rows) && Shows(RaiseAll(alerts, done + {id})) && agents == TakeOffline(start, done + {id})
    {
      hide AtMostOne, Shows;
      OfflineOneMore(start, done, id);
      agents := SetStatus(agents, id, Offline);
      RaiseOneMore(alerts, done, id);
      hide RaiseAll, TakeOffline, SetStatus;
      RaiseRow(id, RaiseAll(alerts, done));
    }

    /** The second loop. */
    method CloseBack(back: set<nat>)
      requires Valid()
      modifies this
      ensures Valid() && world == World(old(agents), CloseAll(old(world.alerts), back))
    {
      ghost var alerts := world.alerts;
      CloseNone(alerts);
      hide CloseAll, AtMostOne, Shows;
      var left, done := back, {};
      while left != {}
        invariant left + done == back && world == old(world) && agents == old(agents)
        invariant AtMostOne(rows) && Shows(CloseAll(alerts, done))
        decreases |left|
      {
        var id :| id in left;
        CloseOneOf(id, alerts, done);
        left, done := left - {id}, done + {id};
      }
      assert done == back;
      world := World(agents, CloseAll(alerts, back));
    }

    method CloseOneOf(id: nat, ghost alerts: map<Key, Severity>, ghost done: set<nat>)
      requires AtMostOne(rows) && Shows(CloseAll(alerts, done))
      modifies this`rows
      ensures AtMostOne(rows) && Shows(CloseAll(alerts, done + {id}))
    {
      CloseOneMore(alerts, done, id);
      hide CloseAll, AtMostOne, Shows;
      CloseRow(id, CloseAll(alerts, done));
    }
  }

  lemma OfflineNone(agents: map<nat, Agent>)
    ensures TakeOffline(agents, {}) == agents
  {
  }

  lemma OfflineOneMore(agents: map<nat, Agent>, ids: set<nat>, id: nat)
    ensures SetStatus(TakeOffline(agents, ids), id, Offline) == TakeOffline(agents, ids + {id})
  {
  }

  lemma RaiseOneMore(alerts: map<Key, Severity>, ids: set<nat>, id: nat)
    ensures RaiseAll(RaiseAll(alerts, ids), {id}) == RaiseAll(alerts, ids + {id})
  {
  }

  lemma RaiseNone(alerts: map<Key, Severity>)
    ensures RaiseAll(alerts, {}) == alerts
  {
  }

  lemma CloseNone(alerts: map<Key, Severity>)
    ensures CloseAll(alerts, {}) == alerts
  {
    var none: set<nat> := {};
    assert (set id | id in none :: Key(id, MissingHeartbeat)) == {};
  }

  lemma CloseOneMore(alerts: map<Key, Severity>, ids: set<nat>, id: nat)
    ensures CloseAll(CloseAll(alerts, ids), {id}) == CloseAll(alerts, ids + {id})
  {
  }

  /** Taking the stale agents offline makes no other agent fresh. */
  lemma BackAfterOffline(agents: map<nat, Agent>, cutoff: int)
    ensures Back(TakeOffline(agents, Late(agents, cutoff)), cutoff) == Back(agents, cutoff)
  {
    forall id ensures id in Back(TakeOffline(agents, Late(agents, cutoff)), cutoff) <==> id in Back(agents, cutoff) {}
  }

  // ---------------------------------------------------------------- every run

  function Run(w: World, events: seq<Event>, c: Config): World {
    if events == [] then w else Step(Run(w, events[..|events| - 1], c), events[|events| - 1], c)
  }

  /** The last sample an agent submitted. */
  function LastSample(events: seq<Event>, agent: nat): Option<Sample> {
    if events == [] then None
    else
      var e := events[|events| - 1];
      if e.Submit? && e.agent == agent then Some(e.sample) else LastSample(events[..|events| - 1], agent)
  }

  lemma SettledLevels(alerts: map<Key, Severity>, agent: nat, c: Config, sample: Sample, m: Metric)
    requires c.Valid()
    ensures var after := SettleAll(alerts, agent, c.Rules(), sample);
            && Lookup(after, Key(agent, OfMetric(m))) == Classify(sample.Of(m), c.RuleOf(m))
            && forall key: Key :: key.agent != agent || key.alert == MissingHeartbeat ==>
                 Lookup(after, key) == Lookup(alerts, key)
  {
    var rules := c.Rules();
    assert rules[..2] == [c.cpu, c.memory] && rules[..2][..1] == [c.cpu] && [c.cpu][..0] == [];
    var first := Settle(alerts, Key(agent, OfMetric(Cpu)), Classify(sample.cpu, c.cpu));
    assert SettleAll(alerts, agent, [c.cpu], sample) == first;
    assert SettleAll(alerts, agent, [c.cpu, c.memory], sample)
        == Settle(first, Key(agent, OfMetric(Memory)), Classify(sample.memory, c.memory));
  }

  /** Whatever submissions, heartbeats and sweeps came before, an agent's metric alert is open exactly
      when its last sample is not ok for that metric, and with that severity. */
  lemma {:induction false} LastSampleDecides(agents: map<nat, Agent>, events: seq<Event>, c: Config,
                                             agent: nat, m: Metric)
    requires c.Valid() && agent in agents
    ensures var w, last := Run(World(agents, map[]), events, c), LastSample(events, agent);
            && agent in w.agents
            && Lookup(w.alerts, Key(agent, OfMetric(m))) ==
                 if last.None? then None else Classify(last.value.Of(m), c.RuleOf(m))
  {
    if events != [] {
      var init, e := events[..|events| - 1], events[|events| - 1];
      LastSampleDecides(agents, init, c, agent, m);
      var w := Run(World(agents, map[]), init, c);
      if e.Submit? { SettledLevels(w.alerts, e.agent, c, e.sample, m); }
    }
  }

  /** The alert is open as critical from the critical threshold on, as a warning from the warning one on. */
  predicate AtLevel(open: Option<Severity>, value: real, rule: Rule) {
    && (open == Some(Critical) <==> value >= rule.critical)
    && (open == Some(Warning) <==> rule.warning <= value < rule.critical)
  }

  /** The same per metric, by the values of the last sample: each metric against its own two thresholds. */
  lemma LastSampleLevels(agents: map<nat, Agent>, events: seq<Event>, c: Config, agent: nat)
    requires c.Valid() && agent in agents
    ensures var alerts, last := Run(World(agents, map[]), events, c).alerts, LastSample(events, agent);
            var cpu := Lookup(alerts, Key(agent, OfMetric(Cpu)));
            var memory := Lookup(alerts, Key(agent, OfMetric(Memory)));
            var disk := Lookup(alerts, Key(agent, OfMetric(Disk)));
            && (last.None? ==> cpu == memory == disk == None)
            && (last.Some? ==>
                  && AtLevel(cpu, last.value.cpu, c.cpu) && AtLevel(memory, last.value.memory, c.memory)
                  && AtLevel(disk, last.value.disk, c.disk))
  {
    LastSampleDecides(agents, events, c, agent, Cpu);
    LastSampleDecides(agents, events, c, agent, Memory);
    LastSampleDecides(agents, events, c, agent, Disk);
    hide Run, LastSample;
  }

  /** An online, enabled agent that has sent a heartbeat. */
  predicate Watched(w: World, id: nat) {
    id in w.agents && w.agents[id].enabled && w.agents[id].status == Online && w.agents[id].lastHeartbeat.Some?
  }

  /** What a sweep does to every agent and every alert: a watched agent whose heartbeat is older than the
      timeout goes offline and has its alert opened, critical, unless it is open; any other watched agent has
      its alert closed; all else stays. */
  lemma SweepMeaning(w: World, now: int, c: Config)
    ensures var after := Step(w, Sweep(now), c);
            && after.agents.Keys == w.agents.Keys
            && (forall id :: id in w.agents ==>
                  after.agents[id] ==
                    if Watched(w, id) && w.agents[id].lastHeartbeat.value < now - c.timeout
                    then w.agents[id].(status := Offline) else w.agents[id])
            && (forall key: Key :: Lookup(after.alerts, key) ==
                  if key.alert != MissingHeartbeat || !Watched(w, key.agent) then Lookup(w.alerts, key)
                  else if w.agents[key.agent].lastHeartbeat.value >= now - c.timeout then None
                  else if key in w.alerts then Some(w.alerts[key])
                  else Some(Critical))
  {
    var cutoff := now - c.timeout;
    var late, back := Late(w.agents, cutoff), Back(w.agents, cutoff);
    forall key: Key
      ensures key in (set id | id in back :: Key(id, MissingHeartbeat)) <==>
                key.alert == MissingHeartbeat && key.agent in back
      ensures key in (map id | id in late :: Key(id, MissingHeartbeat) := Critical) <==>
                key.alert == MissingHeartbeat && key.agent in late
    {
      assert key == Key(key.agent, key.alert);
    }
  }

  /** A submission and a heartbeat bring their agent online; only the heartbeat is remembered, and neither
      touches another agent or an alert of missing heartbeats. */
  lemma ContactMeaning(w: World, id: nat, sample: Sample, now: int, c: Config)
    requires c.Valid() && id in w.agents
    ensures var submitted, heard := Step(w, Submit(id, sample), c), Step(w, Heartbeat(id, now), c);
            && submitted.agents == w.agents[id := w.agents[id].(status := Online)]
            && heard.agents == w.agents[id := w.agents[id].(status := Online, lastHeartbeat := Some(now))]
            && heard.alerts == w.alerts
            && forall key: Key :: key.agent != id || key.alert == MissingHeartbeat ==>
                 Lookup(submitted.alerts, key) == Lookup(w.alerts, key)
  {
    SettledLevels(w.alerts, id, c, sample, Cpu);
    hide SettleAll;
  }

  /** An agent the sweep took offline has its heartbeat alert open. */
  ghost predicate OfflineAlerted(w: World) {
    forall id :: id in w.agents && w.agents[id].status == Offline ==> Lookup(w.alerts, Key(id, MissingHeartbeat)).Some?
  }

  lemma OfflineAlertedStep(w: World, e: Event, c: Config)
    requires c.Valid() && OfflineAlerted(w)
    ensures OfflineAlerted(Step(w, e, c))
  {
    if e.Submit? && e.agent in w.agents {
      SettledLevels(w.alerts, e.agent, c, e.sample, Cpu);
      hide SettleAll;
    }
  }

  lemma {:induction false} OfflineAlertedAlways(w: World, events: seq<Event>, c: Config)
    requires c.Valid() && OfflineAlerted(w)
    ensures OfflineAlerted(Run(w, events, c))
  {
    if events != [] {
      OfflineAlertedAlways(w, events[..|events| - 1], c);
      OfflineAlertedStep(Run(w, events[..|events| - 1], c), events[|events| - 1], c);
    }
  }

  /** After a sweep that ends any run, the heartbeat alert of an enabled agent that has ever sent a
      heartbeat and is online or offline is open exactly when it is offline, and it is offline whenever
      the heartbeat is too old. */
  lemma SweepSettles(w: World, events: seq<Event>, now: int, c: Config, id: nat)
    requires c.Valid() && OfflineAlerted(w)
    requires id in Run(w, events, c).agents
    ensures var before := Run(w, events, c);
            var after := Step(before, Sweep(now), c);
            && id in after.agents
            && var a := after.agents[id];
               (a.enabled && a.lastHeartbeat.Some? && a.status in {Online, Offline} ==>
                  && (Lookup(after.alerts, Key(id, MissingHeartbeat)).Some? <==> a.status == Offline)
                  && (a.lastHeartbeat.value < now - c.timeout ==> a.status == Offline))
  {
    OfflineAlertedAlways(w, events, c);
    OfflineAlertedStep(Run(w, events, c), Sweep(now), c);
    hide Run;
    var before := Run(w, events, c);
    var after := Step(before, Sweep(now), c);
    if Fresh(before.agents[id], now - c.timeout) {
      var back := Back(before.agents, now - c.timeout);
      assert id in back;
      assert Key(id, MissingHeartbeat) in set x | x in back :: Key(x, MissingHeartbeat);
    }
  }

  // ---------------------------------------------------------------- operations that overlap

  /** An operation on one key between its look and its write: what it saw, how many rows there were then,
      and whether it has resolved what it saw.  The program waits for the database in between, so that
      other operations may run. */
  datatype Pending = Pending(key: Key, level: Option<Severity>, seen: Option<nat>, since: nat, closed: bool)

  datatype Table = Table(rows: seq<Row>, pending: map<nat, Pending>)

  datatype Action =
    | Look(op: nat, key: Key, level: Option<Severity>)
    | Close(op: nat)      // resolve the row that was seen
    | Insert(op: nat)     // create the new row
    | Finish(op: nat)     // nothing left to create

  /** The newest unresolved row of a key. */
  function Newest(rows: seq<Row>, key: Key): (found: Option<nat>)
    ensures found.Some? ==> found.value < |rows| && rows[found.value].key == key && !rows[found.value].resolved
    ensures found.None? ==> forall i :: 0 <= i < |rows| && rows[i].key == key ==> rows[i].resolved
  {
    if rows == [] then None
    else if rows[|rows| - 1].key == key && !rows[|rows| - 1].resolved then Some(|rows| - 1)
    else
      var rest := Newest(rows[..|rows| - 1], key);
      assert rest.None? ==> forall i :: 0 <= i < |rows| - 1 ==> rows[i] == rows[..|rows| - 1][i];
      rest
  }

  /** The row seen is at another level, so that it must be resolved. */
  predicate Outdated(rows: seq<Row>, p: Pending) {
    p.seen.Some? && p.seen.value < |rows| && Some(rows[p.seen.value].severity) != p.level
  }

  predicate Enabled(t: Table, a: Action) {
    match a
    case Look(op, _, _) => op !in t.pending
    case Close(op) => op in t.pending && Outdated(t.rows, t.pending[op]) && !t.pending[op].closed
    case Insert(op) =>
      op in t.pending && t.pending[op].level.Some? && (t.pending[op].seen.None? || t.pending[op].closed)
    case Finish(op) =>
      op in t.pending &&
      if t.pending[op].seen.None? || t.pending[op].closed then t.pending[op].level.None?
      else !Outdated(t.rows, t.pending[op])
  }

  function Perform(t: Table, a: Action): Table
    requires Enabled(t, a)
  {
    match a
    case Look(op, key, level) =>
      t.(pending := t.pending[op := Pending(key, level, Newest(t.rows, key), |t.rows|, false)])
    case Close(op) =>
      var p := t.pending[op];
      Table(Resolved(t.rows, p.seen.value), t.pending[op := p.(closed := true)])
    case Insert(op) =>
      var p := t.pending[op];
      Table(t.rows + [Row(p.key, p.level.value, false)], t.pending - {op})
    case Finish(op) => t.(pending := t.pending - {op})
  }

  /** At each point a pending operation has exactly one thing to do next: resolve the row it saw if the level
      is another, then create a row if the level is not ok, or be done. */
  lemma OneActionNext(t: Table, op: nat)
    requires op in t.pending
    ensures var p := t.pending[op];
            var stale := p.seen.Some? && p.seen.value < |t.rows| && Some(t.rows[p.seen.value].severity) != p.level;
            && (Enabled(t, Close(op)) <==> stale && !p.closed)
            && (Enabled(t, Insert(op)) <==> p.level.Some? && (p.seen.None? || p.closed))
            && (Enabled(t, Finish(op)) <==> !Enabled(t, Close(op)) && !Enabled(t, Insert(op)))
            && !(Enabled(t, Close(op)) && Enabled(t, Insert(op)))
  {
  }

  /** "actions" is a possible interleaving; tables[i] is the table before its i-th action. */
  ghost predicate IsSchedule(tables: seq<Table>, actions: seq<Action>) {
    && |tables| == |actions| + 1 && AtMostOne(tables[0].rows) && tables[0].pending == map[]
    && forall i :: 0 <= i < |actions| ==>
         Enabled(tables[i], actions[i]) && tables[i + 1] == Perform(tables[i], actions[i])
  }

  /** A row of the operation's key that another operation inserted since its look is still open. */
  ghost predicate Intruded(t: Table, op: nat)
    requires op in t.pending
  {
    exists i :: t.pending[op].since <= i < |t.rows| && t.rows[i].key == t.pending[op].key && !t.rows[i].resolved
  }

  /** Of the rows an operation could see, none of its key is open but the one it saw, until it closes it. */
  ghost predicate Informed(t: Table) {
    forall op :: op in t.pending ==> InformedOp(t.rows, t.pending[op])
  }

  ghost predicate InformedOp(rows: seq<Row>, p: Pending) {
    && p.since <= |rows| && (p.seen.Some? ==> p.seen.value < p.since)
    && forall i :: 0 <= i < p.since && rows[i].key == p.key && !rows[i].resolved ==> p.seen == Some(i) && !p.closed
  }

  lemma InformedStep(t: Table, a: Action)
    requires Enabled(t, a) && Informed(t) && AtMostOne(t.rows)
    ensures Informed(Perform(t, a))
  {
    var next := Perform(t, a);
    forall op | op in next.pending ensures InformedOp(next.rows, next.pending[op]) {
      if op in t.pending { assert InformedOp(t.rows, t.pending[op]); }
    }
  }

  /** An action keeps alerts unique unless it inserts over another operation's open row. */
  lemma UniqueStep(t: Table, a: Action)
    requires Enabled(t, a) && Informed(t) && AtMostOne(t.rows)
    ensures AtMostOne(Perform(t, a).rows) <==> !(a.Insert? && Intruded(t, a.op))
  {
    if a.Insert? {
      var p, next := t.pending[a.op], Perform(t, a).rows;
      assert InformedOp(t.rows, p);
      assert next[|t.rows|] == Row(p.key, p.level.value, false);
      if i :| p.since <= i < |t.rows| && t.rows[i].key == p.key && !t.rows[i].resolved {
        assert next[i] == t.rows[i];
      }
    }
  }

  /** Over every interleaving of any operations: alerts stay unique throughout if and only if no operation
      inserts while a row of its key that was inserted since its look is open. */
  lemma {:induction false} UniqueDecides(tables: seq<Table>, actions: seq<Action>, n: nat)
    requires IsSchedule(tables, actions) && n <= |actions|
    ensures (forall i :: 0 <= i <= n ==> AtMostOne(tables[i].rows)) <==>
              forall i :: 0 <= i < n && actions[i].Insert? ==> !Intruded(tables[i], actions[i].op)
    ensures (forall i :: 0 <= i <= n ==> AtMostOne(tables[i].rows)) ==> Informed(tables[n])
  {
    if n > 0 {
      UniqueDecides(tables, actions, n - 1);
      var t, a := tables[n - 1], actions[n - 1];
      assert Enabled(t, a) && tables[n] == Perform(t, a);
      if forall i :: 0 <= i <= n - 1 ==> AtMostOne(tables[i].rows) {
        InformedStep(t, a);
        UniqueStep(t, a);
      }
      hide AtMostOne, Informed, Intruded, Perform, Enabled;
    }
  }

  /** The j-th action inserts for an operation that looked in the i-th one. */
  ghost predicate LooksThenInserts(actions: seq<Action>, i: nat, j: nat) {
    && i < j < |actions| && actions[i].Look? && actions[j] == Insert(actions[i].op)
    && forall k :: i < k < j && actions[k].op == actions[i].op ==> actions[k].Close?
  }

  /** Between an operation's look and its insert no other operation inserts a row of its key: what a lock per
      key would arrange. */
  ghost predicate Exclusive(tables: seq<Table>, actions: seq<Action>)
    requires IsSchedule(tables, actions)
  {
    forall i: nat, k: nat, j: nat :: LooksThenInserts(actions, i, j) && i < k < j ==>
      !InsertsKey(tables, actions, k, actions[i].key)
  }

  ghost predicate InsertsKey(tables: seq<Table>, actions: seq<Action>, k: nat, key: Key)
    requires k < |actions| && k < |tables|
  {
    actions[k].Insert? && actions[k].op in tables[k].pending && tables[k].pending[actions[k].op].key == key
  }

  /** Every pending operation has looked, and has done nothing since but resolve what it saw. */
  lemma {:induction false} PendingLooked(tables: seq<Table>, actions: seq<Action>, j: nat, op: nat) returns (i: nat)
    requires IsSchedule(tables, actions) && j <= |actions| && op in tables[j].pending
    ensures i < j && actions[i].Look? && actions[i].op == op
    ensures actions[i].key == tables[j].pending[op].key && |tables[i].rows| == tables[j].pending[op].since
    ensures forall k :: i < k < j && actions[k].op == op ==> actions[k].Close?
  {
    var a := actions[j - 1];
    assert Enabled(tables[j - 1], a) && tables[j] == Perform(tables[j - 1], a);
    if a.Look? && a.op == op {
      i := j - 1;
    } else {
      i := PendingLooked(tables, actions, j - 1, op);
    }
  }

  /** Every row that is new since some table was inserted by an action in between. */
  lemma {:induction false} RowInserted(tables: seq<Table>, actions: seq<Action>, i: nat, j: nat, r: nat)
    returns (k: nat)
    requires IsSchedule(tables, actions) && i <= j <= |actions| && |tables[i].rows| <= r < |tables[j].rows|
    ensures i <= k < j && InsertsKey(tables, actions, k, tables[j].rows[r].key)
  {
    var a := actions[j - 1];
    assert Enabled(tables[j - 1], a) && tables[j] == Perform(tables[j - 1], a);
    if r < |tables[j - 1].rows| {
      k := RowInserted(tables, actions, i, j - 1, r);
    } else {
      k := j - 1;
    }
  }

  /** Without such overlaps alerts are unique throughout. */
  lemma ExclusiveIsUnique(tables: seq<Table>, actions: seq<Action>)
    requires IsSchedule(tables, actions) && Exclusive(tables, actions)
    ensures forall i :: 0 <= i <= |actions| ==> AtMostOne(tables[i].rows)
  {
    forall j: nat | j < |actions| && actions[j].Insert? ensures !Intruded(tables[j], actions[j].op) {
      assert Enabled(tables[j], actions[j]);
      var p, rows := tables[j].pending[actions[j].op], tables[j].rows;
      var i := PendingLooked(tables, actions, j, actions[j].op);
      assert LooksThenInserts(actions, i, j);
      if r :| p.since <= r < |rows| && rows[r].key == p.key {
        var k := RowInserted(tables, actions, i, j, r);
        assert false;
      }
    }
    UniqueDecides(tables, actions, |actions|);
  }

  /** Two submissions that both look before either writes leave two open rows. */
  lemma OverlapDuplicates(key: Key, level: Severity)
    ensures var actions := [Look(0, key, Some(level)), Look(1, key, Some(level)), Insert(0), Insert(1)];
            exists tables: seq<Table> :: IsSchedule(tables, actions) && !AtMostOne(tables[4].rows)
  {
    var actions := [Look(0, key, Some(level)), Look(1, key, Some(level)), Insert(0), Insert(1)];
    var t0 := Table([], map[]);
    var t1 := Perform(t0, actions[0]);
    var t2 := Perform(t1, actions[1]);
    var t3 := Perform(t2, actions[2]);
    var tables := [t0, t1, t2, t3, Perform(t3, actions[3])];
    var row := Row(key, level, false);
    assert t2.rows == [] && t2.pending[0] == t2.pending[1] == Pending(key, Some(level), None, 0, false);
    assert Enabled(t0, actions[0]) && Enabled(t1, actions[1]) && Enabled(t2, actions[2]) && Enabled(t3, actions[3]);
    assert tables[4].rows == [row, row];
    assert tables[4].rows[0] == tables[4].rows[1];
    assert IsSchedule(tables, actions);
  }

  /** Carried out without interruption, the actions of one operation are what the monitor does to a row. */
  lemma UninterruptedSettles(rows: seq<Row>, key: Key, level: Option<Severity>, alerts: map<Key, Severity>)
    requires AtMostOne(rows) && forall k :: Open(rows, k) == Lookup(alerts, k)
    ensures var after := Uninterrupted(rows, key, level);
            AtMostOne(after) && forall k :: Open(after, k) == Lookup(Settle(alerts, key, level), k)
  {
    var t := Perform(Table(rows, map[]), Look(0, key, level));
    var p := t.pending[0];
    NewestIsOpen(rows, key);
    hide Newest, Open, AtMostOne;
    if Outdated(rows, p) {
      ResolveMeaning(rows, p.seen.value);
      var closed := Resolved(rows, p.seen.value);
      if level.Some? { CreateMeaning(closed, Row(key, level.value, false)); }
    } else if level.Some? && p.seen.None? {
      CreateMeaning(rows, Row(key, level.value, false));
    }
  }

  function Uninterrupted(rows: seq<Row>, key: Key, level: Option<Severity>): seq<Row> {
    var t0 := Perform(Table(rows, map[]), Look(0, key, level));
    var t1 := if Enabled(t0, Close(0)) then Perform(t0, Close(0)) else t0;
    if Enabled(t1, Insert(0)) then Perform(t1, Insert(0)).rows else t1.rows
  }

  lemma {:induction false} NewestIsOpen(rows: seq<Row>, key: Key)
    ensures Open(rows, key) == if Newest(rows, key).Some? then Some(rows[Newest(rows, key).value].severity) else None
  {
    if rows != [] { NewestIsOpen(rows[..|rows| - 1], key); }
  }
}
