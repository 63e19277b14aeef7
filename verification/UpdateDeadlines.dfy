/** When an update check asks the network at all: the minute of the cache and the delay after a failure, for
    one check and over every run. */
module UpdateDeadlines {
  import opened Options
  import opened Updates
  import UpdateMetadata
  import Versions

  /** The payload was accepted under the channel, address, keys and requirement now in force, and is trusted if
      signatures are required. */
  predicate UnderPolicy(p: Payload, s: Settings) {
    && p.policy.Some? && p.policy.value.channel == s.channel && p.policy.value.url == s.url
    && p.policy.value.signatureRequired == s.signatureRequired && p.policy.value.legacyKey == s.legacyKey
    && p.policy.value.stableKeys == s.stableKeys && p.policy.value.betaKeys == s.betaKeys
    && (s.signatureRequired ==> p.trusted)
  }

  /** An unforced check answers from the store while a failure's delay lasts and the stored payload is under
      the policy; otherwise from the cache until that expires; and otherwise it is the forced check. */
  lemma UnforcedDecides(st: Store, cache: Cache, s: Settings, x: Input)
    requires s.enabled && !x.force
    ensures var waiting := st.backoffUntil.Some? && x.now < st.backoffUntil.value;
            var fresh_ := cache.payload.Some? && x.mono < cache.expires;
            Check(st, cache, s, x) ==
              if waiting && st.payload.Some? && UnderPolicy(st.payload.value, s)
              then Result(st, cache, st.payload.value.(source := CachedAfterError))
              else if fresh_ && UnderPolicy(cache.payload.value, s)
              then Result(st, cache, cache.payload.value)
              else Check(st, cache, s, x.(force := true))
  {
    SamePolicy(st, cache, s);
    hide Network, ReadVersion, Publishable, SaveSuccess, SaveFailure, Unsigned, BasePayload, UnderPolicy, PolicyOf;
    SameNetwork(st, s, x);
  }

  lemma SamePolicy(st: Store, cache: Cache, s: Settings)
    ensures Actionable(st, s) <==> st.payload.Some? && UnderPolicy(st.payload.value, s)
    ensures forall mono :: CacheHit(cache, s, mono) <==>
              cache.payload.Some? && UnderPolicy(cache.payload.value, s) && mono < cache.expires
  {
  }

  lemma SameNetwork(st: Store, s: Settings, x: Input)
    ensures Network(st, s, x.(force := true)) == Network(st, s, x)
  {
    hide FromFeed, FromReleases, TrySave;
  }

  /** Once both deadlines are over, an unforced check is the forced one. */
  lemma AfterDeadlines(st: Store, cache: Cache, s: Settings, x: Input)
    requires cache.payload == None || cache.expires <= x.mono
    requires st.backoffUntil == None || st.backoffUntil.value <= x.now
    ensures Check(st, cache, s, x) == Check(st, cache, s, x.(force := true))
  {
    if s.enabled && !x.force {
      UnforcedDecides(st, cache, s, x);
    } else if x.force {
      assert x.(force := true) == x;
    }
    hide Network, ReadVersion, Publishable, SaveSuccess, SaveFailure, Unsigned, UnderPolicy;
  }

  /** The check asked the sources and was answered by one of them. */
  predicate Answered(cache: Cache, x: Input, r: Result) {
    && (x.force || cache.payload == None || cache.expires <= x.mono)
    && r.status.source in {FromManifest, FromEnvironment, FromGithub}
  }

  lemma AnsweredResult(st: Store, cache: Cache, s: Settings, x: Input)
    requires Answered(cache, x, Check(st, cache, s, x))
    ensures var r := Check(st, cache, s, x);
            && s.enabled && r.cache == Cache(Some(r.status), x.mono + 60) && r.store.backoffUntil == None
            && UnderPolicy(r.status, s)
  {
    hide Verify, RejectedAsReplay, ReadVersion, Publishable, Versions.IsNewer, SaveTrust;
    AnsweredByFeed(st, s, x.fetch);
  }

  lemma AnsweredByFeed(st: Store, s: Settings, fetch: Fetch)
    ensures var found := FromFeed(st, s, fetch); found.Some? ==> UnderPolicy(found.value.0, s)
  {
    if fetch.Fetched? { VerifiedChannel(s, fetch.document); }
    hide Verify, RejectedAsReplay, Versions.IsNewer;
  }

  /** For the next 60 seconds, under the same policy, every unforced check gives the same answer and touches
      nothing, whatever the feed says by then. */
  lemma ServedForAMinute(st: Store, cache: Cache, s: Settings, x: Input, later: Settings, y: Input)
    requires Answered(cache, x, Check(st, cache, s, x))
    requires later.enabled && later.channel == s.channel && later.url == s.url && later.legacyKey == s.legacyKey
    requires later.signatureRequired == s.signatureRequired
    requires later.stableKeys == s.stableKeys && later.betaKeys == s.betaKeys
    requires !y.force && y.mono < x.mono + 60
    ensures var r := Check(st, cache, s, x); Check(r.store, r.cache, later, y) == r
  {
    var r := Check(st, cache, s, x);
    AnsweredResult(st, cache, s, x);
    UnforcedDecides(r.store, r.cache, later, y);
    hide Check;
  }

  // ---------------------------------------------------------------- over every run

  /** The same in a run: the next check of the process, within the minute and under the same settings, repeats
      the status; the first one after a restart is never answered from the cache. */
  lemma NextInRun(stores: seq<Store>, caches: seq<Cache>, steps: seq<Step>, i: nat)
    requires IsRun(stores, caches, steps) && i + 1 < |steps|
    requires !steps[i + 1].input.force && steps[i + 1].settings == steps[i].settings
    ensures var r := Check(stores[i], CacheAt(caches, steps, i), steps[i].settings, steps[i].input);
            Answered(CacheAt(caches, steps, i), steps[i].input, r) ==>
              && (!steps[i + 1].restarted && steps[i + 1].input.mono < steps[i].input.mono + 60 ==>
                    StatusAt(stores, caches, steps, i + 1) == r.status && stores[i + 2] == stores[i + 1])
              && (steps[i + 1].restarted ==>
                    StatusAt(stores, caches, steps, i + 1) ==
                      Check(stores[i + 1], Cache(None, 0), steps[i + 1].settings,
                            steps[i + 1].input.(force := true)).status)
  {
    hide Check, Answered;
    var st, cache, s, x := stores[i], CacheAt(caches, steps, i), steps[i].settings, steps[i].input;
    var r, y := Check(st, cache, s, x), steps[i + 1].input;
    assert stores[i + 1] == r.store && caches[i + 1] == r.cache;
    if Answered(cache, x, r) {
      AnsweredResult(st, cache, s, x);
      if y.mono < x.mono + 60 { ServedForAMinute(st, cache, s, x, s, y); }
      if steps[i + 1].restarted { AfterDeadlines(r.store, Cache(None, 0), s, y); }
    }
  }

  /** Neither deadline of this state lies after these times. */
  predicate DeadlinesBy(st: Store, cache: Cache, mono: int, now: int) {
    && (cache.payload == None || cache.expires <= mono)
    && (st.backoffUntil == None || st.backoffUntil.value <= now)
  }

  lemma DeadlinesStep(st: Store, cache: Cache, s: Settings, x: Input, mono: int, now: int)
    requires DeadlinesBy(st, cache, mono, now) && x.mono + 60 <= mono && x.now + 76800 + x.jitter <= now
    ensures var r := Check(st, cache, s, x); DeadlinesBy(r.store, r.cache, mono, now)
  {
    CacheStep(st, cache, s, x);
    BackoffStep(st, cache, s, x, now);
    hide Check;
  }

  lemma CacheStep(st: Store, cache: Cache, s: Settings, x: Input)
    ensures var r := Check(st, cache, s, x); r.cache == cache || r.cache.expires == x.mono + 60
  {
    hide Network, Actionable, CacheHit, InBackoff, ReadVersion, Publishable, SaveSuccess, SaveFailure;
    hide Unsigned, PolicyOf, BasePayload;
  }

  lemma BackoffStep(st: Store, cache: Cache, s: Settings, x: Input, now: int)
    requires (st.backoffUntil == None || st.backoffUntil.value <= now) && x.now + 76800 + x.jitter <= now
    ensures var after := Check(st, cache, s, x).store;
            after.backoffUntil == None || after.backoffUntil.value <= now
  {
    StoreAfterCheck(st, cache, s, x);
    NetworkDeadlines(st, s, x, now);
    OverrideDeadline(st, s, x);
    hide Check, Network, SaveSuccess, Unsigned, BaseBackoff;
  }

  lemma OverrideDeadline(st: Store, s: Settings, x: Input)
    ensures forall version ::
              var after := SaveSuccess(st, Unsigned(FromEnvironment, s.channel, version, s), None, x.fault).store;
              after.backoffUntil == None || after.backoffUntil == st.backoffUntil
  {
    hide Unsigned;
  }

  lemma NetworkDeadlines(st: Store, s: Settings, x: Input, now: int)
    requires (st.backoffUntil == None || st.backoffUntil.value <= now) && x.now + 76800 + x.jitter <= now
    ensures var after := Network(st, s, x).store;
            && (after.backoffUntil == None || after.backoffUntil.value <= now)
            && x.now + BaseBackoff(after.failures + 1) + x.jitter <= now
  {
    var after := Network(st, s, x).store;
    BackoffGrowsToPlateau(after.failures + 1);
    SavedDeadline(st, FromFeed(st, s, x.fetch), x.fault, now);
    SavedDeadline(TrySave(st, FromFeed(st, s, x.fetch), x.fault).store, FromReleases(s, x.github), x.githubFault, now);
    hide FromFeed, FromReleases, TrySave, BaseBackoff;
  }

  lemma SavedDeadline(st: Store, found: Option<(Payload, Option<string>)>, fault: Fault, now: int)
    requires st.backoffUntil == None || st.backoffUntil.value <= now
    ensures var after := TrySave(st, found, fault).store;
            after.backoffUntil == None || after.backoffUntil.value <= now
  {
  }

  /** In every run the cache expires within 60 seconds of the last check, and a failure delays the next question
      by at most 76800 seconds and its jitter. */
  lemma {:induction false} DeadlinesAreNear(stores: seq<Store>, caches: seq<Cache>, steps: seq<Step>, j: nat,
                                            mono: int, now: int)
    requires IsRun(stores, caches, steps) && j <= |steps| && DeadlinesBy(stores[0], caches[0], mono, now)
    requires forall k :: 0 <= k < j ==>
               var x := steps[k].input; x.mono + 60 <= mono && x.now + 76800 + x.jitter <= now
    ensures DeadlinesBy(stores[j], caches[j], mono, now)
  {
    hide Check;
    if j > 0 {
      DeadlinesAreNear(stores, caches, steps, j - 1, mono, now);
      var step := steps[j - 1];
      DeadlinesStep(stores[j - 1], CacheAt(caches, steps, j - 1), step.settings, step.input, mono, now);
    }
  }

  /** The manifest is well formed, for the selected channel, signed under its ring, and neither behind nor
      beside the channel's mark. */
  ghost predicate Acceptable(st: Store, s: Settings, m: UpdateMetadata.Manifest) {
    && st.replay.Anchors? && Genuine(s, m)
    && (forall c :: c in st.replay.marks ==> st.replay.marks[c].sequence >= 1)
    && (s.channel in st.replay.marks ==>
          var mark := st.replay.marks[s.channel];
          mark.sequence < UpdateMetadata.SequenceOf(m) || mark == AnchorOf(m))
  }

  ghost predicate Genuine(s: Settings, m: UpdateMetadata.Manifest) {
    && UpdateMetadata.Normalise(m, true).Some?
    && UpdateMetadata.ChannelText(UpdateMetadata.Normalise(m, true).value) == ChannelName(s.channel)
    && exists id :: UpdateMetadata.Verifies(m, Ring(s), id)
  }

  /** While nothing but this manifest is on the feed it stays acceptable, whatever answers and failures there
      are in between. */
  lemma AcceptableStep(st: Store, cache: Cache, s: Settings, x: Input, m: UpdateMetadata.Manifest)
    requires Sound(st) && s.signatureRequired && Acceptable(st, s, m)
    requires x.fetch.Fetched? ==> x.fetch.document == V2(m)
    ensures Acceptable(Check(st, cache, s, x).store, s, m)
  {
    GenuineMark(s, m);
    MarksAfter(st, cache, s, x, m);
    MarkKeepsAcceptable(st, Check(st, cache, s, x).store, s, m);
    hide Genuine, AnchorOf, Check, Sound, Acceptable;
  }

  lemma MarkKeepsAcceptable(st: Store, after: Store, s: Settings, m: UpdateMetadata.Manifest)
    requires Acceptable(st, s, m) && AnchorOf(m).sequence == UpdateMetadata.SequenceOf(m) >= 1
    requires after.replay.Anchors?
    requires after.replay.marks == st.replay.marks || after.replay.marks == st.replay.marks[s.channel := AnchorOf(m)]
    ensures Acceptable(after, s, m)
  {
    hide Genuine, AnchorOf, UpdateMetadata.SequenceOf;
  }

  lemma MarksAfter(st: Store, cache: Cache, s: Settings, x: Input, m: UpdateMetadata.Manifest)
    requires Sound(st) && s.signatureRequired
    requires x.fetch.Fetched? ==> x.fetch.document == V2(m)
    ensures var after := Check(st, cache, s, x).store;
            && after.replay.Anchors?
            && (after.replay.marks == st.replay.marks
                || after.replay.marks == st.replay.marks[s.channel := AnchorOf(m)])
  {
    StoreAfterCheck(st, cache, s, x);
    FeedMarks(st, s, x, m);
    OverrideMarks(st, s, x);
    FailureFlags(Network(st, s, x).store, x);
    hide Check, Network, SaveFailure, SaveSuccess, Unsigned, AnchorOf;
  }

  lemma OverrideMarks(st: Store, s: Settings, x: Input)
    requires Sound(st)
    ensures forall version ::
              SaveSuccess(st, Unsigned(FromEnvironment, s.channel, version, s), None, x.fault).store.replay == st.replay
  {
    hide Versions.IsNewer;
  }

  lemma GenuineMark(s: Settings, m: UpdateMetadata.Manifest)
    requires Genuine(s, m)
    ensures AnchorOf(m).sequence == UpdateMetadata.SequenceOf(m) >= 1
  {
    VerifiedV2(s, m);
    hide VerifyV2, UpdateMetadata.Normalise, UpdateMetadata.Payload, UpdateMetadata.Verifies;
    hide UpdateMetadata.ChannelText, UpdateMetadata.SequenceOf, Ring;
    if VerifyV2(s, m).None? { assert false; }
  }

  lemma FeedMarks(st: Store, s: Settings, x: Input, m: UpdateMetadata.Manifest)
    requires Sound(st) && s.signatureRequired
    requires x.fetch.Fetched? ==> x.fetch.document == V2(m)
    ensures var after := Network(st, s, x).store;
            && after.replay.Anchors?
            && (after.replay.marks == st.replay.marks
                || after.replay.marks == st.replay.marks[s.channel := AnchorOf(m)])
  {
    hide FromFeed, FromReleases, AnchorOf;
    FeedPayload(st, s, x.fetch, m);
  }

  /** What the feed gives is unmarked, marked already, or this manifest. */
  lemma FeedPayload(st: Store, s: Settings, fetch: Fetch, m: UpdateMetadata.Manifest)
    requires Sound(st) && s.signatureRequired && (fetch.Fetched? ==> fetch.document == V2(m))
    ensures var found := FromFeed(st, s, fetch);
            found.Some? && Anchorable(found.value.0) ==>
              var p := found.value.0;
              Marked(st, p) || (p.channel == s.channel && Anchor(p.sequence.n, p.hash.value) == AnchorOf(m))
  {
    if fetch.Fetched? { VerifiedV2(s, m); }
    hide VerifyV2, UpdateMetadata.Normalise, UpdateMetadata.Payload, UpdateMetadata.Verifies, PolicyOf;
    hide UpdateMetadata.ChannelText, UpdateMetadata.SequenceOf, Ring, RejectedAsReplay, Versions.IsNewer;
  }

  lemma {:induction false} StaysAcceptable(stores: seq<Store>, caches: seq<Cache>, steps: seq<Step>, i: nat, j: nat,
                                           s: Settings, m: UpdateMetadata.Manifest)
    requires IsRun(stores, caches, steps) && i <= j <= |steps| && Sound(stores[i])
    requires s.signatureRequired && Acceptable(stores[i], s, m)
    requires forall k :: i <= k < j ==>
               && steps[k].settings == s
               && (steps[k].input.fetch.Fetched? ==> steps[k].input.fetch.document == V2(m))
    ensures Sound(stores[j]) && Acceptable(stores[j], s, m)
  {
    hide Check, Acceptable, Sound;
    if i < j {
      StaysAcceptable(stores, caches, steps, i, j - 1, s, m);
      MarksNeverGoBack(stores, caches, steps, i, j);
      AcceptableStep(stores[j - 1], CacheAt(caches, steps, j - 1), s, steps[j - 1].input, m);
    }
  }

  lemma AcceptableIsTaken(st: Store, cache: Cache, s: Settings, x: Input, m: UpdateMetadata.Manifest)
    requires Sound(st) && s.enabled && s.signatureRequired && Acceptable(st, s, m)
    requires x.fetch.Fetched? && x.fetch.document == V2(m) && x.fault == NoFault
    requires DeadlinesBy(st, cache, x.mono, x.now)
    ensures var r := Check(st, cache, s, x);
            && r.status.source == FromManifest && r.store.payload == Some(r.status)
            && r.status.latest == UpdateMetadata.VersionText(m)
            && r.status.updateAvailable == Versions.IsNewer(UpdateMetadata.VersionText(m), s.appVersion)
  {
    AfterDeadlines(st, cache, s, x);
    FreshManifestIsTaken(st, cache, s, x.(force := true));
    hide Check, Sound, AnchorOf, UpdateMetadata.Normalise, UpdateMetadata.Verifies, UpdateMetadata.ChannelText;
    hide UpdateMetadata.SequenceOf, UpdateMetadata.VersionText, Ring, Versions.IsNewer;
  }

  /** A release that stays on the feed is offered: a manifest that was acceptable at some point of a run is taken
      by any later unforced check that fetches it after both deadlines, whatever failed fetches, unchanged
      answers, restarts and failed saves came between, and is offered exactly when it is newer. */
  lemma StandingReleaseIsOffered(stores: seq<Store>, caches: seq<Cache>, steps: seq<Step>, i: nat, j: nat,
                                 s: Settings, m: UpdateMetadata.Manifest)
    requires IsRun(stores, caches, steps) && i <= j < |steps| && Sound(stores[i])
    requires s.enabled && s.signatureRequired && Acceptable(stores[i], s, m)
    requires forall k :: i <= k <= j ==>
               && steps[k].settings == s
               && (steps[k].input.fetch.Fetched? ==> steps[k].input.fetch.document == V2(m))
    requires steps[j].input.fetch.Fetched? && steps[j].input.fault == NoFault
    requires DeadlinesBy(stores[j], CacheAt(caches, steps, j), steps[j].input.mono, steps[j].input.now)
    ensures var status := StatusAt(stores, caches, steps, j);
            && status.source == FromManifest && stores[j + 1].payload == Some(status)
            && status.latest == UpdateMetadata.VersionText(m)
            && status.updateAvailable == Versions.IsNewer(UpdateMetadata.VersionText(m), s.appVersion)
  {
    hide Check, Sound, Acceptable, DeadlinesBy, UpdateMetadata.VersionText, Versions.IsNewer;
    StaysAcceptable(stores, caches, steps, i, j, s, m);
    AcceptableIsTaken(stores[j], CacheAt(caches, steps, j), s, steps[j].input, m);
  }

  /** And both deadlines come: such a check is any one 60 seconds on the monotonic clock and 76800 seconds and
      the largest jitter on the other after every check before it. */
  lemma ReleaseIsOfferedInTime(stores: seq<Store>, caches: seq<Cache>, steps: seq<Step>, i: nat, j: nat,
                               s: Settings, m: UpdateMetadata.Manifest)
    requires IsRun(stores, caches, steps) && i <= j < |steps| && Sound(stores[i])
    requires s.enabled && s.signatureRequired && Acceptable(stores[i], s, m)
    requires forall k :: i <= k <= j ==>
               && steps[k].settings == s
               && (steps[k].input.fetch.Fetched? ==> steps[k].input.fetch.document == V2(m))
    requires steps[j].input.fetch.Fetched? && steps[j].input.fault == NoFault
    requires DeadlinesBy(stores[0], caches[0], steps[j].input.mono, steps[j].input.now)
    requires forall k :: 0 <= k < j ==>
               && steps[k].input.mono + 60 <= steps[j].input.mono
               && steps[k].input.now + 76800 + steps[k].input.jitter <= steps[j].input.now
    ensures StatusAt(stores, caches, steps, j).latest == UpdateMetadata.VersionText(m)
    ensures StatusAt(stores, caches, steps, j).updateAvailable <==>
              Versions.IsNewer(UpdateMetadata.VersionText(m), s.appVersion)
  {
    hide Check, Sound, Acceptable, StatusAt;
    DeadlinesAreNear(stores, caches, steps, j, steps[j].input.mono, steps[j].input.now);
    StandingReleaseIsOffered(stores, caches, steps, i, j, s, m);
  }
}
