/** The update checker's trust state: what it accepts, what it saves, and what it reports. */
module Updates {
  import opened Options
  import opened Numbers
  import UpdateMetadata
  import Versions

  datatype Channel = Stable | Beta

  function ChannelName(c: Channel): string { if c == Stable then "stable" else "beta" }

  /** An ideal SHA-256: of the canonical payload of a schema-2 manifest, or of a legacy document. */
  datatype Hash = PayloadSha(payload: UpdateMetadata.Manifest) | LegacySha(document: nat)

  /** A legacy HMAC key. */
  type Key = nat

  type Keys = map<string, UpdateMetadata.PublicKey>

  datatype Settings = Settings(
    enabled: bool, channel: Channel, url: string, signatureRequired: bool, legacyKey: Option<Key>,
    stableKeys: Keys, betaKeys: Keys, appVersion: string, envLatest: string)

  /** The trust policy a payload was accepted under; the application version is not part of it. */
  datatype Policy = Policy(channel: Channel, url: string, signatureRequired: bool, legacyKey: Option<Key>,
                           stableKeys: Keys, betaKeys: Keys)

  function PolicyOf(s: Settings): Policy {
    Policy(s.channel, s.url, s.signatureRequired, s.legacyKey, s.stableKeys, s.betaKeys)
  }

  function Ring(s: Settings): UpdateMetadata.Keyring { map["stable" := s.stableKeys, "beta" := s.betaKeys] }

  /** JSON booleans are integers to the replay test but not to the code that saves the mark. */
  datatype SequenceValue = NoSequence | Int(n: int) | Bool(b: bool) {
    function AsInt(): Option<int> {
      match this case NoSequence => None case Int(n) => Some(n) case Bool(b) => Some(if b then 1 else 0)
    }
  }

  datatype Source = FromManifest | FromEnvironment | FromGithub | CachedAfterError | FromError | Disabled

  datatype Payload = Payload(
    source: Source, channel: Channel, latest: string, updateAvailable: bool,
    trusted: bool, schema: int, sequence: SequenceValue, hash: Option<Hash>, policy: Option<Policy>)

  function BasePayload(source: Source, s: Settings): Payload {
    Payload(source, s.channel, "", false, false, 0, NoSequence, None, None)
  }

  // ---------------------------------------------------------------- what is accepted

  datatype Document =
    | V2(manifest: UpdateMetadata.Manifest)
    | Legacy(wellFormed: bool, channel: Channel, version: string, schema: int, legacySequence: SequenceValue,
             document: nat, mac: Option<Key>)

  datatype Manifest = Manifest(channel: Channel, version: string, trusted: bool, schema: int,
                               sequence: SequenceValue, hash: Option<Hash>)

  /** verify_manifest_trust and validate_manifest. */
  function Verify(s: Settings, d: Document): Option<Manifest> {
    match d
    case V2(manifest) => VerifyV2(s, manifest)
    case Legacy(wellFormed, channel, version, schema, sequence, document, mac) =>
      var hash := Some(LegacySha(document));
      if !wellFormed || channel != s.channel then None
      else if s.legacyKey.Some? then
        if mac != s.legacyKey then None else Some(Manifest(channel, version, true, schema, sequence, hash))
      else if s.signatureRequired then None
      else Some(Manifest(channel, version, false, schema, sequence, hash))
  }

  function VerifyV2(s: Settings, m: UpdateMetadata.Manifest): Option<Manifest> {
    var n, payload := UpdateMetadata.Normalise(m, true), UpdateMetadata.Payload(m);
    if n.None? || payload.None? || UpdateMetadata.ChannelText(n.value) != ChannelName(s.channel) then None
    else
      var trusted := SomeVerifies(n.value, Ring(s), ChannelName(s.channel), payload.value);
      if s.signatureRequired && !trusted then None
      else Some(Manifest(s.channel, UpdateMetadata.VersionText(n.value), trusted, 2,
                         Int(UpdateMetadata.SequenceOf(n.value)), Some(PayloadSha(payload.value))))
  }

  predicate SomeVerifies(n: UpdateMetadata.Manifest, ring: UpdateMetadata.Keyring, channel: string,
                         payload: UpdateMetadata.Manifest)
  {
    channel in ring
    && exists e :: e in UpdateMetadata.EntriesOf(n) && UpdateMetadata.EntryVerifies(e, ring[channel], payload)
  }

  /** Trust in a schema-2 manifest means that some key id of the channel's ring verifies. */
  lemma VerifiedV2(s: Settings, m: UpdateMetadata.Manifest)
    ensures VerifyV2(s, m).Some? <==>
              && UpdateMetadata.Normalise(m, true).Some?
              && UpdateMetadata.ChannelText(UpdateMetadata.Normalise(m, true).value) == ChannelName(s.channel)
              && (s.signatureRequired ==> exists id :: UpdateMetadata.Verifies(m, Ring(s), id))
    ensures VerifyV2(s, m).Some? ==>
              var v := VerifyV2(s, m).value;
              && v.channel == s.channel && v.schema == 2 && UpdateMetadata.Payload(m).Some?
              && v.hash == Some(PayloadSha(UpdateMetadata.Payload(m).value))
              && v.sequence == Int(UpdateMetadata.SequenceOf(m)) && UpdateMetadata.SequenceOf(m) >= 1
              && v.version == UpdateMetadata.VersionText(m)
              && (v.trusted <==> exists id :: UpdateMetadata.Verifies(m, Ring(s), id))
  {
    hide UpdateMetadata.Normalise, UpdateMetadata.Payload, UpdateMetadata.EntriesOf, UpdateMetadata.Verifies, Ring;
    hide UpdateMetadata.VersionText, UpdateMetadata.SequenceOf, UpdateMetadata.ChannelText, SomeVerifies;
    if UpdateMetadata.Normalise(m, true).Some? {
      UpdateMetadata.RequiredIsNormal(m);
      UpdateMetadata.PayloadOfNormal(m);
      UpdateMetadata.KeptFields(m);
      SomeVerifiesMeaning(m, Ring(s));
    }
  }

  lemma SomeVerifiesMeaning(m: UpdateMetadata.Manifest, ring: UpdateMetadata.Keyring)
    requires UpdateMetadata.Normalise(m, true).Some? && UpdateMetadata.Payload(m).Some?
    ensures var n := UpdateMetadata.Normalise(m, true).value;
            SomeVerifies(n, ring, UpdateMetadata.ChannelText(n), UpdateMetadata.Payload(m).value) <==>
              exists id :: UpdateMetadata.Verifies(m, ring, id)
  {
    UpdateMetadata.RequiredIsNormal(m);
    hide UpdateMetadata.Normalise, UpdateMetadata.Payload, UpdateMetadata.EntriesOf, UpdateMetadata.EntryVerifies;
    hide UpdateMetadata.ChannelText;
    var n, payload := UpdateMetadata.Normalise(m, true).value, UpdateMetadata.Payload(m).value;
    var channel := UpdateMetadata.ChannelText(n);
    if channel in ring {
      if e :| e in UpdateMetadata.EntriesOf(n) && UpdateMetadata.EntryVerifies(e, ring[channel], payload) {
        assert UpdateMetadata.Verifies(m, ring, e.keyId);
      }
      if id :| UpdateMetadata.Verifies(m, ring, id) {
        assert UpdateMetadata.VerifiesIn(UpdateMetadata.EntriesOf(n), ring[channel], payload, id);
      }
    }
  }

  function ApplyManifest(m: Manifest, source: Source, s: Settings): Payload {
    Payload(source, m.channel, m.version, Versions.IsNewer(m.version, s.appVersion),
            m.trusted, if m.schema == 0 then 1 else m.schema, m.sequence, m.hash, Some(PolicyOf(s)))
  }

  // ---------------------------------------------------------------- what is saved

  datatype Anchor = Anchor(sequence: int, hash: Hash)

  /** The stored record of marks; unreadable if it is no JSON object. */
  datatype ReplayState = Unreadable | Anchors(marks: map<Channel, Anchor>)

  datatype Store = Store(payload: Option<Payload>, replay: ReplayState, etag: Option<string>,
                         failures: nat, backoffUntil: Option<int>)

  /** A trusted schema-2 payload with an integer sequence moves its channel's mark. */
  predicate Anchorable(p: Payload) {
    p.trusted && p.schema == 2 && p.sequence.Int? && p.hash.Some?
  }

  /** One transaction: the payload and the mark it implies. */
  function SaveTrust(st: Store, p: Payload): Store {
    var marks := if st.replay.Anchors? then st.replay.marks else map[];
    st.(payload := Some(p),
        replay := if Anchorable(p) then Anchors(marks[p.channel := Anchor(p.sequence.n, p.hash.value)]) else st.replay)
  }

  function SaveRest(st: Store, etag: Option<string>): Store {
    st.(failures := 0, backoffUntil := None, etag := if etag.Some? && etag.value != "" then etag else st.etag)
  }

  /** Where saving may be cut short. */
  datatype Fault = NoFault | BeforeCommit | AfterCommit

  datatype Saving = Saving(store: Store, ok: bool)

  function SaveSuccess(st: Store, p: Payload, etag: Option<string>, fault: Fault): Saving {
    match fault
    case NoFault => Saving(SaveRest(SaveTrust(st, p), etag), true)
    case BeforeCommit => Saving(st, false)
    case AfterCommit => Saving(SaveTrust(st, p), false)
  }

  function BaseBackoff(failures: nat): nat
    requires failures >= 1
  {
    var b := 300 * Power2(if failures - 1 < 8 then failures - 1 else 8);
    if b < 86400 then b else 86400
  }

  function SaveFailure(st: Store, now: int, jitter: nat): Store {
    st.(failures := st.failures + 1, backoffUntil := Some(now + BaseBackoff(st.failures + 1) + jitter))
  }

  // ---------------------------------------------------------------- replay protection

  predicate Invalid(r: ReplayState) {
    r.Unreadable? || exists c :: c in r.marks && r.marks[c].sequence < 1
  }

  function ReplayAnchor(st: Store, channel: Channel): Option<Anchor> {
    if st.replay.Anchors? && channel in st.replay.marks then Some(st.replay.marks[channel])
    else if st.payload.Some? && st.payload.value.channel == channel && Anchorable(st.payload.value)
    then Some(Anchor(st.payload.value.sequence.n, st.payload.value.hash.value))
    else None
  }

  predicate Replayed(st: Store, channel: Channel, sequence: int, hash: Hash) {
    || Invalid(st.replay)
    || (var anchor := ReplayAnchor(st, channel);
        && anchor.Some?
        && (sequence < anchor.value.sequence || (sequence == anchor.value.sequence && hash != anchor.value.hash)))
  }

  predicate RejectedAsReplay(st: Store, s: Settings, m: Manifest) {
    m.sequence.AsInt().Some? && m.hash.Some? && Replayed(st, s.channel, m.sequence.AsInt().value, m.hash.value)
  }

  // ---------------------------------------------------------------- one check

  datatype Fetch = FetchFailed | NotModified(etag: Option<string>) | Fetched(document: Document, etag: Option<string>)

  datatype Release = NoRelease | Release(tag: string, etag: Option<string>)

  datatype Input = Input(force: bool, now: int, mono: int, jitter: nat, fetch: Fetch, github: Release,
                         fault: Fault, githubFault: Fault)

  datatype Cache = Cache(payload: Option<Payload>, expires: int)

  const CACHE_SECONDS := 60

  datatype Result = Result(store: Store, cache: Cache, status: Payload)

  predicate Actionable(st: Store, s: Settings) {
    && st.payload.Some? && st.payload.value.policy == Some(PolicyOf(s))
    && (!s.signatureRequired || st.payload.value.trusted)
  }

  predicate InBackoff(st: Store, now: int) { st.backoffUntil.Some? && now < st.backoffUntil.value }

  predicate CacheHit(cache: Cache, s: Settings, mono: int) {
    && cache.payload.Some? && cache.payload.value.policy == Some(PolicyOf(s))
    && (!s.signatureRequired || cache.payload.value.trusted)
    && mono < cache.expires
  }

  function ReadVersion(text: string): Option<string> {
    var t := Versions.CleanVersion(text);
    if Versions.ParseLoose(t).Some? then Some(t) else None
  }

  predicate Publishable(channel: Channel, version: string) {
    channel == Stable ==> Versions.ParseLoose(version).Some? && Versions.ParseLoose(version).value.pre == []
  }

  /** A status taken from an unsigned source: an environment override or a GitHub release. */
  function Unsigned(source: Source, channel: Channel, version: string, s: Settings): Payload {
    ApplyManifest(Manifest(channel, version, false, 1, NoSequence, None), source, s)
  }

  /** The signed feed: the payload to save and the entity tag beside it, if it is acceptable. */
  function FromFeed(st: Store, s: Settings, fetch: Fetch): Option<(Payload, Option<string>)> {
    match fetch
    case FetchFailed => None
    case NotModified(etag) =>
      var kept := if etag.Some? && etag.value != "" then etag else st.etag;
      if Actionable(st, s) then Some((st.payload.value.(source := FromManifest), kept)) else None
    case Fetched(document, etag) =>
      var m := Verify(s, document);
      if m.None? || RejectedAsReplay(st, s, m.value) then None
      else Some((ApplyManifest(m.value, FromManifest, s), etag))
  }

  function FromReleases(s: Settings, release: Release): Option<(Payload, Option<string>)> {
    match release
    case NoRelease => None
    case Release(tag, etag) =>
      var version := ReadVersion(tag);
      if version.None? || !Publishable(Stable, version.value) then None
      else Some((Unsigned(FromGithub, Stable, version.value, s), etag))
  }

  predicate FallbackAllowed(s: Settings) { !s.signatureRequired && s.legacyKey.None? }

  datatype Attempt = Accepted(store: Store, payload: Payload) | Refused(store: Store)

  function TrySave(st: Store, found: Option<(Payload, Option<string>)>, fault: Fault): Attempt {
    if found.None? then Refused(st)
    else
      var saving := SaveSuccess(st, found.value.0, found.value.1, fault);
      if saving.ok then Accepted(saving.store, found.value.0) else Refused(saving.store)
  }

  function Network(st: Store, s: Settings, x: Input): Attempt {
    var first := TrySave(st, FromFeed(st, s, x.fetch), x.fault);
    if first.Accepted? || !FallbackAllowed(s) then first
    else TrySave(first.store, FromReleases(s, x.github), x.githubFault)
  }

  function Check(st: Store, cache: Cache, s: Settings, x: Input): Result {
    if !s.enabled then Result(st, cache, BasePayload(Disabled, s))
    else if !x.force && InBackoff(st, x.now) && Actionable(st, s) then
      Result(st, cache, st.payload.value.(source := CachedAfterError))
    else if !x.force && CacheHit(cache, s, x.mono) then Result(st, cache, cache.payload.value)
    else
      var override := if s.envLatest != "" && !s.signatureRequired then ReadVersion(s.envLatest) else None;
      if override.Some? && Publishable(s.channel, override.value) then
        var p := Unsigned(FromEnvironment, s.channel, override.value, s);
        var saving := SaveSuccess(st, p, None, x.fault);
        if saving.ok then Result(saving.store, Cache(Some(p), x.mono + CACHE_SECONDS), p)
        else Result(saving.store, cache, BasePayload(FromError, s))
      else
        var attempt := Network(st, s, x);
        var status := if attempt.Accepted? then attempt.payload
                      else if Actionable(st, s) then st.payload.value.(source := CachedAfterError)
                      else BasePayload(FromError, s);
        var after := if attempt.Accepted? then attempt.store else SaveFailure(attempt.store, x.now, x.jitter);
        Result(after, Cache(Some(status), x.mono + CACHE_SECONDS), status)
  }

  class UpdateChecker {
    var store: Store
    var cache: Cache

    constructor (store: Store)
      ensures this.store == store && cache == Cache(None, 0)
    {
      this.store, cache := store, Cache(None, 0);
    }

    method Save(p: Payload, etag: Option<string>, fault: Fault) returns (ok: bool)
      modifies this`store
      ensures Saving(store, ok) == SaveSuccess(old(store), p, etag, fault)
    {
      if fault == BeforeCommit { return false; }
      store := SaveTrust(store, p);
      if fault == AfterCommit { return false; }
      store := SaveRest(store, etag);
      ok := true;
    }

    method CheckForUpdates(s: Settings, x: Input) returns (status: Payload)
      modifies this
      ensures Result(store, cache, status) == Check(old(store), old(cache), s, x)
    {
      hide Network, InBackoff, ReadVersion, Publishable, SaveSuccess, SaveFailure, Unsigned, PolicyOf;
      if !s.enabled { return BasePayload(Disabled, s); }
      var stored, actionable := store.payload, Actionable(store, s);
      if !x.force && InBackoff(store, x.now) && actionable {
        return stored.value.(source := CachedAfterError);
      }
      if !x.force && CacheHit(cache, s, x.mono) { return cache.payload.value; }
      if s.envLatest != "" && !s.signatureRequired {
        var version := ReadVersion(s.envLatest);
        if version.Some? && Publishable(s.channel, version.value) {
          status := Unsigned(FromEnvironment, s.channel, version.value, s);
          var ok := Save(status, None, x.fault);
          if !ok { return BasePayload(FromError, s); }
          cache := Cache(Some(status), x.mono + CACHE_SECONDS);
          return;
        }
      }
      var accepted := Refresh(s, x);
      if accepted.Some? {
        status := accepted.value;
      } else {
        store := SaveFailure(store, x.now, x.jitter);
        status := if actionable then stored.value.(source := CachedAfterError) else BasePayload(FromError, s);
      }
      cache := Cache(Some(status), x.mono + CACHE_SECONDS);
    }

    /** The signed feed first; GitHub releases only when no trust is required. */
    method Refresh(s: Settings, x: Input) returns (accepted: Option<Payload>)
      modifies this`store
      ensures Network(old(store), s, x) == if accepted.Some? then Accepted(store, accepted.value) else Refused(store)
    {
      hide FromFeed, FromReleases, SaveSuccess;
      accepted := None;
      var found := FromFeed(store, s, x.fetch);
      var ok := false;
      if found.Some? { ok := Save(found.value.0, found.value.1, x.fault); }
      if !ok && FallbackAllowed(s) {
        found := FromReleases(s, x.github);
        if found.Some? { ok := Save(found.value.0, found.value.1, x.githubFault); }
      }
      if ok { accepted := Some(found.value.0); }
    }
  }

  // ---------------------------------------------------------------- anchors over every run

  /** The marks are readable, and a saved payload that counts is the one its channel's mark names. */
  ghost predicate Sound(st: Store) {
    && st.replay.Anchors?
    && (st.payload.Some? && Anchorable(st.payload.value) ==> Marked(st, st.payload.value))
  }

  ghost predicate Marked(st: Store, p: Payload)
    requires st.replay.Anchors? && Anchorable(p)
  {
    p.channel in st.replay.marks && st.replay.marks[p.channel] == Anchor(p.sequence.n, p.hash.value)
  }

  /** No mark is lost or lowered, and none keeps its sequence while changing its hash. */
  ghost predicate Advances(a: Store, b: Store)
    requires a.replay.Anchors? && b.replay.Anchors?
  {
    forall c :: c in a.replay.marks ==>
      && c in b.replay.marks && a.replay.marks[c].sequence <= b.replay.marks[c].sequence
      && (a.replay.marks[c].sequence == b.replay.marks[c].sequence ==> a.replay.marks[c].hash == b.replay.marks[c].hash)
  }

  lemma SaveAdvances(st: Store, found: Option<(Payload, Option<string>)>, fault: Fault)
    requires Sound(st)
    requires found.Some? && Anchorable(found.value.0) ==>
               var p := found.value.0;
               p.channel in st.replay.marks ==>
                 var mark := st.replay.marks[p.channel];
                 mark.sequence <= p.sequence.n && (mark.sequence == p.sequence.n ==> mark.hash == p.hash.value)
    ensures var after := TrySave(st, found, fault).store; Sound(after) && Advances(st, after)
  {
  }

  /** What replay protection refuses when the marks are sound. */
  lemma ReplayDecides(st: Store, s: Settings, m: Manifest)
    requires Sound(st) && m.sequence.Int? && m.hash.Some?
    ensures !RejectedAsReplay(st, s, m) <==>
              && (forall c :: c in st.replay.marks ==> st.replay.marks[c].sequence >= 1)
              && (s.channel in st.replay.marks ==>
                    var mark := st.replay.marks[s.channel];
                    mark.sequence < m.sequence.n || mark == Anchor(m.sequence.n, m.hash.value))
  {
  }

  lemma FeedIsNewEnough(st: Store, s: Settings, fetch: Fetch)
    requires Sound(st) && FromFeed(st, s, fetch).Some?
    ensures var p := FromFeed(st, s, fetch).value.0;
            Anchorable(p) && p.channel in st.replay.marks ==>
              var mark := st.replay.marks[p.channel];
              mark.sequence <= p.sequence.n && (mark.sequence == p.sequence.n ==> mark.hash == p.hash.value)
  {
    if fetch.Fetched? {
      VerifiedChannel(s, fetch.document);
      var m := Verify(s, fetch.document).value;
      hide Verify, Versions.IsNewer, PolicyOf;
      if m.sequence.Int? && m.hash.Some? { ReplayDecides(st, s, m); }
      hide RejectedAsReplay, Sound;
    }
  }

  lemma VerifiedChannel(s: Settings, d: Document)
    ensures Verify(s, d).Some? ==> Verify(s, d).value.channel == s.channel
    ensures Verify(s, d).Some? && s.signatureRequired ==> Verify(s, d).value.trusted
  {
    hide UpdateMetadata.Normalise, UpdateMetadata.Payload, SomeVerifies;
  }

  lemma NetworkAdvances(st: Store, s: Settings, x: Input)
    requires Sound(st)
    ensures var after := Network(st, s, x).store; Sound(after) && Advances(st, after)
  {
    hide FromFeed, FromReleases, TrySave, Anchorable, Sound, Advances;
    var feed := FromFeed(st, s, x.fetch);
    if feed.Some? { FeedIsNewEnough(st, s, x.fetch); }
    SaveAdvances(st, feed, x.fault);
    ReleasesDoNotCount(s, x.github);
    var between := TrySave(st, feed, x.fault).store;
    SaveAdvances(between, FromReleases(s, x.github), x.githubFault);
    AdvancesTransitive(st, between, TrySave(between, FromReleases(s, x.github), x.githubFault).store);
  }

  lemma ReleasesDoNotCount(s: Settings, release: Release)
    ensures var found := FromReleases(s, release); found.Some? ==> !Anchorable(found.value.0)
  {
  }

  lemma AdvancesTransitive(a: Store, b: Store, c: Store)
    requires Sound(a) && Sound(b) && Sound(c) && Advances(a, b) && Advances(b, c)
    ensures Advances(a, c)
  {
  }

  /** The store after a check: untouched, saved from the override, or what the network part left. */
  lemma StoreAfterCheck(st: Store, cache: Cache, s: Settings, x: Input)
    ensures var after := Check(st, cache, s, x).store;
            || after == st
            || after == Network(st, s, x).store
            || after == SaveFailure(Network(st, s, x).store, x.now, x.jitter)
            || exists version ::
                 after == SaveSuccess(st, Unsigned(FromEnvironment, s.channel, version, s), None, x.fault).store
  {
    hide Network, Actionable, CacheHit, InBackoff, ReadVersion, Publishable, SaveSuccess, SaveFailure;
    hide Unsigned, PolicyOf, BasePayload;
  }

  lemma CheckAdvances(st: Store, cache: Cache, s: Settings, x: Input)
    requires Sound(st)
    ensures var after := Check(st, cache, s, x).store; Sound(after) && Advances(st, after)
  {
    StoreAfterCheck(st, cache, s, x);
    NetworkAdvances(st, s, x);
    hide Check, Network;
    assert forall version :: !Anchorable(Unsigned(FromEnvironment, s.channel, version, s));
  }

  /** A run: checks under changing settings, and restarts, which only forget the cache. */
  datatype Step = Step(settings: Settings, input: Input, restarted: bool)

  ghost predicate IsRun(stores: seq<Store>, caches: seq<Cache>, steps: seq<Step>) {
    && |stores| == |caches| == |steps| + 1
    && forall i :: 0 <= i < |steps| ==>
         var r := Check(stores[i], CacheAt(caches, steps, i), steps[i].settings, steps[i].input);
         stores[i + 1] == r.store && caches[i + 1] == r.cache
  }

  /** The cache the i-th check finds. */
  function CacheAt(caches: seq<Cache>, steps: seq<Step>, i: nat): Cache
    requires i < |caches| && i < |steps|
  {
    if steps[i].restarted then Cache(None, 0) else caches[i]
  }

  /** What the i-th check reports. */
  function StatusAt(stores: seq<Store>, caches: seq<Cache>, steps: seq<Step>, i: nat): Payload
    requires i < |stores| && i < |caches| && i < |steps|
  {
    Check(stores[i], CacheAt(caches, steps, i), steps[i].settings, steps[i].input).status
  }

  lemma {:induction false} MarksNeverGoBack(stores: seq<Store>, caches: seq<Cache>, steps: seq<Step>, i: nat, j: nat)
    requires IsRun(stores, caches, steps) && i <= j <= |steps| && Sound(stores[i])
    ensures Sound(stores[j]) && Advances(stores[i], stores[j])
  {
    hide Check;
    if i < j {
      MarksNeverGoBack(stores, caches, steps, i, j - 1);
      var step := steps[j - 1];
      CheckAdvances(stores[j - 1], CacheAt(caches, steps, j - 1), step.settings, step.input);
    }
  }

  /** Whatever the responses, flags, failures and channel switches: two payloads saved at different
      times for the same channel and sequence have the same hash. */
  lemma SequenceMeansOneHash(stores: seq<Store>, caches: seq<Cache>, steps: seq<Step>, i: nat, j: nat)
    requires IsRun(stores, caches, steps) && i <= j <= |steps| && Sound(stores[i])
    requires stores[i].payload.Some? && Anchorable(stores[i].payload.value)
    requires stores[j].payload.Some? && Anchorable(stores[j].payload.value)
    ensures var p, q := stores[i].payload.value, stores[j].payload.value;
            p.channel == q.channel ==>
              p.sequence.n <= q.sequence.n && (p.sequence == q.sequence ==> p.hash == q.hash)
  {
    MarksNeverGoBack(stores, caches, steps, i, j);
  }

  /** Without Sound the 304 answer breaks it: the saved payload is written back over a newer mark. */
  lemma NotModifiedNeedsSound(st: Store, cache: Cache, s: Settings, x: Input)
    requires s.enabled && x.force && s.envLatest == "" && x.fetch.NotModified? && x.fault == NoFault
    requires Actionable(st, s) && st.replay.Anchors? && Anchorable(st.payload.value)
    ensures var p := st.payload.value;
            var after := Check(st, cache, s, x).store;
            && after.replay.Anchors?
            && (Advances(st, after) <==>
                 (p.channel in st.replay.marks ==>
                   var mark := st.replay.marks[p.channel];
                   mark.sequence < p.sequence.n || mark == Anchor(p.sequence.n, p.hash.value)))
  {
    hide Versions.IsNewer, ReadVersion, Publishable, SaveFailure, Unsigned, FromReleases, PolicyOf, BasePayload;
    var p := st.payload.value;
    var after := Check(st, cache, s, x).store;
    assert after.replay.marks == st.replay.marks[p.channel := Anchor(p.sequence.n, p.hash.value)];
  }

  /** A fetched schema-2 manifest is taken, when signatures are required, exactly if it is well formed, for
      the channel, signed by a trusted key, and not behind or beside its channel's mark; and then it is the
      saved payload, its mark is set, and it is offered when it is newer. */
  lemma FreshManifestIsTaken(st: Store, cache: Cache, s: Settings, x: Input)
    requires Sound(st) && s.enabled && x.force && s.signatureRequired
    requires x.fetch.Fetched? && x.fetch.document.V2? && x.fault == NoFault
    ensures var m, r := x.fetch.document.manifest, Check(st, cache, s, x);
            var n := UpdateMetadata.Normalise(m, true);
            && (r.status.source == FromManifest <==>
                  && n.Some? && UpdateMetadata.ChannelText(n.value) == ChannelName(s.channel)
                  && (exists id :: UpdateMetadata.Verifies(m, Ring(s), id))
                  && (forall c :: c in st.replay.marks ==> st.replay.marks[c].sequence >= 1)
                  && (s.channel in st.replay.marks ==>
                        var mark := st.replay.marks[s.channel];
                        mark.sequence < UpdateMetadata.SequenceOf(m) || mark == AnchorOf(m)))
            && (r.status.source == FromManifest ==>
                  && r.store.payload == Some(r.status) && r.store.failures == 0
                  && r.store.replay == Anchors(st.replay.marks[s.channel := AnchorOf(m)])
                  && r.status.latest == UpdateMetadata.VersionText(m)
                  && r.status.updateAvailable == Versions.IsNewer(r.status.latest, s.appVersion))
  {
    var m := x.fetch.document.manifest;
    VerifiedV2(s, m);
    VerifiedChannel(s, x.fetch.document);
    hide VerifyV2, Ring, UpdateMetadata.Normalise, UpdateMetadata.Payload, UpdateMetadata.Verifies;
    hide UpdateMetadata.SequenceOf, UpdateMetadata.VersionText, UpdateMetadata.ChannelText, Sound;
    if VerifyV2(s, m).Some? { ReplayDecides(st, s, VerifyV2(s, m).value); }
    hide RejectedAsReplay;
    SignedOnly(st, cache, s, x);
    FeedDecides(st, s, x, m);
    hide Check, Network;
  }

  lemma FeedDecides(st: Store, s: Settings, x: Input, m: UpdateMetadata.Manifest)
    requires s.signatureRequired && x.fetch.Fetched? && x.fetch.document == V2(m) && x.fault == NoFault
    ensures var v, attempt := VerifyV2(s, m), Network(st, s, x);
            && (attempt.Accepted? <==> v.Some? && !RejectedAsReplay(st, s, v.value))
            && (attempt.Accepted? ==>
                  && attempt.payload == ApplyManifest(v.value, FromManifest, s)
                  && attempt.store == SaveRest(SaveTrust(st, attempt.payload), x.fetch.etag))
  {
    hide VerifyV2, RejectedAsReplay, ApplyManifest, SaveTrust, SaveRest;
  }

  /** With an unreadable replay record no schema-2 manifest is taken any more, and the record stays.  But a
      304 that re-saves a payload with a mark replaces it by that one mark: those of other channels are
      forgotten with it. */
  lemma UnreadableMarks(st: Store, cache: Cache, s: Settings, x: Input)
    requires st.replay.Unreadable? && s.enabled && x.force && !Overridden(s)
    ensures x.fetch.Fetched? && x.fetch.document.V2? ==>
              var r := Check(st, cache, s, x);
              FromFeed(st, s, x.fetch).None? && r.status.source != FromManifest && r.store.replay == st.replay
    ensures x.fetch.NotModified? && x.fault == NoFault && Actionable(st, s) && Anchorable(st.payload.value) ==>
              var p := st.payload.value;
              Check(st, cache, s, x).store.replay == Anchors(map[p.channel := Anchor(p.sequence.n, p.hash.value)])
  {
    ForcedCheck(st, cache, s, x);
    FailureFlags(Network(st, s, x).store, x);
    UnreadableNetwork(st, s, x);
    hide Check, Network, FromFeed, Actionable, SaveFailure, Anchorable, Overridden;
  }

  lemma ForcedCheck(st: Store, cache: Cache, s: Settings, x: Input)
    requires s.enabled && x.force && !Overridden(s)
    ensures var attempt, r := Network(st, s, x), Check(st, cache, s, x);
            if attempt.Accepted? then r.store == attempt.store && r.status == attempt.payload
            else && r.store == SaveFailure(attempt.store, x.now, x.jitter)
                 && r.status.source in {CachedAfterError, FromError}
  {
    hide Network, ReadVersion, Publishable, SaveFailure, Actionable, Unsigned, SaveSuccess;
  }

  lemma UnreadableNetwork(st: Store, s: Settings, x: Input)
    requires st.replay.Unreadable?
    ensures x.fetch.Fetched? && x.fetch.document.V2? ==>
              var attempt := Network(st, s, x);
              && FromFeed(st, s, x.fetch).None? && attempt.store.replay == st.replay
              && (attempt.Accepted? ==> attempt.payload.source != FromManifest)
    ensures x.fetch.NotModified? && x.fault == NoFault && Actionable(st, s) && Anchorable(st.payload.value) ==>
              var attempt, p := Network(st, s, x), st.payload.value;
              attempt.Accepted? && attempt.store.replay == Anchors(map[p.channel := Anchor(p.sequence.n, p.hash.value)])
  {
    UnreadableFeed(st, s, x.fetch);
    ReleasesDoNotCount(s, x.github);
    ReleaseSource(s, x.github);
    SavedMarks(st, FromFeed(st, s, x.fetch), x.fault);
    SavedMarks(st, FromReleases(s, x.github), x.githubFault);
    hide FromFeed, FromReleases, Actionable, PolicyOf, TrySave, FallbackAllowed;
  }

  lemma SavedMarks(st: Store, found: Option<(Payload, Option<string>)>, fault: Fault)
    requires st.replay.Unreadable?
    ensures var attempt := TrySave(st, found, fault);
            && (found.None? ==> attempt == Refused(st))
            && (found.Some? && !Anchorable(found.value.0) ==> attempt.store.replay == st.replay)
            && (attempt.Accepted? ==> found.Some? && attempt.payload == found.value.0)
            && (found.Some? && Anchorable(found.value.0) && fault == NoFault ==>
                  var p := found.value.0;
                  && attempt.Accepted?
                  && attempt.store.replay == Anchors(map[p.channel := Anchor(p.sequence.n, p.hash.value)]))
  {
  }

  lemma UnreadableFeed(st: Store, s: Settings, fetch: Fetch)
    requires st.replay.Unreadable?
    ensures fetch.Fetched? && fetch.document.V2? ==> FromFeed(st, s, fetch).None?
    ensures fetch.NotModified? && Actionable(st, s) ==>
              var found := FromFeed(st, s, fetch);
              found.Some? && found.value.0 == st.payload.value.(source := FromManifest)
  {
    if fetch.Fetched? && fetch.document.V2? { VerifiedV2(s, fetch.document.manifest); }
    hide VerifyV2, PolicyOf, UpdateMetadata.Normalise, UpdateMetadata.Payload, UpdateMetadata.Verifies;
  }

  lemma ReleaseSource(s: Settings, release: Release)
    ensures var found := FromReleases(s, release); found.Some? ==> found.value.0.source != FromManifest
  {
    hide ReadVersion, Publishable, Versions.IsNewer, PolicyOf;
  }

  /** The mark an accepted manifest sets. */
  function AnchorOf(m: UpdateMetadata.Manifest): Anchor {
    var payload := UpdateMetadata.Payload(m);
    Anchor(UpdateMetadata.SequenceOf(m), PayloadSha(if payload.Some? then payload.value else m))
  }

  lemma SignedOnly(st: Store, cache: Cache, s: Settings, x: Input)
    requires s.enabled && x.force && s.signatureRequired
    ensures var attempt, r := Network(st, s, x), Check(st, cache, s, x);
            if attempt.Accepted? then r.status == attempt.payload && r.store == attempt.store
            else r.status.source in {CachedAfterError, FromError}
  {
    hide Network, ReadVersion, Publishable, SaveFailure, Actionable, Unsigned;
  }

  // ---------------------------------------------------------------- what is reported

  /** With signatures required every offer is trusted under the policy in force, whatever was stored or
      cached before. */
  lemma OffersAreTrusted(st: Store, cache: Cache, s: Settings, x: Input)
    requires s.signatureRequired
    ensures var status := Check(st, cache, s, x).status;
            status.updateAvailable ==> status.trusted && status.policy == Some(PolicyOf(s))
  {
    hide RejectedAsReplay, ReadVersion, Publishable, InBackoff, Versions.IsNewer, SaveTrust, SaveRest, SaveFailure;
  }

  /** Trust is granted to nothing but signatures: a trusted schema-2 manifest has an entry made over its own
      payload with the private half of a key that the selected channel's ring holds under the entry's id; a
      trusted legacy document carries the configured key's code. */
  lemma FetchedTrustIsSigned(s: Settings, d: Document)
    ensures Verify(s, d).Some? && Verify(s, d).value.trusted ==>
              match d
              case V2(m) =>
                exists e, key :: SignedEntry(s, m, e, key)
              case Legacy(_, channel, _, _, _, _, mac) =>
                channel == s.channel && s.legacyKey.Some? && mac == s.legacyKey
  {
    hide UpdateMetadata.Normalise, UpdateMetadata.Payload, UpdateMetadata.EntriesOf, UpdateMetadata.ChannelText;
    hide UpdateMetadata.SequenceOf, UpdateMetadata.VersionText;
    if d.V2? && Verify(s, d).Some? && Verify(s, d).value.trusted {
      var n, payload := UpdateMetadata.Normalise(d.manifest, true), UpdateMetadata.Payload(d.manifest);
      var keys := Ring(s)[ChannelName(s.channel)];
      var e :| e in UpdateMetadata.EntriesOf(n.value) && UpdateMetadata.EntryVerifies(e, keys, payload.value);
      assert SignedEntry(s, d.manifest, e, keys[e.keyId].key);
    }
  }

  ghost predicate SignedEntry(s: Settings, m: UpdateMetadata.Manifest, e: UpdateMetadata.Signature,
                              key: UpdateMetadata.KeyPair)
  {
    var keys := if s.channel == Stable then s.stableKeys else s.betaKeys;
    var n := UpdateMetadata.Normalise(m, true);
    && n.Some? && UpdateMetadata.ChannelText(n.value) == ChannelName(s.channel)
    && e in UpdateMetadata.EntriesOf(n.value)
    && e.keyId in keys && keys[e.keyId] == UpdateMetadata.Public(key)
    && UpdateMetadata.Payload(m).Some? && e.value == UpdateMetadata.Signed(key, UpdateMetadata.Payload(m).value)
  }

  /** Re-signing keeps the hash: a manifest whose signatures were added to or rotated at the same sequence is
      no replay of the one its channel's mark was set by. */
  lemma ResignedIsNoReplay(st: Store, s: Settings, m: UpdateMetadata.Manifest, keyId: string,
                           key: UpdateMetadata.KeyPair)
    requires Sound(st) && !Invalid(st.replay)
    requires s.channel in st.replay.marks && st.replay.marks[s.channel] == AnchorOf(m)
    ensures var signed := UpdateMetadata.SignManifest(m, keyId, key);
            signed.Some? ==>
              && AnchorOf(signed.value) == AnchorOf(m)
              && (VerifyV2(s, signed.value).Some? ==> !RejectedAsReplay(st, s, VerifyV2(s, signed.value).value))
              && (VerifyV2(s, signed.value).Some? ==> VerifyV2(s, signed.value).value.hash == Some(AnchorOf(m).hash))
  {
    var signed := UpdateMetadata.SignManifest(m, keyId, key);
    if signed.Some? {
      UpdateMetadata.SigningKeepsOthers(m, keyId, key, Ring(s), "");
      UpdateMetadata.SigningKeepsFields(m, keyId, key);
      VerifiedV2(s, signed.value);
      hide VerifyV2, UpdateMetadata.SignManifest, UpdateMetadata.Normalise, UpdateMetadata.Payload;
      hide UpdateMetadata.Verifies;
      hide UpdateMetadata.SequenceOf, UpdateMetadata.VersionText, Ring;
    }
  }

  /** A check that reports an error changed neither payload nor marks, unless the failure came after
      the transaction that saves them. */
  lemma FailureKeepsTrust(st: Store, cache: Cache, s: Settings, x: Input)
    requires x.fault != AfterCommit && x.githubFault != AfterCommit
    ensures var r := Check(st, cache, s, x);
            r.status.source in {FromError, CachedAfterError} ==>
              r.store.payload == st.payload && r.store.replay == st.replay && r.store.etag == st.etag
  {
    hide Verify, RejectedAsReplay, ReadVersion, Publishable, Actionable, CacheHit, InBackoff, PolicyOf;
    hide Versions.IsNewer, SaveTrust;
  }

  /** The offer flag says whether the named version is newer than "version". */
  predicate RightFor(p: Payload, version: string) { p.updateAvailable == Versions.IsNewer(p.latest, version) }

  /** The environment names a version that is taken instead of any feed. */
  predicate Overridden(s: Settings) {
    && s.envLatest != "" && !s.signatureRequired
    && ReadVersion(s.envLatest).Some? && Publishable(s.channel, ReadVersion(s.envLatest).value)
  }

  /** The check answers from the store: during a backoff, after a 304, or after everything else failed. */
  predicate ServesStore(st: Store, cache: Cache, s: Settings, x: Input) {
    && s.enabled && Actionable(st, s)
    && ((!x.force && InBackoff(st, x.now))
        || (&& (x.force || !CacheHit(cache, s, x.mono)) && !Overridden(s)
            && ((x.fetch.NotModified? && x.fault == NoFault) || Network(st, s, x).Refused?)))
  }

  /** What is served from the store is wrong for the running version exactly when the stored flag is: no
      path computes it again. */
  lemma ServedFlagIsStored(st: Store, cache: Cache, s: Settings, x: Input)
    requires ServesStore(st, cache, s, x)
    ensures var status := Check(st, cache, s, x).status;
            && status.latest == st.payload.value.latest
            && (RightFor(status, s.appVersion) <==> RightFor(st.payload.value, s.appVersion))
  {
    hide Versions.IsNewer, ReadVersion, Publishable, SaveFailure, Unsigned, FromReleases, PolicyOf, BasePayload, Verify;
  }

  lemma NoVersionIsNotNewer(version: string)
    ensures !Versions.IsNewer("", version)
  {
    assert Versions.Find("", '-') == 0 && Versions.Split("", '.') == [""];
  }

  ghost predicate AllRight(st: Store, cache: Cache, version: string) {
    && (st.payload.Some? ==> RightFor(st.payload.value, version))
    && (cache.payload.Some? ==> RightFor(cache.payload.value, version))
  }

  lemma FoundFlags(st: Store, s: Settings, x: Input)
    requires st.payload.Some? ==> RightFor(st.payload.value, s.appVersion)
    ensures var feed := FromFeed(st, s, x.fetch); feed.Some? ==> RightFor(feed.value.0, s.appVersion)
    ensures var release := FromReleases(s, x.github); release.Some? ==> RightFor(release.value.0, s.appVersion)
  {
    hide Versions.IsNewer, ReadVersion, Publishable, Verify, RejectedAsReplay, PolicyOf;
  }

  lemma SavedFlags(st: Store, found: Option<(Payload, Option<string>)>, fault: Fault, version: string)
    requires st.payload.Some? ==> RightFor(st.payload.value, version)
    requires found.Some? ==> RightFor(found.value.0, version)
    ensures var attempt := TrySave(st, found, fault);
            && (attempt.store.payload.Some? ==> RightFor(attempt.store.payload.value, version))
            && (attempt.Accepted? ==> RightFor(attempt.payload, version))
  {
    hide RightFor, Anchorable;
  }

  lemma NetworkFlags(st: Store, s: Settings, x: Input)
    requires st.payload.Some? ==> RightFor(st.payload.value, s.appVersion)
    ensures var attempt := Network(st, s, x);
            && (attempt.store.payload.Some? ==> RightFor(attempt.store.payload.value, s.appVersion))
            && (attempt.Accepted? ==> RightFor(attempt.payload, s.appVersion))
  {
    FoundFlags(st, s, x);
    hide FromFeed, FromReleases, RightFor, TrySave;
    var feed := FromFeed(st, s, x.fetch);
    SavedFlags(st, feed, x.fault, s.appVersion);
    SavedFlags(TrySave(st, feed, x.fault).store, FromReleases(s, x.github), x.githubFault, s.appVersion);
  }

  /** The ways a check comes to its answer: at once, from the override, or over the network. */
  lemma CheckParts(st: Store, cache: Cache, s: Settings, x: Input)
    ensures var r := Check(st, cache, s, x);
            || (&& r.store == st && r.cache == cache
                && (r.status == BasePayload(Disabled, s)
                    || (&& Actionable(st, s) && st.payload.Some?
                        && r.status == st.payload.value.(source := CachedAfterError))
                    || (cache.payload.Some? && r.status == cache.payload.value)))
            || (exists version :: OverrideAnswers(st, cache, s, x, version, r))
            || (var attempt := Network(st, s, x);
                && r.store == (if attempt.Accepted? then attempt.store else SaveFailure(attempt.store, x.now, x.jitter))
                && r.cache.payload == Some(r.status)
                && (if attempt.Accepted? then r.status == attempt.payload
                    else r.status == BasePayload(FromError, s)
                         || (st.payload.Some? && r.status == st.payload.value.(source := CachedAfterError))))
  {
    assert Actionable(st, s) ==> st.payload.Some?;
    CacheFlags(cache, s, x);
    hide Network, Actionable, CacheHit, InBackoff, Publishable, SaveSuccess, SaveFailure, Unsigned, BasePayload;
    hide ReadVersion, OverrideAnswers;
    OverrideTaken(st, cache, s, x);
  }

  /** What an override that is read and may be published leads to, if no earlier answer was given. */
  lemma OverrideTaken(st: Store, cache: Cache, s: Settings, x: Input)
    ensures var override := ReadVersion(s.envLatest);
            && s.enabled && s.envLatest != "" && !s.signatureRequired
            && (x.force || !((InBackoff(st, x.now) && Actionable(st, s)) || CacheHit(cache, s, x.mono)))
            && override.Some? && Publishable(s.channel, override.value) ==>
              OverrideAnswers(st, cache, s, x, override.value, Check(st, cache, s, x))
  {
    hide Network, Actionable, CacheHit, InBackoff, Publishable, SaveSuccess, SaveFailure, Unsigned, BasePayload;
    hide ReadVersion;
  }

  predicate OverrideAnswers(st: Store, cache: Cache, s: Settings, x: Input, version: string, r: Result) {
    var p := Unsigned(FromEnvironment, s.channel, version, s);
    var saving := SaveSuccess(st, p, None, x.fault);
    r == if saving.ok then Result(saving.store, Cache(Some(p), x.mono + CACHE_SECONDS), p)
         else Result(saving.store, cache, BasePayload(FromError, s))
  }

  lemma CacheFlags(cache: Cache, s: Settings, x: Input)
    ensures CacheHit(cache, s, x.mono) ==> cache.payload.Some?
  {
  }

  /** A check keeps flags right for the version that runs it. */
  lemma FlagsStayRight(st: Store, cache: Cache, s: Settings, x: Input)
    requires AllRight(st, cache, s.appVersion)
    ensures var r := Check(st, cache, s, x);
            RightFor(r.status, s.appVersion) && AllRight(r.store, r.cache, s.appVersion)
  {
    CheckParts(st, cache, s, x);
    NetworkFlags(st, s, x);
    SimpleFlags(s);
    StoreFlags(st, s);
    FailureFlags(Network(st, s, x).store, x);
    hide Check, Network, BasePayload, RightFor, SaveFailure, Actionable, OverrideAnswers;
    if version :| OverrideAnswers(st, cache, s, x, version, Check(st, cache, s, x)) {
      OverrideFlags(st, cache, s, x, version, Check(st, cache, s, x));
    }
  }

  lemma OverrideFlags(st: Store, cache: Cache, s: Settings, x: Input, version: string, r: Result)
    requires AllRight(st, cache, s.appVersion) && OverrideAnswers(st, cache, s, x, version, r)
    ensures RightFor(r.status, s.appVersion) && AllRight(r.store, r.cache, s.appVersion)
  {
    SimpleFlags(s);
    UnsignedFlags(s, version);
    SaveFlags(st, Unsigned(FromEnvironment, s.channel, version, s), x.fault);
    hide RightFor, Unsigned, SaveSuccess, BasePayload;
  }

  lemma SimpleFlags(s: Settings)
    ensures forall source :: RightFor(BasePayload(source, s), s.appVersion)
  {
    NoVersionIsNotNewer(s.appVersion);
  }

  lemma StoreFlags(st: Store, s: Settings)
    ensures Actionable(st, s) ==> st.payload.Some?
    ensures st.payload.Some? && RightFor(st.payload.value, s.appVersion) ==>
              RightFor(st.payload.value.(source := CachedAfterError), s.appVersion)
  {
  }

  lemma UnsignedFlags(s: Settings, version: string)
    ensures RightFor(Unsigned(FromEnvironment, s.channel, version, s), s.appVersion)
  {
  }

  lemma SaveFlags(st: Store, p: Payload, fault: Fault)
    ensures var saving := SaveSuccess(st, p, None, fault); saving.store.payload in {st.payload, Some(p)}
  {
  }

  lemma FailureFlags(st: Store, x: Input)
    ensures var after := SaveFailure(st, x.now, x.jitter); after.payload == st.payload && after.replay == st.replay
  {
  }

  /** While one version runs, every status of every run is right, if the stored flag was right at first. */
  lemma {:induction false} StatusesAreRight(stores: seq<Store>, caches: seq<Cache>, steps: seq<Step>,
                                            version: string, j: nat)
    requires IsRun(stores, caches, steps) && j <= |steps| && AllRight(stores[0], caches[0], version)
    requires forall i :: 0 <= i < |steps| ==> steps[i].settings.appVersion == version
    ensures AllRight(stores[j], caches[j], version)
    ensures j < |steps| ==> RightFor(StatusAt(stores, caches, steps, j), version)
  {
    hide Check, RightFor;
    if j > 0 {
      StatusesAreRight(stores, caches, steps, version, j - 1);
      var step := steps[j - 1];
      FlagsStayRight(stores[j - 1], CacheAt(caches, steps, j - 1), step.settings, step.input);
    }
    if j < |steps| {
      FlagsStayRight(stores[j], CacheAt(caches, steps, j), steps[j].settings, steps[j].input);
    }
  }

  /** A check answered from the store is wrong after an upgrade to the version that was on offer. */
  lemma UpgradeLeavesOffer(st: Store, cache: Cache, s: Settings, x: Input, previous: string)
    requires ServesStore(st, cache, s, x) && s.appVersion == st.payload.value.latest
    requires RightFor(st.payload.value, previous)
    ensures !Versions.IsNewer(s.appVersion, s.appVersion)
    ensures RightFor(Check(st, cache, s, x).status, s.appVersion) <==> !Versions.IsNewer(s.appVersion, previous)
  {
    var v := Versions.ParseLoose(s.appVersion);
    if v.Some? { Versions.CompareIsPrecedence(Versions.LowerVersion(v.value), Versions.LowerVersion(v.value)); }
    ServedFlagIsStored(st, cache, s, x);
    hide Versions.ParseLoose, Check;
  }

  /** Such a store: 1.1.0 was offered to 1.0.0, and is still offered while 1.1.0 runs. */
  lemma OffersTheRunningVersion() returns (st: Store, s: Settings, x: Input)
    ensures st.payload.Some? && s.appVersion == st.payload.value.latest
    ensures RightFor(st.payload.value, Versions.Dotted("1", "0", "0"))
    ensures var status := Check(st, Cache(None, 0), s, x).status;
            status.updateAvailable && status.latest == s.appVersion
  {
    var newer := Versions.Dotted("1", "1", "0");
    s := Settings(true, Stable, "", false, None, map[], map[], newer, "");
    st := Store(Some(Payload(FromManifest, Stable, newer, true, false, 2, NoSequence, None, Some(PolicyOf(s)))),
                Anchors(map[]), None, 1, Some(10));
    x := Input(false, 0, 0, 0, FetchFailed, NoRelease, NoFault, NoFault);
    MinorIsNewer();
    hide Versions.Dotted, Versions.IsNewer;
  }

  lemma MinorIsNewer()
    ensures Versions.IsNewer(Versions.Dotted("1", "1", "0"), Versions.Dotted("1", "0", "0"))
  {
    OneAndZero();
    hide Versions.Dotted, Versions.ParseLoose, Versions.ParseStrict, Versions.ParseGate, Versions.ToNat;
    hide Versions.IsNumeric, Versions.IsNewer;
    Versions.ReadRelease("1", "0", "0");
    Versions.ReadRelease("1", "1", "0");
    NewerMinor(Versions.Dotted("1", "1", "0"), Versions.Dotted("1", "0", "0"));
  }

  lemma NewerMinor(newer: string, older_: string)
    requires Versions.ParseLoose(newer) == Some(Versions.Version(1, 1, 0, []))
    requires Versions.ParseLoose(older_) == Some(Versions.Version(1, 0, 0, []))
    ensures Versions.IsNewer(newer, older_)
  {
    hide Versions.ParseLoose, Versions.Lex;
  }

  lemma OneAndZero()
    ensures Versions.IsNumeric("1") && Versions.IsNumeric("0") && Versions.ToNat("1") == 1 && Versions.ToNat("0") == 0
  {
  }

  /** The delay doubles up to the ninth failure and then stays; the documented cap of one day is never
      reached. */
  lemma BackoffGrowsToPlateau(failures: nat)
    requires failures >= 1
    ensures BaseBackoff(failures) <= BaseBackoff(failures + 1) <= 76800
    ensures failures < 9 ==> BaseBackoff(failures + 1) == 2 * BaseBackoff(failures)
    ensures failures >= 9 ==> BaseBackoff(failures) == 76800
  {
    assert Power2(8) == 256 by { assert Power2(4) == 16; assert Power2(6) == 64; }
    if failures < 9 { PowerBound(failures); }
  }

  lemma {:induction false} PowerBound(n: nat)
    requires n <= 8
    ensures Power2(n) <= 256
    decreases 8 - n
  {
    if n < 8 {
      PowerBound(n + 1);
    } else {
      assert Power2(4) == 16;
      assert Power2(6) == 64;
    }
  }
}
