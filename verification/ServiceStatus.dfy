/**
  The status of a DataConnectService: every reconcile comes to one finding, writes phase,
  conditions and releases into a copy it has read again, and stores the copy unless it is out of date.
*/
module ServiceStatus {
  import opened Options

  datatype Phase = NoPhase | Failed | Progressing | Ready | NotReady

  datatype ConditionType = ReadyCondition | Degraded | ProvisioningSucceeded | GrpcGatewaySupported

  type Time = int

  /** `since` is when the condition last changed between true and false. */
  datatype Condition = Condition(holds: bool, reason: string, since: Time)

  datatype Entry = Entry(kind: ConditionType, condition: Condition)

  datatype Release = Release(name: string, version: string)

  /** The list as stored; the first entry of a type is the one that is read and updated. */
  type Conditions = seq<Entry>

  datatype Status = Status(phase: Phase, conditions: Conditions, releases: seq<Release>, observedGeneration: nat, distribution: string)

  datatype PlatformConfig = PlatformConfig(distribution: string, platformVersion: string)

  /** What a reconcile finds, at the first step that does not go on to the next. */
  datatype Finding = DatabaseSecretMissing | ManifestError | DeploymentCheckError | WaitingForDeployments | FlightRegistrationError | AllReady

  /** Whether HTTP/2 is enabled on the cluster's ingress, if that can be read. */
  type Http2 = Option<bool>

  const PLATFORM := "platform"
  const BUILD_VERSION := "dev"

  // ---- What the status becomes ----

  function CalledWith(f: Finding): Phase {
    match f
    case WaitingForDeployments => Progressing
    case AllReady => Ready
    case _ => Failed
  }

  /** The version of the first platform release, or the empty one. */
  function VersionFrom(releases: seq<Release>, i: nat): string
    requires i <= |releases|
    decreases |releases| - i
  {
    if i == |releases| then "" else if releases[i].name == PLATFORM then releases[i].version else VersionFrom(releases, i + 1)
  }

  function PlatformVersion(s: Status): string {
    VersionFrom(s.releases, 0)
  }

  function Releases(previous: seq<Release>, cfg: PlatformConfig, ready: bool): seq<Release> {
    var own := [Release("rest-service", BUILD_VERSION), Release("flight-service", BUILD_VERSION)];
    if cfg.platformVersion == "" then own
    else own + [Release(PLATFORM, if ready then cfg.platformVersion else VersionFrom(previous, 0))]
  }

  // ---- The list of conditions ----

  function Find(list: Conditions, t: ConditionType): Option<Condition> {
    if list == [] then None else if list[0].kind == t then Some(list[0].condition) else Find(list[1..], t)
  }

  /** The first entry of the type is replaced where it stands; without one, it is added at the end. */
  function Put(list: Conditions, t: ConditionType, c: Condition): Conditions {
    if list == [] then [Entry(t, c)]
    else if list[0].kind == t then [Entry(t, c)] + list[1..]
    else [list[0]] + Put(list[1..], t, c)
  }

  function Without(list: Conditions, t: ConditionType): Conditions {
    if list == [] then []
    else if list[0].kind == t then Without(list[1..], t)
    else [list[0]] + Without(list[1..], t)
  }

  /** The time of the last change is kept if the condition holds as before. */
  function Next(before: Option<Condition>, holds: bool, reason: string, now: Time): Condition {
    Condition(holds, reason, if before.Some? && before.value.holds == holds then before.value.since else now)
  }

  function Set(list: Conditions, t: ConditionType, holds: bool, reason: string, now: Time): Conditions {
    Put(list, t, Next(Find(list, t), holds, reason, now))
  }

  lemma {:induction false} FindPut(list: Conditions, t: ConditionType, c: Condition, u: ConditionType)
    ensures Find(Put(list, t, c), u) == if u == t then Some(c) else Find(list, u)
  {
    if list != [] {
      FindPut(list[1..], t, c, u);
    }
  }

  lemma {:induction false} FindWithout(list: Conditions, t: ConditionType, u: ConditionType)
    ensures Find(Without(list, t), u) == if u == t then None else Find(list, u)
  {
    if list != [] {
      FindWithout(list[1..], t, u);
    }
  }

  /** Setting a condition changes what is found for its type, and for no other. */
  lemma FindSet(list: Conditions, t: ConditionType, holds: bool, reason: string, now: Time)
    ensures forall u :: Find(Set(list, t, holds, reason, now), u)
                     == if u == t then Some(Next(Find(list, t), holds, reason, now)) else Find(list, u)
  {
    forall u ensures Find(Set(list, t, holds, reason, now), u)
                  == if u == t then Some(Next(Find(list, t), holds, reason, now)) else Find(list, u) {
      FindPut(list, t, Next(Find(list, t), holds, reason, now), u);
    }
  }

  predicate Holds(list: Conditions, t: ConditionType) {
    Find(list, t).Some? && Find(list, t).value.holds
  }

  predicate Fails(list: Conditions, t: ConditionType) {
    Find(list, t).Some? && !Find(list, t).value.holds
  }

  // ---- What a reconcile stores ----

  /** The conditions a finding sets; those it does not mention stay. */
  function Found(list: Conditions, f: Finding, now: Time): Conditions {
    match f
    case DatabaseSecretMissing => Broken(list, "DatabaseSecretMissing", false, "DatabaseSecretMissing", now)
    case ManifestError => Broken(list, "ManifestError", false, "ManifestError", now)
    case DeploymentCheckError => Broken(list, "DeploymentCheckError", true, "ProvisioningComplete", now)
    case FlightRegistrationError => Broken(list, "FlightRegistrationError", true, "ProvisioningComplete", now)
    case WaitingForDeployments => Provisioned(list, false, "WaitingForDeployments", "WaitingForDeployments", now)
    case AllReady => Provisioned(list, true, "Ready", "Reconciled", now)
  }

  function Broken(list: Conditions, reason: string, provisioned: bool, provisioning: string, now: Time): Conditions {
    var list := Set(list, Degraded, true, reason, now);
    var list := Set(list, ReadyCondition, false, reason, now);
    Set(list, ProvisioningSucceeded, provisioned, provisioning, now)
  }

  function Provisioned(list: Conditions, ready: bool, reason: string, undegraded: string, now: Time): Conditions {
    var list := Set(list, ReadyCondition, ready, reason, now);
    var list := Set(list, ProvisioningSucceeded, true, "ProvisioningComplete", now);
    Set(list, Degraded, false, undegraded, now)
  }

  /** The gateway check overrules what the finding says if HTTP/2 is known to be disabled. */
  function Checked(s: Status, http2: Http2, now: Time): Status {
    match http2
    case None => s.(conditions := Without(s.conditions, GrpcGatewaySupported))
    case Some(true) => s.(conditions := Set(s.conditions, GrpcGatewaySupported, true, "HTTP2Enabled", now))
    case Some(false) => s.(conditions := Disabled(s.conditions, now), phase := if s.phase == Ready then NotReady else s.phase)
  }

  function Disabled(list: Conditions, now: Time): Conditions {
    var list := Set(list, GrpcGatewaySupported, false, "HTTP2Disabled", now);
    var list := Set(list, Degraded, true, "GatewayHTTP2Disabled", now);
    Set(list, ReadyCondition, false, "GatewayHTTP2Disabled", now)
  }

  predicate ChecksGateway(f: Finding) {
    f == WaitingForDeployments || f == AllReady
  }

  /** The status a reconcile stores, from the one it reads. */
  function Reconciled(s: Status, f: Finding, http2: Http2, cfg: PlatformConfig, generation: nat, now: Time): Status {
    var releases := Releases(s.releases, cfg, CalledWith(f) == Ready);
    var next := Status(CalledWith(f), Found(s.conditions, f, now), releases, generation, cfg.distribution);
    if ChecksGateway(f) then Checked(next, http2, now) else next
  }

  lemma FindBroken(list: Conditions, reason: string, provisioned: bool, provisioning: string, now: Time, u: ConditionType)
    ensures Find(Broken(list, reason, provisioned, provisioning, now), u) ==
            match u
            case Degraded => Some(Next(Find(list, u), true, reason, now))
            case ReadyCondition => Some(Next(Find(list, u), false, reason, now))
            case ProvisioningSucceeded => Some(Next(Find(list, u), provisioned, provisioning, now))
            case GrpcGatewaySupported => Find(list, u)
  {
    var one := Set(list, Degraded, true, reason, now);
    FindSet(list, Degraded, true, reason, now);
    FindSet(one, ReadyCondition, false, reason, now);
    FindSet(Set(one, ReadyCondition, false, reason, now), ProvisioningSucceeded, provisioned, provisioning, now);
  }

  lemma FindProvisioned(list: Conditions, ready: bool, reason: string, undegraded: string, now: Time, u: ConditionType)
    ensures Find(Provisioned(list, ready, reason, undegraded, now), u) ==
            match u
            case ReadyCondition => Some(Next(Find(list, u), ready, reason, now))
            case ProvisioningSucceeded => Some(Next(Find(list, u), true, "ProvisioningComplete", now))
            case Degraded => Some(Next(Find(list, u), false, undegraded, now))
            case GrpcGatewaySupported => Find(list, u)
  {
    var one := Set(list, ReadyCondition, ready, reason, now);
    FindSet(list, ReadyCondition, ready, reason, now);
    FindSet(one, ProvisioningSucceeded, true, "ProvisioningComplete", now);
    FindSet(Set(one, ProvisioningSucceeded, true, "ProvisioningComplete", now), Degraded, false, undegraded, now);
  }

  lemma FindDisabled(list: Conditions, now: Time, u: ConditionType)
    ensures Find(Disabled(list, now), u) ==
            match u
            case GrpcGatewaySupported => Some(Next(Find(list, u), false, "HTTP2Disabled", now))
            case Degraded => Some(Next(Find(list, u), true, "GatewayHTTP2Disabled", now))
            case ReadyCondition => Some(Next(Find(list, u), false, "GatewayHTTP2Disabled", now))
            case ProvisioningSucceeded => Find(list, u)
  {
    var one := Set(list, GrpcGatewaySupported, false, "HTTP2Disabled", now);
    FindSet(list, GrpcGatewaySupported, false, "HTTP2Disabled", now);
    FindSet(one, Degraded, true, "GatewayHTTP2Disabled", now);
    FindSet(Set(one, Degraded, true, "GatewayHTTP2Disabled", now), ReadyCondition, false, "GatewayHTTP2Disabled", now);
  }

  /** What a reconcile says of a condition. */
  datatype Word = Word(holds: bool, reason: string)

  /** The finding as a reason. */
  function Name(f: Finding): string {
    match f
    case DatabaseSecretMissing => "DatabaseSecretMissing"
    case ManifestError => "ManifestError"
    case DeploymentCheckError => "DeploymentCheckError"
    case WaitingForDeployments => "WaitingForDeployments"
    case FlightRegistrationError => "FlightRegistrationError"
    case AllReady => "Ready"
  }

  /** What is said of each condition in the end; None if there is no such condition then. */
  function Reported(s: Status, f: Finding, http2: Http2, t: ConditionType): Option<Word> {
    var checks := f == WaitingForDeployments || f == AllReady;
    var disabled := checks && http2 == Some(false);
    match t
    case ReadyCondition => Some(Word(f == AllReady && !disabled, if disabled then "GatewayHTTP2Disabled" else Name(f)))
    case Degraded =>
      Some(Word(!checks || disabled,
                if disabled then "GatewayHTTP2Disabled" else if f == AllReady then "Reconciled" else Name(f)))
    case ProvisioningSucceeded =>
      if f == DatabaseSecretMissing || f == ManifestError then Some(Word(false, Name(f))) else Some(Word(true, "ProvisioningComplete"))
    case GrpcGatewaySupported =>
      if !checks then (match Find(s.conditions, t) case Some(c) => Some(Word(c.holds, c.reason)) case None => None)
      else match http2 case None => None case Some(enabled) => Some(Word(enabled, if enabled then "HTTP2Enabled" else "HTTP2Disabled"))
  }

  /** The gateway check takes back what the reconcile itself has just set. */
  predicate TakesBack(f: Finding, http2: Http2, t: ConditionType) {
    http2 == Some(false) && ((t == ReadyCondition && f == AllReady) || (t == Degraded && ChecksGateway(f)))
  }

  /** What is found after a reconcile: the condition as reported, since before only if it held, or failed, all along. */
  ghost predicate FoundAs(before: Option<Condition>, after: Option<Condition>, word: Option<Word>, takenBack: bool, now: Time) {
    && (after.Some? <==> word.Some?)
    && (after.Some? ==>
          && after.value.holds == word.value.holds && after.value.reason == word.value.reason
          && after.value.since == if before.Some? && before.value.holds == word.value.holds && !takenBack then before.value.since else now)
  }

  lemma BrokenReports(s: Status, f: Finding, http2: Http2, cfg: PlatformConfig, generation: nat, now: Time, t: ConditionType)
    requires !ChecksGateway(f)
    ensures var after := Reconciled(s, f, http2, cfg, generation, now);
            FoundAs(Find(s.conditions, t), Find(after.conditions, t), Reported(s, f, http2, t), TakesBack(f, http2, t), now)
  {
    match f {
      case DatabaseSecretMissing => FindBroken(s.conditions, "DatabaseSecretMissing", false, "DatabaseSecretMissing", now, t);
      case ManifestError => FindBroken(s.conditions, "ManifestError", false, "ManifestError", now, t);
      case DeploymentCheckError => FindBroken(s.conditions, "DeploymentCheckError", true, "ProvisioningComplete", now, t);
      case FlightRegistrationError => FindBroken(s.conditions, "FlightRegistrationError", true, "ProvisioningComplete", now, t);
    }
  }

  lemma CheckedReports(s: Status, f: Finding, http2: Http2, cfg: PlatformConfig, generation: nat, now: Time, t: ConditionType)
    requires ChecksGateway(f)
    ensures var after := Reconciled(s, f, http2, cfg, generation, now);
            FoundAs(Find(s.conditions, t), Find(after.conditions, t), Reported(s, f, http2, t), TakesBack(f, http2, t), now)
  {
    if f == AllReady {
      FindProvisioned(s.conditions, true, "Ready", "Reconciled", now, t);
    } else {
      FindProvisioned(s.conditions, false, "WaitingForDeployments", "WaitingForDeployments", now, t);
    }
    var found := Found(s.conditions, f, now);
    match http2 {
      case None => FindWithout(found, GrpcGatewaySupported, t);
      case Some(true) => FindSet(found, GrpcGatewaySupported, true, "HTTP2Enabled", now);
      case Some(false) => FindDisabled(found, now, t);
    }
  }

  /** After every reconcile each condition is as reported, and its time is that of the last change within or before it. */
  lemma ReconcileReports(s: Status, f: Finding, http2: Http2, cfg: PlatformConfig, generation: nat, now: Time, t: ConditionType)
    ensures var after := Reconciled(s, f, http2, cfg, generation, now);
            FoundAs(Find(s.conditions, t), Find(after.conditions, t), Reported(s, f, http2, t), TakesBack(f, http2, t), now)
  {
    if ChecksGateway(f) {
      CheckedReports(s, f, http2, cfg, generation, now, t);
    } else {
      BrokenReports(s, f, http2, cfg, generation, now, t);
    }
  }

  // ---- Phase and conditions agree ----

  /** Ready is a true aggregate: the phase says it exactly if the condition does, and then nothing contradicts it. */
  ghost predicate Coherent(s: Status) {
    && (s.phase == Ready <==> Holds(s.conditions, ReadyCondition))
    && (Holds(s.conditions, ReadyCondition) ==>
          && Fails(s.conditions, Degraded)
          && Holds(s.conditions, ProvisioningSucceeded)
          && !Fails(s.conditions, GrpcGatewaySupported))
    && (Holds(s.conditions, Degraded) ==> !Holds(s.conditions, ReadyCondition))
    && (s.phase == Failed || s.phase == NotReady ==> Holds(s.conditions, Degraded))
    && (s.phase != NoPhase ==>
          Find(s.conditions, ReadyCondition).Some? && Find(s.conditions, Degraded).Some? && Find(s.conditions, ProvisioningSucceeded).Some?)
  }

  /** A reconcile leaves a coherent status whatever it found before, and Ready exactly if all is ready and HTTP/2 is not disabled. */
  lemma ReconcileIsCoherent(s: Status, f: Finding, http2: Http2, cfg: PlatformConfig, generation: nat, now: Time)
    ensures Coherent(Reconciled(s, f, http2, cfg, generation, now))
    ensures Reconciled(s, f, http2, cfg, generation, now).phase == Ready <==> f == AllReady && http2 != Some(false)
  {
    ReconcileReports(s, f, http2, cfg, generation, now, ReadyCondition);
    ReconcileReports(s, f, http2, cfg, generation, now, Degraded);
    ReconcileReports(s, f, http2, cfg, generation, now, ProvisioningSucceeded);
    ReconcileReports(s, f, http2, cfg, generation, now, GrpcGatewaySupported);
  }

  /** The phase, exactly: an error, a wait, or all ready, which disabled HTTP/2 turns into not ready. */
  lemma PhaseIs(s: Status, f: Finding, http2: Http2, cfg: PlatformConfig, generation: nat, now: Time)
    ensures var phase := Reconciled(s, f, http2, cfg, generation, now).phase;
            && (phase == Failed <==>
                  f == DatabaseSecretMissing || f == ManifestError || f == DeploymentCheckError || f == FlightRegistrationError)
            && (phase == Progressing <==> f == WaitingForDeployments)
            && (phase == Ready <==> f == AllReady && http2 != Some(false))
            && (phase == NotReady <==> f == AllReady && http2 == Some(false))
  {
  }

  /** The rest of the status: generation and distribution as read, two fixed releases, and the platform's if it names a version. */
  lemma RestIs(s: Status, f: Finding, http2: Http2, cfg: PlatformConfig, generation: nat, now: Time)
    ensures var after := Reconciled(s, f, http2, cfg, generation, now);
            && after.observedGeneration == generation && after.distribution == cfg.distribution
            && |after.releases| == (if cfg.platformVersion == "" then 2 else 3)
            && after.releases[0] == Release("rest-service", BUILD_VERSION) && after.releases[1] == Release("flight-service", BUILD_VERSION)
            && (cfg.platformVersion != "" ==> after.releases[2].name == "platform")
  {
  }

  /** The version found is that of the first platform release; there is none exactly if no release has that name. */
  lemma {:induction false} VersionFromIs(releases: seq<Release>, i: nat)
    requires i <= |releases|
    ensures (exists k | i <= k < |releases| ::
               && releases[k].name == "platform" && VersionFrom(releases, i) == releases[k].version
               && forall j | i <= j < k :: releases[j].name != "platform")
         || (VersionFrom(releases, i) == "" && forall k | i <= k < |releases| :: releases[k].name != "platform")
    decreases |releases| - i
  {
    if i < |releases| && releases[i].name != PLATFORM {
      VersionFromIs(releases, i + 1);
    }
  }

  // ---- The time of the last change ----

  /**
    The time of a condition moves only with the condition exactly if the reconcile does not take
    back what it has just set and so report, by way of the opposite, what was reported before.
  */
  lemma TimeMovesOnlyWithCondition(s: Status, f: Finding, http2: Http2, cfg: PlatformConfig, generation: nat, now: Time, t: ConditionType)
    requires Find(s.conditions, t).Some? && Find(s.conditions, t).value.since != now && Reported(s, f, http2, t).Some?
    ensures var before, found := Find(s.conditions, t).value, Find(Reconciled(s, f, http2, cfg, generation, now).conditions, t);
            && found.Some?
            && var after := found.value;
               (after.since != before.since ==> after.holds != before.holds) <==> !(TakesBack(f, http2, t) && before.holds == (t == Degraded))
  {
    ReconcileReports(s, f, http2, cfg, generation, now, t);
  }

  /** While HTTP/2 stays disabled, every reconcile that finds all ready moves the time of Ready, which stays false. */
  lemma TimeMovesThoughReadyStaysFalse(s: Status, cfg: PlatformConfig, generation: nat, earlier: Time, now: Time)
    requires earlier != now
    ensures var first := Reconciled(s, AllReady, Some(false), cfg, generation, earlier);
            var second := Reconciled(first, AllReady, Some(false), cfg, generation, now);
            && Fails(first.conditions, ReadyCondition) && Find(first.conditions, ReadyCondition).value.since == earlier
            && Fails(second.conditions, ReadyCondition) && Find(second.conditions, ReadyCondition).value.since == now
  {
    var first := Reconciled(s, AllReady, Some(false), cfg, generation, earlier);
    ReconcileReports(s, AllReady, Some(false), cfg, generation, earlier, ReadyCondition);
    ReconcileReports(first, AllReady, Some(false), cfg, generation, now, ReadyCondition);
  }

  // ---- One entry per type ----

  predicate Unique(list: Conditions) {
    list == [] || (Find(list[1..], list[0].kind).None? && Unique(list[1..]))
  }

  lemma {:induction false} PutKeepsUnique(list: Conditions, t: ConditionType, c: Condition)
    requires Unique(list)
    ensures Unique(Put(list, t, c))
  {
    if list != [] && list[0].kind != t {
      PutKeepsUnique(list[1..], t, c);
      FindPut(list[1..], t, c, list[0].kind);
      assert Put(list, t, c)[1..] == Put(list[1..], t, c);
    } else if list != [] {
      assert Put(list, t, c)[1..] == list[1..];
    }
  }

  lemma {:induction false} WithoutKeepsUnique(list: Conditions, t: ConditionType)
    requires Unique(list)
    ensures Unique(Without(list, t))
  {
    if list != [] {
      WithoutKeepsUnique(list[1..], t);
      if list[0].kind != t {
        FindWithout(list[1..], t, list[0].kind);
        assert Without(list, t)[1..] == Without(list[1..], t);
      }
    }
  }

  lemma PutThreeKeepsUnique(list: Conditions, t: ConditionType, c: Condition, u: ConditionType, d: Condition, v: ConditionType, e: Condition)
    requires Unique(list)
    ensures Unique(Put(Put(Put(list, t, c), u, d), v, e))
  {
    PutKeepsUnique(list, t, c);
    PutKeepsUnique(Put(list, t, c), u, d);
    PutKeepsUnique(Put(Put(list, t, c), u, d), v, e);
  }

  lemma BrokenKeepsUnique(list: Conditions, reason: string, provisioned: bool, provisioning: string, now: Time)
    requires Unique(list)
    ensures Unique(Broken(list, reason, provisioned, provisioning, now))
  {
    var one := Set(list, Degraded, true, reason, now);
    var two := Set(one, ReadyCondition, false, reason, now);
    PutThreeKeepsUnique(list, Degraded, Next(Find(list, Degraded), true, reason, now),
                        ReadyCondition, Next(Find(one, ReadyCondition), false, reason, now),
                        ProvisioningSucceeded, Next(Find(two, ProvisioningSucceeded), provisioned, provisioning, now));
  }

  lemma ProvisionedKeepsUnique(list: Conditions, ready: bool, reason: string, undegraded: string, now: Time)
    requires Unique(list)
    ensures Unique(Provisioned(list, ready, reason, undegraded, now))
  {
    var one := Set(list, ReadyCondition, ready, reason, now);
    var two := Set(one, ProvisioningSucceeded, true, "ProvisioningComplete", now);
    PutThreeKeepsUnique(list, ReadyCondition, Next(Find(list, ReadyCondition), ready, reason, now),
                        ProvisioningSucceeded, Next(Find(one, ProvisioningSucceeded), true, "ProvisioningComplete", now),
                        Degraded, Next(Find(two, Degraded), false, undegraded, now));
  }

  lemma DisabledKeepsUnique(list: Conditions, now: Time)
    requires Unique(list)
    ensures Unique(Disabled(list, now))
  {
    var one := Set(list, GrpcGatewaySupported, false, "HTTP2Disabled", now);
    var two := Set(one, Degraded, true, "GatewayHTTP2Disabled", now);
    PutThreeKeepsUnique(list, GrpcGatewaySupported, Next(Find(list, GrpcGatewaySupported), false, "HTTP2Disabled", now),
                        Degraded, Next(Find(one, Degraded), true, "GatewayHTTP2Disabled", now),
                        ReadyCondition, Next(Find(two, ReadyCondition), false, "GatewayHTTP2Disabled", now));
  }

  lemma CheckKeepsUnique(s: Status, http2: Http2, now: Time)
    requires Unique(s.conditions)
    ensures Unique(Checked(s, http2, now).conditions)
  {
    match http2 {
      case None => WithoutKeepsUnique(s.conditions, GrpcGatewaySupported);
      case Some(true) =>
        PutKeepsUnique(s.conditions, GrpcGatewaySupported, Next(Find(s.conditions, GrpcGatewaySupported), true, "HTTP2Enabled", now));
      case Some(false) => DisabledKeepsUnique(s.conditions, now);
    }
  }

  lemma FoundKeepsUnique(list: Conditions, f: Finding, now: Time)
    requires Unique(list)
    ensures Unique(Found(list, f, now))
  {
    match f {
      case DatabaseSecretMissing => BrokenKeepsUnique(list, "DatabaseSecretMissing", false, "DatabaseSecretMissing", now);
      case ManifestError => BrokenKeepsUnique(list, "ManifestError", false, "ManifestError", now);
      case DeploymentCheckError => BrokenKeepsUnique(list, "DeploymentCheckError", true, "ProvisioningComplete", now);
      case FlightRegistrationError => BrokenKeepsUnique(list, "FlightRegistrationError", true, "ProvisioningComplete", now);
      case WaitingForDeployments => ProvisionedKeepsUnique(list, false, "WaitingForDeployments", "WaitingForDeployments", now);
      case AllReady => ProvisionedKeepsUnique(list, true, "Ready", "Reconciled", now);
    }
  }

  lemma ReconcileKeepsUnique(s: Status, f: Finding, http2: Http2, cfg: PlatformConfig, generation: nat, now: Time)
    requires Unique(s.conditions)
    ensures Unique(Reconciled(s, f, http2, cfg, generation, now).conditions)
  {
    var releases := Releases(s.releases, cfg, CalledWith(f) == Ready);
    var next := Status(CalledWith(f), Found(s.conditions, f, now), releases, generation, cfg.distribution);
    FoundKeepsUnique(s.conditions, f, now);
    CheckKeepsUnique(next, http2, now);
  }

  // ---- Runs ----

  /** A reconcile; it may fail to store its status, for example because the copy it read was out of date. */
  datatype Event = Event(finding: Finding, http2: Http2, cfg: PlatformConfig, generation: nat, now: Time, stored: bool)

  function Step(s: Status, e: Event): Status {
    if e.stored then Reconciled(s, e.finding, e.http2, e.cfg, e.generation, e.now) else s
  }

  function After(s: Status, run: seq<Event>): Status {
    if run == [] then s else Step(After(s, run[..|run| - 1]), run[|run| - 1])
  }

  const INITIAL := Status(NoPhase, [], [], 0, "")

  /** After every run of reconciles the status is coherent, with one entry per type of condition. */
  lemma {:induction false} RunsAreCoherent(run: seq<Event>)
    ensures Coherent(After(INITIAL, run)) && Unique(After(INITIAL, run).conditions)
  {
    if run != [] {
      var e, s := run[|run| - 1], After(INITIAL, run[..|run| - 1]);
      RunsAreCoherent(run[..|run| - 1]);
      ReconcileIsCoherent(s, e.finding, e.http2, e.cfg, e.generation, e.now);
      ReconcileKeepsUnique(s, e.finding, e.http2, e.cfg, e.generation, e.now);
    }
  }

  // ---- The platform version ----

  lemma VersionOfReleases(previous: seq<Release>, cfg: PlatformConfig, ready: bool)
    ensures VersionFrom(Releases(previous, cfg, ready), 0) ==
            if cfg.platformVersion == "" then "" else if ready then cfg.platformVersion else VersionFrom(previous, 0)
  {
    var releases := Releases(previous, cfg, ready);
    assert VersionFrom(releases, 0) == VersionFrom(releases, 1) == VersionFrom(releases, 2);
    if |releases| > 2 {
      assert VersionFrom(releases, 2) == releases[2].version;
    }
  }

  lemma VersionAfter(s: Status, f: Finding, http2: Http2, cfg: PlatformConfig, generation: nat, now: Time)
    ensures PlatformVersion(Reconciled(s, f, http2, cfg, generation, now)) ==
            if cfg.platformVersion == "" then "" else if f == AllReady then cfg.platformVersion else PlatformVersion(s)
  {
    VersionOfReleases(s.releases, cfg, f == AllReady);
  }

  /**
    The version of the last reconcile of a run that was stored and called with phase Ready, or
    else `first`; a stored reconcile without a platform version begins anew.
  */
  function LastReadyVersion(first: string, run: seq<Event>): string {
    if run == [] then first
    else
      var before, e := LastReadyVersion(first, run[..|run| - 1]), run[|run| - 1];
      if !e.stored then before
      else if e.cfg.platformVersion == "" then ""
      else if e.finding == AllReady then e.cfg.platformVersion
      else before
  }

  /** That is the version in the status after every run: no other reconcile changes it. */
  lemma {:induction false} VersionIsLastReady(s: Status, run: seq<Event>)
    ensures PlatformVersion(After(s, run)) == LastReadyVersion(PlatformVersion(s), run)
  {
    if run != [] {
      var init, e := run[..|run| - 1], run[|run| - 1];
      VersionIsLastReady(s, init);
      VersionAfter(After(s, init), e.finding, e.http2, e.cfg, e.generation, e.now);
    }
  }

  /** A new version is taken over exactly by a reconcile that finds all ready, so is called with phase Ready. */
  lemma AdvancesExactlyWhenCalledReady(s: Status, f: Finding, http2: Http2, cfg: PlatformConfig, generation: nat, now: Time)
    requires cfg.platformVersion != "" && PlatformVersion(s) != cfg.platformVersion
    ensures PlatformVersion(Reconciled(s, f, http2, cfg, generation, now)) == cfg.platformVersion <==> f == AllReady
  {
    VersionAfter(s, f, http2, cfg, generation, now);
  }

  /** The version waits for a status that is Ready exactly unless all is found ready while HTTP/2 is disabled. */
  lemma WaitsForReadyExactlyUnlessDisabled(s: Status, f: Finding, http2: Http2, cfg: PlatformConfig, generation: nat, now: Time)
    requires cfg.platformVersion != "" && PlatformVersion(s) != cfg.platformVersion
    ensures var after := Reconciled(s, f, http2, cfg, generation, now);
            (PlatformVersion(after) == cfg.platformVersion ==> after.phase == Ready) <==> !(f == AllReady && http2 == Some(false))
  {
    VersionAfter(s, f, http2, cfg, generation, now);
    ReconcileIsCoherent(s, f, http2, cfg, generation, now);
  }

  /** The version advances before the gateway check: it may do so in a reconcile that ends Not Ready. */
  lemma AdvancesThoughNotReady(s: Status, version: string, generation: nat, now: Time)
    requires version != ""
    ensures var after := Reconciled(s, AllReady, Some(false), PlatformConfig("", version), generation, now);
            after.phase == NotReady && PlatformVersion(after) == version
  {
    VersionAfter(s, AllReady, Some(false), PlatformConfig("", version), generation, now);
  }

  /** Once a stored reconcile has had no platform version, the version is gone until one is called with phase Ready. */
  lemma VersionIsForgotten(s: Status, e: Event, run: seq<Event>)
    requires e.stored && e.cfg.platformVersion == ""
    requires forall x | x in run && x.stored :: x.finding != AllReady
    ensures PlatformVersion(After(s, [e] + run)) == ""
  {
    VersionIsLastReady(s, [e] + run);
    NothingAfter(PlatformVersion(s), e, run);
  }

  lemma {:induction false} NothingAfter(first: string, e: Event, run: seq<Event>)
    requires e.stored && e.cfg.platformVersion == ""
    requires forall x | x in run && x.stored :: x.finding != AllReady
    ensures LastReadyVersion(first, [e] + run) == ""
  {
    var all := [e] + run;
    if run != [] {
      assert all[..|all| - 1] == [e] + run[..|run| - 1];
      NothingAfter(first, e, run[..|run| - 1]);
      assert all[|all| - 1] == run[|run| - 1] && run[|run| - 1] in run;
    }
  }

  // ---- The status object, updated in place ----

  lemma {:induction false} PutAt(list: Conditions, i: nat, t: ConditionType, c: Condition)
    requires i <= |list| && forall k | 0 <= k < i :: list[k].kind != t
    requires i < |list| ==> list[i].kind == t
    ensures Put(list, t, c) == if i < |list| then list[i := Entry(t, c)] else list + [Entry(t, c)]
    ensures Find(list, t) == if i < |list| then Some(list[i].condition) else None
  {
    if i > 0 {
      PutAt(list[1..], i - 1, t, c);
    }
  }

  class Resource {
    var phase: Phase
    var conditions: Conditions
    var releases: seq<Release>
    var observedGeneration: nat
    var distribution: string
    const generation: nat

    ghost function View(): Status
      reads this
    {
      Status(phase, conditions, releases, observedGeneration, distribution)
    }

    constructor (s: Status, generation: nat)
      ensures View() == s && this.generation == generation
    {
      phase, conditions, releases, observedGeneration, distribution := s.phase, s.conditions, s.releases, s.observedGeneration, s.distribution;
      this.generation := generation;
    }

    /** Looks for the entry of the type; changes it where it stands, or adds one. */
    method SetCondition(t: ConditionType, holds: bool, reason: string, now: Time)
      modifies `conditions
      ensures conditions == Set(old(conditions), t, holds, reason, now)
    {
      var i := 0;
      while i < |conditions| && conditions[i].kind != t
        invariant i <= |conditions| && forall k | 0 <= k < i :: conditions[k].kind != t
      {
        i := i + 1;
      }
      PutAt(conditions, i, t, Next(Find(conditions, t), holds, reason, now));
      if i == |conditions| {
        conditions := conditions + [Entry(t, Condition(holds, reason, now))];
      } else {
        var since := if conditions[i].condition.holds != holds then now else conditions[i].condition.since;
        conditions := conditions[i := Entry(t, Condition(holds, reason, since))];
      }
    }

    method RemoveCondition(t: ConditionType)
      modifies `conditions
      ensures conditions == Without(old(conditions), t)
    {
      var kept: Conditions := [];
      for i := 0 to |conditions|
        invariant kept + Without(conditions[i..], t) == Without(conditions, t)
      {
        assert conditions[i..][1..] == conditions[i + 1..];
        if conditions[i].kind != t {
          kept := kept + [conditions[i]];
        }
      }
      conditions := kept;
    }

    method CheckGrpcGatewaySupport(http2: Http2, now: Time)
      modifies this
      ensures View() == Checked(old(View()), http2, now)
    {
      if http2.None? {
        RemoveCondition(GrpcGatewaySupported);
        return;
      }
      if http2.value {
        SetCondition(GrpcGatewaySupported, true, "HTTP2Enabled", now);
        return;
      }
      SetCondition(GrpcGatewaySupported, false, "HTTP2Disabled", now);
      SetCondition(Degraded, true, "GatewayHTTP2Disabled", now);
      SetCondition(ReadyCondition, false, "GatewayHTTP2Disabled", now);
      if phase == Ready {
        phase := NotReady;
      }
    }

    method BuildReleases(cfg: PlatformConfig, isReady: bool) returns (built: seq<Release>)
      ensures built == Releases(releases, cfg, isReady)
    {
      built := [Release("rest-service", BUILD_VERSION), Release("flight-service", BUILD_VERSION)];
      if cfg.platformVersion == "" {
        return;
      }
      var version := "";
      if isReady {
        version := cfg.platformVersion;
      } else {
        var i := 0;
        while i < |releases|
          invariant i <= |releases| && version == "" && VersionFrom(releases, 0) == VersionFrom(releases, i)
        {
          if releases[i].name == PLATFORM {
            version := releases[i].version;
            break;
          }
          i := i + 1;
        }
        assert version == VersionFrom(releases, 0);
      }
      built := built + [Release(PLATFORM, version)];
    }

    method ReportBroken(reason: string, provisioned: bool, provisioning: string, now: Time)
      modifies `conditions
      ensures conditions == Broken(old(conditions), reason, provisioned, provisioning, now)
    {
      SetCondition(Degraded, true, reason, now);
      SetCondition(ReadyCondition, false, reason, now);
      SetCondition(ProvisioningSucceeded, provisioned, provisioning, now);
    }

    method ReportProvisioned(ready: bool, reason: string, undegraded: string, now: Time)
      modifies `conditions
      ensures conditions == Provisioned(old(conditions), ready, reason, undegraded, now)
    {
      SetCondition(ReadyCondition, ready, reason, now);
      SetCondition(ProvisioningSucceeded, true, "ProvisioningComplete", now);
      SetCondition(Degraded, false, undegraded, now);
    }

    method Report(f: Finding, http2: Http2, now: Time)
      modifies this
      ensures View() == var found := old(View()).(conditions := Found(old(conditions), f, now));
                        if ChecksGateway(f) then Checked(found, http2, now) else found
    {
      match f {
        case DatabaseSecretMissing => ReportBroken("DatabaseSecretMissing", false, "DatabaseSecretMissing", now);
        case ManifestError => ReportBroken("ManifestError", false, "ManifestError", now);
        case DeploymentCheckError => ReportBroken("DeploymentCheckError", true, "ProvisioningComplete", now);
        case FlightRegistrationError => ReportBroken("FlightRegistrationError", true, "ProvisioningComplete", now);
        case WaitingForDeployments =>
          ReportProvisioned(false, "WaitingForDeployments", "WaitingForDeployments", now);
          CheckGrpcGatewaySupport(http2, now);
        case AllReady =>
          ReportProvisioned(true, "Ready", "Reconciled", now);
          CheckGrpcGatewaySupport(http2, now);
      }
    }

    method UpdateStatus(f: Finding, http2: Http2, cfg: PlatformConfig, now: Time)
      modifies this
      ensures View() == Reconciled(old(View()), f, http2, cfg, generation, now)
    {
      phase := CalledWith(f);
      observedGeneration := generation;
      distribution := cfg.distribution;
      releases := BuildReleases(cfg, phase == Ready);
      Report(f, http2, now);
    }
  }

  /** The finding of a reconcile: the first of its checks that does not pass. */
  method Examine(secretOk: bool, manifestsOk: bool, pending: Option<nat>, flightOk: bool) returns (f: Finding)
    ensures f == AllReady <==> secretOk && manifestsOk && pending == Some(0) && flightOk
    ensures f == DatabaseSecretMissing <==> !secretOk
    ensures f == ManifestError <==> secretOk && !manifestsOk
    ensures f == DeploymentCheckError <==> secretOk && manifestsOk && pending.None?
    ensures f == WaitingForDeployments <==> secretOk && manifestsOk && pending.Some? && pending.value > 0
  {
    if !secretOk { return DatabaseSecretMissing; }
    if !manifestsOk { return ManifestError; }
    if pending.None? { return DeploymentCheckError; }
    if pending.value > 0 { return WaitingForDeployments; }
    if !flightOk { return FlightRegistrationError; }
    return AllReady;
  }

  /** A reconcile takes the stored status one event further. */
  method Reconcile(store: Status, e: Event) returns (after: Status)
    ensures after == Step(store, e)
  {
    var cr := new Resource(store, e.generation);
    cr.UpdateStatus(e.finding, e.http2, e.cfg, e.now);
    if !e.stored {
      return store;
    }
    after := Status(cr.phase, cr.conditions, cr.releases, cr.observedGeneration, cr.distribution);
  }
}
