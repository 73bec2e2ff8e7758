/**
  Promoting connection types to the REST service: ConfigMaps of the dashboard and
  InitDataConnectionType resources are read, posted and then marked, one API call at a time.
  The controller may stop between any two calls, the service may be away, and a reply may be lost
  after the service has committed.
*/
module Promotion {
  import opened Options
  import opened MetaStore

  /** A namespace and a name; for a ConfigMap these are also the tenant and name of its type. */
  datatype Ref = Ref(ns: Tenant, name: string)

  datatype Fields = Missing | Broken | Parsed(body: string)

  datatype ConfigMap = ConfigMap(fields: Fields, synced: bool)

  datatype Phase = Unset | Pending | Error | Completed | AlreadyExists

  /** An InitDataConnectionType. Every stored change gives it a new version. */
  datatype InitType = InitType(version: nat, spec: TypeSpec, phase: Phase)

  /** What a running reconcile is about to do. */
  datatype CmJob = PostCm(cm: ConfigMap) | Mark
  datatype InitJob = PostInit(copy: InitType) | SetStatus(copy: InitType, phase: Phase)

  /**
    The service's tables, the resources, the running reconciles, and the types for which the
    controller has had a 201 and a 409.
  */
  datatype World = World(
    db: Db, cms: map<Ref, ConfigMap>, inits: map<Ref, InitType>, clock: nat, deleting: bool,
    cmJobs: map<Ref, CmJob>, initJobs: map<Ref, InitJob>, created: set<Ref>, taken: set<Ref>)

  function Acked(w: World): set<Ref> {
    w.created + w.taken
  }

  // ---- The REST client ----

  datatype Net = Delivered | Outage | ReplyLost | Refused

  datatype Status = Created | Taken | Unavailable | OtherError

  /** A create that reaches the service commits, or finds the name taken, whether or not the reply arrives. */
  function Create(db: Db, tenant: Tenant, spec: TypeSpec, net: Net, id: Id, now: Time): (Db, Status) {
    match net
    case Outage => (db, Unavailable)
    case Refused => (db, OtherError)
    case _ =>
      var taken := TypeNameTaken(db, tenant, spec.name, id);
      var after := if taken then db else PutType(db, NewType(CreateType(tenant, spec, id, now)));
      (after, if net == ReplyLost then Unavailable else if taken then Taken else Created)
  }

  /** That is the metadata store's create, with 409 for a conflict. */
  lemma CreateIsTheStores(db: Db, tenant: Tenant, spec: TypeSpec, id: Id, now: Time)
    ensures var (after, reply) := Apply(CreateType(tenant, spec, id, now), db);
            Create(db, tenant, spec, Delivered, id, now) == (after, if reply.Conflict? then Taken else Created)
  {
  }

  // ---- Steps ----

  datatype Action =
    | ReadConfigMap(key: Ref)
    | PostConfigMap(key: Ref, net: Net, id: Id, now: Time)
    | MarkSynced(key: Ref, ok: bool)
    | ReadInit(key: Ref, copy: InitType)
    | PostType(key: Ref, net: Net, id: Id, now: Time)
    | StoreStatus(key: Ref, ok: bool)
    | Restart                             // the controller forgets what it was doing
    | EditConfigMap(key: Ref, fields: Fields)
    | DropConfigMap(key: Ref)
    | ClearSynced(key: Ref)
    | EditInit(key: Ref, spec: TypeSpec)
    | DropInit(key: Ref)
    | SetDeleting(deleting: bool)
    | Other(op: Op)                       // a call of another client of the service
    | ResetDatabase

  predicate IsAlias(key: Ref) {
    key.name == "uri-v1"
  }

  predicate Terminal(phase: Phase) {
    phase == Completed || phase == AlreadyExists
  }

  /** The controller's cache may lag behind: it may return any earlier copy. */
  predicate MayRead(w: World, key: Ref, copy: InitType) {
    key in w.inits && copy.version <= w.inits[key].version && (copy.version == w.inits[key].version ==> copy == w.inits[key])
  }

  /** Generated ids are new. */
  ghost predicate Enabled(w: World, a: Action) {
    match a
    case ReadConfigMap(key) => key in w.cms && key !in w.cmJobs && !w.deleting
    case PostConfigMap(key, _, id, _) => key in w.cmJobs && w.cmJobs[key].PostCm? && id !in w.db.types
    case MarkSynced(key, _) => key in w.cmJobs && w.cmJobs[key] == Mark
    case ReadInit(key, copy) => key !in w.initJobs && MayRead(w, key, copy)
    case PostType(key, _, id, _) => key in w.initJobs && w.initJobs[key].PostInit? && id !in w.db.types
    case StoreStatus(key, _) => key in w.initJobs && w.initJobs[key].SetStatus?
    case Other(op) => Fresh(w.db, op)
    case _ => true
  }

  function Read(w: World, key: Ref): World
    requires key in w.cms
  {
    var cm := w.cms[key];
    if IsAlias(key) then
      if cm.synced then w else w.(cmJobs := w.cmJobs[key := Mark])
    else if cm.fields.Parsed? then w.(cmJobs := w.cmJobs[key := PostCm(cm)])
    else w
  }

  function Post(w: World, key: Ref, net: Net, id: Id, now: Time): (after: World)
    requires key in w.cmJobs && w.cmJobs[key].PostCm?
    ensures after.inits == w.inits && after.initJobs == w.initJobs && after.clock == w.clock
  {
    var (db, status) := Create(w.db, key.ns, Wanted(w.cmJobs[key].cm, key), net, id, now);
    Answered(w, key, db, status)
  }

  /** The type a ConfigMap describes, under its own name. */
  function Wanted(cm: ConfigMap, key: Ref): TypeSpec {
    TypeSpec(key.name, if cm.fields.Parsed? then cm.fields.body else "")
  }

  function Answered(w: World, key: Ref, db: Db, status: Status): World
    requires key in w.cmJobs && w.cmJobs[key].PostCm?
  {
    match status
    case Created => w.(db := db, created := w.created + {key}, cmJobs := w.cmJobs[key := Mark])
    case Taken =>
      w.(db := db, taken := w.taken + {key}, cmJobs := if w.cmJobs[key].cm.synced then w.cmJobs - {key} else w.cmJobs[key := Mark])
    case _ => w.(db := db, cmJobs := w.cmJobs - {key})
  }

  /** The annotation is patched in whatever the ConfigMap has become, if it is still there. */
  function Marked(w: World, key: Ref, ok: bool): World {
    var done := w.(cmJobs := w.cmJobs - {key});
    if ok && key in w.cms then done.(cms := w.cms[key := w.cms[key].(synced := true)]) else done
  }

  function PhaseFor(status: Status): Phase {
    match status
    case Created => Completed
    case Taken => AlreadyExists
    case Unavailable => Pending
    case OtherError => Error
  }

  function Register(w: World, key: Ref, net: Net, id: Id, now: Time): (after: World)
    requires key in w.initJobs && w.initJobs[key].PostInit?
    ensures after.inits == w.inits && after.cms == w.cms && after.cmJobs == w.cmJobs
  {
    var copy := w.initJobs[key].copy;
    var (db, status) := Create(w.db, key.ns, copy.spec, net, id, now);
    Registered(w, key, db, status)
  }

  function Registered(w: World, key: Ref, db: Db, status: Status): World
    requires key in w.initJobs && w.initJobs[key].PostInit?
  {
    var copy := w.initJobs[key].copy;
    var done := w.(db := db, initJobs := w.initJobs[key := SetStatus(copy, PhaseFor(status))]);
    var ref := Ref(key.ns, copy.spec.name);
    match status
    case Created => done.(created := w.created + {ref})
    case Taken => done.(taken := w.taken + {ref})
    case _ => done
  }

  /** The update is refused if the resource has changed since it was read; the failure is only logged. */
  function Stored(w: World, key: Ref, ok: bool): World
    requires key in w.initJobs && w.initJobs[key].SetStatus?
  {
    var SetStatus(copy, phase) := w.initJobs[key];
    var done := w.(initJobs := w.initJobs - {key});
    if ok && key in w.inits && w.inits[key].version == copy.version then
      done.(inits := w.inits[key := copy.(phase := phase, version := w.clock + 1)], clock := w.clock + 1)
    else done
  }

  function Edited(w: World, key: Ref, spec: TypeSpec): World {
    var phase := if key in w.inits then w.inits[key].phase else Unset;
    w.(inits := w.inits[key := InitType(w.clock + 1, spec, phase)], clock := w.clock + 1)
  }

  ghost function Move(w: World, a: Action): World
    requires Enabled(w, a)
  {
    match a
    case ReadConfigMap(key) => Read(w, key)
    case PostConfigMap(key, net, id, now) => Post(w, key, net, id, now)
    case MarkSynced(key, ok) => Marked(w, key, ok)
    case ReadInit(key, copy) => if Terminal(copy.phase) then w else w.(initJobs := w.initJobs[key := PostInit(copy)])
    case PostType(key, net, id, now) => Register(w, key, net, id, now)
    case StoreStatus(key, ok) => Stored(w, key, ok)
    case Restart => w.(cmJobs := map[], initJobs := map[])
    case EditConfigMap(key, fields) => w.(cms := w.cms[key := ConfigMap(fields, key in w.cms && w.cms[key].synced)])
    case DropConfigMap(key) => w.(cms := w.cms - {key})
    case ClearSynced(key) => if key in w.cms then w.(cms := w.cms[key := w.cms[key].(synced := false)]) else w
    case EditInit(key, spec) => Edited(w, key, spec)
    case DropInit(key) => w.(inits := w.inits - {key})
    case SetDeleting(d) => w.(deleting := d)
    case Other(op) => w.(db := Apply(op, w.db).0)
    case ResetDatabase => w.(db := w.db.(types := map[], conns := map[]))
  }

  ghost function After(w: World, run: seq<Action>): World
    requires Legal(w, run)
    decreases |run|
  {
    if run == [] then w else After(Move(w, run[0]), run[1..])
  }

  ghost predicate Legal(w: World, run: seq<Action>)
    decreases |run|
  {
    run == [] || (Enabled(w, run[0]) && Legal(Move(w, run[0]), run[1..]))
  }

  predicate Initial(w: World) {
    && w.db.types == map[] && w.db.conns == map[] && w.cms == map[] && w.inits == map[]
    && w.cmJobs == map[] && w.initJobs == map[] && w.created == {} && w.taken == {}
  }

  // ---- The invariant ----

  /** A ConfigMap is marked, or about to be, only after a 201 or 409 for its type. */
  ghost predicate MarksEarned(w: World) {
    && (forall key | key in w.cms && w.cms[key].synced && !IsAlias(key) :: key in Acked(w))
    && (forall key | key in w.cmJobs && w.cmJobs[key] == Mark && !IsAlias(key) :: key in Acked(w))
  }

  /** Completed needs a 201 for the type, AlreadyExists a 409. */
  ghost predicate Earned(w: World, phase: Phase, ref: Ref) {
    (phase == Completed ==> ref in w.created) && (phase == AlreadyExists ==> ref in w.taken)
  }

  /** A status to be stored follows from a copy that was not terminal, and is the resource's own if the versions agree. */
  ghost predicate JobFits(w: World, key: Ref, job: InitJob) {
    && !Terminal(job.copy.phase) && job.copy.version <= w.clock
    && (key in w.inits && w.inits[key].version == job.copy.version ==> w.inits[key] == job.copy)
    && (job.SetStatus? ==> Earned(w, job.phase, Ref(key.ns, job.copy.spec.name)))
  }

  ghost predicate StatusFits(w: World) {
    && (forall key | key in w.inits :: w.inits[key].version <= w.clock)
    && (forall key | key in w.initJobs :: JobFits(w, key, w.initJobs[key]))
  }

  ghost predicate Inv(w: World) {
    Consistent(w.db) && MarksEarned(w) && StatusFits(w)
  }

  predicate Grows(w: World, after: World) {
    w.created <= after.created && w.taken <= after.taken
  }

  lemma CreateKeepsConsistent(db: Db, tenant: Tenant, spec: TypeSpec, net: Net, id: Id, now: Time)
    requires Consistent(db) && id !in db.types
    ensures Consistent(Create(db, tenant, spec, net, id, now).0)
  {
    CreateIsTheStores(db, tenant, spec, id, now);
    ApplyKeepsConsistent(CreateType(tenant, spec, id, now), db);
  }

  /** Only posts, other clients and a reset touch the service's tables, and only posts bring replies. */
  lemma QuietMove(w: World, a: Action)
    requires Enabled(w, a) && !a.PostConfigMap? && !a.PostType?
    ensures Move(w, a).created == w.created && Move(w, a).taken == w.taken
    ensures !a.Other? && !a.ResetDatabase? ==> Move(w, a).db == w.db
  {
    match a {
      case ReadConfigMap(key) => assert Move(w, a) == Read(w, key);
      case MarkSynced(key, ok) => assert Move(w, a) == Marked(w, key, ok);
      case StoreStatus(key, ok) => assert Move(w, a) == Stored(w, key, ok);
      case EditInit(key, spec) => assert Move(w, a) == Edited(w, key, spec);
      case _ =>
    }
  }

  lemma PostKeepsConsistent(w: World, key: Ref, net: Net, id: Id, now: Time)
    requires Consistent(w.db) && key in w.cmJobs && w.cmJobs[key].PostCm? && id !in w.db.types
    ensures Consistent(Post(w, key, net, id, now).db)
  {
    CreateKeepsConsistent(w.db, key.ns, Wanted(w.cmJobs[key].cm, key), net, id, now);
  }

  lemma RegisterKeepsConsistent(w: World, key: Ref, net: Net, id: Id, now: Time)
    requires Consistent(w.db) && key in w.initJobs && w.initJobs[key].PostInit? && id !in w.db.types
    ensures Consistent(Register(w, key, net, id, now).db)
  {
    CreateKeepsConsistent(w.db, key.ns, w.initJobs[key].copy.spec, net, id, now);
  }

  lemma MoveKeepsConsistent(w: World, a: Action)
    requires Consistent(w.db) && Enabled(w, a)
    ensures Consistent(Move(w, a).db)
  {
    match a {
      case PostConfigMap(key, net, id, now) => PostKeepsConsistent(w, key, net, id, now);
      case PostType(key, net, id, now) => RegisterKeepsConsistent(w, key, net, id, now);
      case Other(op) => ApplyKeepsConsistent(op, w.db);
      case ResetDatabase =>
      case _ => QuietMove(w, a);
    }
  }

  /** Answers about a ConfigMap leave the InitDataConnectionTypes alone. */
  lemma AnswerKeepsMarks(w: World, key: Ref, db: Db, status: Status)
    requires MarksEarned(w) && key in w.cmJobs && w.cmJobs[key].PostCm?
    ensures var after := Answered(w, key, db, status);
            MarksEarned(after) && Grows(w, after) && after.inits == w.inits && after.initJobs == w.initJobs && after.clock == w.clock
  {
  }

  lemma PostKeepsMarks(w: World, key: Ref, net: Net, id: Id, now: Time)
    requires MarksEarned(w) && key in w.cmJobs && w.cmJobs[key].PostCm?
    ensures var after := Post(w, key, net, id, now);
            MarksEarned(after) && Grows(w, after) && after.inits == w.inits && after.initJobs == w.initJobs && after.clock == w.clock
  {
    var (db, status) := Create(w.db, key.ns, Wanted(w.cmJobs[key].cm, key), net, id, now);
    AnswerKeepsMarks(w, key, db, status);
  }

  lemma RegisterKeepsMarks(w: World, key: Ref, net: Net, id: Id, now: Time)
    requires MarksEarned(w) && key in w.initJobs && w.initJobs[key].PostInit?
    ensures var after := Register(w, key, net, id, now);
            MarksEarned(after) && Grows(w, after) && after.inits == w.inits
  {
  }

  lemma FrameKeepsMarks(w: World, after: World)
    requires MarksEarned(w) && after.cms == w.cms && after.cmJobs == w.cmJobs && Grows(w, after)
    ensures MarksEarned(after)
  {
  }

  lemma MarkKeepsMarks(w: World, key: Ref, ok: bool)
    requires MarksEarned(w) && key in w.cmJobs && w.cmJobs[key] == Mark
    ensures MarksEarned(Marked(w, key, ok))
  {
  }

  lemma MoveKeepsMarks(w: World, a: Action)
    requires MarksEarned(w) && Enabled(w, a)
    ensures MarksEarned(Move(w, a)) && Grows(w, Move(w, a))
  {
    match a {
      case PostConfigMap(key, net, id, now) => PostKeepsMarks(w, key, net, id, now);
      case PostType(key, net, id, now) => RegisterKeepsMarks(w, key, net, id, now);
      case MarkSynced(key, ok) => MarkKeepsMarks(w, key, ok);
      case ReadConfigMap(_) =>
      case EditConfigMap(_, _) =>
      case DropConfigMap(_) =>
      case ClearSynced(_) =>
      case Restart =>
      case _ => FrameKeepsMarks(w, Move(w, a));
    }
  }

  /** Jobs go on fitting while their resources stay and more types are granted. */
  lemma JobStaysFit(w: World, after: World, key: Ref)
    requires key in w.initJobs && JobFits(w, key, w.initJobs[key]) && w.clock <= after.clock && Grows(w, after)
    requires key in after.inits ==> (key in w.inits && after.inits[key] == w.inits[key]) || after.inits[key].version > w.clock
    ensures JobFits(after, key, w.initJobs[key])
  {
  }

  lemma StoreKeepsStatus(w: World, key: Ref, ok: bool)
    requires StatusFits(w) && key in w.initJobs && w.initJobs[key].SetStatus?
    ensures StatusFits(Stored(w, key, ok))
  {
    var after := Stored(w, key, ok);
    forall k | k in after.initJobs ensures JobFits(after, k, after.initJobs[k]) {
      JobStaysFit(w, after, k);
    }
  }

  lemma EditKeepsStatus(w: World, key: Ref, spec: TypeSpec)
    requires StatusFits(w)
    ensures StatusFits(Edited(w, key, spec))
  {
    var after := Edited(w, key, spec);
    forall k | k in after.initJobs ensures JobFits(after, k, after.initJobs[k]) {
      JobStaysFit(w, after, k);
    }
  }

  lemma RegisterKeepsStatus(w: World, key: Ref, db: Db, status: Status)
    requires StatusFits(w) && key in w.initJobs && w.initJobs[key].PostInit?
    ensures StatusFits(Registered(w, key, db, status))
  {
    var after := Registered(w, key, db, status);
    assert JobFits(w, key, w.initJobs[key]);
    forall k | k in after.initJobs ensures JobFits(after, k, after.initJobs[k]) {
      if k != key {
        JobStaysFit(w, after, k);
      }
    }
  }

  lemma FrameKeepsStatus(w: World, after: World)
    requires StatusFits(w) && after.clock == w.clock && Grows(w, after) && after.initJobs == w.initJobs
    requires forall key | key in after.inits :: key in w.inits && after.inits[key] == w.inits[key]
    ensures StatusFits(after)
  {
    forall k | k in after.initJobs ensures JobFits(after, k, after.initJobs[k]) {
      JobStaysFit(w, after, k);
    }
  }

  lemma ReadKeepsStatus(w: World, key: Ref, copy: InitType)
    requires StatusFits(w) && MayRead(w, key, copy) && !Terminal(copy.phase)
    ensures StatusFits(w.(initJobs := w.initJobs[key := PostInit(copy)]))
  {
    var after := w.(initJobs := w.initJobs[key := PostInit(copy)]);
    forall k | k in after.initJobs ensures JobFits(after, k, after.initJobs[k]) {
      if k != key {
        JobStaysFit(w, after, k);
      }
    }
  }

  lemma MoveKeepsStatus(w: World, a: Action)
    requires StatusFits(w) && MarksEarned(w) && Enabled(w, a)
    ensures StatusFits(Move(w, a))
  {
    match a {
      case StoreStatus(key, ok) => StoreKeepsStatus(w, key, ok);
      case EditInit(key, spec) => EditKeepsStatus(w, key, spec);
      case PostType(key, net, id, now) =>
        var (db, status) := Create(w.db, key.ns, w.initJobs[key].copy.spec, net, id, now);
        RegisterKeepsStatus(w, key, db, status);
      case ReadInit(key, copy) =>
        if !Terminal(copy.phase) {
          ReadKeepsStatus(w, key, copy);
        }
      case PostConfigMap(key, net, id, now) =>
        PostKeepsMarks(w, key, net, id, now);
        FrameKeepsStatus(w, Move(w, a));
      case Restart =>
      case _ => FrameKeepsStatus(w, Move(w, a));
    }
  }

  lemma MoveKeepsInv(w: World, a: Action)
    requires Inv(w) && Enabled(w, a)
    ensures Inv(Move(w, a))
  {
    MoveKeepsConsistent(w, a);
    MoveKeepsMarks(w, a);
    MoveKeepsStatus(w, a);
  }

  lemma {:induction false} RunKeepsInv(w: World, run: seq<Action>)
    requires Inv(w) && Legal(w, run)
    ensures Inv(After(w, run))
    decreases |run|
  {
    if run != [] {
      MoveKeepsInv(w, run[0]);
      RunKeepsInv(Move(w, run[0]), run[1..]);
    }
  }

  /**
    In every run there is at most one type per namespace and name, and every ConfigMap that is
    marked and not covered by a built-in type has had a 201 or a 409 for its type.
  */
  lemma ReachableIsEarned(w: World, run: seq<Action>, key: Ref)
    requires Initial(w) && Legal(w, run)
    ensures NamesUnique(After(w, run).db)
    ensures key in After(w, run).cms && After(w, run).cms[key].synced && !IsAlias(key) ==> key in Acked(After(w, run))
  {
    RunKeepsInv(w, run);
  }

  // ---- Terminal phases ----

  lemma OthersKeepInits(w: World, a: Action)
    requires Enabled(w, a) && !a.StoreStatus? && !a.EditInit? && !a.DropInit?
    ensures Move(w, a).inits == w.inits
  {
    match a {
      case PostConfigMap(key, net, id, now) => assert Move(w, a) == Post(w, key, net, id, now);
      case PostType(key, net, id, now) => assert Move(w, a) == Register(w, key, net, id, now);
      case _ =>
    }
  }

  lemma StoreEarnsAndKeeps(w: World, k: Ref, ok: bool, key: Ref)
    requires StatusFits(w) && k in w.initJobs && w.initJobs[k].SetStatus? && key in w.inits
    ensures key in Stored(w, k, ok).inits
    ensures var before, after := w.inits[key], Stored(w, k, ok).inits[key];
            && (Terminal(before.phase) ==> after.phase == before.phase)
            && (!Terminal(before.phase) ==> Earned(w, after.phase, Ref(key.ns, after.spec.name)))
  {
    assert JobFits(w, k, w.initJobs[k]);
  }

  /** A step changes no terminal phase, and makes a phase Completed only after a 201 for the type and AlreadyExists only after a 409. */
  lemma TerminalIsEarnedAndKept(w: World, a: Action, key: Ref)
    requires Inv(w) && Enabled(w, a) && key in w.inits && a != DropInit(key)
    ensures key in Move(w, a).inits
    ensures var before, after := w.inits[key], Move(w, a).inits[key];
            && (Terminal(before.phase) ==> after.phase == before.phase)
            && (!Terminal(before.phase) ==> Earned(w, after.phase, Ref(key.ns, after.spec.name)))
  {
    match a {
      case StoreStatus(k, ok) => StoreEarnsAndKeeps(w, k, ok, key);
      case EditInit(_, _) =>
      case DropInit(_) =>
      case _ => OthersKeepInits(w, a);
    }
  }

  /** Once terminal, a phase stays as long as its resource is not deleted. */
  lemma {:induction false} TerminalIsForever(w: World, run: seq<Action>, key: Ref)
    requires Inv(w) && Legal(w, run) && DropInit(key) !in run
    requires key in w.inits && Terminal(w.inits[key].phase)
    ensures key in After(w, run).inits && After(w, run).inits[key].phase == w.inits[key].phase
    decreases |run|
  {
    if run != [] {
      assert run[0] in run;
      MoveKeepsInv(w, run[0]);
      TerminalIsEarnedAndKept(w, run[0], key);
      TerminalIsForever(Move(w, run[0]), run[1..], key);
    }
  }

  // ---- What a mark is worth ----

  predicate Present(db: Db, ref: Ref) {
    exists t | t in db.types :: db.types[t].meta.tenant == ref.ns && db.types[t].spec.name == ref.name
  }

  ghost predicate Backed(w: World) {
    forall ref | ref in Acked(w) :: Present(w.db, ref)
  }

  /** No other client changes the types, and the database is not reset. */
  predicate Undisturbed(a: Action) {
    !a.Other? && !a.ResetDatabase?
  }

  lemma CreateLeavesType(db: Db, tenant: Tenant, spec: TypeSpec, net: Net, id: Id, now: Time)
    requires id !in db.types
    ensures var (after, status) := Create(db, tenant, spec, net, id, now);
            && (status == Created || status == Taken ==> Present(after, Ref(tenant, spec.name)))
            && (forall ref | Present(db, ref) :: Present(after, ref))
  {
    var op := CreateType(tenant, spec, id, now);
    var after := Create(db, tenant, spec, net, id, now).0;
    forall ref | Present(db, ref) ensures Present(after, ref) {
      var t :| t in db.types && db.types[t].meta.tenant == ref.ns && db.types[t].spec.name == ref.name;
      assert t in after.types && after.types[t] == db.types[t];
    }
    if net.Delivered? && !TypeNameTaken(db, tenant, spec.name, id) {
      assert after.types[id] == NewType(op);
    }
  }

  lemma PostKeepsBacked(w: World, key: Ref, net: Net, id: Id, now: Time)
    requires Backed(w) && key in w.cmJobs && w.cmJobs[key].PostCm? && id !in w.db.types
    ensures Backed(Post(w, key, net, id, now))
  {
    CreateLeavesType(w.db, key.ns, Wanted(w.cmJobs[key].cm, key), net, id, now);
  }

  lemma RegisterKeepsBacked(w: World, key: Ref, net: Net, id: Id, now: Time)
    requires Backed(w) && key in w.initJobs && w.initJobs[key].PostInit? && id !in w.db.types
    ensures Backed(Register(w, key, net, id, now))
  {
    CreateLeavesType(w.db, key.ns, w.initJobs[key].copy.spec, net, id, now);
  }

  lemma MoveKeepsBacked(w: World, a: Action)
    requires Backed(w) && Enabled(w, a) && Undisturbed(a)
    ensures Backed(Move(w, a))
  {
    match a {
      case PostConfigMap(key, net, id, now) => PostKeepsBacked(w, key, net, id, now);
      case PostType(key, net, id, now) => RegisterKeepsBacked(w, key, net, id, now);
      case _ => QuietMove(w, a);
    }
  }

  lemma {:induction false} RunKeepsBacked(w: World, run: seq<Action>)
    requires Backed(w) && Legal(w, run) && forall a | a in run :: Undisturbed(a)
    ensures Backed(After(w, run))
    decreases |run|
  {
    if run != [] {
      assert run[0] in run;
      MoveKeepsBacked(w, run[0]);
      RunKeepsBacked(Move(w, run[0]), run[1..]);
    }
  }

  /** While nobody else removes types, every marked ConfigMap has its type, exactly one. */
  lemma MarkedHasItsType(w: World, run: seq<Action>, key: Ref)
    requires Initial(w) && Legal(w, run) && forall a | a in run :: Undisturbed(a)
    requires key in After(w, run).cms && After(w, run).cms[key].synced && !IsAlias(key)
    ensures Present(After(w, run).db, key) && NamesUnique(After(w, run).db)
  {
    ReachableIsEarned(w, run, key);
    RunKeepsBacked(w, run);
  }

  // ---- What a reconcile comes to ----

  /** What a create answers and stores: the reply tells the truth, and a lost reply changes nothing about what is stored. */
  lemma CreateIs(db: Db, tenant: Tenant, spec: TypeSpec, net: Net, id: Id, now: Time)
    requires id !in db.types
    ensures var (after, status) := Create(db, tenant, spec, net, id, now);
            var taken := Present(db, Ref(tenant, spec.name));
            && (status == Created <==> net == Delivered && !taken)
            && (status == Taken <==> net == Delivered && taken)
            && (status == Unavailable <==> net == Outage || net == ReplyLost)
            && (status == OtherError <==> net == Refused)
            && after == if (net == Delivered || net == ReplyLost) && !taken
                        then db.(types := db.types[id := TypeRow(Metadata(id, tenant, now, now), spec, TypeStatus(false, None, None, None))])
                        else db
  {
    assert TypeNameTaken(db, tenant, spec.name, id) <==> Present(db, Ref(tenant, spec.name));
  }

  /** A reconcile of a ConfigMap that is not marked, read, posted and marked without a fault: it is marked, and the service has its type. */
  lemma PromotionCompletes(w: World, key: Ref, body: string, id: Id, now: Time)
    requires key in w.cms && w.cms[key] == ConfigMap(Parsed(body), false) && !IsAlias(key)
    requires key !in w.cmJobs && !w.deleting && id !in w.db.types
    ensures Enabled(w, ReadConfigMap(key))
    ensures var read := Move(w, ReadConfigMap(key)); Enabled(read, PostConfigMap(key, Delivered, id, now))
    ensures var posted := Move(Move(w, ReadConfigMap(key)), PostConfigMap(key, Delivered, id, now));
            && Enabled(posted, MarkSynced(key, true))
            && var marked := Move(posted, MarkSynced(key, true));
               && key in marked.cms && marked.cms[key] == ConfigMap(Parsed(body), true) && key !in marked.cmJobs
               && marked.db == if Present(w.db, key) then w.db
                               else w.db.(types := w.db.types[id := TypeRow(Metadata(id, key.ns, now, now), TypeSpec(key.name, body), TypeStatus(false, None, None, None))])
  {
    CreateIs(w.db, key.ns, TypeSpec(key.name, body), Delivered, id, now);
  }

  /**
    After a post a ConfigMap is about to be marked exactly if there was a 201, or a 409 and it was not
    marked when it was read; otherwise the reconcile is over.
  */
  lemma PostIs(w: World, key: Ref, net: Net, id: Id, now: Time)
    requires Enabled(w, PostConfigMap(key, net, id, now)) && w.cmJobs[key].cm.fields.Parsed?
    ensures var after := Move(w, PostConfigMap(key, net, id, now));
            && (key in after.cmJobs <==> net == Delivered && (!Present(w.db, key) || !w.cmJobs[key].cm.synced))
            && (key in after.cmJobs ==> after.cmJobs[key] == Mark)
            && after.cms == w.cms
  {
    CreateIs(w.db, key.ns, TypeSpec(key.name, w.cmJobs[key].cm.fields.body), net, id, now);
  }

  /** A ConfigMap without a type to post, or of a built-in alias, is never posted. */
  lemma NothingIsPosted(w: World, key: Ref)
    requires key in w.cms && Enabled(w, ReadConfigMap(key)) && (IsAlias(key) || !w.cms[key].fields.Parsed?)
    ensures var read := Move(w, ReadConfigMap(key));
            key in read.cmJobs <==> IsAlias(key) && !w.cms[key].synced
    ensures key in Move(w, ReadConfigMap(key)).cmJobs ==> Move(w, ReadConfigMap(key)).cmJobs[key] == Mark
  {
  }

  /** The phase a registration ends with when its status is stored. */
  function PhaseAfter(db: Db, ref: Ref, net: Net): Phase {
    match net
    case Delivered => if Present(db, ref) then AlreadyExists else Completed
    case Outage => Pending
    case ReplyLost => Pending
    case Refused => Error
  }

  /** A resource that is read as it is, posted and stored without a conflict gets the phase of its reply, and keeps its specification. */
  lemma RegistrationEnds(w: World, key: Ref, net: Net, id: Id, now: Time)
    requires key in w.inits && !Terminal(w.inits[key].phase) && key !in w.initJobs && id !in w.db.types
    ensures Enabled(w, ReadInit(key, w.inits[key]))
    ensures var read := Move(w, ReadInit(key, w.inits[key])); Enabled(read, PostType(key, net, id, now))
    ensures var posted := Move(Move(w, ReadInit(key, w.inits[key])), PostType(key, net, id, now));
            && Enabled(posted, StoreStatus(key, true))
            && var stored := Move(posted, StoreStatus(key, true));
               && key in stored.inits && stored.inits[key].spec == w.inits[key].spec
               && stored.inits[key].phase == PhaseAfter(w.db, Ref(key.ns, w.inits[key].spec.name), net)
               && stored.db == Create(w.db, key.ns, w.inits[key].spec, net, id, now).0 && key !in stored.initJobs
  {
    CreateIs(w.db, key.ns, w.inits[key].spec, net, id, now);
  }

  /** A reply lost after the commit: the next post finds the name taken and stores nothing more. */
  lemma LostReplyIsMadeUp(db: Db, tenant: Tenant, spec: TypeSpec, id: Id, now: Time, id': Id, later: Time)
    requires id !in db.types && id' != id && id' !in db.types
    ensures var first := Create(db, tenant, spec, ReplyLost, id, now).0;
            Create(first, tenant, spec, Delivered, id', later) == (first, Taken)
  {
    CreateIs(db, tenant, spec, ReplyLost, id, now);
    var first := Create(db, tenant, spec, ReplyLost, id, now).0;
    if !Present(db, Ref(tenant, spec.name)) {
      assert first.types[id].meta.tenant == tenant && first.types[id].spec.name == spec.name;
    }
    CreateIs(first, tenant, spec, Delivered, id', later);
  }
}
