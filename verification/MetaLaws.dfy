/**
  What each operation of the store answers and changes, in terms of the rows themselves; that
  tenants do not see each other's rows change; and both for every call of every run.
*/
module MetaLaws {
  import opened Options
  import opened MetaStore
  import opened MetaTx
  import opened MetaRuns

  // ---- One operation ----

  /** A type with this id belongs to the tenant or to the global one. */
  predicate Usable(db: Db, tenant: Tenant, t: Id) {
    t in db.types && db.types[t].meta.tenant in {tenant, db.global}
  }

  /** Another connection of the tenant has this name. */
  predicate ConnNamed(db: Db, tenant: Tenant, name: string, other: Id) {
    exists c | c in db.conns && c != other :: db.conns[c].meta.tenant == tenant && db.conns[c].spec.name == name
  }

  predicate TypeNamed(db: Db, tenant: Tenant, name: string, other: Id) {
    exists t | t in db.types && t != other :: db.types[t].meta.tenant == tenant && db.types[t].spec.name == name
  }

  predicate OwnsConn(db: Db, tenant: Tenant, c: Id) {
    c in db.conns && db.conns[c].meta.tenant == tenant
  }

  predicate OwnsType(db: Db, tenant: Tenant, t: Id) {
    t in db.types && db.types[t].meta.tenant == tenant
  }

  /** Every answer of an operation means something: success, and each refusal, exactly under its own condition. */
  ghost predicate AnswersRightly(op: Op, db: Db, reply: Reply) {
    match op
    case CreateConn(tenant, spec, id, now) =>
      && (reply == Unprocessable <==> !Usable(db, tenant, spec.typeId))
      && (reply == Conflict <==> Usable(db, tenant, spec.typeId) && ConnNamed(db, tenant, spec.name, id))
      && (reply.ConnReply? <==> Usable(db, tenant, spec.typeId) && !ConnNamed(db, tenant, spec.name, id))
    case UpdateConn(tenant, uid, edit, now) =>
      && (reply == NotFound <==> !OwnsConn(db, tenant, uid))
      && (OwnsConn(db, tenant, uid) ==>
            var edited := edit(db.conns[uid].spec);
            && (reply == Rejected <==> edited.None?)
            && (reply == Unprocessable <==> edited.Some? && !Usable(db, tenant, edited.value.typeId))
            && (reply == QueryFailed <==>
                  edited.Some? && Usable(db, tenant, edited.value.typeId) && ConnNamed(db, tenant, edited.value.name, uid))
            && (reply.ConnReply? <==>
                  edited.Some? && Usable(db, tenant, edited.value.typeId) && !ConnNamed(db, tenant, edited.value.name, uid)))
    case UpdateConnStatus(tenant, uid, edit, now) =>
      && (reply == NotFound <==> !OwnsConn(db, tenant, uid))
      && (OwnsConn(db, tenant, uid) ==>
            && (reply == Rejected <==> edit(db.conns[uid].status).None?)
            && (reply.ConnReply? <==> edit(db.conns[uid].status).Some?))
    case DeleteConn(tenant, uid) =>
      && (reply == Deleted <==> OwnsConn(db, tenant, uid))
      && (reply == NotFound <==> !OwnsConn(db, tenant, uid))
    case CreateType(tenant, spec, id, now) =>
      && (reply == Conflict <==> TypeNamed(db, tenant, spec.name, id))
      && (reply.TypeReply? <==> !TypeNamed(db, tenant, spec.name, id))
    case UpdateType(tenant, uid, edit, now) =>
      && (reply == NotFound <==> !OwnsType(db, tenant, uid))
      && (OwnsType(db, tenant, uid) ==>
            var edited := edit(db.types[uid].spec);
            && (reply == Rejected <==> edited.None?)
            && (reply == QueryFailed <==> edited.Some? && TypeNamed(db, tenant, edited.value.name, uid))
            && (reply.TypeReply? <==> edited.Some? && !TypeNamed(db, tenant, edited.value.name, uid)))
    case UpdateTypeStatus(uid, edit, now) =>
      && (reply == NotFound <==> uid !in db.types)
      && (uid in db.types ==>
            && (reply == Rejected <==> edit(db.types[uid].status).None?)
            && (reply.TypeReply? <==> edit(db.types[uid].status).Some?))
    case DeleteType(tenant, uid) =>
      var users := set c | c in db.conns && db.conns[c].spec.typeId == uid;
      && (reply == NotFound <==> !OwnsType(db, tenant, uid))
      && (reply == Deleted <==> OwnsType(db, tenant, uid) && users == {})
      && (reply.InUse? <==> OwnsType(db, tenant, uid) && users != {})
      && (reply.InUse? ==> reply.count == |users|)
  }

  lemma ConnOpsAnswerRightly(op: Op, db: Db)
    requires op.CreateConn? || op.UpdateConn? || op.UpdateConnStatus? || op.DeleteConn?
    ensures AnswersRightly(op, db, Apply(op, db).1)
  {
  }

  lemma TypeOpsAnswerRightly(op: Op, db: Db)
    requires Keyed(db) && (op.CreateType? || op.UpdateType? || op.UpdateTypeStatus? || op.DeleteType?)
    ensures AnswersRightly(op, db, Apply(op, db).1)
  {
  }

  lemma ApplyAnswersRightly(op: Op, db: Db)
    requires Keyed(db)
    ensures AnswersRightly(op, db, Apply(op, db).1)
  {
    if op.CreateConn? || op.UpdateConn? || op.UpdateConnStatus? || op.DeleteConn? {
      ConnOpsAnswerRightly(op, db);
    } else {
      TypeOpsAnswerRightly(op, db);
    }
  }

  /** Which row a reply is about, and what the tables are then; a refusal changes nothing. */
  ghost predicate ChangesRightly(op: Op, db: Db, after: Db, reply: Reply) {
    && after.global == db.global
    && (reply.ConnReply? ==> after.types == db.types && after.conns == db.conns[reply.conn.meta.id := reply.conn])
    && (reply.TypeReply? ==> after.conns == db.conns && after.types == db.types[reply.typ.meta.id := reply.typ])
    && (reply.Deleted? ==>
          match op
          case DeleteConn(_, uid) => after.types == db.types && after.conns == db.conns - {uid}
          case DeleteType(_, uid) => after.conns == db.conns && after.types == db.types - {uid}
          case _ => false)
    && (!reply.ConnReply? && !reply.TypeReply? && !reply.Deleted? ==> after == db)
  }

  /** The row a successful create or update stores and returns. */
  ghost predicate StoresRightly(op: Op, db: Db, reply: Reply) {
    match op
    case CreateConn(tenant, spec, id, now) =>
      reply.ConnReply? ==> reply.conn == ConnRow(Metadata(id, tenant, now, now), spec, ConnStatus(NotReady, None, Some(now)))
    case UpdateConn(_, uid, edit, now) =>
      reply.ConnReply? ==>
        && uid in db.conns && edit(db.conns[uid].spec) == Some(reply.conn.spec) && reply.conn.status == db.conns[uid].status
        && reply.conn.meta == db.conns[uid].meta.(updated := now)
    case UpdateConnStatus(_, uid, edit, now) =>
      reply.ConnReply? ==>
        && uid in db.conns && edit(db.conns[uid].status) == Some(reply.conn.status) && reply.conn.spec == db.conns[uid].spec
        && reply.conn.meta == db.conns[uid].meta.(updated := now)
    case CreateType(tenant, spec, id, now) =>
      reply.TypeReply? ==> reply.typ == TypeRow(Metadata(id, tenant, now, now), spec, TypeStatus(false, None, None, None))
    case UpdateType(_, uid, edit, now) =>
      reply.TypeReply? ==>
        && uid in db.types && edit(db.types[uid].spec) == Some(reply.typ.spec) && reply.typ.status == db.types[uid].status
        && reply.typ.meta == db.types[uid].meta.(updated := now)
    case UpdateTypeStatus(uid, edit, now) =>
      reply.TypeReply? ==>
        && uid in db.types && edit(db.types[uid].status) == Some(reply.typ.status) && reply.typ.spec == db.types[uid].spec
        && reply.typ.meta == db.types[uid].meta.(updated := now)
    case _ => true
  }

  lemma ApplyChangesRightly(op: Op, db: Db)
    requires Keyed(db)
    ensures ChangesRightly(op, db, Apply(op, db).0, Apply(op, db).1)
  {
  }

  lemma ApplyStoresRightly(op: Op, db: Db)
    requires Keyed(db)
    ensures StoresRightly(op, db, Apply(op, db).1)
  {
  }

  // ---- Tenants ----

  /** The tenant an operation acts for; a status report of the platform about a type acts for none. */
  function TenantOf(op: Op): Option<Tenant> {
    if op.UpdateTypeStatus? then None else Some(op.tenant)
  }

  function ConnsOf(db: Db, t: Tenant): map<Id, ConnRow> {
    map c | c in db.conns && db.conns[c].meta.tenant == t :: db.conns[c]
  }

  function TypesOf(db: Db, t: Tenant): map<Id, TypeRow> {
    map x | x in db.types && db.types[x].meta.tenant == t :: db.types[x]
  }

  /** Without what the platform reports about them. */
  function TypeSpecsOf(db: Db, t: Tenant): map<Id, TypeSpec> {
    map x | x in db.types && db.types[x].meta.tenant == t :: db.types[x].spec
  }

  /** An operation for one tenant leaves the rows of every other tenant exactly as they are. */
  lemma OtherTenantsKeepTheirRows(op: Op, db: Db, t: Tenant)
    requires Keyed(db) && Fresh(db, op) && TenantOf(op).Some? && TenantOf(op) != Some(t)
    ensures ConnsOf(Apply(op, db).0, t) == ConnsOf(db, t) && TypesOf(Apply(op, db).0, t) == TypesOf(db, t)
  {
    ApplyAnswersRightly(op, db);
    ApplyChangesRightly(op, db);
    ApplyStoresRightly(op, db);
  }

  /** A status report changes no connection, and of types nothing but the status. */
  lemma StatusReportsKeepSpecs(op: Op, db: Db, t: Tenant)
    requires Keyed(db) && op.UpdateTypeStatus?
    ensures ConnsOf(Apply(op, db).0, t) == ConnsOf(db, t) && TypeSpecsOf(Apply(op, db).0, t) == TypeSpecsOf(db, t)
  {
    ApplyChangesRightly(op, db);
    ApplyStoresRightly(op, db);
  }

  lemma OthersKeepSpecs(op: Op, db: Db, t: Tenant)
    requires Keyed(db) && Fresh(db, op) && TenantOf(op) != Some(t)
    ensures ConnsOf(Apply(op, db).0, t) == ConnsOf(db, t) && TypeSpecsOf(Apply(op, db).0, t) == TypeSpecsOf(db, t)
  {
    if op.UpdateTypeStatus? {
      StatusReportsKeepSpecs(op, db, t);
    } else {
      OtherTenantsKeepTheirRows(op, db, t);
      var after := Apply(op, db).0;
      assert forall x :: x in TypeSpecsOf(after, t) <==> x in TypesOf(after, t);
      assert forall x :: x in TypeSpecsOf(db, t) <==> x in TypesOf(db, t);
      assert forall x | x in TypesOf(db, t) :: TypesOf(after, t)[x] == TypesOf(db, t)[x];
    }
  }

  // ---- Every call of every run ----

  lemma CallIsFresh(db: Db, tx: Tx)
    requires Local(db, tx) && Running(tx)
    ensures Fresh(db, tx.op)
  {
  }

  /**
    In every run each call answers, changes and stores what the tables at the moment it finishes
    ask for, whatever ran beside it.
  */
  lemma EveryCallIsRight(s: State, acts: seq<Action>, i: nat)
    requires Initial(s) && Legal(s, acts) && Enabled(After(s, acts), Run(i))
    requires Move(After(s, acts), Run(i)).txs[i].pc.Done?
    ensures var now, end := After(s, acts), Move(After(s, acts), Run(i));
            var op, reply := now.txs[i].op, end.txs[i].pc.reply;
            AnswersRightly(op, now.db, reply) && ChangesRightly(op, now.db, end.db, reply) && StoresRightly(op, now.db, reply)
  {
    InitialHasInv(s);
    RunKeepsInv(s, acts);
    var now := After(s, acts);
    MoveIsAtomic(now, Run(i));
    ApplyAnswersRightly(now.txs[i].op, now.db);
    ApplyChangesRightly(now.txs[i].op, now.db);
    ApplyStoresRightly(now.txs[i].op, now.db);
  }

  lemma MoveKeepsOthers(s: State, a: Action, t: Tenant)
    requires Inv(s) && Enabled(s, a) && TenantOf(s.txs[a.i].op) != Some(t)
    ensures ConnsOf(Move(s, a).db, t) == ConnsOf(s.db, t) && TypeSpecsOf(Move(s, a).db, t) == TypeSpecsOf(s.db, t)
  {
    MoveIsAtomic(s, a);
    CallIsFresh(s.db, s.txs[a.i]);
    OthersKeepSpecs(s.txs[a.i].op, s.db, t);
  }

  /** A tenant for whom no call acts finds, after every run, its connections and the specifications of its types as they were. */
  lemma {:induction false} TenantsAreIsolated(s: State, acts: seq<Action>, t: Tenant)
    requires Inv(s) && Legal(s, acts) && forall i | 0 <= i < |s.txs| :: TenantOf(s.txs[i].op) != Some(t)
    ensures ConnsOf(After(s, acts).db, t) == ConnsOf(s.db, t) && TypeSpecsOf(After(s, acts).db, t) == TypeSpecsOf(s.db, t)
    decreases |acts|
  {
    if acts != [] {
      var s' := Move(s, acts[0]);
      MoveKeepsInv(s, acts[0]);
      MoveKeepsOthers(s, acts[0], t);
      assert forall i | 0 <= i < |s'.txs| :: s'.txs[i].op == s.txs[i].op;
      TenantsAreIsolated(s', acts[1..], t);
    }
  }
}
