/**
  The metadata store seen from outside: two tables of JSON documents and the
  operations on them, each applied at once.

  A connection names its type by id inside its document. There is no foreign key:
  the reference is kept by the operations alone.
*/
module MetaStore {
  import opened Options

  type Id = int         // a version-4 UUID; only equality matters
  type Tenant = string
  type Time = string    // an RFC 3339 timestamp

  datatype Metadata = Metadata(id: Id, tenant: Tenant, created: Time, updated: Time)

  datatype ConnState = Ready | IngestionNotReady | NotReady
  datatype ConnStatus = ConnStatus(state: ConnState, message: Option<string>, updated: Option<Time>)
  /** `body` stands for the format, credentials reference and properties. */
  datatype ConnSpec = ConnSpec(name: string, typeId: Id, body: string)
  datatype ConnRow = ConnRow(meta: Metadata, spec: ConnSpec, status: ConnStatus)

  datatype TypeStatus = TypeStatus(flightReady: bool, flightUrl: Option<string>, message: Option<string>, updated: Option<Time>)
  /** `body` stands for the provider, description, credential fields, label and tags. */
  datatype TypeSpec = TypeSpec(name: string, body: string)
  datatype TypeRow = TypeRow(meta: Metadata, spec: TypeSpec, status: TypeStatus)

  /** The committed tables, and the tenant whose types every tenant may use. */
  datatype Db = Db(global: Tenant, types: map<Id, TypeRow>, conns: map<Id, ConnRow>)

  /**
    One call of the store. Generated ids and clock readings are parameters; an update
    function returns None where the one passed to the store returns an error.
  */
  datatype Op =
    | CreateConn(tenant: Tenant, conn: ConnSpec, id: Id, now: Time)
    | UpdateConn(tenant: Tenant, uid: Id, editConn: ConnSpec -> Option<ConnSpec>, now: Time)
    | UpdateConnStatus(tenant: Tenant, uid: Id, editConnStatus: ConnStatus -> Option<ConnStatus>, now: Time)
    | DeleteConn(tenant: Tenant, uid: Id)
    | CreateType(tenant: Tenant, typ: TypeSpec, id: Id, now: Time)
    | UpdateType(tenant: Tenant, uid: Id, editType: TypeSpec -> Option<TypeSpec>, now: Time)
    | UpdateTypeStatus(uid: Id, editTypeStatus: TypeStatus -> Option<TypeStatus>, now: Time)
    | DeleteType(tenant: Tenant, uid: Id)

  datatype Reply =
    | ConnReply(conn: ConnRow)
    | TypeReply(typ: TypeRow)
    | Deleted
    | NotFound
    | Unprocessable       // the referenced type does not exist for this tenant
    | Conflict            // the name is taken
    | InUse(count: nat)   // a conflict too: connections still reference the type
    | QueryFailed         // any other database error
    | Rejected            // the update function returned an error

  predicate TypeVisible(db: Db, tenant: Tenant, t: Id) {
    t in db.types && (db.types[t].meta.tenant == tenant || db.types[t].meta.tenant == db.global)
  }

  predicate ConnMatches(db: Db, tenant: Tenant, uid: Id) {
    uid in db.conns && db.conns[uid].meta.tenant == tenant
  }

  /** The type row a statement of `op` selects; a status update does not look at the tenant. */
  predicate TypeMatches(db: Db, op: Op)
    requires op.UpdateType? || op.UpdateTypeStatus? || op.DeleteType?
  {
    op.uid in db.types && (!op.UpdateTypeStatus? ==> db.types[op.uid].meta.tenant == op.tenant)
  }

  /** Some row other than `except` holds the unique key (name, tenant). */
  predicate ConnNameTaken(db: Db, tenant: Tenant, name: string, except: Id) {
    exists c | c in db.conns && c != except :: db.conns[c].meta.tenant == tenant && db.conns[c].spec.name == name
  }

  predicate TypeNameTaken(db: Db, tenant: Tenant, name: string, except: Id) {
    exists t | t in db.types && t != except :: db.types[t].meta.tenant == tenant && db.types[t].spec.name == name
  }

  /** The connections of any tenant that name type `t`. */
  function Referencing(db: Db, t: Id): set<Id> {
    set c | c in db.conns && db.conns[c].spec.typeId == t
  }

  function PutConn(db: Db, row: ConnRow): Db { db.(conns := db.conns[row.meta.id := row]) }
  function PutType(db: Db, row: TypeRow): Db { db.(types := db.types[row.meta.id := row]) }
  function DropConn(db: Db, uid: Id): Db { db.(conns := db.conns - {uid}) }
  function DropType(db: Db, uid: Id): Db { db.(types := db.types - {uid}) }

  function NewConn(op: Op): ConnRow
    requires op.CreateConn?
  {
    ConnRow(Metadata(op.id, op.tenant, op.now, op.now), op.conn, ConnStatus(NotReady, None, Some(op.now)))
  }

  function NewType(op: Op): TypeRow
    requires op.CreateType?
  {
    TypeRow(Metadata(op.id, op.tenant, op.now, op.now), op.typ, TypeStatus(false, None, None, None))
  }

  function Respec(row: ConnRow, spec: ConnSpec, now: Time): ConnRow {
    row.(spec := spec, meta := row.meta.(updated := now))
  }

  function Restatus(row: ConnRow, status: ConnStatus, now: Time): ConnRow {
    row.(status := status, meta := row.meta.(updated := now))
  }

  function RespecType(row: TypeRow, spec: TypeSpec, now: Time): TypeRow {
    row.(spec := spec, meta := row.meta.(updated := now))
  }

  function RestatusType(row: TypeRow, status: TypeStatus, now: Time): TypeRow {
    row.(status := status, meta := row.meta.(updated := now))
  }

  /** What `op` does to the tables, and what it answers, when nothing runs beside it. */
  function Apply(op: Op, db: Db): (Db, Reply) {
    match op
    case CreateConn(tenant, spec, id, now) =>
      if !TypeVisible(db, tenant, spec.typeId) then (db, Unprocessable)
      else if ConnNameTaken(db, tenant, spec.name, id) then (db, Conflict)
      else (PutConn(db, NewConn(op)), ConnReply(NewConn(op)))
    case UpdateConn(tenant, uid, edit, now) =>
      if !ConnMatches(db, tenant, uid) then (db, NotFound)
      else (match edit(db.conns[uid].spec)
            case None => (db, Rejected)
            case Some(spec) =>
              if !TypeVisible(db, tenant, spec.typeId) then (db, Unprocessable)
              else if ConnNameTaken(db, tenant, spec.name, uid) then (db, QueryFailed)
              else var row := Respec(db.conns[uid], spec, now); (PutConn(db, row), ConnReply(row)))
    case UpdateConnStatus(tenant, uid, edit, now) =>
      if !ConnMatches(db, tenant, uid) then (db, NotFound)
      else (match edit(db.conns[uid].status)
            case None => (db, Rejected)
            case Some(status) => var row := Restatus(db.conns[uid], status, now); (PutConn(db, row), ConnReply(row)))
    case DeleteConn(tenant, uid) =>
      if !ConnMatches(db, tenant, uid) then (db, NotFound) else (DropConn(db, uid), Deleted)
    case CreateType(tenant, spec, id, now) =>
      if TypeNameTaken(db, tenant, spec.name, id) then (db, Conflict)
      else (PutType(db, NewType(op)), TypeReply(NewType(op)))
    case UpdateType(tenant, uid, edit, now) =>
      if !TypeMatches(db, op) then (db, NotFound)
      else (match edit(db.types[uid].spec)
            case None => (db, Rejected)
            case Some(spec) =>
              if TypeNameTaken(db, tenant, spec.name, uid) then (db, QueryFailed)
              else var row := RespecType(db.types[uid], spec, now); (PutType(db, row), TypeReply(row)))
    case UpdateTypeStatus(uid, edit, now) =>
      if !TypeMatches(db, op) then (db, NotFound)
      else (match edit(db.types[uid].status)
            case None => (db, Rejected)
            case Some(status) => var row := RestatusType(db.types[uid], status, now); (PutType(db, row), TypeReply(row)))
    case DeleteType(tenant, uid) =>
      if !TypeMatches(db, op) then (db, NotFound)
      else if Referencing(db, uid) != {} then (db, InUse(|Referencing(db, uid)|))
      else (DropType(db, uid), Deleted)
  }

  /** Every row is stored under its own id. */
  ghost predicate Keyed(db: Db) {
    && (forall c | c in db.conns :: db.conns[c].meta.id == c)
    && (forall t | t in db.types :: db.types[t].meta.id == t)
  }

  /** Both unique indexes on (name, tenant) hold. */
  ghost predicate NamesUnique(db: Db) {
    && (forall c | c in db.conns :: !ConnNameTaken(db, db.conns[c].meta.tenant, db.conns[c].spec.name, c))
    && (forall t | t in db.types :: !TypeNameTaken(db, db.types[t].meta.tenant, db.types[t].spec.name, t))
  }

  /** No orphans: each connection names a type of its own tenant or of the global tenant. */
  ghost predicate NoOrphans(db: Db) {
    forall c | c in db.conns :: TypeVisible(db, db.conns[c].meta.tenant, db.conns[c].spec.typeId)
  }

  ghost predicate Consistent(db: Db) {
    Keyed(db) && NamesUnique(db) && NoOrphans(db)
  }

  /** The id a create was given is not in use. */
  ghost predicate Fresh(db: Db, op: Op) {
    (op.CreateConn? ==> op.id !in db.conns) && (op.CreateType? ==> op.id !in db.types)
  }

  lemma PutConnKeepsConsistent(db: Db, row: ConnRow)
    requires Consistent(db) && TypeVisible(db, row.meta.tenant, row.spec.typeId)
    requires !ConnNameTaken(db, row.meta.tenant, row.spec.name, row.meta.id)
    ensures Consistent(PutConn(db, row))
  {
    var after := PutConn(db, row);
    forall c | c in after.conns ensures !ConnNameTaken(after, after.conns[c].meta.tenant, after.conns[c].spec.name, c) {
      if c != row.meta.id {
        assert !ConnNameTaken(db, db.conns[c].meta.tenant, db.conns[c].spec.name, c);
      }
    }
  }

  /** A type may get a new name, but keeps its tenant. */
  lemma PutTypeKeepsConsistent(db: Db, row: TypeRow)
    requires Consistent(db) && !TypeNameTaken(db, row.meta.tenant, row.spec.name, row.meta.id)
    requires row.meta.id in db.types ==> db.types[row.meta.id].meta.tenant == row.meta.tenant
    ensures Consistent(PutType(db, row))
  {
    var after := PutType(db, row);
    forall t | t in after.types ensures !TypeNameTaken(after, after.types[t].meta.tenant, after.types[t].spec.name, t) {
      if t != row.meta.id {
        assert !TypeNameTaken(db, db.types[t].meta.tenant, db.types[t].spec.name, t);
      }
    }
    forall c | c in after.conns ensures TypeVisible(after, after.conns[c].meta.tenant, after.conns[c].spec.typeId) {
      assert TypeVisible(db, db.conns[c].meta.tenant, db.conns[c].spec.typeId);
    }
  }

  lemma DropConnKeepsConsistent(db: Db, uid: Id)
    requires Consistent(db)
    ensures Consistent(DropConn(db, uid))
  {
    var after := DropConn(db, uid);
    forall c | c in after.conns ensures !ConnNameTaken(after, after.conns[c].meta.tenant, after.conns[c].spec.name, c) {
      assert !ConnNameTaken(db, db.conns[c].meta.tenant, db.conns[c].spec.name, c);
    }
  }

  lemma DropTypeKeepsConsistent(db: Db, uid: Id)
    requires Consistent(db) && Referencing(db, uid) == {}
    ensures Consistent(DropType(db, uid))
  {
    var after := DropType(db, uid);
    forall t | t in after.types ensures !TypeNameTaken(after, after.types[t].meta.tenant, after.types[t].spec.name, t) {
      assert !TypeNameTaken(db, db.types[t].meta.tenant, db.types[t].spec.name, t);
    }
    forall c | c in after.conns ensures TypeVisible(after, after.conns[c].meta.tenant, after.conns[c].spec.typeId) {
      assert c !in Referencing(db, uid);
      assert TypeVisible(db, db.conns[c].meta.tenant, db.conns[c].spec.typeId);
    }
  }

  lemma ConnOpKeepsConsistent(op: Op, db: Db)
    requires Consistent(db) && Fresh(db, op) && (op.CreateConn? || op.UpdateConn? || op.UpdateConnStatus? || op.DeleteConn?)
    ensures Consistent(Apply(op, db).0)
  {
    var reply := Apply(op, db).1;
    if reply.ConnReply? {
      if op.UpdateConnStatus? {
        assert !ConnNameTaken(db, db.conns[op.uid].meta.tenant, db.conns[op.uid].spec.name, op.uid);
      }
      PutConnKeepsConsistent(db, reply.conn);
    } else if reply.Deleted? {
      DropConnKeepsConsistent(db, op.uid);
    }
  }

  lemma TypeOpKeepsConsistent(op: Op, db: Db)
    requires Consistent(db) && Fresh(db, op) && (op.CreateType? || op.UpdateType? || op.UpdateTypeStatus? || op.DeleteType?)
    ensures Consistent(Apply(op, db).0)
  {
    var reply := Apply(op, db).1;
    if reply.TypeReply? {
      if op.UpdateTypeStatus? {
        assert !TypeNameTaken(db, db.types[op.uid].meta.tenant, db.types[op.uid].spec.name, op.uid);
      }
      PutTypeKeepsConsistent(db, reply.typ);
    } else if reply.Deleted? {
      DropTypeKeepsConsistent(db, op.uid);
    }
  }

  /** Every operation keeps the tables consistent. */
  lemma ApplyKeepsConsistent(op: Op, db: Db)
    requires Consistent(db) && Fresh(db, op)
    ensures Consistent(Apply(op, db).0)
  {
    if op.CreateConn? || op.UpdateConn? || op.UpdateConnStatus? || op.DeleteConn? {
      ConnOpKeepsConsistent(op, db);
    } else {
      TypeOpKeepsConsistent(op, db);
    }
  }
}
