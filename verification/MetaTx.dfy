/**
  The store's operations as interleaved transactions over shared tables.

  Each transaction runs one statement at a time. A statement reads the latest
  committed tables (READ COMMITTED), may have to wait for a row lock or for an
  uncommitted index entry of another transaction, and changes nothing that others can
  see until its transaction commits. Locks are kept until the transaction ends, so the
  locks a transaction holds follow from its program counter.
*/
module MetaTx {
  import opened Options
  import opened MetaStore

  datatype Pc =
    | Begin
    | ConnLocked(conn: ConnRow)    // SELECT .. FOR UPDATE returned this connection
    | Validated(conn: ConnRow)     // FOR SHARE on the type of the row about to be written
    | ConnWritten(conn: ConnRow)   // INSERT or UPDATE done, not committed
    | TypeLocked(typ: TypeRow)     // SELECT .. FOR UPDATE returned this type
    | Counted                      // the count of referencing connections was zero
    | TypeWritten(typ: TypeRow)    // UPDATE done, not committed
    | TypeDeleted                  // DELETE done, not committed
    | Done(reply: Reply)           // committed, or refused
    | Aborted                      // rolled back after a failure of the connection

  datatype Tx = Tx(op: Op, pc: Pc)

  predicate Running(tx: Tx) { !tx.pc.Done? && !tx.pc.Aborted? }

  predicate EditsConn(op: Op) { op.UpdateConn? || op.UpdateConnStatus? }
  predicate EditsType(op: Op) { op.UpdateType? || op.UpdateTypeStatus? || op.DeleteType? }

  // ---- Locks ----

  /** The connection row locked FOR UPDATE. */
  function ConnLock(tx: Tx): Option<Id> {
    if EditsConn(tx.op) && (tx.pc.ConnLocked? || tx.pc.Validated? || tx.pc.ConnWritten?)
    then Some(tx.op.uid) else None
  }

  /** The type row locked FOR SHARE. */
  function ShareLock(tx: Tx): Option<Id> {
    if (tx.op.CreateConn? || tx.op.UpdateConn?) && (tx.pc.Validated? || tx.pc.ConnWritten?)
    then Some(tx.pc.conn.spec.typeId) else None
  }

  /** The type row locked FOR UPDATE. */
  function TypeLock(tx: Tx): Option<Id> {
    if EditsType(tx.op) && (tx.pc.TypeLocked? || tx.pc.Counted? || tx.pc.TypeWritten? || tx.pc.TypeDeleted?)
    then Some(tx.op.uid) else None
  }

  predicate ConnKey(row: ConnRow, tenant: Tenant, name: string) {
    row.meta.tenant == tenant && row.spec.name == name
  }

  predicate TypeKey(row: TypeRow, tenant: Tenant, name: string) {
    row.meta.tenant == tenant && row.spec.name == name
  }

  /** An uncommitted write of `tx` adds or removes the index entry (name, tenant). */
  predicate ClaimsConnName(db: Db, tx: Tx, tenant: Tenant, name: string) {
    tx.pc.ConnWritten? &&
    (ConnKey(tx.pc.conn, tenant, name) ||
     (EditsConn(tx.op) && tx.op.uid in db.conns && ConnKey(db.conns[tx.op.uid], tenant, name)))
  }

  predicate ClaimsTypeName(db: Db, tx: Tx, tenant: Tenant, name: string) {
    || (tx.pc.TypeWritten? && TypeKey(tx.pc.typ, tenant, name))
    || ((tx.pc.TypeWritten? || tx.pc.TypeDeleted?) && EditsType(tx.op) && tx.op.uid in db.types
        && TypeKey(db.types[tx.op.uid], tenant, name))
  }

  /** What a transaction can be kept waiting for, in the order it may be asked for. */
  datatype Wait = NoWait | ForConnRow(uid: Id) | ForTypeShare(t: Id) | ForTypeRow(t: Id)
                | ForConnName(tenant: Tenant, name: string) | ForTypeName(tenant: Tenant, name: string)

  /** The lock or index entry the next statement of `tx` asks for. */
  function Asks(db: Db, tx: Tx): Wait {
    match tx.pc
    case Begin => (
      match tx.op
      case CreateConn(tenant, spec, _, _) =>
        if TypeVisible(db, tenant, spec.typeId) then ForTypeShare(spec.typeId) else NoWait
      case CreateType(tenant, spec, _, _) => ForTypeName(tenant, spec.name)
      case UpdateConn(tenant, uid, _, _) => if ConnMatches(db, tenant, uid) then ForConnRow(uid) else NoWait
      case UpdateConnStatus(tenant, uid, _, _) => if ConnMatches(db, tenant, uid) then ForConnRow(uid) else NoWait
      case DeleteConn(tenant, uid) => if ConnMatches(db, tenant, uid) then ForConnRow(uid) else NoWait
      case _ => if TypeMatches(db, tx.op) then ForTypeRow(tx.op.uid) else NoWait)
    case ConnLocked(row) =>
      if !tx.op.UpdateConn? then NoWait
      else (match tx.op.editConn(row.spec)
            case Some(spec) => if TypeVisible(db, tx.op.tenant, spec.typeId) then ForTypeShare(spec.typeId) else NoWait
            case None => NoWait)
    case Validated(row) => ForConnName(row.meta.tenant, row.spec.name)
    case TypeLocked(row) =>
      if !tx.op.UpdateType? then NoWait
      else (match tx.op.editType(row.spec)
            case Some(spec) => ForTypeName(row.meta.tenant, spec.name)
            case None => NoWait)
    case _ => NoWait
  }

  /** `b` holds what `w` asks for in a conflicting mode. */
  predicate Holds(db: Db, b: Tx, w: Wait) {
    match w
    case NoWait => false
    case ForConnRow(uid) => ConnLock(b) == Some(uid)
    case ForTypeShare(t) => TypeLock(b) == Some(t)
    case ForTypeRow(t) => TypeLock(b) == Some(t) || ShareLock(b) == Some(t)
    case ForConnName(tenant, name) => ClaimsConnName(db, b, tenant, name)
    case ForTypeName(tenant, name) => ClaimsTypeName(db, b, tenant, name)
  }

  predicate Blocks(db: Db, a: Tx, b: Tx) {
    Holds(db, b, Asks(db, a))
  }

  // ---- One statement ----

  /** Runs the next statement of a transaction that does not have to wait. */
  function Exec(db: Db, tx: Tx): (Db, Pc) {
    match tx.pc
    case Begin => ExecBegin(db, tx.op)
    case ConnLocked(row) => (db, AfterConnLock(db, tx.op, row))
    case Validated(row) =>
      (db, if ConnNameTaken(db, row.meta.tenant, row.spec.name, row.meta.id)
           then Done(if tx.op.CreateConn? then Conflict else QueryFailed)
           else ConnWritten(row))
    case ConnWritten(row) =>
      // An UPDATE that matches no row is not noticed and still answers with the row.
      (if tx.op.CreateConn? || row.meta.id in db.conns then PutConn(db, row) else db, Done(ConnReply(row)))
    case TypeLocked(row) => (db, AfterTypeLock(db, tx.op, row))
    case Counted => (db, if EditsType(tx.op) && TypeMatches(db, tx.op) then TypeDeleted else Done(NotFound))
    case TypeWritten(row) => (if row.meta.id in db.types then PutType(db, row) else db, Done(TypeReply(row)))
    case TypeDeleted => if EditsType(tx.op) then (DropType(db, tx.op.uid), Done(Deleted)) else (db, tx.pc)
    case _ => (db, tx.pc)
  }

  function ExecBegin(db: Db, op: Op): (Db, Pc) {
    match op
    case CreateConn(tenant, spec, _, _) =>
      (db, if TypeVisible(db, tenant, spec.typeId) then Validated(NewConn(op)) else Done(Unprocessable))
    case UpdateConn(tenant, uid, _, _) =>
      (db, if ConnMatches(db, tenant, uid) then ConnLocked(db.conns[uid]) else Done(NotFound))
    case UpdateConnStatus(tenant, uid, _, _) =>
      (db, if ConnMatches(db, tenant, uid) then ConnLocked(db.conns[uid]) else Done(NotFound))
    case DeleteConn(tenant, uid) =>  // one statement, committed by itself
      if ConnMatches(db, tenant, uid) then (DropConn(db, uid), Done(Deleted)) else (db, Done(NotFound))
    case CreateType(tenant, spec, id, _) =>  // one statement, committed by itself
      if TypeNameTaken(db, tenant, spec.name, id) then (db, Done(Conflict))
      else (PutType(db, NewType(op)), Done(TypeReply(NewType(op))))
    case _ =>
      (db, if TypeMatches(db, op) then TypeLocked(db.types[op.uid]) else Done(NotFound))
  }

  function AfterConnLock(db: Db, op: Op, row: ConnRow): Pc {
    match op
    case UpdateConn(tenant, _, edit, now) => (
      match edit(row.spec)
      case None => Done(Rejected)
      case Some(spec) =>
        if TypeVisible(db, tenant, spec.typeId) then Validated(Respec(row, spec, now)) else Done(Unprocessable))
    case UpdateConnStatus(_, _, edit, now) => (
      match edit(row.status)
      case None => Done(Rejected)
      case Some(status) => ConnWritten(Restatus(row, status, now)))
    case _ => ConnLocked(row)
  }

  function AfterTypeLock(db: Db, op: Op, row: TypeRow): Pc {
    match op
    case UpdateType(_, uid, edit, now) => (
      match edit(row.spec)
      case None => Done(Rejected)
      case Some(spec) =>
        if TypeNameTaken(db, row.meta.tenant, spec.name, uid) then Done(QueryFailed)
        else TypeWritten(RespecType(row, spec, now)))
    case UpdateTypeStatus(_, edit, now) => (
      match edit(row.status)
      case None => Done(Rejected)
      case Some(status) => TypeWritten(RestatusType(row, status, now)))
    case DeleteType(_, uid) =>
      if Referencing(db, uid) != {} then Done(InUse(|Referencing(db, uid)|)) else Counted
    case _ => TypeLocked(row)
  }

  // ---- The invariant, one transaction and one pair at a time ----

  /** What a transaction has read is still so. */
  ghost predicate Local(db: Db, tx: Tx) {
    var op := tx.op;
    match tx.pc
    case Begin => Fresh(db, op)
    case ConnLocked(row) => EditsConn(op) && ConnMatches(db, op.tenant, op.uid) && row == db.conns[op.uid]
    case Validated(row) =>
      && Fresh(db, op)
      && (op.CreateConn? || op.UpdateConn?)
      && TypeVisible(db, op.tenant, row.spec.typeId)
      && (op.CreateConn? ==> row == NewConn(op))
      && (op.UpdateConn? ==>
            && ConnMatches(db, op.tenant, op.uid)
            && op.editConn(db.conns[op.uid].spec) == Some(row.spec)
            && row == Respec(db.conns[op.uid], row.spec, op.now))
    case ConnWritten(row) =>
      Fresh(db, op) && (op.CreateConn? || EditsConn(op)) && Apply(op, db) == (PutConn(db, row), ConnReply(row))
    case TypeLocked(row) => EditsType(op) && TypeMatches(db, op) && row == db.types[op.uid]
    case Counted => op.DeleteType? && TypeMatches(db, op) && Referencing(db, op.uid) == {}
    case TypeWritten(row) =>
      (op.UpdateType? || op.UpdateTypeStatus?) && Apply(op, db) == (PutType(db, row), TypeReply(row))
    case TypeDeleted => op.DeleteType? && TypeMatches(db, op) && Referencing(db, op.uid) == {}
    case _ => true
  }

  /** Two transactions hold no conflicting locks and no common index entry, and create different ids. */
  ghost predicate Compatible(a: Tx, b: Tx) {
    && (ConnLock(a).Some? ==> ConnLock(a) != ConnLock(b))
    && (TypeLock(a).Some? ==> TypeLock(a) != TypeLock(b) && TypeLock(a) != ShareLock(b))
    && (TypeLock(b).Some? ==> TypeLock(b) != ShareLock(a))
    && (a.pc.ConnWritten? && b.pc.ConnWritten? ==> !ConnKey(a.pc.conn, b.pc.conn.meta.tenant, b.pc.conn.spec.name))
    && (a.pc.TypeWritten? && b.pc.TypeWritten? ==> !TypeKey(a.pc.typ, b.pc.typ.meta.tenant, b.pc.typ.spec.name))
    && (a.op.CreateConn? && b.op.CreateConn? ==> a.op.id != b.op.id)
    && (a.op.CreateType? && b.op.CreateType? ==> a.op.id != b.op.id)
  }

  /**
    A statement either leaves the tables alone, or ends its transaction; and whenever it
    ends the transaction, it does what the whole operation does at once, reply included.
  */
  lemma StatementRefines(db: Db, tx: Tx)
    requires Consistent(db) && Local(db, tx) && Running(tx)
    ensures var (db', pc') := Exec(db, tx);
            if pc'.Done? then Apply(tx.op, db) == (db', pc'.reply) else db' == db && !pc'.Aborted?
  {
  }

  lemma StatementKeepsOwn(db: Db, tx: Tx)
    requires Consistent(db) && Local(db, tx) && Running(tx)
    ensures var (db', pc') := Exec(db, tx); Local(db', tx.(pc := pc'))
  {
  }

  lemma StatementKeepsConsistent(db: Db, tx: Tx)
    requires Consistent(db) && Local(db, tx) && Running(tx)
    ensures Consistent(Exec(db, tx).0)
  {
    StatementRefines(db, tx);
    ApplyKeepsConsistent(tx.op, db);
  }

  /** A committed connection row disturbs nothing another transaction relies on. */
  lemma PutConnKeepsOther(db: Db, a: Tx, b: Tx)
    requires Consistent(db) && Local(db, a) && Local(db, b) && Compatible(a, b)
    requires a.pc.ConnWritten?
    ensures Local(PutConn(db, a.pc.conn), b)
  {
    match b.pc {
      case ConnWritten(_) => PutConnKeepsWritten(db, a, b);
      case Counted => PutConnKeepsCount(db, a, b);
      case TypeDeleted => PutConnKeepsCount(db, a, b);
      case TypeWritten(_) => PutConnKeepsTypes(db, b.op, a.pc.conn);
      case _ =>
    }
  }

  lemma PutConnKeepsWritten(db: Db, a: Tx, b: Tx)
    requires Consistent(db) && Local(db, a) && Local(db, b) && Compatible(a, b)
    requires a.pc.ConnWritten? && b.pc.ConnWritten?
    ensures Local(PutConn(db, a.pc.conn), b)
  {
    WrittenId(db, a);
    WrittenId(db, b);
    PutConnKeepsConn(db, b.op, b.pc.conn, a.pc.conn);
  }

  lemma WrittenId(db: Db, tx: Tx)
    requires Keyed(db) && Local(db, tx) && tx.pc.ConnWritten?
    ensures tx.pc.conn.meta.id == if tx.op.CreateConn? then tx.op.id else tx.op.uid
    ensures EditsConn(tx.op) ==> tx.pc.conn.meta.id in db.conns
  {
  }

  /** An operation that writes a connection does the same after another one with another id and name. */
  lemma PutConnKeepsConn(db: Db, op: Op, conn: ConnRow, row: ConnRow)
    requires Keyed(db) && (op.CreateConn? || EditsConn(op))
    requires row.meta.id != conn.meta.id && !ConnKey(row, conn.meta.tenant, conn.spec.name)
    requires Apply(op, db) == (PutConn(db, conn), ConnReply(conn))
    ensures Apply(op, PutConn(db, row)) == (PutConn(PutConn(db, row), conn), ConnReply(conn))
  {
    match op {
      case CreateConn(_, _, _, _) =>
      case UpdateConn(_, _, _, _) =>
      case UpdateConnStatus(_, _, _, _) =>
    }
  }

  /** The share lock of the one keeps the other from counting its type. */
  lemma PutConnKeepsCount(db: Db, a: Tx, b: Tx)
    requires Consistent(db) && Local(db, a) && Local(db, b) && Compatible(a, b)
    requires a.pc.ConnWritten? && (b.pc.Counted? || b.pc.TypeDeleted?)
    ensures Local(PutConn(db, a.pc.conn), b)
  {
    var db' := PutConn(db, a.pc.conn);
    forall c | c in db'.conns ensures c !in Referencing(db', b.op.uid) {
      assert c in db.conns ==> c !in Referencing(db, b.op.uid);
    }
  }

  lemma PutConnKeepsTypes(db: Db, op: Op, row: ConnRow)
    requires op.UpdateType? || op.UpdateTypeStatus?
    ensures Apply(op, PutConn(db, row)) == (Apply(op, db).0.(conns := PutConn(db, row).conns), Apply(op, db).1)
  {
  }

  lemma DropConnKeepsOther(db: Db, a: Tx, b: Tx)
    requires Consistent(db) && Local(db, a) && Local(db, b) && Compatible(a, b)
    requires a.pc.Begin? && a.op.DeleteConn? && !Blocks(db, a, b) && ConnMatches(db, a.op.tenant, a.op.uid)
    ensures Local(DropConn(db, a.op.uid), b)
  {
    var db' := DropConn(db, a.op.uid);
    if b.pc.Counted? || b.pc.TypeDeleted? {
      assert Referencing(db', b.op.uid) <= Referencing(db, b.op.uid);
    }
  }

  /** So does a committed type row, whose tenant never changes. */
  lemma PutTypeKeepsOther(db: Db, a: Tx, b: Tx, row: TypeRow)
    requires Consistent(db) && Local(db, a) && Local(db, b) && Compatible(a, b) && !Blocks(db, a, b)
    requires || (a.pc.TypeWritten? && row == a.pc.typ)
             || (a.pc.Begin? && a.op.CreateType? && row == NewType(a.op) && Apply(a.op, db).1 == TypeReply(row))
    ensures Local(PutType(db, row), b)
  {
    TypeKeepsTenant(db, a, row);
    match b.pc {
      case TypeWritten(_) => PutTypeKeepsWritten(db, a, b, row);
      case ConnWritten(_) => PutTypeKeepsConn(db, b.op, b.pc.conn, row);
      case Counted => assert Referencing(PutType(db, row), b.op.uid) == Referencing(db, b.op.uid);
      case TypeDeleted => assert Referencing(PutType(db, row), b.op.uid) == Referencing(db, b.op.uid);
      case _ =>
    }
  }

  /** A type row is new, or has the tenant of the row it replaces. */
  predicate SameTenant(db: Db, row: TypeRow) {
    row.meta.id in db.types ==> row.meta.tenant == db.types[row.meta.id].meta.tenant
  }

  lemma TypeKeepsTenant(db: Db, a: Tx, row: TypeRow)
    requires Consistent(db) && Local(db, a)
    requires || (a.pc.TypeWritten? && row == a.pc.typ)
             || (a.pc.Begin? && a.op.CreateType? && row == NewType(a.op) && Apply(a.op, db).1 == TypeReply(row))
    ensures SameTenant(db, row)
    ensures row.meta.id == if a.op.CreateType? then a.op.id else a.op.uid
  {
  }

  lemma PutTypeKeepsWritten(db: Db, a: Tx, b: Tx, row: TypeRow)
    requires Consistent(db) && Local(db, a) && Local(db, b) && Compatible(a, b) && !Blocks(db, a, b)
    requires || (a.pc.TypeWritten? && row == a.pc.typ)
             || (a.pc.Begin? && a.op.CreateType? && row == NewType(a.op) && Apply(a.op, db).1 == TypeReply(row))
    requires b.pc.TypeWritten?
    ensures Local(PutType(db, row), b)
  {
    TypeKeepsTenant(db, a, row);
  }

  lemma PutTypeKeepsConn(db: Db, op: Op, conn: ConnRow, row: TypeRow)
    requires Keyed(db) && (op.CreateConn? || EditsConn(op)) && SameTenant(db, row)
    requires Apply(op, db) == (PutConn(db, conn), ConnReply(conn))
    ensures Apply(op, PutType(db, row)) == (PutConn(PutType(db, row), conn), ConnReply(conn))
  {
  }

  lemma DropTypeKeepsOther(db: Db, a: Tx, b: Tx)
    requires Consistent(db) && Local(db, a) && Local(db, b) && Compatible(a, b)
    requires a.pc.TypeDeleted?
    ensures Local(DropType(db, a.op.uid), b)
  {
    var db' := DropType(db, a.op.uid);
    assert b.op.DeleteType? ==> Referencing(db', b.op.uid) == Referencing(db, b.op.uid);
  }

  lemma StatementKeepsOther(db: Db, a: Tx, b: Tx)
    requires Consistent(db) && Local(db, a) && Local(db, b) && Running(a)
    requires Compatible(a, b) && !Blocks(db, a, b)
    ensures Local(Exec(db, a).0, b)
  {
    StatementRefines(db, a);
    if a.pc.ConnWritten? {
      PutConnKeepsOther(db, a, b);
    } else if a.pc.TypeDeleted? {
      DropTypeKeepsOther(db, a, b);
    } else if a.pc.TypeWritten? {
      PutTypeKeepsOther(db, a, b, a.pc.typ);
    } else if a.pc.Begin? && a.op.CreateType? && Apply(a.op, db).1.TypeReply? {
      PutTypeKeepsOther(db, a, b, NewType(a.op));
    } else if a.pc.Begin? && a.op.DeleteConn? && ConnMatches(db, a.op.tenant, a.op.uid) {
      DropConnKeepsOther(db, a, b);
    }
  }

  /** Transactions that hold nothing are compatible with all that create other ids. */
  lemma EndedIsCompatible(a: Tx, b: Tx)
    requires Compatible(a, b)
    ensures forall reply :: Compatible(a.(pc := Done(reply)), b)
  {
  }

  /** The first statement takes at most the one lock it asked for. */
  lemma BeginKeepsCompatible(db: Db, a: Tx, b: Tx)
    requires a.pc.Begin? && Compatible(a, b) && !Blocks(db, a, b)
    ensures Compatible(a.(pc := Exec(db, a).1), b)
  {
    EndedIsCompatible(a, b);
    match a.op {
      case CreateConn(_, _, _, _) =>
      case CreateType(_, _, _, _) =>
      case DeleteConn(_, _) =>
      case UpdateConn(_, _, _, _) =>
      case UpdateConnStatus(_, _, _, _) =>
      case _ =>
    }
  }

  /** A connection's new row is validated under a share lock on its type. */
  lemma ConnLockedKeepsCompatible(db: Db, a: Tx, b: Tx)
    requires a.pc.ConnLocked? && Local(db, a) && Local(db, b) && NamesUnique(db) && Keyed(db)
    requires Compatible(a, b) && !Blocks(db, a, b)
    ensures Compatible(a.(pc := Exec(db, a).1), b)
  {
    EndedIsCompatible(a, b);
  }

  /** A written connection claims a name that nobody else claims. */
  lemma ValidatedKeepsCompatible(db: Db, a: Tx, b: Tx)
    requires a.pc.Validated? && Local(db, a) && Compatible(a, b) && !Blocks(db, a, b)
    ensures Compatible(a.(pc := Exec(db, a).1), b)
  {
    EndedIsCompatible(a, b);
  }

  /** So does a written type; counting needs no more than the lock held. */
  lemma TypeLockedKeepsCompatible(db: Db, a: Tx, b: Tx)
    requires a.pc.TypeLocked? && Local(db, a) && Local(db, b) && NamesUnique(db) && Keyed(db)
    requires Compatible(a, b) && !Blocks(db, a, b)
    ensures Compatible(a.(pc := Exec(db, a).1), b)
  {
    EndedIsCompatible(a, b);
  }

  lemma StatementKeepsCompatible(db: Db, a: Tx, b: Tx)
    requires Consistent(db) && Local(db, a) && Local(db, b) && Running(a)
    requires Compatible(a, b) && !Blocks(db, a, b)
    ensures Compatible(a.(pc := Exec(db, a).1), b)
  {
    match a.pc {
      case Begin => BeginKeepsCompatible(db, a, b);
      case ConnLocked(_) => ConnLockedKeepsCompatible(db, a, b);
      case Validated(_) => ValidatedKeepsCompatible(db, a, b);
      case TypeLocked(_) => TypeLockedKeepsCompatible(db, a, b);
      case _ => EndedIsCompatible(a, b);
    }
  }
}
