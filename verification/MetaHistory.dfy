/**
  No update is lost: what a row holds at any moment of a run is the fold of the successful
  calls made to it, in the order they finished, each touching only its own part of the row.
*/
module MetaHistory {
  import opened Options
  import opened MetaStore
  import opened MetaTx
  import opened MetaRuns

  /** The parts of the connection and of the type stored under one id; None where there is no row. */
  datatype Parts = Parts(
    connSpec: Option<ConnSpec>, connStatus: Option<ConnStatus>, connOrigin: Option<(Tenant, Time)>,
    typeSpec: Option<TypeSpec>, typeStatus: Option<TypeStatus>, typeOrigin: Option<(Tenant, Time)>)

  function PartsAt(db: Db, x: Id): Parts {
    var c := x in db.conns;
    var t := x in db.types;
    Parts(
      if c then Some(db.conns[x].spec) else None,
      if c then Some(db.conns[x].status) else None,
      if c then Some((db.conns[x].meta.tenant, db.conns[x].meta.created)) else None,
      if t then Some(db.types[x].spec) else None,
      if t then Some(db.types[x].status) else None,
      if t then Some((db.types[x].meta.tenant, db.types[x].meta.created)) else None)
  }

  /** What a successful call makes of each part, looking at no other part. */

  function ConnSpecAfter(op: Op, x: Id, part: Option<ConnSpec>): Option<ConnSpec> {
    match op
    case CreateConn(_, conn, id, _) => if id == x then Some(conn) else part
    case UpdateConn(_, uid, edit, _) => if uid == x && part.Some? then edit(part.value) else part
    case DeleteConn(_, uid) => if uid == x then None else part
    case _ => part
  }

  function ConnStatusAfter(op: Op, x: Id, part: Option<ConnStatus>): Option<ConnStatus> {
    match op
    case CreateConn(_, _, id, now) => if id == x then Some(ConnStatus(NotReady, None, Some(now))) else part
    case UpdateConnStatus(_, uid, edit, _) => if uid == x && part.Some? then edit(part.value) else part
    case DeleteConn(_, uid) => if uid == x then None else part
    case _ => part
  }

  function ConnOriginAfter(op: Op, x: Id, part: Option<(Tenant, Time)>): Option<(Tenant, Time)> {
    match op
    case CreateConn(tenant, _, id, now) => if id == x then Some((tenant, now)) else part
    case DeleteConn(_, uid) => if uid == x then None else part
    case _ => part
  }

  function TypeSpecAfter(op: Op, x: Id, part: Option<TypeSpec>): Option<TypeSpec> {
    match op
    case CreateType(_, typ, id, _) => if id == x then Some(typ) else part
    case UpdateType(_, uid, edit, _) => if uid == x && part.Some? then edit(part.value) else part
    case DeleteType(_, uid) => if uid == x then None else part
    case _ => part
  }

  function TypeStatusAfter(op: Op, x: Id, part: Option<TypeStatus>): Option<TypeStatus> {
    match op
    case CreateType(_, _, id, _) => if id == x then Some(TypeStatus(false, None, None, None)) else part
    case UpdateTypeStatus(uid, edit, _) => if uid == x && part.Some? then edit(part.value) else part
    case DeleteType(_, uid) => if uid == x then None else part
    case _ => part
  }

  function TypeOriginAfter(op: Op, x: Id, part: Option<(Tenant, Time)>): Option<(Tenant, Time)> {
    match op
    case CreateType(tenant, _, id, now) => if id == x then Some((tenant, now)) else part
    case DeleteType(_, uid) => if uid == x then None else part
    case _ => part
  }

  predicate Succeeded(reply: Reply) {
    reply.ConnReply? || reply.TypeReply? || reply.Deleted?
  }

  /** The parts under `x` after a call with this reply: a refused call changes none. */
  function Moved(op: Op, reply: Reply, x: Id, p: Parts): Parts {
    if !Succeeded(reply) then p
    else Parts(ConnSpecAfter(op, x, p.connSpec), ConnStatusAfter(op, x, p.connStatus), ConnOriginAfter(op, x, p.connOrigin),
               TypeSpecAfter(op, x, p.typeSpec), TypeStatusAfter(op, x, p.typeStatus), TypeOriginAfter(op, x, p.typeOrigin))
  }

  /** The parts under `x` after the listed finished calls. */
  ghost function Fold(ended: seq<Tx>, order: seq<nat>, x: Id, p: Parts): Parts
    requires InRange(order, |ended|) && forall k | 0 <= k < |order| :: ended[order[k]].pc.Done?
    decreases |order|
  {
    if order == [] then p
    else
      var Tx(op, pc) := ended[order[0]];
      Fold(ended, order[1..], x, Moved(op, pc.reply, x, p))
  }

  lemma CreateConnMovesParts(op: Op, db: Db, x: Id)
    requires op.CreateConn?
    ensures PartsAt(Apply(op, db).0, x) == Moved(op, Apply(op, db).1, x, PartsAt(db, x))
  {
  }

  lemma UpdateConnMovesParts(op: Op, db: Db, x: Id)
    requires Keyed(db) && EditsConn(op)
    ensures PartsAt(Apply(op, db).0, x) == Moved(op, Apply(op, db).1, x, PartsAt(db, x))
  {
  }

  lemma CreateTypeMovesParts(op: Op, db: Db, x: Id)
    requires op.CreateType?
    ensures PartsAt(Apply(op, db).0, x) == Moved(op, Apply(op, db).1, x, PartsAt(db, x))
  {
  }

  lemma UpdateTypeMovesParts(op: Op, db: Db, x: Id)
    requires Keyed(db) && (op.UpdateType? || op.UpdateTypeStatus?)
    ensures PartsAt(Apply(op, db).0, x) == Moved(op, Apply(op, db).1, x, PartsAt(db, x))
  {
  }

  lemma DeleteMovesParts(op: Op, db: Db, x: Id)
    requires op.DeleteConn? || op.DeleteType?
    ensures PartsAt(Apply(op, db).0, x) == Moved(op, Apply(op, db).1, x, PartsAt(db, x))
  {
  }

  /** A refused call changes nothing; a successful one changes the parts it is about. */
  lemma ApplyMovesParts(op: Op, db: Db, x: Id)
    requires Consistent(db)
    ensures PartsAt(Apply(op, db).0, x) == Moved(op, Apply(op, db).1, x, PartsAt(db, x))
  {
    if op.CreateConn? {
      CreateConnMovesParts(op, db, x);
    } else if EditsConn(op) {
      UpdateConnMovesParts(op, db, x);
    } else if op.CreateType? {
      CreateTypeMovesParts(op, db, x);
    } else if op.UpdateType? || op.UpdateTypeStatus? {
      UpdateTypeMovesParts(op, db, x);
    } else {
      DeleteMovesParts(op, db, x);
    }
  }

  lemma {:induction false} RunFoldsParts(s: State, acts: seq<Action>, x: Id)
    requires Inv(s) && Legal(s, acts)
    requires InRange(Finished(s, acts), |s.txs|)
    requires forall k | 0 <= k < |Finished(s, acts)| :: After(s, acts).txs[Finished(s, acts)[k]].pc.Done?
    ensures PartsAt(After(s, acts).db, x) == Fold(After(s, acts).txs, Finished(s, acts), x, PartsAt(s.db, x))
    decreases |acts|
  {
    if acts != [] {
      var a := acts[0];
      var i, s', rest := a.i, Move(s, a), acts[1..];
      var order := Finished(s', rest);
      MoveKeepsInv(s, a);
      MoveIsAtomic(s, a);
      ApplyMovesParts(s.txs[i].op, s.db, x);
      if s'.txs[i].pc.Done? {
        EndedStays(s', rest, i);
        assert ([i] + order)[1..] == order;
        assert forall k | 0 <= k < |order| :: order[k] == Finished(s, acts)[k + 1];
      } else {
        assert [] + order == order;
      }
      RunFoldsParts(s', rest, x);
    }
  }

  /**
    At the end of every run, for every id: the stored specification, status and origin
    (tenant and creation time) are the fold of the successful calls to that id in the order
    they finished. In particular concurrent updates of one row all take effect.
  */
  lemma NothingIsLost(s: State, acts: seq<Action>, x: Id)
    requires Initial(s) && Legal(s, acts)
    ensures var order, end := Finished(s, acts), After(s, acts);
            && InRange(order, |end.txs|)
            && (forall k | 0 <= k < |order| :: end.txs[order[k]].pc.Done?)
            && PartsAt(end.db, x) == Fold(end.txs, order, x, PartsAt(s.db, x))
  {
    InitialHasInv(s);
    RunIsSerial(s, acts);
    RunFoldsParts(s, acts, x);
  }
}
