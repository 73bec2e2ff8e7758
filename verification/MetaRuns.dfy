/**
  Whole runs of the interleaved store: any finite set of calls, any interleaving of
  their statements, and a rollback of any call at any moment.
*/
module MetaRuns {
  import opened Options
  import opened MetaStore
  import opened MetaTx

  datatype State = State(db: Db, txs: seq<Tx>)

  /** One move of the system: call `i` runs its next statement, or is rolled back. */
  datatype Action = Run(i: nat) | Abort(i: nat)

  ghost predicate Waits(s: State, i: nat, j: nat)
    requires i < |s.txs| && j < |s.txs|
  {
    i != j && Blocks(s.db, s.txs[i], s.txs[j])
  }

  ghost predicate Enabled(s: State, a: Action) {
    && a.i < |s.txs|
    && Running(s.txs[a.i])
    && (a.Run? ==> forall j: nat | j < |s.txs| :: !Waits(s, a.i, j))
  }

  function Move(s: State, a: Action): State
    requires a.i < |s.txs|
  {
    match a
    case Run(i) =>
      var (db, pc) := Exec(s.db, s.txs[i]);
      State(db, s.txs[i := s.txs[i].(pc := pc)])
    case Abort(i) => s.(txs := s.txs[i := s.txs[i].(pc := Aborted)])
  }

  ghost predicate Legal(s: State, acts: seq<Action>)
    decreases |acts|
  {
    acts == [] || (Enabled(s, acts[0]) && Legal(Move(s, acts[0]), acts[1..]))
  }

  ghost function After(s: State, acts: seq<Action>): (end: State)
    requires Legal(s, acts)
    ensures |end.txs| == |s.txs|
    ensures forall i | 0 <= i < |s.txs| :: end.txs[i].op == s.txs[i].op
    decreases |acts|
  {
    if acts == [] then s else After(Move(s, acts[0]), acts[1..])
  }

  /** Any consistent tables, and calls that have not started, each create with an id of its own. */
  ghost predicate Initial(s: State) {
    && Consistent(s.db)
    && (forall i | 0 <= i < |s.txs| :: s.txs[i].pc == Begin && Fresh(s.db, s.txs[i].op))
    && (forall i, j | 0 <= i < j < |s.txs| :: DistinctIds(s.txs[i].op, s.txs[j].op))
  }

  ghost predicate DistinctIds(a: Op, b: Op) {
    && (a.CreateConn? && b.CreateConn? ==> a.id != b.id)
    && (a.CreateType? && b.CreateType? ==> a.id != b.id)
  }

  ghost predicate Inv(s: State) {
    && Consistent(s.db)
    && (forall i | 0 <= i < |s.txs| :: Local(s.db, s.txs[i]))
    && (forall i, j | 0 <= i < |s.txs| && 0 <= j < |s.txs| && i != j :: Compatible(s.txs[i], s.txs[j]))
  }

  // ---- Safety ----

  lemma InitialHasInv(s: State)
    requires Initial(s)
    ensures Inv(s)
  {
    forall i, j | 0 <= i < |s.txs| && 0 <= j < |s.txs| && i != j
      ensures Compatible(s.txs[i], s.txs[j])
    {
      if i < j {
        assert DistinctIds(s.txs[i].op, s.txs[j].op);
      } else {
        assert DistinctIds(s.txs[j].op, s.txs[i].op);
      }
    }
  }

  lemma MoveKeepsInv(s: State, a: Action)
    requires Inv(s) && Enabled(s, a)
    ensures Inv(Move(s, a))
  {
    var s', i := Move(s, a), a.i;
    if a.Run? {
      StatementKeepsConsistent(s.db, s.txs[i]);
      StatementKeepsOwn(s.db, s.txs[i]);
    }
    forall j | 0 <= j < |s.txs| && j != i
      ensures Local(s'.db, s'.txs[j]) && Compatible(s'.txs[i], s'.txs[j]) && Compatible(s'.txs[j], s'.txs[i])
    {
      assert Compatible(s.txs[i], s.txs[j]) && Compatible(s.txs[j], s.txs[i]);
      if a.Run? {
        assert !Waits(s, i, j);
        StatementKeepsOther(s.db, s.txs[i], s.txs[j]);
        StatementKeepsCompatible(s.db, s.txs[i], s.txs[j]);
      }
    }
  }

  lemma {:induction false} RunKeepsInv(s: State, acts: seq<Action>)
    requires Inv(s) && Legal(s, acts)
    ensures Inv(After(s, acts))
    decreases |acts|
  {
    if acts != [] {
      MoveKeepsInv(s, acts[0]);
      RunKeepsInv(Move(s, acts[0]), acts[1..]);
    }
  }

  /**
    In every state of every run, each committed connection names an existing type of its
    own tenant or of the global tenant, names are unique per tenant, and rows keep their ids.
  */
  lemma ReachableIsConsistent(s: State, acts: seq<Action>)
    requires Initial(s) && Legal(s, acts)
    ensures Consistent(After(s, acts).db)
  {
    InitialHasInv(s);
    RunKeepsInv(s, acts);
  }

  // ---- Refinement: the run is the one-at-a-time run in the order calls finish ----

  /** The calls that commit or are refused, in the order they do so. Rolled back calls are not in it. */
  ghost function Finished(s: State, acts: seq<Action>): seq<nat>
    requires Legal(s, acts)
    decreases |acts|
  {
    if acts == [] then []
    else
      var s' := Move(s, acts[0]);
      (if s'.txs[acts[0].i].pc.Done? then [acts[0].i] else []) + Finished(s', acts[1..])
  }

  ghost predicate InRange(order: seq<nat>, n: nat) {
    forall k | 0 <= k < |order| :: order[k] < n
  }

  /** The tables after running the listed calls one at a time. */
  ghost function Serially(txs: seq<Tx>, order: seq<nat>, db: Db): Db
    requires InRange(order, |txs|)
    decreases |order|
  {
    if order == [] then db else Serially(txs, order[1..], Apply(txs[order[0]].op, db).0)
  }

  /** The replies to the listed calls when they run one at a time. */
  ghost function Replies(txs: seq<Tx>, order: seq<nat>, db: Db): seq<Reply>
    requires InRange(order, |txs|)
    ensures |Replies(txs, order, db)| == |order|
    decreases |order|
  {
    if order == [] then []
    else
      var (db', reply) := Apply(txs[order[0]].op, db);
      [reply] + Replies(txs, order[1..], db')
  }

  /** A finished or rolled back call stays as it is. */
  lemma {:induction false} EndedStays(s: State, acts: seq<Action>, i: nat)
    requires Inv(s) && Legal(s, acts) && i < |s.txs| && !Running(s.txs[i])
    ensures After(s, acts).txs[i] == s.txs[i] && i !in Finished(s, acts)
    decreases |acts|
  {
    if acts != [] {
      MoveKeepsInv(s, acts[0]);
      EndedStays(Move(s, acts[0]), acts[1..], i);
    }
  }

  lemma {:induction false} FinishedInRange(s: State, acts: seq<Action>)
    requires Legal(s, acts)
    ensures InRange(Finished(s, acts), |s.txs|)
    decreases |acts|
  {
    if acts != [] {
      FinishedInRange(Move(s, acts[0]), acts[1..]);
    }
  }

  lemma SeriallySameOps(txs: seq<Tx>, txs': seq<Tx>, order: seq<nat>, db: Db)
    requires |txs| == |txs'| && forall i | 0 <= i < |txs| :: txs[i].op == txs'[i].op
    requires InRange(order, |txs|)
    ensures Serially(txs, order, db) == Serially(txs', order, db)
    ensures Replies(txs, order, db) == Replies(txs', order, db)
    decreases |order|
  {
    if order != [] {
      SeriallySameOps(txs, txs', order[1..], Apply(txs[order[0]].op, db).0);
    }
  }

  /** A move either ends its call, which then takes effect at once, or leaves the tables alone. */
  lemma MoveIsAtomic(s: State, a: Action)
    requires Inv(s) && Enabled(s, a)
    ensures var s' := Move(s, a); var tx := s'.txs[a.i];
            if tx.pc.Done? then Apply(tx.op, s.db) == (s'.db, tx.pc.reply) else s'.db == s.db
  {
    if a.Run? {
      StatementRefines(s.db, s.txs[a.i]);
    }
  }

  /** The listed calls have ended with these replies, each once. */
  ghost predicate Answered(txs: seq<Tx>, order: seq<nat>, replies: seq<Reply>) {
    && InRange(order, |txs|) && |replies| == |order|
    && (forall k | 0 <= k < |order| :: txs[order[k]].pc == Done(replies[k]))
    && (forall k, l | 0 <= k < l < |order| :: order[k] != order[l])
  }

  lemma AnsweredCons(txs: seq<Tx>, i: nat, reply: Reply, order: seq<nat>, replies: seq<Reply>)
    requires Answered(txs, order, replies) && i < |txs| && txs[i].pc == Done(reply) && i !in order
    ensures Answered(txs, [i] + order, [reply] + replies)
  {
  }

  lemma SeriallyCons(txs: seq<Tx>, i: nat, order: seq<nat>, db: Db)
    requires i < |txs| && InRange(order, |txs|)
    ensures var (db', reply) := Apply(txs[i].op, db);
            && InRange([i] + order, |txs|)
            && Serially(txs, [i] + order, db) == Serially(txs, order, db')
            && Replies(txs, [i] + order, db) == [reply] + Replies(txs, order, db')
  {
    assert ([i] + order)[1..] == order;
  }

  lemma {:induction false} RunIsSerial(s: State, acts: seq<Action>)
    requires Inv(s) && Legal(s, acts)
    ensures var order, end := Finished(s, acts), After(s, acts);
            && InRange(order, |s.txs|)
            && Serially(s.txs, order, s.db) == end.db
            && Answered(end.txs, order, Replies(s.txs, order, s.db))
    decreases |acts|
  {
    FinishedInRange(s, acts);
    if acts != [] {
      var a := acts[0];
      var i, s', rest := a.i, Move(s, a), acts[1..];
      var order, end := Finished(s', rest), After(s', rest);
      MoveKeepsInv(s, a);
      MoveIsAtomic(s, a);
      RunIsSerial(s', rest);
      SeriallySameOps(s.txs, s'.txs, order, s'.db);
      if s'.txs[i].pc.Done? {
        EndedStays(s', rest, i);
        SeriallyCons(s.txs, i, order, s.db);
        AnsweredCons(end.txs, i, s'.txs[i].pc.reply, order, Replies(s'.txs, order, s'.db));
      } else {
        assert [] + order == order;
      }
    }
  }


  /** Every call that ended without a rollback is in the order. */
  lemma {:induction false} FinishedIsComplete(s: State, acts: seq<Action>, i: nat)
    requires Inv(s) && Legal(s, acts) && i < |s.txs| && Running(s.txs[i])
    ensures After(s, acts).txs[i].pc.Done? <==> i in Finished(s, acts)
    decreases |acts|
  {
    if acts != [] {
      var s' := Move(s, acts[0]);
      MoveKeepsInv(s, acts[0]);
      if acts[0].i == i && acts[0].Run? {
        StatementRefines(s.db, s.txs[i]);
      }
      if Running(s'.txs[i]) {
        FinishedIsComplete(s', acts[1..], i);
      } else {
        EndedStays(s', acts[1..], i);
      }
    }
  }

  /**
    Every run has the same tables and the same replies as running its calls one at a time
    in the order in which they committed or were refused: each call that ended without a
    rollback once, and no other.
  */
  lemma RunsAreLinearizable(s: State, acts: seq<Action>)
    requires Initial(s) && Legal(s, acts)
    ensures var order, end := Finished(s, acts), After(s, acts);
            && InRange(order, |s.txs|)
            && end.db == Serially(s.txs, order, s.db)
            && (forall k | 0 <= k < |order| :: end.txs[order[k]].pc == Done(Replies(s.txs, order, s.db)[k]))
            && (forall k, l | 0 <= k < l < |order| :: order[k] != order[l])
            && (forall i: nat | i < |s.txs| :: end.txs[i].pc.Done? <==> i in order)
  {
    InitialHasInv(s);
    RunIsSerial(s, acts);
    forall i: nat | i < |s.txs|
      ensures After(s, acts).txs[i].pc.Done? <==> i in Finished(s, acts)
    {
      FinishedIsComplete(s, acts, i);
    }
  }

  /**
    When the call that deletes a type ends, it has deleted the type exactly if the type was
    there for its tenant and no connection of any tenant named it at that moment.
  */
  lemma DeleteTypeDecidesAtItsEnd(s: State, acts: seq<Action>, i: nat)
    requires Initial(s) && Legal(s, acts)
    requires i < |After(s, acts).txs| && After(s, acts).txs[i].op.DeleteType? && Enabled(After(s, acts), Run(i))
    requires Move(After(s, acts), Run(i)).txs[i].pc.Done?
    ensures var now, end := After(s, acts), Move(After(s, acts), Run(i));
            var op, reply := now.txs[i].op, end.txs[i].pc.reply;
            && (reply == Deleted <==> TypeMatches(now.db, op) && Referencing(now.db, op.uid) == {})
            && (reply.InUse? <==> TypeMatches(now.db, op) && Referencing(now.db, op.uid) != {})
            && (reply.InUse? ==> reply.count == |Referencing(now.db, op.uid)|)
            && end.db.conns == now.db.conns
            && end.db.types == (if reply == Deleted then now.db.types - {op.uid} else now.db.types)
  {
    InitialHasInv(s);
    RunKeepsInv(s, acts);
    StatementRefines(After(s, acts).db, After(s, acts).txs[i]);
  }
}
