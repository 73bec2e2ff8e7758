/**
  Progress of the interleaved store: waiting never goes in a circle, some call can always
  move, and every run ends within four statements per call.
*/
module MetaProgress {
  import opened Options
  import opened MetaStore
  import opened MetaTx
  import opened MetaRuns

  /** Connection rows are asked for before type rows, type rows before index entries. */
  function Rank(w: Wait): nat {
    match w
    case NoWait => 0
    case ForConnRow(_) => 1
    case ForTypeShare(_) => 2
    case ForTypeRow(_) => 2
    case ForConnName(_, _) => 3
    case ForTypeName(_, _) => 3
  }

  /** Whoever is waited for is still running, and asks for nothing or for something later in the order. */
  lemma BlockerIsAhead(db: Db, a: Tx, b: Tx)
    requires Local(db, a) && Local(db, b) && Blocks(db, a, b)
    ensures Running(b)
    ensures Asks(db, b) == NoWait || Rank(Asks(db, b)) > Rank(Asks(db, a)) > 0
  {
  }

  /** How far in the order a call is; one that asks for nothing is beyond it. */
  function Level(db: Db, tx: Tx): (n: nat)
    ensures 1 <= n <= 4
  {
    if Asks(db, tx) == NoWait then 4 else Rank(Asks(db, tx))
  }

  /** A wait leads to a running call that is further on. */
  lemma WaitClimbs(s: State, i: nat, j: nat)
    requires Inv(s) && i < |s.txs| && j < |s.txs| && Waits(s, i, j)
    ensures Running(s.txs[j]) && Level(s.db, s.txs[i]) < Level(s.db, s.txs[j])
  {
    BlockerIsAhead(s.db, s.txs[i], s.txs[j]);
  }

  /** Each call in `w` waits for the next one. */
  ghost predicate WaitChain(s: State, w: seq<nat>) {
    && |w| > 0
    && InRange(w, |s.txs|)
    && (forall k | 0 <= k < |w| - 1 :: Waits(s, w[k], w[k + 1]))
  }

  lemma {:induction false} ChainClimbs(s: State, w: seq<nat>, k: nat)
    requires Inv(s) && WaitChain(s, w) && k < |w|
    ensures Level(s.db, s.txs[w[k]]) >= Level(s.db, s.txs[w[0]]) + k
    decreases k
  {
    if k > 0 {
      ChainClimbs(s, w, k - 1);
      assert Waits(s, w[k - 1], w[k - 1 + 1]);
      WaitClimbs(s, w[k - 1], w[k]);
    }
  }

  /** In no reachable state do calls wait in a circle, and no chain of waits has more than four calls. */
  lemma NoDeadlock(s: State, acts: seq<Action>, w: seq<nat>)
    requires Initial(s) && Legal(s, acts)
    requires WaitChain(After(s, acts), w)
    ensures |w| <= 4
    ensures |w| > 1 ==> w[0] != w[|w| - 1]
  {
    InitialHasInv(s);
    RunKeepsInv(s, acts);
    ChainClimbs(After(s, acts), w, |w| - 1);
  }

  /** Following the waits from a running call leads to one that can run now. */
  lemma SomeCallCanRun(s: State, i: nat) returns (k: nat)
    requires Inv(s) && i < |s.txs| && Running(s.txs[i])
    ensures Enabled(s, Run(k))
    decreases 4 - Level(s.db, s.txs[i])
  {
    if j: nat :| j < |s.txs| && Waits(s, i, j) {
      WaitClimbs(s, i, j);
      k := SomeCallCanRun(s, j);
    } else {
      k := i;
    }
  }

  // ---- Every run ends ----

  /** The most statements a call may still run. */
  function Left(pc: Pc): nat {
    match pc
    case Begin => 4
    case ConnLocked(_) => 3
    case TypeLocked(_) => 3
    case Validated(_) => 2
    case Counted => 2
    case ConnWritten(_) => 1
    case TypeWritten(_) => 1
    case TypeDeleted => 1
    case Done(_) => 0
    case Aborted => 0
  }

  function LeftInAll(txs: seq<Tx>): nat {
    if txs == [] then 0 else Left(txs[0].pc) + LeftInAll(txs[1..])
  }

  lemma {:induction false} LeftInAllUpdate(txs: seq<Tx>, i: nat, tx: Tx)
    requires i < |txs|
    ensures LeftInAll(txs[i := tx]) == LeftInAll(txs) - Left(txs[i].pc) + Left(tx.pc)
    decreases |txs|
  {
    if i == 0 {
      assert txs[i := tx][1..] == txs[1..];
    } else {
      assert txs[i := tx][1..] == txs[1..][i - 1 := tx];
      LeftInAllUpdate(txs[1..], i - 1, tx);
    }
  }

  lemma {:induction false} LeftInAllBound(txs: seq<Tx>)
    ensures LeftInAll(txs) <= 4 * |txs|
    ensures LeftInAll(txs) == 0 <==> forall i | 0 <= i < |txs| :: !Running(txs[i])
    decreases |txs|
  {
    if txs != [] {
      LeftInAllBound(txs[1..]);
      assert forall i | 0 < i < |txs| :: txs[i] == txs[1..][i - 1];
      if !Running(txs[0]) && forall i | 0 <= i < |txs[1..]| :: !Running(txs[1..][i]) {
        forall i | 0 <= i < |txs| ensures !Running(txs[i]) { assert i > 0 ==> txs[i] == txs[1..][i - 1]; }
      }
      if forall i | 0 <= i < |txs| :: !Running(txs[i]) {
        forall i | 0 <= i < |txs[1..]| ensures !Running(txs[1..][i]) { assert txs[1..][i] == txs[i + 1]; }
      }
    }
  }

  lemma StatementUsesUpAStep(db: Db, tx: Tx)
    requires Local(db, tx) && Running(tx)
    ensures Left(Exec(db, tx).1) < Left(tx.pc)
  {
  }

  lemma MoveUsesUpAStep(s: State, a: Action)
    requires Inv(s) && Enabled(s, a)
    ensures LeftInAll(Move(s, a).txs) < LeftInAll(s.txs)
  {
    LeftInAllUpdate(s.txs, a.i, Move(s, a).txs[a.i]);
    StatementUsesUpAStep(s.db, s.txs[a.i]);
  }

  /** No run is longer than four statements per call. */
  lemma {:induction false} RunsAreBounded(s: State, acts: seq<Action>)
    requires Inv(s) && Legal(s, acts)
    ensures |acts| + LeftInAll(After(s, acts).txs) <= LeftInAll(s.txs) <= 4 * |s.txs|
    decreases |acts|
  {
    LeftInAllBound(s.txs);
    if acts != [] {
      MoveKeepsInv(s, acts[0]);
      MoveUsesUpAStep(s, acts[0]);
      RunsAreBounded(Move(s, acts[0]), acts[1..]);
    }
  }

  /**
    Any finite set of calls runs to completion: a run that cannot be continued has ended
    every call, and every run that has not can be continued by a statement of some call.
    Together with the bound on the length of runs, every run can only stop there.
  */
  lemma RunsComplete(s: State, acts: seq<Action>)
    requires Initial(s) && Legal(s, acts)
    ensures |acts| <= 4 * |s.txs|
    ensures (exists a :: Enabled(After(s, acts), a)) <==> (exists i | 0 <= i < |s.txs| :: Running(After(s, acts).txs[i]))
    ensures (exists i | 0 <= i < |s.txs| :: Running(After(s, acts).txs[i])) ==> exists k: nat :: Enabled(After(s, acts), Run(k))
  {
    InitialHasInv(s);
    RunKeepsInv(s, acts);
    RunsAreBounded(s, acts);
    var now := After(s, acts);
    if i :| 0 <= i < |now.txs| && Running(now.txs[i]) {
      var k := SomeCallCanRun(now, i);
      assert Enabled(now, Run(k));
    }
  }
}
