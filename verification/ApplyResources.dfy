/**
  Applying rendered manifests: each is created, repaired or patched if the object in the cluster
  needs it, in sorted order, until an API call fails.
*/
module ApplyResources {
  import opened ResourceOrder
  import opened Sequences

  datatype Owner = Nobody | This | Another

  /** An object in the cluster: what was last applied to it, its hash annotation, its controller. */
  datatype Live = Live(applied: Content, hash: string, owner: Owner)

  type Store = map<Key, Live>

  /**
    What can happen at a manifest: reading the object fails; the write fails, though it may have
    landed; or the object is missing and another writer creates it first.
  */
  datatype Fault = Fine | GetFails | WriteFails(landed: bool) | Overtaken(other: Live)

  datatype Call = Create(manifest: Manifest) | Repair(manifest: Manifest) | Patch(manifest: Manifest)

  datatype Outcome = Outcome(store: Store, calls: seq<Call>, ok: bool)

  function FaultAt(faults: seq<Fault>, i: nat): Fault {
    if i < |faults| then faults[i] else Fine
  }

  /** A write of `live` under a key. */
  function Written(store: Store, call: Call, live: Live, fault: Fault): Outcome {
    match fault
    case WriteFails(landed) => Outcome(if landed then store[KeyOf(call.manifest) := live] else store, [call], false)
    case _ => Outcome(store[KeyOf(call.manifest) := live], [call], true)
  }

  /**
    What is done for one manifest. An object owned by another controller is left as it is if its
    hash is right; otherwise the server refuses the patch, which would give it a second controller.
  */
  function StepOf(store: Store, m: Manifest, fault: Fault, hash: Content -> string): Outcome {
    var key, desired := KeyOf(m), Live(m.content, hash(m.content), This);
    if !m.ownable || fault == GetFails then Outcome(store, [], false)
    else if key !in store then
      if fault.Overtaken? then Outcome(store[key := fault.other], [Create(m)], true)
      else Written(store, Create(m), desired, fault)
    else
      var live := store[key];
      if live.hash == desired.hash then
        if live.owner != Nobody then Outcome(store, [], true)
        else Written(store, Repair(m), live.(owner := This), fault)
      else if live.owner == Another then Outcome(store, [Patch(m)], false)
      else Written(store, Patch(m), desired, fault)
  }

  /** A pass from manifest `i` on. */
  function Pass(store: Store, ms: seq<Manifest>, faults: seq<Fault>, hash: Content -> string, i: nat): Outcome
    requires i <= |ms|
    decreases |ms| - i
  {
    if i == |ms| then Outcome(store, [], true)
    else
      var step := StepOf(store, ms[i], FaultAt(faults, i), hash);
      if !step.ok then step
      else
        var rest := Pass(step.store, ms, faults, hash, i + 1);
        Outcome(rest.store, step.calls + rest.calls, rest.ok)
  }

  // ---- Writes come in order ----

  function Manifests(calls: seq<Call>): seq<Manifest> {
    if calls == [] then [] else [calls[0].manifest] + Manifests(calls[1..])
  }

  lemma {:induction false} PassWithin(store: Store, ms: seq<Manifest>, faults: seq<Fault>, hash: Content -> string, i: nat)
    requires i <= |ms|
    ensures Within(Manifests(Pass(store, ms, faults, hash, i).calls), ms[i..])
    decreases |ms| - i
  {
    if i < |ms| {
      var step := StepOf(store, ms[i], FaultAt(faults, i), hash);
      assert ms[i..] == [ms[i]] + ms[i + 1..];
      if step.ok {
        var rest := Pass(step.store, ms, faults, hash, i + 1);
        PassWithin(step.store, ms, faults, hash, i + 1);
        if step.calls == [] {
          assert step.calls + rest.calls == rest.calls;
          WithinCons(Manifests(rest.calls), ms[i], ms[i + 1..]);
        } else {
          assert (step.calls + rest.calls)[1..] == rest.calls;
          assert Manifests(step.calls + rest.calls) == [ms[i]] + Manifests(rest.calls);
          assert ([ms[i]] + Manifests(rest.calls))[1..] == Manifests(rest.calls);
        }
      }
    }
  }

  /**
    Every pass, even one stopped by an error, writes in nondecreasing priority, and within a
    priority in the order of the rendering.
  */
  lemma WritesInOrder(store: Store, rendered: seq<Manifest>, faults: seq<Fault>, hash: Content -> string, p: nat)
    requires p <= LAST
    ensures var written := Manifests(Pass(store, SortStable(rendered), faults, hash, 0).calls);
            Ordered(written) && Within(Of(written, p), Of(rendered, p))
  {
    var sorted := SortStable(rendered);
    var written := Manifests(Pass(store, sorted, faults, hash, 0).calls);
    PassWithin(store, sorted, faults, hash, 0);
    assert sorted[0..] == sorted;
    SortIsStable(rendered);
    WithinOrdered(written, sorted);
    WithinOf(written, sorted, p);
  }

  predicate IsWorkload(kind: Kind) {
    kind == Deployment || kind == StatefulSet || kind == DaemonSet || kind == Job
  }

  predicate IsInfrastructure(kind: Kind) {
    || kind == ConfigMap || kind == Secret || kind == Service || kind == NetworkPolicy
    || kind == ClusterRole || kind == ClusterRoleBinding || kind == Role || kind == RoleBinding
  }

  /** So no service account is written after anything else, no infrastructure after a workload, and other kinds come last. */
  lemma AccountsBeforeWorkloads(store: Store, rendered: seq<Manifest>, faults: seq<Fault>, hash: Content -> string, i: nat, j: nat)
    requires i < j < |Manifests(Pass(store, SortStable(rendered), faults, hash, 0).calls)|
    ensures var written := Manifests(Pass(store, SortStable(rendered), faults, hash, 0).calls);
            && (written[j].kind == ServiceAccount ==> written[i].kind == ServiceAccount)
            && (IsInfrastructure(written[j].kind) ==> !IsWorkload(written[i].kind))
            && (written[i].kind.OtherKind? ==> written[j].kind.OtherKind?)
  {
    WritesInOrder(store, rendered, faults, hash, 0);
  }

  // ---- A pass that ends well settles everything ----

  /** The object has the right hash, and a controller. */
  predicate Settled(store: Store, m: Manifest, hash: Content -> string) {
    KeyOf(m) in store && store[KeyOf(m)].hash == hash(m.content) && store[KeyOf(m)].owner != Nobody
  }

  ghost predicate AllSettled(store: Store, ms: seq<Manifest>, hash: Content -> string, i: nat) {
    forall k | i <= k < |ms| :: ms[k].ownable && Settled(store, ms[k], hash)
  }

  /** An undisturbed pass ends well without a write exactly if everything is settled before it. */
  lemma {:induction false} QuietExactlyIfSettled(store: Store, ms: seq<Manifest>, hash: Content -> string, i: nat)
    requires i <= |ms|
    ensures Pass(store, ms, [], hash, i) == Outcome(store, [], true) <==> AllSettled(store, ms, hash, i)
    ensures Pass(store, ms, [], hash, i).ok && Pass(store, ms, [], hash, i).calls == [] ==> AllSettled(store, ms, hash, i)
    decreases |ms| - i
  {
    if i < |ms| && Settled(store, ms[i], hash) {
      QuietExactlyIfSettled(store, ms, hash, i + 1);
    }
  }

  ghost predicate NotOvertaken(faults: seq<Fault>) {
    forall f | f in faults :: !f.Overtaken?
  }

  /** A pass does not touch objects it has no manifest for. */
  lemma {:induction false} PassKeepsOthers(store: Store, ms: seq<Manifest>, faults: seq<Fault>, hash: Content -> string, i: nat, key: Key)
    requires i <= |ms| && forall k | i <= k < |ms| :: KeyOf(ms[k]) != key
    ensures var after := Pass(store, ms, faults, hash, i).store;
            (key in after <==> key in store) && (key in store ==> after[key] == store[key])
    decreases |ms| - i
  {
    if i < |ms| {
      PassKeepsOthers(StepOf(store, ms[i], FaultAt(faults, i), hash).store, ms, faults, hash, i + 1, key);
    }
  }

  /** A step looks at its own object only. */
  lemma StepIsLocal(store: Store, other: Store, m: Manifest, fault: Fault, hash: Content -> string)
    requires KeyOf(m) in store <==> KeyOf(m) in other
    requires KeyOf(m) in store ==> store[KeyOf(m)] == other[KeyOf(m)]
    ensures var step, step' := StepOf(store, m, fault, hash), StepOf(other, m, fault, hash);
            && step.ok == step'.ok
            && (KeyOf(m) in step.store <==> KeyOf(m) in step'.store)
            && (KeyOf(m) in step.store ==> step.store[KeyOf(m)] == step'.store[KeyOf(m)])
  {
  }

  /** After a pass that ends well each object is as its own step leaves it: with distinct keys no other step touches it. */
  lemma {:induction false} PassIsStepwise(store: Store, ms: seq<Manifest>, faults: seq<Fault>, hash: Content -> string, i: nat, k: nat)
    requires i <= k < |ms| && DistinctKeys(ms) && Pass(store, ms, faults, hash, i).ok
    ensures var key, after, step := KeyOf(ms[k]), Pass(store, ms, faults, hash, i).store, StepOf(store, ms[k], FaultAt(faults, k), hash);
            step.ok && key in step.store && key in after && after[key] == step.store[key]
    decreases |ms| - i
  {
    var step := StepOf(store, ms[i], FaultAt(faults, i), hash);
    PassStep(store, ms, faults, hash, i);
    if i == k {
      PassKeepsOthers(step.store, ms, faults, hash, i + 1, KeyOf(ms[i]));
    } else {
      PassIsStepwise(step.store, ms, faults, hash, i + 1, k);
      StepIsLocal(step.store, store, ms[k], FaultAt(faults, k), hash);
    }
  }

  // ---- When a pass ends well, and what it writes ----

  /** Reading succeeds, the object is not another controller's with the wrong hash, and no write it needs fails. */
  predicate GoesWell(store: Store, m: Manifest, fault: Fault, hash: Content -> string) {
    && m.ownable && fault != GetFails
    && !(KeyOf(m) in store && store[KeyOf(m)].owner == Another && store[KeyOf(m)].hash != hash(m.content))
    && (fault.WriteFails? ==> Settled(store, m, hash))
  }

  lemma StepEndsWell(store: Store, m: Manifest, fault: Fault, hash: Content -> string)
    ensures StepOf(store, m, fault, hash).ok <==> GoesWell(store, m, fault, hash)
  {
  }

  /** The objects of the manifests from `i` on are the same in both stores. */
  ghost predicate SameObjects(store: Store, other: Store, ms: seq<Manifest>, i: nat) {
    forall k | i <= k < |ms| ::
      && (KeyOf(ms[k]) in store <==> KeyOf(ms[k]) in other)
      && (KeyOf(ms[k]) in store ==> store[KeyOf(ms[k])] == other[KeyOf(ms[k])])
  }

  lemma StepKeepsLater(store: Store, ms: seq<Manifest>, i: nat, fault: Fault, hash: Content -> string)
    requires i < |ms| && DistinctKeys(ms)
    ensures SameObjects(StepOf(store, ms[i], fault, hash).store, store, ms, i + 1)
  {
  }

  /** With distinct keys a pass ends well exactly if every manifest does, judged by the objects before the pass. */
  lemma {:induction false} EndsWellExactlyIf(store: Store, ms: seq<Manifest>, faults: seq<Fault>, hash: Content -> string, i: nat)
    requires i <= |ms| && DistinctKeys(ms)
    ensures Pass(store, ms, faults, hash, i).ok <==> forall k | i <= k < |ms| :: GoesWell(store, ms[k], FaultAt(faults, k), hash)
    decreases |ms| - i
  {
    if i < |ms| {
      var after := StepOf(store, ms[i], FaultAt(faults, i), hash).store;
      PassStep(store, ms, faults, hash, i);
      StepEndsWell(store, ms[i], FaultAt(faults, i), hash);
      StepKeepsLater(store, ms, i, FaultAt(faults, i), hash);
      EndsWellExactlyIf(after, ms, faults, hash, i + 1);
    }
  }

  /** The call an object needs: to be created, to get a controller, to be patched, or none. */
  function Needed(store: Store, m: Manifest, hash: Content -> string): seq<Call> {
    if KeyOf(m) !in store then [Create(m)]
    else if store[KeyOf(m)].hash != hash(m.content) then [Patch(m)]
    else if store[KeyOf(m)].owner == Nobody then [Repair(m)]
    else []
  }

  /** The calls the manifests from `i` to `hi` need. */
  function AllNeeded(store: Store, ms: seq<Manifest>, hash: Content -> string, i: nat, hi: nat): seq<Call>
    requires i <= hi <= |ms|
    decreases hi - i
  {
    if i == hi then [] else Needed(store, ms[i], hash) + AllNeeded(store, ms, hash, i + 1, hi)
  }

  lemma {:induction false} AllNeededIsLocal(store: Store, other: Store, ms: seq<Manifest>, hash: Content -> string, i: nat, hi: nat)
    requires i <= hi <= |ms| && SameObjects(store, other, ms, i)
    ensures AllNeeded(store, ms, hash, i, hi) == AllNeeded(other, ms, hash, i, hi)
    decreases hi - i
  {
    if i < hi {
      AllNeededIsLocal(store, other, ms, hash, i + 1, hi);
    }
  }

  /** The calls made for a manifest: what its object needs, once that has been read. */
  function Made(store: Store, m: Manifest, fault: Fault, hash: Content -> string): seq<Call> {
    if m.ownable && fault != GetFails then Needed(store, m, hash) else []
  }

  lemma StepCalls(store: Store, m: Manifest, fault: Fault, hash: Content -> string)
    ensures StepOf(store, m, fault, hash).calls == Made(store, m, fault, hash)
    ensures StepOf(store, m, fault, hash).ok ==> Made(store, m, fault, hash) == Needed(store, m, hash)
  {
  }

  /** A pass that ends well makes exactly the calls the objects need, in order. */
  lemma {:induction false} CallsAreTheNeeded(store: Store, ms: seq<Manifest>, faults: seq<Fault>, hash: Content -> string, i: nat)
    requires i <= |ms| && DistinctKeys(ms) && Pass(store, ms, faults, hash, i).ok
    ensures Pass(store, ms, faults, hash, i).calls == AllNeeded(store, ms, hash, i, |ms|)
    decreases |ms| - i
  {
    if i < |ms| {
      var after := StepOf(store, ms[i], FaultAt(faults, i), hash).store;
      PassStep(store, ms, faults, hash, i);
      StepKeepsLater(store, ms, i, FaultAt(faults, i), hash);
      CallsAreTheNeeded(after, ms, faults, hash, i + 1);
      AllNeededIsLocal(after, store, ms, hash, i + 1, |ms|);
      StepCalls(store, ms[i], FaultAt(faults, i), hash);
    }
  }

  lemma GoesWellIsLocal(store: Store, other: Store, ms: seq<Manifest>, faults: seq<Fault>, hash: Content -> string, i: nat)
    requires SameObjects(store, other, ms, i)
    ensures forall k | i <= k < |ms| :: GoesWell(store, ms[k], FaultAt(faults, k), hash) <==> GoesWell(other, ms[k], FaultAt(faults, k), hash)
  {
  }

  lemma StopsLater(store: Store, ms: seq<Manifest>, faults: seq<Fault>, hash: Content -> string, i: nat, k: nat, after: Store)
    requires i < k < |ms| && DistinctKeys(ms) && GoesWell(store, ms[i], FaultAt(faults, i), hash)
    requires after == StepOf(store, ms[i], FaultAt(faults, i), hash).store && SameObjects(after, store, ms, i + 1)
    requires Pass(after, ms, faults, hash, i + 1).calls == AllNeeded(after, ms, hash, i + 1, k) + Made(after, ms[k], FaultAt(faults, k), hash)
    ensures Pass(store, ms, faults, hash, i).calls == AllNeeded(store, ms, hash, i, k) + Made(store, ms[k], FaultAt(faults, k), hash)
  {
    PassStep(store, ms, faults, hash, i);
    StepEndsWell(store, ms[i], FaultAt(faults, i), hash);
    StepCalls(store, ms[i], FaultAt(faults, i), hash);
    AllNeededIsLocal(after, store, ms, hash, i + 1, k);
    Associate(Needed(store, ms[i], hash), AllNeeded(store, ms, hash, i + 1, k), Made(store, ms[k], FaultAt(faults, k), hash));
  }

  /**
    A pass that does not end well stops at the first manifest that does not, after the calls needed
    before it and, if its object was read, the one needed there.
  */
  lemma {:induction false} StopsAtTheFirst(store: Store, ms: seq<Manifest>, faults: seq<Fault>, hash: Content -> string, i: nat, k: nat)
    requires i <= k < |ms| && DistinctKeys(ms) && !GoesWell(store, ms[k], FaultAt(faults, k), hash)
    requires forall j | i <= j < k :: GoesWell(store, ms[j], FaultAt(faults, j), hash)
    ensures Pass(store, ms, faults, hash, i).calls == AllNeeded(store, ms, hash, i, k) + Made(store, ms[k], FaultAt(faults, k), hash)
    decreases k - i
  {
    if i == k {
      PassStep(store, ms, faults, hash, i);
      StepEndsWell(store, ms[i], FaultAt(faults, i), hash);
      StepCalls(store, ms[i], FaultAt(faults, i), hash);
      assert AllNeeded(store, ms, hash, i, k) == [];
      assert [] + Made(store, ms[k], FaultAt(faults, k), hash) == Made(store, ms[k], FaultAt(faults, k), hash);
    } else {
      var after := StepOf(store, ms[i], FaultAt(faults, i), hash).store;
      StepKeepsLater(store, ms, i, FaultAt(faults, i), hash);
      GoesWellIsLocal(after, store, ms, faults, hash, i + 1);
      StopsAtTheFirst(after, ms, faults, hash, i + 1, k);
      StopsLater(store, ms, faults, hash, i, k, after);
    }
  }

  /** Manifest `k` is reached by a pass from `i`: all before it go well. */
  ghost predicate Reached(store: Store, ms: seq<Manifest>, faults: seq<Fault>, hash: Content -> string, i: nat, k: nat)
    requires k < |ms|
  {
    forall j | i <= j < k :: GoesWell(store, ms[j], FaultAt(faults, j), hash)
  }

  /** What a store has under a key. */
  function At(store: Store, key: Key): seq<Live> {
    if key in store then [store[key]] else []
  }

  /** Every pass, well ended or not, leaves an object as its own step does if that is reached, and as it was if not. */
  lemma {:induction false} PassLeaves(store: Store, ms: seq<Manifest>, faults: seq<Fault>, hash: Content -> string, i: nat, k: nat)
    requires i <= k < |ms| && DistinctKeys(ms)
    ensures At(Pass(store, ms, faults, hash, i).store, KeyOf(ms[k])) ==
            if Reached(store, ms, faults, hash, i, k) then At(StepOf(store, ms[k], FaultAt(faults, k), hash).store, KeyOf(ms[k]))
            else At(store, KeyOf(ms[k]))
    decreases |ms| - i
  {
    var step := StepOf(store, ms[i], FaultAt(faults, i), hash);
    PassStep(store, ms, faults, hash, i);
    StepEndsWell(store, ms[i], FaultAt(faults, i), hash);
    if step.ok {
      if i == k {
        PassKeepsOthers(step.store, ms, faults, hash, i + 1, KeyOf(ms[i]));
      } else {
        PassLeaves(step.store, ms, faults, hash, i + 1, k);
        StepKeepsLater(store, ms, i, FaultAt(faults, i), hash);
        GoesWellIsLocal(step.store, store, ms, faults, hash, i + 1);
        StepIsLocal(step.store, store, ms[k], FaultAt(faults, k), hash);
        assert Reached(store, ms, faults, hash, i, k) <==> Reached(step.store, ms, faults, hash, i + 1, k);
      }
    } else if i < k {
      StepKeepsLater(store, ms, i, FaultAt(faults, i), hash);
    }
  }

  // ---- What a pass that ends well leaves ----

  /** Another writer creates the missing object first, with the wrong hash or without a controller. */
  predicate Unsettling(store: Store, m: Manifest, fault: Fault, hash: Content -> string) {
    KeyOf(m) !in store && fault.Overtaken? && (fault.other.hash != hash(m.content) || fault.other.owner == Nobody)
  }

  /** A pass without error leaves everything settled exactly if no such object came first. */
  lemma NilPassSettles(store: Store, ms: seq<Manifest>, faults: seq<Fault>, hash: Content -> string, i: nat)
    requires i <= |ms| && DistinctKeys(ms) && Pass(store, ms, faults, hash, i).ok
    ensures AllSettled(Pass(store, ms, faults, hash, i).store, ms, hash, i)
       <==> forall k | i <= k < |ms| :: !Unsettling(store, ms[k], FaultAt(faults, k), hash)
  {
    var after := Pass(store, ms, faults, hash, i).store;
    forall k | i <= k < |ms|
      ensures ms[k].ownable && (Settled(after, ms[k], hash) <==> !Unsettling(store, ms[k], FaultAt(faults, k), hash))
    {
      PassIsStepwise(store, ms, faults, hash, i, k);
      StepSettles(store, ms[k], FaultAt(faults, k), hash);
    }
  }

  lemma StepSettles(store: Store, m: Manifest, fault: Fault, hash: Content -> string)
    requires StepOf(store, m, fault, hash).ok
    ensures m.ownable && (Settled(StepOf(store, m, fault, hash).store, m, hash) <==> !Unsettling(store, m, fault, hash))
  {
  }

  /**
    With distinct keys, after a pass that returns no error a second pass over the same rendering
    makes no write exactly if no create was overtaken by an unsettled object.
  */
  lemma SecondPassIsQuiet(store: Store, rendered: seq<Manifest>, faults: seq<Fault>, hash: Content -> string)
    requires DistinctKeys(rendered) && Pass(store, SortStable(rendered), faults, hash, 0).ok
    ensures var sorted := SortStable(rendered); var after := Pass(store, sorted, faults, hash, 0).store;
            (Pass(after, sorted, [], hash, 0) == Outcome(after, [], true)) <==>
              (forall k | 0 <= k < |sorted| :: !Unsettling(store, sorted[k], FaultAt(faults, k), hash))
  {
    SortFromDistinct(rendered, 0);
    NilPassSettles(store, SortStable(rendered), faults, hash, 0);
    QuietExactlyIfSettled(Pass(store, SortStable(rendered), faults, hash, 0).store, SortStable(rendered), hash, 0);
  }

  /** In particular it is quiet without another writer. */
  lemma AloneIsQuiet(store: Store, rendered: seq<Manifest>, faults: seq<Fault>, hash: Content -> string)
    requires DistinctKeys(rendered) && NotOvertaken(faults) && Pass(store, SortStable(rendered), faults, hash, 0).ok
    ensures var after := Pass(store, SortStable(rendered), faults, hash, 0).store;
            Pass(after, SortStable(rendered), [], hash, 0) == Outcome(after, [], true)
  {
    SecondPassIsQuiet(store, rendered, faults, hash);
  }

  /** A create overtaken by another writer also ends well, but may leave work for the next pass. */
  lemma OvertakenIsNotSettled(m: Manifest, other: Live, hash: Content -> string)
    requires m.ownable && other.hash != hash(m.content) && other.owner == Nobody
    ensures var first := Pass(map[], [m], [Overtaken(other)], hash, 0);
            first.ok && Pass(first.store, [m], [], hash, 0).calls == [Patch(m)]
  {
    var store := map[KeyOf(m) := other];
    assert StepOf(map[], m, Overtaken(other), hash) == Outcome(store, [Create(m)], true);
    PassStep(map[], [m], [Overtaken(other)], hash, 0);
    PassStep(store, [m], [], hash, 0);
    assert StepOf(store, m, Fine, hash).calls == [Patch(m)];
  }

  // ---- What is in the cluster then ----

  /** The service controls each object, or it is another's: one left as it was, or one that came first. */
  lemma NilPassOwns(store: Store, ms: seq<Manifest>, faults: seq<Fault>, hash: Content -> string, k: nat)
    requires k < |ms| && DistinctKeys(ms) && Pass(store, ms, faults, hash, 0).ok
    ensures var key, after, fault := KeyOf(ms[k]), Pass(store, ms, faults, hash, 0).store, FaultAt(faults, k);
            && key in after
            && (key !in store && fault.Overtaken? ==> after[key] == fault.other)
            && (!(key !in store && fault.Overtaken?) ==>
                  after[key].owner == This || (after[key].owner == Another && key in store && after[key] == store[key]))
  {
    PassIsStepwise(store, ms, faults, hash, 0, k);
  }

  /** The hash annotations are those of what was applied. */
  ghost predicate Honest(store: Store, hash: Content -> string) {
    forall key | key in store :: store[key].hash == hash(store[key].applied)
  }

  /**
    With a hash free of collisions, a pass that returns no error leaves an object as rendered
    exactly if no object with another content came first.
  */
  lemma ClusterIsAsRendered(store: Store, ms: seq<Manifest>, faults: seq<Fault>, hash: Content -> string, k: nat)
    requires DistinctKeys(ms) && Honest(store, hash) && k < |ms|
    requires forall a, b | hash(a) == hash(b) :: a == b
    requires Pass(store, ms, faults, hash, 0).ok
    ensures var key, after, fault := KeyOf(ms[k]), Pass(store, ms, faults, hash, 0).store, FaultAt(faults, k);
            && key in after
            && (after[key].applied == ms[k].content <==>
                  !(key !in store && fault.Overtaken? && fault.other.applied != ms[k].content))
  {
    PassIsStepwise(store, ms, faults, hash, 0, k);
  }

  lemma PassStep(store: Store, ms: seq<Manifest>, faults: seq<Fault>, hash: Content -> string, i: nat)
    requires i < |ms|
    ensures var step := StepOf(store, ms[i], FaultAt(faults, i), hash);
            Pass(store, ms, faults, hash, i) ==
            if !step.ok then step
            else
              var rest := Pass(step.store, ms, faults, hash, i + 1);
              Outcome(rest.store, step.calls + rest.calls, rest.ok)
  {
  }

  // ---- The loop ----

  class Cluster {
    var objects: Store
    var calls: seq<Call>

    constructor (objects: Store)
      ensures this.objects == objects && calls == []
    {
      this.objects, calls := objects, [];
    }

    method Write(call: Call, live: Live, fault: Fault) returns (ok: bool)
      modifies this
      ensures calls == old(calls) + [call]
      ensures objects == Written(old(objects), call, live, fault).store && ok == Written(old(objects), call, live, fault).ok
    {
      calls := calls + [call];
      if fault != WriteFails(false) {
        objects := objects[KeyOf(call.manifest) := live];
      }
      ok := !fault.WriteFails?;
    }

    method ApplyOne(m: Manifest, fault: Fault, hash: Content -> string) returns (ok: bool)
      modifies this
      ensures var step := StepOf(old(objects), m, fault, hash);
              objects == step.store && calls == old(calls) + step.calls && ok == step.ok
    {
      if !m.ownable { return false; }
      var desiredHash := hash(m.content);
      if fault == GetFails { return false; }
      if KeyOf(m) !in objects {
        if fault.Overtaken? {
          calls, objects := calls + [Create(m)], objects[KeyOf(m) := fault.other];
          return true;
        }
        ok := Write(Create(m), Live(m.content, desiredHash, This), fault);
        return;
      }
      var existing := objects[KeyOf(m)];
      if existing.hash == desiredHash {
        if existing.owner == Nobody {
          ok := Write(Repair(m), existing.(owner := This), fault);
          return;
        }
        return true;
      }
      if existing.owner == Another {
        calls := calls + [Patch(m)];
        return false;
      }
      ok := Write(Patch(m), Live(m.content, desiredHash, This), fault);
    }

    method ApplyResources(resources: seq<Manifest>, faults: seq<Fault>, hash: Content -> string) returns (ok: bool)
      modifies this
      ensures var pass := Pass(old(objects), SortStable(resources), faults, hash, 0);
              objects == pass.store && calls == old(calls) + pass.calls && ok == pass.ok
    {
      ok := ApplySorted(SortStable(resources), faults, hash);
    }

    method ApplySorted(sorted: seq<Manifest>, faults: seq<Fault>, hash: Content -> string) returns (ok: bool)
      modifies this
      ensures var pass := Pass(old(objects), sorted, faults, hash, 0);
              objects == pass.store && calls == old(calls) + pass.calls && ok == pass.ok
    {
      ghost var whole := Pass(objects, sorted, faults, hash, 0);
      ghost var rest := whole;
      var i := 0;
      while i < |sorted|
        invariant i <= |sorted| && rest == Pass(objects, sorted, faults, hash, i)
        invariant calls + rest.calls == old(calls) + whole.calls && rest.store == whole.store && rest.ok == whole.ok
      {
        ok, rest := ApplyNext(sorted, i, faults, hash);
        if !ok { return; }
        i := i + 1;
      }
      ok := true;
    }

    method ApplyNext(sorted: seq<Manifest>, i: nat, faults: seq<Fault>, hash: Content -> string) returns (ok: bool, ghost rest: Outcome)
      requires i < |sorted|
      modifies this
      ensures var pass := Pass(old(objects), sorted, faults, hash, i);
              && old(calls) + pass.calls == calls + rest.calls && pass.store == rest.store && pass.ok == rest.ok
              && rest == if ok then Pass(objects, sorted, faults, hash, i + 1) else Outcome(objects, [], false)
    {
      ghost var step := StepOf(objects, sorted[i], FaultAt(faults, i), hash);
      PassStep(objects, sorted, faults, hash, i);
      ok := ApplyOne(sorted[i], FaultAt(faults, i), hash);
      rest := if ok then Pass(objects, sorted, faults, hash, i + 1) else Outcome(objects, [], false);
      assert old(calls) + (step.calls + rest.calls) == (old(calls) + step.calls) + rest.calls;
    }
  }
}
