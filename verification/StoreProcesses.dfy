/**
 Many processes over one encrypted store: the shared-file discipline of
 `LockedFile` with the master key on top. Each action is either one step of that
 discipline, guarded by what the keyring of the process can supply, or a key
 fetch that leaves the discipline's state alone.
 */
module StoreProcesses {
  import opened Optional
  import opened LockedFile
  import opened Profiles
  import opened SharedFiles
  import opened Keyring

  /** The keyring of one handle. */
  datatype Ring = Ring(cached: Option<Key>, storeExists: bool)

  /** `sealKey` encrypts the store file, `tempKeys` the temporary files. */
  datatype World = World(
    base: State<Table, Change>, keyFile: Option<Key>, sealKey: Option<Key>,
    tempKeys: map<nat, Key>, rings: map<nat, Ring>)

  datatype Action =
    | OpenStore(p: nat)
    | FetchKey(p: nat, fresh_: Key)   // keyring.Get: read the key file, or mint
    | Act(step: Step<Change>)

  function Install(): World {
    World(Init<Table, Change>(None), None, None, map[], map[])
  }

  /** The file decrypts under `key` and passes the name check of `load`. */
  predicate Opens(w: World, key: Option<Key>) {
    w.base.disk.None? || (key.Some? && key == w.sealKey && Loadable(w.base.disk.value))
  }

  predicate May(w: World, a: Action) {
    match a
    case OpenStore(p) => Enabled(StoreSpec, w.base, Open(p)) && Opens(w, w.keyFile)
    case FetchKey(p, _) =>
      && p in w.base.procs && p in w.rings
      && (w.base.procs[p].pc.Locked? || w.base.procs[p].pc.Mutated?)
      && w.rings[p].cached.None? && (w.keyFile.Some? || !w.rings[p].storeExists)
    case Act(step) =>
      && !step.Open? && Enabled(StoreSpec, w.base, step) && step.p in w.rings
      && (step.Reload? ==> Opens(w, w.rings[step.p].cached))
      && (step.WriteTemp? ==> w.rings[step.p].cached.Some?)
      && (step.Install? ==> step.p in w.tempKeys)
  }

  function Do(w: World, a: Action): World
    requires May(w, a)
  {
    match a
    case OpenStore(p) =>
      var exists_ := w.base.disk.Some?;
      w.(base := LockedFile.Apply(StoreSpec, w.base, Open(p)),
         rings := w.rings[p := Ring(if exists_ then w.keyFile else None, exists_)])
    case FetchKey(p, fresh_) =>
      var key := if w.keyFile.Some? then w.keyFile else Some(fresh_);
      w.(keyFile := key, rings := w.rings[p := w.rings[p].(cached := key)])
    case Act(step) =>
      var v := w.(base := LockedFile.Apply(StoreSpec, w.base, step));
      if step.WriteTemp? then v.(tempKeys := w.tempKeys[step.p := w.rings[step.p].cached.value])
      else if step.Install? then v.(sealKey := Some(w.tempKeys[step.p]))
      else if step.p !in v.base.procs then v.(rings := w.rings - {step.p})
      else v
  }

  predicate LegalRun(w: World, run: seq<Action>)
    decreases |run|
  {
    run == [] || (May(w, run[0]) && LegalRun(Do(w, run[0]), run[1..]))
  }

  function Final(w: World, run: seq<Action>): World
    requires LegalRun(w, run)
    decreases |run|
  {
    if run == [] then w else Final(Do(w, run[0]), run[1..])
  }

  // ---- keys ----

  ghost predicate KeysAgree(w: World) {
    && (w.sealKey.Some? <==> w.base.disk.Some?)
    && (w.sealKey.Some? ==> w.sealKey == w.keyFile)
    && w.rings.Keys == w.base.procs.Keys
    && (forall p | p in w.rings :: w.rings[p].cached.Some? ==> w.rings[p].cached == w.keyFile)
    && (forall p | p in w.base.procs && w.base.procs[p].pc.TempWritten? ::
          p in w.tempKeys && w.keyFile == Some(w.tempKeys[p]))
  }

  ghost predicate NamesValid(w: World) {
    && (w.base.disk.Some? ==> Loadable(w.base.disk.value))
    && (forall p | p in w.base.procs :: Loadable(w.base.procs[p].mem))
  }

  lemma KeysAgreeFetch(w: World, a: Action)
    requires KeysAgree(w) && May(w, a) && !a.Act?
    ensures KeysAgree(Do(w, a)) && (w.keyFile.Some? ==> Do(w, a).keyFile == w.keyFile)
  {}

  lemma ActEffect(s: State<Table, Change>, step: Step<Change>)
    requires !step.Open? && Enabled(StoreSpec, s, step)
    ensures var t := LockedFile.Apply(StoreSpec, s, step);
      && t.procs.Keys == (if step.p in t.procs then s.procs.Keys else s.procs.Keys - {step.p})
      && (forall p | p in t.procs && p != step.p :: t.procs[p] == s.procs[p])
      && (step.p in t.procs && t.procs[step.p].pc.TempWritten? ==> step.WriteTemp?)
      && (step.Install? ==> s.procs[step.p].pc.TempWritten? && t.disk.Some?)
      && (!step.Install? ==> t.disk == s.disk)
      && (step.WriteTemp? || step.Install? ==> step.p in t.procs)
  {}

  lemma KeysAgreeAct(w: World, a: Action)
    requires KeysAgree(w) && May(w, a) && a.Act?
    ensures KeysAgree(Do(w, a)) && Do(w, a).keyFile == w.keyFile
  {
    ActEffect(w.base, a.step);
  }

  lemma KeysAgreeStep(w: World, a: Action)
    requires KeysAgree(w) && May(w, a)
    ensures KeysAgree(Do(w, a)) && (w.keyFile.Some? ==> Do(w, a).keyFile == w.keyFile)
  {
    if a.Act? {
      KeysAgreeAct(w, a);
    } else {
      KeysAgreeFetch(w, a);
    }
  }

  lemma NamesValidStep(w: World, a: Action)
    requires NamesValid(w) && May(w, a)
    ensures NamesValid(Do(w, a))
  {
    if a.Act? && a.step.Mutate? {
      var x := w.base.procs[a.step.p];
      if Updated(x.mem, x.pc.op).Some? {
        UpdatedLoadable(x.mem, x.pc.op);
      }
    }
  }

  lemma {:induction false} InvariantRun(w: World, run: seq<Action>)
    requires KeysAgree(w) && NamesValid(w) && LegalRun(w, run)
    ensures KeysAgree(Final(w, run)) && NamesValid(Final(w, run))
    ensures w.keyFile.Some? ==> Final(w, run).keyFile == w.keyFile
    decreases |run|
  {
    if run != [] {
      KeysAgreeStep(w, run[0]);
      NamesValidStep(w, run[0]);
      InvariantRun(Do(w, run[0]), run[1..]);
    }
  }

  /** Once the key file exists it is never replaced, whatever happens between two
      points of a run; it always holds the key that encrypts the store, and every key
      that a process has cached. */
  lemma KeyIsStable(run: seq<Action>, more: seq<Action>)
    requires LegalRun(Install(), run) && LegalRun(Final(Install(), run), more)
    ensures var w := Final(Install(), run); var v := Final(w, more);
      && (w.keyFile.Some? ==> v.keyFile == w.keyFile)
      && (v.base.disk.Some? ==> v.keyFile.Some? && v.keyFile == v.sealKey)
      && (forall p | p in v.rings && v.rings[p].cached.Some? :: v.rings[p].cached == v.keyFile)
  {
    InvariantRun(Install(), run);
    InvariantRun(Final(Install(), run), more);
  }

  /** Nobody is ever locked out: whenever the lock is free a new process can open
      the store, and a handle that has just taken the lock can either reload at
      once or fetch a key with which it can. */
  lemma AlwaysReopens(run: seq<Action>, p: nat, fresh_: Key)
    requires LegalRun(Install(), run)
    ensures var w := Final(Install(), run);
      && (w.base.holder.None? && p !in w.base.procs ==>
            && May(w, OpenStore(p))
            && Do(w, OpenStore(p)).base.procs[p].mem == Held(StoreSpec, w.base.disk))
      && (p in w.base.procs && w.base.procs[p].pc.Locked? ==>
            || May(w, Act(Reload(p)))
            || (May(w, FetchKey(p, fresh_)) && May(Do(w, FetchKey(p, fresh_)), Act(Reload(p)))))
  {
    InvariantRun(Install(), run);
    var w := Final(Install(), run);
    if p in w.base.procs && w.base.procs[p].pc.Locked? && !May(w, Act(Reload(p))) {
      assert w.base.disk.Some? && w.rings[p].cached.None?;
      assert May(w, FetchKey(p, fresh_));
    }
  }

  /** A key is minted only while there is no store, and only under the lock. */
  lemma MintOnlyBeforeStore(run: seq<Action>, p: nat, fresh_: Key)
    requires LegalRun(Install(), run)
    requires var w := Final(Install(), run); May(w, FetchKey(p, fresh_)) && w.keyFile.None?
    ensures var w := Final(Install(), run); w.base.disk.None? && w.base.holder == Some(p)
  {
    InvariantRun(Install(), run);
    var steps := ProjectedLegal(Install(), run);
    LockingRun(StoreSpec, Install().base, steps);
  }

  // ---- the shared-file guarantees carry over ----

  /** Forgetting the keys turns a run into a run of the bare discipline. */
  lemma {:induction false} ProjectedLegal(w: World, run: seq<Action>) returns (steps: seq<Step<Change>>)
    requires LegalRun(w, run)
    ensures Legal(StoreSpec, w.base, steps)
    ensures After(StoreSpec, w.base, steps) == Final(w, run).base
    ensures DiscardsFirst(w, run) ==> NeverReuses(StoreSpec, w.base, steps)
    decreases |run|
  {
    if run == [] {
      steps := [];
    } else {
      var rest := ProjectedLegal(Do(w, run[0]), run[1..]);
      if run[0].FetchKey? {
        steps := rest;
      } else {
        var step := if run[0].OpenStore? then Open(run[0].p) else run[0].step;
        steps := [step] + rest;
        assert steps[1..] == rest;
      }
    }
  }

  /** A caller whose first save fails drops its handle, as the command line does. */
  predicate DiscardsFirst(w: World, run: seq<Action>)
    requires LegalRun(w, run)
    decreases |run|
  {
    run == [] ||
    (!(run[0].Act? && Reuses(StoreSpec, w.base, run[0].step)) && DiscardsFirst(Do(w, run[0]), run[1..]))
  }

  /** The encrypted store loses no update: its table is the renamed updates, one
      at a time in lock order, starting from the empty table. */
  lemma StoreNoLostUpdates(run: seq<Action>)
    requires LegalRun(Install(), run) && DiscardsFirst(Install(), run)
    ensures var s := Final(Install(), run).base; Replay(StoreSpec, None, s.log) == Some(s.disk)
  {
    var steps := ProjectedLegal(Install(), run);
    NoLostUpdates(StoreSpec, None, steps);
  }
}
