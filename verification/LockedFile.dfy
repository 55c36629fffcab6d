/**
 A file shared by any number of processes under one discipline: take the file
 lock, reload, change the copy in memory, write a temporary file, rename it over
 the old one, release the lock. A process may crash between any two of these
 actions, which frees its lock, and any of them may fail.

 The credential store, the config file and the daemon state files all follow it;
 `Spec` says what they hold, what an update does to it, whether a handle that finds
 no file keeps the copy it has in memory, and whether one that cannot read the file
 goes on from an empty copy instead of giving up.
 */
module LockedFile {
  import opened Optional

  datatype Spec<!S, !O> = Spec(empty: S, apply: (S, O) -> Option<S>, keepsMemory: bool, failsOpen: bool)

  datatype Pc<O> =
    | Idle
    | Waiting(op: O)
    | Locked(op: O)               // lock held, nothing read yet
    | Loaded(op: O)
    | Mutated(op: O)              // the copy in memory has the update
    | TempWritten(op: O)
    | Releasing(op: O, ok: bool)  // lock still held, outcome decided

  /** `blind`: the copy in memory stands in for a file that could not be read. */
  datatype Proc<S, O> = Proc(mem: S, blind: bool, pc: Pc<O>)
  {
    predicate Critical() { !pc.Idle? && !pc.Waiting? }
  }

  /** `log` lists the updates whose rename has run, in order; `acked` those that
      reported success to their caller, and `orphans` those whose process died
      after the rename and before the report. */
  datatype State<S, O> = State(
    disk: Option<S>, holder: Option<nat>, procs: map<nat, Proc<S, O>>,
    log: seq<O>, acked: seq<O>, orphans: seq<O>)

  datatype Step<O> =
    | Open(p: nat)
    | Begin(p: nat, op: O)
    | Acquire(p: nat)
    | Reload(p: nat)
    | ReloadFails(p: nat)
    | Mutate(p: nat)
    | WriteTemp(p: nat)
    | SaveFails(p: nat, discard: bool)   // discard: the caller drops the handle
    | Install(p: nat)                    // rename over the file
    | Release(p: nat)
    | Crash(p: nat)

  function Init<S, O>(disk: Option<S>): State<S, O> {
    State(disk, None, map[], [], [], [])
  }

  function Held<S, O>(spec: Spec<S, O>, disk: Option<S>): S {
    match disk case None => spec.empty case Some(m) => m
  }

  predicate Enabled<S, O>(spec: Spec<S, O>, s: State<S, O>, step: Step<O>) {
    if step.Open? then step.p !in s.procs && s.holder.None?
    else step.p in s.procs && Ready(s.procs[step.p].pc, s.holder.None?, step)
  }

  predicate Ready<O>(pc: Pc<O>, free: bool, step: Step<O>) {
    match step
    case Begin(_, _) => pc.Idle?
    case Acquire(_) => pc.Waiting? && free
    case Reload(_) => pc.Locked?
    case ReloadFails(_) => pc.Locked?
    case Mutate(_) => pc.Loaded?
    case WriteTemp(_) => pc.Mutated?
    case SaveFails(_, _) => pc.Mutated? || pc.TempWritten?
    case Install(_) => pc.TempWritten?
    case Release(_) => pc.Releasing?
    case _ => true
  }

  function Set<S, O>(s: State<S, O>, p: nat, x: Proc<S, O>): State<S, O> {
    s.(procs := s.procs[p := x])
  }

  /** The process is gone; if it held the lock, the kernel releases it. */
  function Drop<S, O>(s: State<S, O>, p: nat): State<S, O> {
    s.(procs := s.procs - {p}, holder := if s.holder == Some(p) then None else s.holder)
  }

  function Apply<S, O>(spec: Spec<S, O>, s: State<S, O>, step: Step<O>): State<S, O>
    requires Enabled(spec, s, step)
  {
    match step
    case Open(p) => Set(s, p, Proc(Held(spec, s.disk), false, Idle))
    case Begin(p, op) => Set(s, p, s.procs[p].(pc := Waiting(op)))
    case Acquire(p) => Set(s, p, s.procs[p].(pc := Locked(s.procs[p].pc.op))).(holder := Some(p))
    case Reload(p) =>
      var mem := if s.disk.None? && spec.keepsMemory then s.procs[p].mem else Held(spec, s.disk);
      Set(s, p, Proc(mem, false, Loaded(s.procs[p].pc.op)))
    case ReloadFails(p) =>
      var op := s.procs[p].pc.op;
      if spec.failsOpen then Set(s, p, Proc(spec.empty, s.disk.Some?, Loaded(op)))
      else Set(s, p, s.procs[p].(pc := Releasing(op, false)))
    case Mutate(p) =>
      var op := s.procs[p].pc.op;
      (match spec.apply(s.procs[p].mem, op)
       case None => Set(s, p, s.procs[p].(pc := Releasing(op, false)))
       case Some(m) => Set(s, p, s.procs[p].(mem := m, pc := Mutated(op))))
    case WriteTemp(p) => Set(s, p, s.procs[p].(pc := TempWritten(s.procs[p].pc.op)))
    case SaveFails(p, discard) =>
      if discard then Drop(s, p)
      else Set(s, p, s.procs[p].(pc := Releasing(s.procs[p].pc.op, false)))
    case Install(p) =>
      var op := s.procs[p].pc.op;
      Set(s, p, s.procs[p].(pc := Releasing(op, true)))
        .(disk := Some(s.procs[p].mem), log := s.log + [op])
    case Release(p) =>
      var pc := s.procs[p].pc;
      Set(s, p, s.procs[p].(pc := Idle))
        .(holder := None, acked := if pc.ok then s.acked + [pc.op] else s.acked)
    case Crash(p) =>
      var pc := s.procs[p].pc;
      Drop(s, p).(orphans := if pc.Releasing? && pc.ok then s.orphans + [pc.op] else s.orphans)
  }

  predicate Legal<S, O>(spec: Spec<S, O>, s: State<S, O>, run: seq<Step<O>>)
    decreases |run|
  {
    run == [] || (Enabled(spec, s, run[0]) && Legal(spec, Apply(spec, s, run[0]), run[1..]))
  }

  function After<S, O>(spec: Spec<S, O>, s: State<S, O>, run: seq<Step<O>>): State<S, O>
    requires Legal(spec, s, run)
    decreases |run|
  {
    if run == [] then s else After(spec, Apply(spec, s, run[0]), run[1..])
  }

  // ---- the reference: updates applied one at a time ----

  /** The file after a sequence of updates, or nothing if one of them is refused. */
  function Replay<S, O>(spec: Spec<S, O>, disk: Option<S>, ops: seq<O>): Option<Option<S>>
    decreases |ops|
  {
    if ops == [] then Some(disk)
    else match Replay(spec, disk, ops[..|ops| - 1])
      case None => None
      case Some(d) =>
        match spec.apply(Held(spec, d), ops[|ops| - 1])
        case None => None
        case Some(m) => Some(Some(m))
  }

  /** A step that leaves an updated copy in the memory of a live handle while
      there is still no file to reload from. */
  predicate Reuses<S, O>(spec: Spec<S, O>, s: State<S, O>, step: Step<O>) {
    spec.keepsMemory && s.disk.None? && step.SaveFails? && !step.discard
  }

  /** The rename of a copy made without reading the file, where that matters. */
  ghost predicate Overwrites<S, O>(spec: Spec<S, O>, s: State<S, O>, step: Step<O>) {
    && step.Install? && Enabled(spec, s, step) && s.procs[step.p].blind
    && spec.apply(Held(spec, s.disk), s.procs[step.p].pc.op) != spec.apply(spec.empty, s.procs[step.p].pc.op)
  }

  ghost predicate NeverReuses<S, O>(spec: Spec<S, O>, s: State<S, O>, run: seq<Step<O>>)
    requires Legal(spec, s, run)
    decreases |run|
  {
    run == [] || (!Reuses(spec, s, run[0]) && NeverReuses(spec, Apply(spec, s, run[0]), run[1..]))
  }

  ghost predicate NeverOverwrites<S, O>(spec: Spec<S, O>, s: State<S, O>, run: seq<Step<O>>)
    requires Legal(spec, s, run)
    decreases |run|
  {
    run == [] || (!Overwrites(spec, s, run[0]) && NeverOverwrites(spec, Apply(spec, s, run[0]), run[1..]))
  }

  // ---- invariant ----

  /** The lock holder is exactly the process inside its critical section. */
  ghost predicate Exclusive<S, O>(s: State<S, O>) {
    forall p | p in s.procs :: s.procs[p].Critical() <==> s.holder == Some(p)
  }

  /** What the copy in memory is, at each control point. */
  ghost predicate Fits<S, O>(spec: Spec<S, O>, disk: Option<S>, x: Proc<S, O>) {
    var base := if x.blind then spec.empty else Held(spec, disk);
    match x.pc
    case Loaded(_) => x.mem == base
    case Mutated(op) => spec.apply(base, op) == Some(x.mem)
    case TempWritten(op) => spec.apply(base, op) == Some(x.mem)
    case _ => disk.None? && spec.keepsMemory ==> x.mem == spec.empty
  }

  /** The update whose rename has run but whose outcome is not reported yet. */
  function Unreported<S, O>(s: State<S, O>): seq<O> {
    if s.holder.Some? && s.holder.value in s.procs && s.procs[s.holder.value].pc.Releasing?
       && s.procs[s.holder.value].pc.ok
    then [s.procs[s.holder.value].pc.op] else []
  }

  ghost predicate Locking<S, O>(s: State<S, O>) {
    Exclusive(s) && (s.holder.Some? ==> s.holder.value in s.procs)
  }

  /** Every rename that ran is acknowledged, orphaned, or about to be reported. */
  ghost predicate Accounted<S, O>(s: State<S, O>) {
    multiset(s.log) == multiset(s.acked) + multiset(s.orphans) + multiset(Unreported(s))
  }

  ghost predicate AllFit<S, O>(spec: Spec<S, O>, s: State<S, O>) {
    forall p | p in s.procs :: Fits(spec, s.disk, s.procs[p])
  }

  lemma LockingStep<S, O>(spec: Spec<S, O>, s: State<S, O>, step: Step<O>)
    requires Locking(s) && Enabled(spec, s, step)
    ensures Locking(Apply(spec, s, step))
  {
  }

  lemma AccountedStep<S, O>(spec: Spec<S, O>, s: State<S, O>, step: Step<O>)
    requires Locking(s) && Accounted(s) && Enabled(spec, s, step)
    ensures Accounted(Apply(spec, s, step))
  {
    if step.Install? || step.Release? || (step.Crash? && s.holder == Some(step.p)) {
      AccountedReport(spec, s, step);
    } else {
      UnreportedKept(spec, s, step);
    }
  }

  lemma UnreportedKept<S, O>(spec: Spec<S, O>, s: State<S, O>, step: Step<O>)
    requires Locking(s) && Enabled(spec, s, step)
    requires !step.Install? && !step.Release? && !(step.Crash? && s.holder == Some(step.p))
    ensures var t := Apply(spec, s, step);
      Unreported(t) == Unreported(s) && t.log == s.log && t.acked == s.acked && t.orphans == s.orphans
  {}

  lemma AccountedReport<S, O>(spec: Spec<S, O>, s: State<S, O>, step: Step<O>)
    requires Locking(s) && Accounted(s) && Enabled(spec, s, step)
    requires step.Install? || step.Release? || (step.Crash? && s.holder == Some(step.p))
    ensures Accounted(Apply(spec, s, step))
  {
    var t := Apply(spec, s, step);
    var pc := s.procs[step.p].pc;
    assert s.holder == Some(step.p);
    if step.Install? {
      assert Unreported(s) == [] && Unreported(t) == [pc.op];
    } else {
      assert Unreported(t) == [];
      assert Unreported(s) == if pc.Releasing? && pc.ok then [pc.op] else [];
    }
  }

  lemma AllFitStep<S, O>(spec: Spec<S, O>, s: State<S, O>, step: Step<O>)
    requires Locking(s) && AllFit(spec, s) && Enabled(spec, s, step) && !Reuses(spec, s, step)
    ensures AllFit(spec, Apply(spec, s, step))
  {
    var t := Apply(spec, s, step);
    forall p | p in t.procs
      ensures Fits(spec, t.disk, t.procs[p])
    {
      if p != step.p {
        assert t.procs[p] == s.procs[p];
        assert step.Install? ==> !s.procs[p].Critical();
      }
    }
  }

  lemma ReplayAppend<S, O>(spec: Spec<S, O>, start: Option<S>, ops: seq<O>, op: O, d: Option<S>)
    requires Replay(spec, start, ops) == Some(d)
    ensures Replay(spec, start, ops + [op])
         == match spec.apply(Held(spec, d), op) case None => None case Some(m) => Some(Some(m))
  {
    assert (ops + [op])[..|ops|] == ops;
  }

  lemma ReplayStep<S, O>(spec: Spec<S, O>, start: Option<S>, s: State<S, O>, step: Step<O>)
    requires AllFit(spec, s) && Replay(spec, start, s.log) == Some(s.disk) && Enabled(spec, s, step)
    ensures var t := Apply(spec, s, step);
      Replay(spec, start, t.log) == Some(t.disk) <==> !Overwrites(spec, s, step)
  {
    if step.Install? {
      var x := s.procs[step.p];
      assert Fits(spec, s.disk, x);
      ReplayAppend(spec, start, s.log, x.pc.op, s.disk);
    }
  }

  lemma {:induction false} LockingRun<S, O>(spec: Spec<S, O>, s: State<S, O>, run: seq<Step<O>>)
    requires Locking(s) && Accounted(s) && Legal(spec, s, run)
    ensures Locking(After(spec, s, run)) && Accounted(After(spec, s, run))
    decreases |run|
  {
    if run != [] {
      LockingStep(spec, s, run[0]);
      AccountedStep(spec, s, run[0]);
      LockingRun(spec, Apply(spec, s, run[0]), run[1..]);
    }
  }

  /** At every point of the run the file is the renamed updates, one at a time. */
  ghost predicate Faithful<S, O>(spec: Spec<S, O>, start: Option<S>, s: State<S, O>, run: seq<Step<O>>)
    requires Legal(spec, s, run)
    decreases |run|
  {
    && Replay(spec, start, s.log) == Some(s.disk)
    && (run == [] || Faithful(spec, start, Apply(spec, s, run[0]), run[1..]))
  }

  lemma {:induction false} ReplayRun<S, O>(spec: Spec<S, O>, start: Option<S>, s: State<S, O>, run: seq<Step<O>>)
    requires Locking(s) && AllFit(spec, s) && Replay(spec, start, s.log) == Some(s.disk)
    requires Legal(spec, s, run) && NeverReuses(spec, s, run)
    ensures Faithful(spec, start, s, run) <==> NeverOverwrites(spec, s, run)
    decreases |run|
  {
    if run != [] {
      LockingStep(spec, s, run[0]);
      AllFitStep(spec, s, run[0]);
      ReplayStep(spec, start, s, run[0]);
      if !Overwrites(spec, s, run[0]) {
        ReplayRun(spec, start, Apply(spec, s, run[0]), run[1..]);
      }
    }
  }

  lemma {:induction false} FaithfulAtEnd<S, O>(spec: Spec<S, O>, start: Option<S>, s: State<S, O>, run: seq<Step<O>>)
    requires Legal(spec, s, run) && Faithful(spec, start, s, run)
    ensures var t := After(spec, s, run); Replay(spec, start, t.log) == Some(t.disk)
    decreases |run|
  {
    if run != [] { FaithfulAtEnd(spec, start, Apply(spec, s, run[0]), run[1..]); }
  }

  lemma {:induction false} NobodyBlind<S, O>(spec: Spec<S, O>, s: State<S, O>, run: seq<Step<O>>)
    requires !spec.failsOpen && Legal(spec, s, run) && forall p | p in s.procs :: !s.procs[p].blind
    ensures NeverOverwrites(spec, s, run)
    decreases |run|
  {
    if run != [] { NobodyBlind(spec, Apply(spec, s, run[0]), run[1..]); }
  }

  /** At most one process is between taking and releasing the lock. */
  lemma MutualExclusion<S, O>(spec: Spec<S, O>, start: Option<S>, run: seq<Step<O>>, p: nat, q: nat)
    requires Legal(spec, Init(start), run)
    requires var s := After(spec, Init(start), run);
      p in s.procs && q in s.procs && s.procs[p].Critical() && s.procs[q].Critical()
    ensures p == q
  {
    LockingRun(spec, Init(start), run);
  }

  /** Every acknowledged update has been renamed into place exactly as often as
      it was acknowledged, and the only other renames are one not reported yet
      and those of processes that died before they could report. */
  lemma AcknowledgedIsCommitted<S, O>(spec: Spec<S, O>, start: Option<S>, run: seq<Step<O>>)
    requires Legal(spec, Init(start), run)
    ensures var s := After(spec, Init(start), run);
      multiset(s.log) == multiset(s.acked) + multiset(s.orphans) + multiset(Unreported(s))
  {
    LockingRun(spec, Init(start), run);
  }

  /** No update is lost or invented, as long as a failed read makes the update fail:
      in every state of every run, the file is the updates whose rename ran, one at a
      time in lock order. A reader that takes no lock can therefore only see such a
      file. */
  lemma NoLostUpdates<S, O>(spec: Spec<S, O>, start: Option<S>, run: seq<Step<O>>)
    requires !spec.failsOpen && Legal(spec, Init(start), run) && NeverReuses(spec, Init(start), run)
    ensures var s := After(spec, Init(start), run); Replay(spec, start, s.log) == Some(s.disk)
  {
    NobodyBlind(spec, Init(start), run);
    ReplayRun(spec, start, Init(start), run);
    FaithfulAtEnd(spec, start, Init(start), run);
  }

  /** Where a failed read does not stop the update, exactly the runs in which no
      update made blindly is renamed over a file on which it would have had another
      result keep the file faithful throughout. */
  lemma FaithfulIffNoOverwrite<S, O>(spec: Spec<S, O>, start: Option<S>, run: seq<Step<O>>)
    requires Legal(spec, Init(start), run) && NeverReuses(spec, Init(start), run)
    ensures Faithful(spec, start, Init(start), run) <==> NeverOverwrites(spec, Init(start), run)
  {
    ReplayRun(spec, start, Init(start), run);
  }

  // ---- a handle reused after its first save failed ----

  lemma {:induction false} Extend<S, O>(spec: Spec<S, O>, s: State<S, O>, run: seq<Step<O>>, step: Step<O>)
    requires Legal(spec, s, run) && Enabled(spec, After(spec, s, run), step)
    ensures Legal(spec, s, run + [step])
    ensures After(spec, s, run + [step]) == Apply(spec, After(spec, s, run), step)
    decreases |run|
  {
    if run == [] {
      assert run + [step] == [step] && [step][1..] == [];
    } else {
      Extend(spec, Apply(spec, s, run[0]), run[1..], step);
      assert (run + [step])[1..] == run[1..] + [step];
    }
  }

  /** Adds to a run one update by an idle process that fails to save it. */
  lemma UpdateFails<S, O>(spec: Spec<S, O>, s: State<S, O>, run: seq<Step<O>>, p: nat, op: O) returns (run': seq<Step<O>>)
    requires Legal(spec, s, run)
    requires var t := After(spec, s, run);
      && p in t.procs && t.procs[p].pc.Idle? && t.holder.None?
      && t.disk.None? && spec.keepsMemory && spec.apply(t.procs[p].mem, op).Some?
    ensures Legal(spec, s, run')
    ensures var t, u := After(spec, s, run), After(spec, s, run');
      u == Set(t, p, Proc(spec.apply(t.procs[p].mem, op).value, false, Idle))
  {
    run' := run;
    Extend(spec, s, run', Begin(p, op));        run' := run' + [Begin(p, op)];
    Extend(spec, s, run', Acquire(p));          run' := run' + [Acquire(p)];
    Extend(spec, s, run', Reload(p));           run' := run' + [Reload(p)];
    Extend(spec, s, run', Mutate(p));           run' := run' + [Mutate(p)];
    Extend(spec, s, run', SaveFails(p, false)); run' := run' + [SaveFails(p, false)];
    Extend(spec, s, run', Release(p));          run' := run' + [Release(p)];
  }

  /** Adds to a run one update by an idle process that is saved. */
  lemma UpdateSaves<S, O>(spec: Spec<S, O>, s: State<S, O>, run: seq<Step<O>>, p: nat, op: O) returns (run': seq<Step<O>>)
    requires Legal(spec, s, run)
    requires var t := After(spec, s, run);
      && p in t.procs && t.procs[p].pc.Idle? && t.holder.None?
      && t.disk.None? && spec.keepsMemory && spec.apply(t.procs[p].mem, op).Some?
    ensures Legal(spec, s, run')
    ensures var t, u := After(spec, s, run), After(spec, s, run');
      u.disk == spec.apply(t.procs[p].mem, op) && u.log == t.log + [op]
  {
    run' := run;
    Extend(spec, s, run', Begin(p, op)); run' := run' + [Begin(p, op)];
    Extend(spec, s, run', Acquire(p));   run' := run' + [Acquire(p)];
    Extend(spec, s, run', Reload(p));    run' := run' + [Reload(p)];
    Extend(spec, s, run', Mutate(p));    run' := run' + [Mutate(p)];
    Extend(spec, s, run', WriteTemp(p)); run' := run' + [WriteTemp(p)];
    Extend(spec, s, run', Install(p));    run' := run' + [Install(p)];
  }

  lemma ReplayOne<S, O>(spec: Spec<S, O>, start: Option<S>, op: O)
    ensures Replay(spec, start, [op])
         == match spec.apply(Held(spec, start), op) case None => None case Some(m) => Some(Some(m))
  {
    assert Replay(spec, start, []) == Some(start);
    ReplayAppend(spec, start, [], op, start);
    assert [] + [op] == [op];
  }

  /** Without that discipline: a handle whose first save failed, while there is no
      file yet, still holds that update, and the next update it saves writes both,
      though the log holds only the second. */
  lemma ReuseWritesBoth<S, O>(spec: Spec<S, O>, first: O, second: O) returns (run: seq<Step<O>>)
    requires spec.keepsMemory && spec.apply(spec.empty, first).Some?
    requires spec.apply(spec.apply(spec.empty, first).value, second).Some?
    ensures Legal(spec, Init<S, O>(None), run)
    ensures var s := After(spec, Init<S, O>(None), run);
      s.log == [second] && s.disk == spec.apply(spec.apply(spec.empty, first).value, second)
  {
    var s := Init<S, O>(None);
    Extend(spec, s, [], Open(0));
    run := [] + [Open(0)];
    run := UpdateFails(spec, s, run, 0, first);
    run := UpdateSaves(spec, s, run, 0, second);
  }

  /** One update of a process that cannot read the file, to a handle that goes on
      regardless: the file is then that update and nothing else. */
  lemma BlindUpdate<S, O>(spec: Spec<S, O>, was: S, op: O) returns (run: seq<Step<O>>)
    requires spec.failsOpen && spec.apply(spec.empty, op).Some?
    ensures Legal(spec, Init<S, O>(Some(was)), run) && NeverReuses(spec, Init<S, O>(Some(was)), run)
    ensures var s := After(spec, Init<S, O>(Some(was)), run);
      s.log == s.acked == [op] && s.disk == spec.apply(spec.empty, op)
  {
    var s := Init<S, O>(Some(was));
    run := [];
    Extend(spec, s, run, Open(0));        run := run + [Open(0)];
    Extend(spec, s, run, Begin(0, op));   run := run + [Begin(0, op)];
    Extend(spec, s, run, Acquire(0));     run := run + [Acquire(0)];
    Extend(spec, s, run, ReloadFails(0)); run := run + [ReloadFails(0)];
    Extend(spec, s, run, Mutate(0));      run := run + [Mutate(0)];
    Extend(spec, s, run, WriteTemp(0));   run := run + [WriteTemp(0)];
    Extend(spec, s, run, Install(0));     run := run + [Install(0)];
    Extend(spec, s, run, Release(0));     run := run + [Release(0)];
    NoReuse(spec, s, run);
  }

  lemma {:induction false} NoReuse<S, O>(spec: Spec<S, O>, s: State<S, O>, run: seq<Step<O>>)
    requires Legal(spec, s, run) && forall step | step in run :: !step.SaveFails?
    ensures NeverReuses(spec, s, run)
    decreases |run|
  {
    if run != [] {
      assert run[0] in run;
      NoReuse(spec, Apply(spec, s, run[0]), run[1..]);
    }
  }
}
