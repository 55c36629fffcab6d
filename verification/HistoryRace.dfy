/** The history file shared by processes that append to it and trim it without any
    lock: when an entry gets lost. */
module HistoryRace {
  import opened History

  /** Where a process is in recording one entry. It opens the file, writes the entry
      at the end of what it has opened, reads the file to trim it, and may then
      replace it. A file that has been replaced is still open to those who opened it
      before, but nobody else will see it again. */
  datatype Pc =
    | Opened(file: nat)                     // which file, counting replacements
    | Written
    | HasRead(seen: seq<nat>, count: nat)   // the file, and how many entries there were

  /** Entries are numbered in the order in which they were written; `file` lists those
      in the present file, the `current`-th of its name. */
  datatype State = State(all: seq<string>, file: seq<nat>, current: nat, procs: map<nat, Pc>)

  datatype Step =
    | Open(p: nat)
    | Write(p: nat, entry: string)
    | Read(p: nat)
    | Replace(p: nat, cap: int)
    | Leave(p: nat)                         // within the cap, or failed, or crashed

  function Init(): State {
    State([], [], 0, map[])
  }

  predicate Enabled(s: State, step: Step) {
    if step.Open? then step.p !in s.procs
    else step.p in s.procs && Ready(s.all, s.procs[step.p], step)
  }

  predicate Ready(all: seq<string>, pc: Pc, step: Step) {
    match step
    case Write(_, _) => pc.Opened?
    case Read(_) => pc.Written?
    case Replace(_, cap) => pc.HasRead? && Size(Texts(all, pc.seen)) > cap
    case _ => true
  }

  function Texts(all: seq<string>, file: seq<nat>): seq<string> {
    seq(|file|, i requires 0 <= i < |file| => if file[i] < |all| then all[file[i]] else "")
  }

  function Last(file: seq<nat>, n: nat): seq<nat> {
    if n <= |file| then file[|file| - n..] else file
  }

  function To(s: State, p: nat, pc: Pc): State {
    s.(procs := s.procs[p := pc])
  }

  function Apply(s: State, step: Step): State
    requires Enabled(s, step)
  {
    match step
    case Open(p) => To(s, p, Opened(s.current))
    case Write(p, entry) =>
      var visible := s.procs[p].file == s.current;
      To(s, p, Written).(all := s.all + [entry], file := if visible then s.file + [|s.all|] else s.file)
    case Read(p) => To(s, p, HasRead(s.file, |s.all|))
    case Replace(p, cap) =>
      var seen := s.procs[p].seen;
      s.(file := Last(seen, |Tail(Texts(s.all, seen), cap)|), current := s.current + 1, procs := s.procs - {p})
    case Leave(p) => s.(procs := s.procs - {p})
  }

  predicate Legal(s: State, run: seq<Step>)
    decreases |run|
  {
    run == [] || (Enabled(s, run[0]) && Legal(Apply(s, run[0]), run[1..]))
  }

  function After(s: State, run: seq<Step>): State
    requires Legal(s, run)
    decreases |run|
  {
    if run == [] then s else After(Apply(s, run[0]), run[1..])
  }

  /** `file` holds the last of the first `n` entries, in order, and one at least. */
  predicate Newest(file: seq<nat>, n: nat) {
    && |file| <= n && (n > 0 ==> file != [])
    && forall i | 0 <= i < |file| :: file[i] == n - |file| + i
  }

  predicate UpToDate(s: State) {
    Newest(s.file, |s.all|)
  }

  ghost predicate Snapshots(s: State) {
    && (forall p | p in s.procs && !s.procs[p].Opened? :: s.all != [])
    && (forall p | p in s.procs && s.procs[p].HasRead? ::
          0 < s.procs[p].count <= |s.all| && Newest(s.procs[p].seen, s.procs[p].count))
  }

  // ---- the two ways to lose an entry ----

  /** The file is replaced from a copy made before some other write. */
  predicate Stale(s: State, step: Step) {
    step.Replace? && step.p in s.procs && s.procs[step.p].HasRead? && s.procs[step.p].count < |s.all|
  }

  /** An entry is written to a file that has been replaced since it was opened. */
  predicate Astray(s: State, step: Step) {
    step.Write? && step.p in s.procs && s.procs[step.p].Opened? && s.procs[step.p].file != s.current
  }

  predicate Loses(s: State, step: Step) {
    Stale(s, step) || Astray(s, step)
  }

  lemma ReplaceStep(s: State, step: Step)
    requires Snapshots(s) && Enabled(s, step) && step.Replace?
    ensures var t := Apply(s, step); Newest(t.file, s.procs[step.p].count) && t.all == s.all
  {
    TrimIsLongest(Texts(s.all, s.procs[step.p].seen), step.cap);
  }

  lemma NewestOnlyOnce(file: seq<nat>, n: nat, m: nat)
    requires 0 < m && Newest(file, n)
    ensures Newest(file, m) <==> n == m
  {
    if n > 0 { assert file[|file| - 1] == n - 1; }
  }

  lemma UpToDateIff(s: State, step: Step)
    requires Snapshots(s) && UpToDate(s) && Enabled(s, step)
    ensures UpToDate(Apply(s, step)) <==> !Loses(s, step)
    ensures !Loses(s, step) ==> Snapshots(Apply(s, step))
  {
    if step.Replace? {
      ReplaceStep(s, step);
      NewestOnlyOnce(Apply(s, step).file, s.procs[step.p].count, |s.all|);
    } else if step.Write? {
      NewestOnlyOnce(s.file, |s.all|, |s.all| + 1);
    }
  }

  ghost predicate AlwaysUpToDate(s: State, run: seq<Step>)
    requires Legal(s, run)
    decreases |run|
  {
    UpToDate(s) && (run == [] || AlwaysUpToDate(Apply(s, run[0]), run[1..]))
  }

  predicate NeverLoses(s: State, run: seq<Step>)
    requires Legal(s, run)
    decreases |run|
  {
    run == [] || (!Loses(s, run[0]) && NeverLoses(Apply(s, run[0]), run[1..]))
  }

  lemma {:induction false} UpToDateRun(s: State, run: seq<Step>)
    requires Snapshots(s) && UpToDate(s) && Legal(s, run)
    ensures AlwaysUpToDate(s, run) <==> NeverLoses(s, run)
    decreases |run|
  {
    if run != [] {
      UpToDateIff(s, run[0]);
      if !Loses(s, run[0]) {
        UpToDateRun(Apply(s, run[0]), run[1..]);
      }
    }
  }

  /** The file holds the newest entries throughout a run exactly when no process
      replaces it after another has written since it read it, and none writes to a
      file that has been replaced since it opened it. */
  lemma KeepsNewestIff(run: seq<Step>)
    requires Legal(Init(), run)
    ensures AlwaysUpToDate(Init(), run) <==> NeverLoses(Init(), run)
  {
    UpToDateRun(Init(), run);
  }

  /** A stale replacement drops every entry that was written after the read; an entry
      that goes astray is not in the file. */
  lemma WhatIsLost(s: State, step: Step)
    requires Snapshots(s) && UpToDate(s) && Enabled(s, step)
    ensures Stale(s, step) ==> forall i: nat | s.procs[step.p].count <= i < |s.all| :: i !in Apply(s, step).file
    ensures Astray(s, step) ==> |Apply(s, step).all| == |s.all| + 1 && |s.all| !in Apply(s, step).file
  {
    if step.Replace? { ReplaceStep(s, step); }
  }

  // ---- each of them alone ----

  lemma {:induction false} Extend(s: State, run: seq<Step>, step: Step)
    requires Legal(s, run) && Enabled(After(s, run), step)
    ensures Legal(s, run + [step])
    ensures After(s, run + [step]) == Apply(After(s, run), step)
    ensures Never(s, run + [step], false) <==> Never(s, run, false) && !Stale(After(s, run), step)
    ensures Never(s, run + [step], true) <==> Never(s, run, true) && !Astray(After(s, run), step)
    decreases |run|
  {
    if run == [] {
      assert run + [step] == [step] && [step][1..] == [];
    } else {
      Extend(Apply(s, run[0]), run[1..], step);
      assert (run + [step])[1..] == run[1..] + [step];
    }
  }

  /** No step of one of the two kinds. */
  predicate Never(s: State, run: seq<Step>, astray: bool)
    requires Legal(s, run)
    decreases |run|
  {
    run == []
    || (!(if astray then Astray(s, run[0]) else Stale(s, run[0])) && Never(Apply(s, run[0]), run[1..], astray))
  }

  /** One process records an entry and has read the file back. */
  lemma Recorded() returns (run: seq<Step>)
    ensures Legal(Init(), run) && Never(Init(), run, false) && Never(Init(), run, true)
    ensures After(Init(), run) == State(["a"], [0], 0, map[0 := HasRead([0], 1)])
  {
    var s := Init();
    run := [];
    Extend(s, run, Open(0));       run := run + [Open(0)];
    Extend(s, run, Write(0, "a")); run := run + [Write(0, "a")];
    assert After(s, run).all == ["a"] && After(s, run).file == [0];
    assert After(s, run).current == 0 && After(s, run).procs == map[0 := Written];
    Extend(s, run, Read(0));       run := run + [Read(0)];
  }

  /** Another one writes before the first replaces the file: its entry is gone. */
  lemma LostToStale() returns (run: seq<Step>)
    ensures Legal(Init(), run) && Never(Init(), run, true)
    ensures var s := After(Init(), run); s.all == ["a", "b"] && s.file == [0]
  {
    var s := Init();
    run := Recorded();
    Extend(s, run, Open(1));       run := run + [Open(1)];
    Extend(s, run, Write(1, "b")); run := run + [Write(1, "b")];
    OneLeft("a", ["a", "b"]);
    Extend(s, run, Replace(0, 0)); run := run + [Replace(0, 0)];
  }

  /** Another one has the file open when the first replaces it, and writes then: the
      replacement was made from an up-to-date copy, yet the entry is gone. */
  lemma LostAstray() returns (run: seq<Step>)
    ensures Legal(Init(), run) && Never(Init(), run, false)
    ensures var s := After(Init(), run); s.all == ["a", "b"] && s.file == [0]
  {
    var s := Init();
    run := Recorded();
    Extend(s, run, Open(1));       run := run + [Open(1)];
    OneLeft("a", ["a"]);
    Extend(s, run, Replace(0, 0)); run := run + [Replace(0, 0)];
    Extend(s, run, Write(1, "b")); run := run + [Write(1, "b")];
  }

  lemma OneLeft(entry: string, all: seq<string>)
    requires all != [] && all[0] == entry
    ensures Texts(all, [0]) == [entry] && Size([entry]) > 0 && |Tail([entry], 0)| == 1
  {}
}
