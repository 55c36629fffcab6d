/**
 Trust on first use: any number of connecting processes check and extend one
 known_hosts file under its lock. Lines are appended in place, without a look at
 how the file ends. So a write that stops in the middle leaves a torn last line,
 which makes the file unreadable; and one that loses only the newline leaves a good
 last line to which the next append is glued.
 */
module HostKeys {
  import opened Optional

  datatype HostKey = HostKey(kind: string, blob: string)

  /** A line binds a port-scoped address to a key. */
  datatype Line = Line(addr: string, key: HostKey)

  datatype Verdict = Known | Mismatch | Unknown

  /** The check of the known_hosts library: for a listed address only the first
      line of the offered key's kind can match. */
  function Check(lines: seq<Line>, addr: string, key: HostKey): Verdict {
    if lines == [] then Unknown
    else if lines[0].addr != addr then Check(lines[1..], addr, key)
    else if lines[0].key.kind != key.kind then
      (if Check(lines[1..], addr, key).Known? then Known else Mismatch)
    else if lines[0].key == key then Known else Mismatch
  }

  lemma {:induction false} CheckMeaning(lines: seq<Line>, addr: string, key: HostKey)
    ensures Check(lines, addr, key).Unknown? <==> forall l | l in lines :: l.addr != addr
    ensures Check(lines, addr, key).Known? ==> Line(addr, key) in lines
  {
    if lines != [] {
      CheckMeaning(lines[1..], addr, key);
      assert forall l | l in lines :: l == lines[0] || l in lines[1..];
    }
  }

  /** The first line of that address with that kind of key has the offered key. */
  ghost predicate FirstOfKind(lines: seq<Line>, l: Line) {
    exists i | 0 <= i < |lines| :: lines[i] == l && NoneOfKind(lines[..i], l)
  }

  predicate NoneOfKind(lines: seq<Line>, l: Line) {
    forall x | x in lines :: x.addr == l.addr ==> x.key.kind != l.key.kind
  }

  /** The check over the lines themselves: known exactly when the first line of the
      address with the offered kind has the key, unknown exactly when the address is
      on no line, a mismatch in every other case. */
  lemma {:induction false} CheckIff(lines: seq<Line>, l: Line)
    ensures Check(lines, l.addr, l.key).Known? <==> FirstOfKind(lines, l)
    ensures Check(lines, l.addr, l.key).Mismatch? <==>
      (exists x :: x in lines && x.addr == l.addr) && !FirstOfKind(lines, l)
  {
    CheckMeaning(lines, l.addr, l.key);
    FirstOfKindListed(lines, l);
    if lines != [] {
      CheckIff(lines[1..], l);
      FirstOfKindCons(lines, l);
      CheckMeaning(lines[1..], l.addr, l.key);
      if lines[0].addr == l.addr { assert lines[0] in lines; }
    }
  }

  lemma FirstOfKindListed(lines: seq<Line>, l: Line)
    ensures FirstOfKind(lines, l) ==> l in lines
  {}

  lemma FirstOfKindCons(lines: seq<Line>, l: Line)
    requires lines != []
    ensures FirstOfKind(lines, l) <==>
      lines[0] == l
      || (!(lines[0].addr == l.addr && lines[0].key.kind == l.key.kind) && FirstOfKind(lines[1..], l))
  {
    if lines[0] == l {
      assert lines[..0] == [];
    } else if FirstOfKind(lines, l) {
      var i :| 0 <= i < |lines| && lines[i] == l && NoneOfKind(lines[..i], l);
      assert lines[0] in lines[..i] && lines[1..][i - 1] == l;
      assert lines[1..][..i - 1] == lines[..i][1..];
    } else if FirstOfKind(lines[1..], l) {
      var i :| 0 <= i < |lines[1..]| && lines[1..][i] == l && NoneOfKind(lines[1..][..i], l);
      assert lines[..i + 1] == [lines[0]] + lines[1..][..i] && lines[i + 1] == l;
    }
  }

  /** With one key per address, that is any line with the offered key. */
  lemma {:induction false} KnownIffListed(lines: seq<Line>, l: Line)
    requires OneKeyPerAddress(lines)
    ensures Check(lines, l.addr, l.key).Known? <==> l in lines
    ensures Check(lines, l.addr, l.key).Mismatch? <==> !Unlisted(lines, l.addr) && l !in lines
  {
    CheckIff(lines, l);
    FirstOfKindListed(lines, l);
    if l in lines {
      OnlyKey(lines, l);
    }
  }

  lemma {:induction false} OnlyKey(lines: seq<Line>, l: Line)
    requires OneKeyPerAddress(lines) && l in lines
    ensures FirstOfKind(lines, l)
    decreases |lines|
  {
    FirstOfKindCons(lines, l);
    if lines[0] != l {
      HeadKey(lines, l);
      TailKeys(lines);
      OnlyKey(lines[1..], l);
    }
  }

  lemma HeadKey(lines: seq<Line>, l: Line)
    requires OneKeyPerAddress(lines) && l in lines && lines[0] != l
    ensures lines[0].addr != l.addr && l in lines[1..]
  {
    var j :| 0 <= j < |lines| && lines[j] == l;
    assert lines[1..][j - 1] == l;
  }

  lemma TailKeys(lines: seq<Line>)
    requires OneKeyPerAddress(lines) && lines != []
    ensures OneKeyPerAddress(lines[1..])
  {
    forall i, j | 0 <= i < |lines[1..]| && 0 <= j < |lines[1..]| && lines[1..][i].addr == lines[1..][j].addr
      ensures lines[1..][i].key == lines[1..][j].key
    {
      assert lines[i + 1].addr == lines[j + 1].addr;
    }
  }

  /** How the file ends. Text glued to a last line that ends with its key spoils it.
      Where the key is already past, be it by a blank or a comment, or where the line
      is all comment, glued text is ignored; an editor may have left such an end. */
  datatype End = Newline | NoNewline | NoNewlinePastKey | Torn

  /** What of a line a failing write has left in the file. */
  datatype Written = Nothing | Part | AllButNewline

  datatype Pc =
    | Outside
    | Checking               // lock held
    | Appending              // unknown host, first use allowed, line not written yet
    | Syncing(glued: bool)   // written, not yet synced and closed; to the end of another line?
    | Done(accepted: bool)

  /** One run of the callback by one process. */
  datatype Proc = Proc(addr: string, key: HostKey, strict: bool, pc: Pc)
  {
    function Offer(): Line { Line(addr, key) }

    predicate Inside() { pc.Checking? || pc.Appending? || pc.Syncing? }
  }

  /** `lines` are the readable lines, last one included when only its newline is
      missing; when the end is torn the library reads none of them. */
  datatype State = State(
    lines: seq<Line>, end: End, holder: Option<nat>, procs: map<nat, Proc>,
    accepted: set<Line>)

  datatype Step =
    | Connect(p: nat, addr: string, key: HostKey, strict: bool)
    | Lock(p: nat)
    | LockFails(p: nat)
    | Decide(p: nat)
    | ReadFails(p: nat)
    | Append(p: nat)
    | AppendFails(p: nat, left: Written)
    | Accept(p: nat)
    | SyncFails(p: nat)
    | Crash(p: nat, left: Written)

  function Init(lines: seq<Line>, end: End): State {
    State(lines, end, None, map[], {})
  }

  predicate Enabled(s: State, step: Step) {
    if step.Connect? then step.p !in s.procs
    else step.p in s.procs && Ready(s, s.procs[step.p].pc, step)
  }

  predicate Ready(s: State, pc: Pc, step: Step) {
    match step
    case Lock(_) => pc.Outside? && s.holder.None?
    case LockFails(_) => pc.Outside?
    case Decide(_) => pc.Checking? && !s.end.Torn?
    case ReadFails(_) => pc.Checking?
    case Append(_) => pc.Appending?
    case AppendFails(_, _) => pc.Appending?
    case Accept(_) => pc.Syncing?
    case SyncFails(_) => pc.Syncing?
    case Crash(_, left) => !pc.Appending? ==> left.Nothing?
    case _ => true
  }

  function To(s: State, p: nat, pc: Pc): State
    requires p in s.procs
  {
    s.(procs := s.procs[p := s.procs[p].(pc := pc)], holder := if pc.Done? then None else s.holder)
  }

  /** The whole line goes in. */
  function Extended(s: State, l: Line): State {
    match s.end
    case Newline => s.(lines := s.lines + [l])
    case NoNewlinePastKey => s.(end := Newline)
    case _ => s.(end := Torn)
  }

  function Interrupted(s: State, l: Line, left: Written): State {
    if left.Nothing? || s.end.NoNewlinePastKey? then s
    else if s.end.Newline? && left.AllButNewline? then s.(lines := s.lines + [l], end := NoNewline)
    else s.(end := Torn)
  }

  function Apply(s: State, step: Step): State
    requires Enabled(s, step)
  {
    match step
    case Connect(p, addr, key, strict) => s.(procs := s.procs[p := Proc(addr, key, strict, Outside)])
    case Lock(p) => To(s, p, Checking).(holder := Some(p))
    case LockFails(p) => s.(procs := s.procs[p := s.procs[p].(pc := Done(false))])
    case Decide(p) =>
      var x := s.procs[p];
      (match Check(s.lines, x.addr, x.key)
       case Known => To(s, p, Done(true)).(accepted := s.accepted + {x.Offer()})
       case Mismatch => To(s, p, Done(false))
       case Unknown => if x.strict then To(s, p, Done(false)) else To(s, p, Appending))
    case ReadFails(p) => To(s, p, Done(false))
    case Append(p) => To(Extended(s, s.procs[p].Offer()), p, Syncing(!s.end.Newline?))
    case AppendFails(p, left) => To(Interrupted(s, s.procs[p].Offer(), left), p, Done(false))
    case Accept(p) => To(s, p, Done(true)).(accepted := s.accepted + {s.procs[p].Offer()})
    case SyncFails(p) => To(s, p, Done(false))
    case Crash(p, left) =>
      Interrupted(s, s.procs[p].Offer(), left)
        .(procs := s.procs - {p}, holder := if s.holder == Some(p) then None else s.holder)
  }

  predicate Legal(s: State, run: seq<Step>)
    decreases |run|
  {
    run == [] || (Enabled(s, run[0]) && Legal(Apply(s, run[0]), run[1..]))
  }

  function After(s: State, run: seq<Step>): State
    requires Legal(s, run)
    decreases |run|
  {
    if run == [] then s else After(Apply(s, run[0]), run[1..])
  }

  // ---- invariants ----

  ghost predicate OneKeyPerAddress(lines: seq<Line>) {
    forall i, j | 0 <= i < |lines| && 0 <= j < |lines| && lines[i].addr == lines[j].addr ::
      lines[i].key == lines[j].key
  }

  predicate Unlisted(lines: seq<Line>, addr: string) {
    forall l | l in lines :: l.addr != addr
  }

  /** The lock holder is the process inside. */
  ghost predicate Locking(s: State) {
    && (forall p | p in s.procs :: s.procs[p].Inside() <==> s.holder == Some(p))
    && (s.holder.Some? ==> s.holder.value in s.procs)
    && (forall p | p in s.procs && s.procs[p].pc.Appending? ::
          !s.procs[p].strict && !s.end.Torn? && Unlisted(s.lines, s.procs[p].addr))
  }

  /** Every accepted line is readable; but one that was glued to another has spoilt
      the file, its address is on no readable line, and nothing else is lost. */
  ghost predicate Kept(s: State) {
    && OneKeyPerAddress(s.lines) && !s.end.NoNewlinePastKey?
    && (forall l | l in s.accepted && l !in s.lines ::
          && s.end.Torn? && Unlisted(s.lines, l.addr)
          && forall k | k in s.accepted && k !in s.lines :: k == l)
    && (forall p | p in s.procs && s.procs[p].pc.Syncing? ::
          if s.procs[p].pc.glued
          then s.end.Torn? && Unlisted(s.lines, s.procs[p].addr) && forall l | l in s.accepted :: l in s.lines
          else s.procs[p].Offer() in s.lines)
  }

  lemma AppendKeepsOne(lines: seq<Line>, l: Line)
    requires OneKeyPerAddress(lines) && Unlisted(lines, l.addr)
    ensures OneKeyPerAddress(lines + [l])
  {}

  lemma LockingStep(s: State, step: Step)
    requires Locking(s) && Enabled(s, step)
    ensures Locking(Apply(s, step)) && s.lines <= Apply(s, step).lines && s.accepted <= Apply(s, step).accepted
    ensures s.end.Torn? ==> Apply(s, step).end.Torn?
  {
    if step.Decide? {
      CheckMeaning(s.lines, s.procs[step.p].addr, s.procs[step.p].key);
    }
  }

  lemma KeptStep(s: State, step: Step)
    requires Locking(s) && Kept(s) && Enabled(s, step)
    ensures Kept(Apply(s, step))
  {
    if step.Decide? {
      CheckMeaning(s.lines, s.procs[step.p].addr, s.procs[step.p].key);
    } else if step.Append? || step.AppendFails? || step.Crash? {
      if Unlisted(s.lines, s.procs[step.p].addr) {
        AppendKeepsOne(s.lines, s.procs[step.p].Offer());
      }
    }
  }

  lemma {:induction false} KeptRun(s: State, run: seq<Step>)
    requires Locking(s) && Kept(s) && Legal(s, run)
    ensures Locking(After(s, run)) && Kept(After(s, run)) && s.lines <= After(s, run).lines
    decreases |run|
  {
    if run != [] {
      LockingStep(s, run[0]);
      KeptStep(s, run[0]);
      KeptRun(Apply(s, run[0]), run[1..]);
    }
  }

  // ---- first use ----

  ghost predicate Agreed(s: State) {
    forall a, b | a in s.accepted && b in s.accepted && a.addr == b.addr :: a.key == b.key
  }

  /** From a file with one key per address, no interleaving of any number of
      processes ever accepts two keys for one address. The file only grows, and an
      accepted key is in it, unless it was glued to a line without newline; then the
      file cannot be read any more. */
  lemma FirstUseAgreement(lines: seq<Line>, end: End, run: seq<Step>)
    requires OneKeyPerAddress(lines) && !end.NoNewlinePastKey? && Legal(Init(lines, end), run)
    ensures var s := After(Init(lines, end), run);
      && lines <= s.lines && Agreed(s)
      && forall l | l in s.accepted :: l in s.lines || s.end.Torn?
  {
    KeptRun(Init(lines, end), run);
    KeptAgrees(After(Init(lines, end), run));
  }

  lemma KeptAgrees(s: State)
    requires Kept(s)
    ensures Agreed(s)
  {
    forall a, b | a in s.accepted && b in s.accepted && a.addr == b.addr
      ensures a.key == b.key
    {
      if a in s.lines && b in s.lines {
        var i, j :| 0 <= i < |s.lines| && 0 <= j < |s.lines| && s.lines[i] == a && s.lines[j] == b;
      }
    }
  }

  lemma {:induction false} Extend(s: State, run: seq<Step>, step: Step)
    requires Legal(s, run) && Enabled(After(s, run), step)
    ensures Legal(s, run + [step])
    ensures After(s, run + [step]) == Apply(After(s, run), step)
    decreases |run|
  {
    if run == [] {
      assert run + [step] == [step] && [step][1..] == [];
    } else {
      Extend(Apply(s, run[0]), run[1..], step);
      assert (run + [step])[1..] == run[1..] + [step];
    }
  }

  /** One process connects to an unlisted address and gets as far as the append. */
  lemma Reaches(s: State, run: seq<Step>, p: nat, l: Line) returns (run': seq<Step>)
    requires Legal(s, run)
    requires var t := After(s, run);
      p !in t.procs && t.holder.None? && !t.end.Torn? && Unlisted(t.lines, l.addr)
    ensures Legal(s, run')
    ensures var t, u := After(s, run), After(s, run');
      u == t.(procs := t.procs[p := Proc(l.addr, l.key, false, Appending)], holder := Some(p))
  {
    var t := After(s, run);
    CheckMeaning(t.lines, l.addr, l.key);
    run' := run;
    Extend(s, run', Connect(p, l.addr, l.key, false)); run' := run' + [Connect(p, l.addr, l.key, false)];
    Extend(s, run', Lock(p));                          run' := run' + [Lock(p)];
    Extend(s, run', Decide(p));                        run' := run' + [Decide(p)];
  }

  /** It then accepts the key on first use. */
  lemma FirstUse(s: State, run: seq<Step>, p: nat, l: Line) returns (run': seq<Step>)
    requires Legal(s, run)
    requires var t := After(s, run);
      p !in t.procs && t.holder.None? && !t.end.Torn? && Unlisted(t.lines, l.addr)
    ensures Legal(s, run')
    ensures var t, u := After(s, run), After(s, run');
      && u.accepted == t.accepted + {l} && u.holder.None? && u.procs.Keys == t.procs.Keys + {p}
      && u.lines == Extended(t, l).lines && u.end == Extended(t, l).end
      && u.procs == t.procs[p := Proc(l.addr, l.key, false, Done(true))]
  {
    run' := Reaches(s, run, p, l);
    Extend(s, run', Append(p)); run' := run' + [Append(p)];
    Extend(s, run', Accept(p)); run' := run' + [Accept(p)];
  }

  /** A process connects and has its answer at once: on no lock, no torn file and
      either a listed address or strict mode. */
  lemma Answered(s: State, run: seq<Step>, p: nat, l: Line, strict: bool) returns (run': seq<Step>)
    requires Legal(s, run)
    requires var t := After(s, run);
      && p !in t.procs && t.holder.None? && !t.end.Torn? && (strict || !Unlisted(t.lines, l.addr))
    ensures Legal(s, run')
    ensures var t, u := After(s, run), After(s, run'); var yes := FirstOfKind(t.lines, l);
      && u.procs == t.procs[p := Proc(l.addr, l.key, strict, Done(yes))] && u.holder.None?
      && u.lines == t.lines && u.end == t.end
      && u.accepted == t.accepted + (if yes then {l} else {})
  {
    var t := After(s, run);
    CheckIff(t.lines, l);
    CheckMeaning(t.lines, l.addr, l.key);
    run' := run;
    Extend(s, run', Connect(p, l.addr, l.key, strict)); run' := run' + [Connect(p, l.addr, l.key, strict)];
    Extend(s, run', Lock(p));                           run' := run' + [Lock(p)];
    Extend(s, run', Decide(p));                         run' := run' + [Decide(p)];
  }

  /** What was accepted on first use is accepted again, by anybody and in either mode,
      and another key for that address is refused; neither changes the file. */
  lemma FirstUseThenAgain(s: State, run: seq<Step>, p: nat, q: nat, r: nat, l: Line, other: HostKey, strict: bool)
    returns (run': seq<Step>)
    requires Legal(s, run) && p != q && q != r && r != p && other != l.key
    requires var t := After(s, run);
      && p !in t.procs && q !in t.procs && r !in t.procs && t.holder.None? && t.end.Newline?
      && Unlisted(t.lines, l.addr)
    ensures Legal(s, run')
    ensures var t, u := After(s, run), After(s, run');
      && u.procs.Keys == t.procs.Keys + {p, q, r}
      && u.procs[p].pc == Done(true) && u.procs[q].pc == Done(true) && u.procs[r].pc == Done(false)
      && u.lines == t.lines + [l] && u.end.Newline? && u.accepted == t.accepted + {l}
  {
    var t := After(s, run);
    run' := FirstUse(s, run, p, l);
    LastIsFirst(t.lines, l, other);
    assert l in t.lines + [l];
    run' := Answered(s, run', q, l, strict);
    run' := Answered(s, run', r, Line(l.addr, other), strict);
  }

  lemma LastIsFirst(lines: seq<Line>, l: Line, other: HostKey)
    requires Unlisted(lines, l.addr) && other != l.key
    ensures FirstOfKind(lines + [l], l) && !FirstOfKind(lines + [l], Line(l.addr, other))
  {
    var all := lines + [l];
    assert all[|lines|] == l && all[..|lines|] == lines;
    FirstOfKindListed(all, Line(l.addr, other));
    assert Line(l.addr, other) !in all;
  }

  /** A file that ends without newline past a key swallows the first new line, and the
      next process to meet that address trusts whatever it is offered. */
  lemma TwoKeysAccepted(lines: seq<Line>, a: Line, b: Line) returns (run: seq<Step>)
    requires Unlisted(lines, a.addr) && a.addr == b.addr && a.key != b.key
    ensures Legal(Init(lines, NoNewlinePastKey), run)
    ensures var t := After(Init(lines, NoNewlinePastKey), run);
      !Agreed(t) && t.accepted == {a, b} && t.lines == lines + [b] && t.end.Newline?
  {
    var s := Init(lines, NoNewlinePastKey);
    run := FirstUse(s, [], 0, a);
    run := FirstUse(s, run, 1, b);
    assert a in After(s, run).accepted && b in After(s, run).accepted;
  }

  lemma {:induction false} NewAddress(lines: seq<Line>) returns (addr: string)
    ensures Unlisted(lines, addr) && forall l | l in lines :: |l.addr| < |addr|
    decreases |lines|
  {
    addr := "x";
    if lines != [] {
      addr := NewAddress(lines[1..]);
      addr := addr + lines[0].addr + "x";
      assert forall l | l in lines :: l == lines[0] || l in lines[1..];
    }
  }

  ghost predicate AlwaysAgrees(lines: seq<Line>, end: End) {
    forall run | Legal(Init(lines, end), run) :: Agreed(After(Init(lines, end), run))
  }

  /** First use is safe in all runs exactly when the file one starts from does not
      end, without newline, past a key or in a comment. */
  lemma AgreesIffNothingPastKey(lines: seq<Line>, end: End)
    requires OneKeyPerAddress(lines)
    ensures AlwaysAgrees(lines, end) <==> !end.NoNewlinePastKey?
  {
    if end.NoNewlinePastKey? {
      var addr := NewAddress(lines);
      var run := TwoKeysAccepted(lines, Line(addr, HostKey("k", "a")), Line(addr, HostKey("k", "b")));
    } else {
      forall run | Legal(Init(lines, end), run)
        ensures Agreed(After(Init(lines, end), run))
      {
        FirstUseAgreement(lines, end, run);
      }
    }
  }

  // ---- persistence ----

  predicate Persisted(s: State) {
    forall l | l in s.accepted :: l in s.lines
  }

  /** A process accepts after it has appended to a line that had no newline. */
  predicate AcceptsGlued(s: State, step: Step) {
    step.Accept? && step.p in s.procs && s.procs[step.p].pc == Syncing(true)
  }

  ghost predicate AlwaysPersisted(s: State, run: seq<Step>)
    requires Legal(s, run)
    decreases |run|
  {
    Persisted(s) && (run == [] || AlwaysPersisted(Apply(s, run[0]), run[1..]))
  }

  predicate NeverAcceptsGlued(s: State, run: seq<Step>)
    requires Legal(s, run)
    decreases |run|
  {
    run == [] || (!AcceptsGlued(s, run[0]) && NeverAcceptsGlued(Apply(s, run[0]), run[1..]))
  }

  lemma PersistedStep(s: State, step: Step)
    requires Locking(s) && Kept(s) && Persisted(s) && Enabled(s, step)
    ensures Persisted(Apply(s, step)) <==> !AcceptsGlued(s, step)
  {
    LockingStep(s, step);
    if step.Decide? {
      CheckMeaning(s.lines, s.procs[step.p].addr, s.procs[step.p].key);
    } else if step.Accept? {
      assert s.procs[step.p].Offer() in Apply(s, step).accepted;
    }
  }

  lemma {:induction false} PersistedRun(s: State, run: seq<Step>)
    requires Locking(s) && Kept(s) && Persisted(s) && Legal(s, run)
    ensures AlwaysPersisted(s, run) <==> NeverAcceptsGlued(s, run)
    decreases |run|
  {
    if run != [] {
      LockingStep(s, run[0]);
      KeptStep(s, run[0]);
      PersistedStep(s, run[0]);
      if !AcceptsGlued(s, run[0]) {
        PersistedRun(Apply(s, run[0]), run[1..]);
      }
    }
  }

  /** What is accepted can be read back throughout a run exactly when nobody accepts
      after an append to a line without newline. */
  lemma PersistedIffNothingGlued(lines: seq<Line>, end: End, run: seq<Step>)
    requires OneKeyPerAddress(lines) && !end.NoNewlinePastKey? && Legal(Init(lines, end), run)
    ensures AlwaysPersisted(Init(lines, end), run) <==> NeverAcceptsGlued(Init(lines, end), run)
  {
    PersistedRun(Init(lines, end), run);
  }

  /** A write that loses its newline is reported as a failure, the next first use is
      accepted, and both lines are unreadable from then on. */
  lemma LostNewline(a: Line, b: Line) returns (run: seq<Step>)
    requires a.addr != b.addr
    ensures Legal(Init([], Newline), run)
    ensures var s := After(Init([], Newline), run);
      s.accepted == {b} && s.lines == [a] && s.end.Torn?
  {
    var s := Init([], Newline);
    run := Reaches(s, [], 0, a);
    Extend(s, run, AppendFails(0, AllButNewline)); run := run + [AppendFails(0, AllButNewline)];
    run := FirstUse(s, run, 1, b);
  }

  // ---- what never happens ----

  /** Processes in strict mode never touch the file. */
  lemma {:induction false} StrictNeverGrows(s: State, run: seq<Step>)
    requires Locking(s) && Legal(s, run)
    requires forall p | p in s.procs :: s.procs[p].strict
    requires forall step | step in run :: step.Connect? ==> step.strict
    ensures After(s, run).lines == s.lines && After(s, run).end == s.end
    decreases |run|
  {
    if run != [] {
      LockingStep(s, run[0]);
      assert run[0] in run;
      StrictStep(s, run[0]);
      StrictNeverGrows(Apply(s, run[0]), run[1..]);
    }
  }

  lemma StrictStep(s: State, step: Step)
    requires Locking(s) && Enabled(s, step) && (step.Connect? ==> step.strict)
    requires forall p | p in s.procs :: s.procs[p].strict
    ensures var t := Apply(s, step);
      t.lines == s.lines && t.end == s.end && forall p | p in t.procs :: t.procs[p].strict
  {}

  /** Once the file is torn and nobody is inside, nothing is accepted any more: every
      check fails. */
  lemma TornFailsClosed(s: State, run: seq<Step>)
    requires Locking(s) && Legal(s, run) && s.end.Torn? && s.holder.None?
    ensures After(s, run).end.Torn? && After(s, run).accepted == s.accepted
  {
    TornRun(s, run);
  }

  lemma {:induction false} TornRun(s: State, run: seq<Step>)
    requires Locking(s) && Legal(s, run) && s.end.Torn?
    requires forall p | p in s.procs :: !s.procs[p].pc.Appending? && !s.procs[p].pc.Syncing?
    ensures After(s, run).end.Torn? && After(s, run).accepted == s.accepted
    decreases |run|
  {
    if run != [] {
      LockingStep(s, run[0]);
      TornRun(Apply(s, run[0]), run[1..]);
    }
  }
}
