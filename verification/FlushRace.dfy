/** One cache stripe under any number of flushers and copiers that run at the same time. A flusher clears
    the dirty flag before it writes, byte by byte; a copier fills the stripe from the medium if it found it
    invalid, stores its bytes, and marks the stripe valid and dirty only when it releases it. CcFlushCache
    also releases the stripe, with the two flags as it read them before. Each step is one locked section,
    one access to a flag, or one byte moved. */
module FlushRace {
  import opened Bytes
  import opened Options

  /** What a copier wants: to read, or to store bytes. */
  datatype Job = Job(write: bool, bytes: map<nat, byte>)

  datatype Pc =
    | Idle
    | Tested                             // flusher: saw the stripe dirty
    | Writing(todo: set<nat>)            // flusher: flag cleared, `todo` not yet on the medium
    | Failed                             // flusher: the write failed, flag not set again yet
    | Peeking(valid: Option<bool>, dirty: Option<bool>)  // CcFlushCache: the flags it has read so far
    | Filling(todo: set<nat>, job: Job)  // copier: found the stripe invalid, `todo` not yet read
    | Refused                            // copier: the read failed
    | Storing(todo: set<nat>, job: Job, blind: bool)  // copier: `blind` if it skipped reading the medium
    | Releasing(job: Job)                // copier: about to set the stripe valid
    | Marking(job: Job)                  // about to look whether the dirty flag must be set
    | Setting(job: Job)                  // about to set the dirty flag, which it saw clear

  datatype State = State(
    mem: seq<byte>,
    disk: seq<byte>,
    valid: bool,
    dirty: bool,
    pc: seq<Pc>,
    loaded: set<nat>,      // history: bytes of the stripe that were ever read or stored
    content: seq<byte>)    // history: the file's bytes as the last stores left them

  datatype Event =
    | TestDirty(t: nat) | Clear(t: nat) | WriteByte(t: nat, i: nat) | EndWrite(t: nat) | FailWrite(t: nat)
    | MarkAgain(t: nat) | PeekValid(t: nat) | PeekDirty(t: nat) | Restore(t: nat)
    | Request(t: nat, job: Job) | FillByte(t: nat, i: nat) | EndFill(t: nat) | FailFill(t: nat) | Refuse(t: nat)
    | StoreByte(t: nat, i: nat) | EndStore(t: nat) | SetValid(t: nat) | Mark(t: nat) | SetDirty(t: nat)

  ghost function Below(n: nat): (r: set<nat>)
    ensures forall i: nat :: i in r <==> i < n
  {
    if n == 0 then {} else Below(n - 1) + {n - 1}
  }

  ghost function All(s: State): set<nat>
  {
    Below(|s.mem|)
  }

  ghost predicate JobOk(s: State, job: Job)
  {
    job.bytes.Keys <= All(s) && (!job.write ==> job.bytes == map[])
  }

  ghost function Go(s: State, t: nat, p: Pc): State
    requires t < |s.pc|
  {
    s.(pc := s.pc[t := p])
  }

  // ----- The steps; an event that does not fit leaves the state alone

  ghost function FlusherStep(s: State, e: Event): State
    requires e.t < |s.pc| && |s.disk| == |s.mem|
  {
    var t, p := e.t, s.pc[e.t];
    if e.TestDirty? && p.Idle? && s.dirty then Go(s, t, Tested)
    else if e.Clear? && p.Tested? then Go(s, t, Writing(All(s))).(dirty := false)
    else if e.WriteByte? && p.Writing? && e.i in p.todo && e.i < |s.mem| then
      Go(s, t, Writing(p.todo - {e.i})).(disk := s.disk[e.i := s.mem[e.i]])
    else if e.EndWrite? && p == Writing({}) then Go(s, t, Idle)
    else if e.FailWrite? && p.Writing? then Go(s, t, Failed)
    else if e.MarkAgain? && p.Failed? then Go(s, t, Idle).(dirty := true)
    else s
  }

  /** CcFlushCache reads both flags, in either order, then stores the one and marks dirty after the other. */
  ghost function PeekStep(s: State, e: Event): State
    requires e.t < |s.pc|
  {
    var t := e.t;
    var p := if s.pc[t].Idle? then Peeking(None, None) else s.pc[t];
    if !p.Peeking? then s
    else if e.PeekValid? && p.valid.None? then Go(s, t, p.(valid := Some(s.valid)))
    else if e.PeekDirty? && p.dirty.None? then Go(s, t, p.(dirty := Some(s.dirty)))
    else if e.Restore? && p.valid.Some? && p.dirty.Some? then
      Go(s, t, Marking(Job(p.dirty.value, map[]))).(valid := p.valid.value)
    else s
  }

  ghost function RequestStep(s: State, t: nat, job: Job): State
    requires t < |s.pc|
  {
    if !s.pc[t].Idle? || !JobOk(s, job) then s
    else if s.valid then Go(s, t, Storing(job.bytes.Keys, job, false))
    else if job.write && job.bytes.Keys == All(s) then Go(s, t, Storing(job.bytes.Keys, job, true))
    else Go(s, t, Filling(All(s), job))
  }

  ghost function CopierStep(s: State, e: Event): State
    requires e.t < |s.pc| && |s.disk| == |s.mem| == |s.content|
  {
    var t, p := e.t, s.pc[e.t];
    if e.FillByte? && p.Filling? && e.i in p.todo && e.i < |s.mem| then
      Go(s, t, Filling(p.todo - {e.i}, p.job)).(mem := s.mem[e.i := s.disk[e.i]], loaded := s.loaded + {e.i})
    else if e.EndFill? && p.Filling? && p.todo == {} then Go(s, t, Storing(p.job.bytes.Keys, p.job, false))
    else if e.FailFill? && p.Filling? then Go(s, t, Refused)
    else if e.Refuse? && p.Refused? then Go(s, t, Idle).(valid := false)
    else if e.StoreByte? && p.Storing? && e.i in p.todo && e.i in p.job.bytes && e.i < |s.mem| then
      Go(s, t, Storing(p.todo - {e.i}, p.job, p.blind)).(
        mem := s.mem[e.i := p.job.bytes[e.i]], content := s.content[e.i := p.job.bytes[e.i]],
            loaded := s.loaded + {e.i})
    else if e.EndStore? && p.Storing? && p.todo == {} then Go(s, t, Releasing(p.job))
    else if e.SetValid? && p.Releasing? then Go(s, t, Marking(p.job)).(valid := true)
    else if e.Mark? && p.Marking? then Go(s, t, if p.job.write && !s.dirty then Setting(p.job) else Idle)
    else if e.SetDirty? && p.Setting? then Go(s, t, Idle).(dirty := true)
    else s
  }

  ghost function Step(s: State, e: Event): (n: State)
    requires |s.disk| == |s.mem| == |s.content|
    ensures |n.disk| == |n.mem| == |n.content| && |n.pc| == |s.pc|
  {
    if e.t >= |s.pc| then s
    else if e.TestDirty? || e.Clear? || e.WriteByte? || e.EndWrite? || e.FailWrite? || e.MarkAgain? then
      FlusherStep(s, e)
    else if e.PeekValid? || e.PeekDirty? || e.Restore? then PeekStep(s, e)
    else if e.Request? then RequestStep(s, e.t, e.job)
    else CopierStep(s, e)
  }

  // ----- What every run keeps

  /** The thread answers for a byte that differs from the medium: a flusher between clearing the flag and
      writing the byte, or a writer that has stored it and not marked the stripe dirty yet. */
  ghost predicate Answers(p: Pc, i: nat)
  {
    || (p.Writing? && i in p.todo) || p.Failed?
    || (p.Storing? && p.job.write && i in p.job.bytes && i !in p.todo)
    || ((p.Releasing? || p.Marking? || p.Setting?) && p.job.write && i in p.job.bytes)
  }

  ghost predicate Answered(s: State, i: nat)
  {
    s.dirty || exists t :: 0 <= t < |s.pc| && Answers(s.pc[t], i)
  }

  ghost predicate ThreadOk(s: State, p: Pc)
  {
    match p
    case Idle => true
    case Refused => true
    case Peeking(v, d) => v == Some(true) || d == Some(true) ==> All(s) <= s.loaded
    case Filling(todo, job) => JobOk(s, job) && todo <= All(s) && All(s) - todo <= s.loaded
    case Storing(todo, job, blind) =>
      && JobOk(s, job) && todo <= job.bytes.Keys && job.bytes.Keys - todo <= s.loaded
      && (if blind then job.write && job.bytes.Keys == All(s) else All(s) <= s.loaded)
    case Releasing(job) => JobOk(s, job) && All(s) <= s.loaded
    case Marking(job) => JobOk(s, job) && (job.write ==> All(s) <= s.loaded)
    case Setting(job) => JobOk(s, job) && job.write && All(s) <= s.loaded
    case _ => All(s) <= s.loaded
  }

  ghost predicate Sizes(s: State)
  {
    |s.disk| == |s.mem| == |s.content|
  }

  ghost predicate Covered(s: State)
    requires Sizes(s)
  {
    forall i: nat :: i < |s.mem| && i in s.loaded && s.mem[i] != s.disk[i] ==> Answered(s, i)
  }

  ghost predicate Inv(s: State)
  {
    && Sizes(s) && (s.valid || s.dirty ==> All(s) <= s.loaded)
    && (forall t :: 0 <= t < |s.pc| ==> ThreadOk(s, s.pc[t]))
    && Covered(s)
  }

  // If `t` answers for a byte only when its successor does too, everything stays answered.
  lemma {:induction false} StillAnswered(s: State, n: State, t: nat, i: nat)
    requires t < |s.pc| && |n.pc| == |s.pc| && n.pc == s.pc[t := n.pc[t]] && Answered(s, i)
    requires n.dirty || ((s.dirty || Answers(s.pc[t], i)) ==> Answers(n.pc[t], i) || n.dirty)
    ensures Answered(n, i)
  {
    if !s.dirty {
      var u :| 0 <= u < |s.pc| && Answers(s.pc[u], i);
      if u != t {
        assert Answers(n.pc[u], i);
      }
    }
  }

  lemma {:induction false} ThreadsKeep(s: State, n: State, t: nat)
    requires t < |s.pc| == |n.pc| && n.pc == s.pc[t := n.pc[t]] && ThreadOk(n, n.pc[t])
    requires |n.mem| == |s.mem| && s.loaded <= n.loaded && forall u :: 0 <= u < |s.pc| ==> ThreadOk(s, s.pc[u])
    ensures forall u :: 0 <= u < |n.pc| ==> ThreadOk(n, n.pc[u])
  {
    forall u | 0 <= u < |n.pc| && u != t ensures ThreadOk(n, n.pc[u]) {
      assert ThreadOk(s, s.pc[u]);
    }
  }

  lemma {:induction false} FlusherKeeps(s: State, e: Event)
    requires Inv(s) && e.t < |s.pc|
    ensures Inv(FlusherStep(s, e))
  {
    var n := FlusherStep(s, e);
    assert ThreadOk(s, s.pc[e.t]);
    ThreadsKeep(s, n, e.t);
    hide ThreadOk;
    forall i: nat | i < |n.mem| && i in n.loaded && n.mem[i] != n.disk[i] ensures Answered(n, i) {
      assert s.mem[i] != s.disk[i];
      hide Answered;
      StillAnswered(s, n, e.t, i);
    }
  }

  lemma {:induction false} RequestKeeps(s: State, t: nat, job: Job)
    requires Inv(s) && t < |s.pc|
    ensures Inv(RequestStep(s, t, job))
  {
    var n := RequestStep(s, t, job);
    ThreadsKeep(s, n, t);
    forall i: nat | i < |n.mem| && i in n.loaded && n.mem[i] != n.disk[i] ensures Answered(n, i) {
      StillAnswered(s, n, t, i);
    }
  }

  lemma {:induction false} PeekKeeps(s: State, e: Event)
    requires Inv(s) && e.t < |s.pc|
    ensures Inv(PeekStep(s, e))
  {
    var n := PeekStep(s, e);
    assert ThreadOk(s, s.pc[e.t]);
    ThreadsKeep(s, n, e.t);
    forall i: nat | i < |n.mem| && i in n.loaded && n.mem[i] != n.disk[i] ensures Answered(n, i) {
      hide Answered;
      StillAnswered(s, n, e.t, i);
    }
  }

  lemma {:induction false} FillKeeps(s: State, e: Event)
    requires Inv(s) && e.t < |s.pc| && e.FillByte?
    ensures Inv(CopierStep(s, e))
  {
    var n := CopierStep(s, e);
    assert ThreadOk(s, s.pc[e.t]);
    ThreadsKeep(s, n, e.t);
    hide ThreadOk;
    forall i: nat | i < |n.mem| && i in n.loaded && n.mem[i] != n.disk[i] ensures Answered(n, i) {
      assert i in s.loaded && s.mem[i] != s.disk[i];
      hide Answered;
      StillAnswered(s, n, e.t, i);
    }
  }

  lemma {:induction false} StoreKeeps(s: State, e: Event)
    requires Inv(s) && e.t < |s.pc| && e.StoreByte?
    ensures Inv(CopierStep(s, e))
  {
    var n := CopierStep(s, e);
    assert ThreadOk(s, s.pc[e.t]);
    ThreadsKeep(s, n, e.t);
    forall i: nat | i < |n.mem| && i in n.loaded && n.mem[i] != n.disk[i] ensures Answered(n, i) {
      if n != s && i == e.i {
        assert Answers(n.pc[e.t], i);
      } else {
        hide Answered, ThreadOk;
        StillAnswered(s, n, e.t, i);
      }
    }
  }

  lemma {:induction false} CopierKeeps(s: State, e: Event)
    requires Inv(s) && e.t < |s.pc| && !e.FillByte? && !e.StoreByte?
    ensures Inv(CopierStep(s, e))
  {
    var n := CopierStep(s, e);
    assert ThreadOk(s, s.pc[e.t]);
    ThreadsKeep(s, n, e.t);
    assert n.mem == s.mem && n.disk == s.disk && n.loaded == s.loaded;
    forall i: nat | i < |n.mem| && i in n.loaded && n.mem[i] != n.disk[i] ensures Answered(n, i) {
      hide Answered;
      StillAnswered(s, n, e.t, i);
    }
  }

  lemma {:induction false} StepKeepsInv(s: State, e: Event)
    requires Inv(s)
    ensures Inv(Step(s, e))
  {
    if e.t < |s.pc| {
      hide Inv, FlusherStep, CopierStep, RequestStep, PeekStep;
      match e {
        case Request(t, job) => RequestKeeps(s, t, job);
        case FillByte(_, _) => FillKeeps(s, e);
        case StoreByte(_, _) => StoreKeeps(s, e);
        case EndFill(_) => CopierKeeps(s, e);
        case FailFill(_) => CopierKeeps(s, e);
        case Refuse(_) => CopierKeeps(s, e);
        case EndStore(_) => CopierKeeps(s, e);
        case SetValid(_) => CopierKeeps(s, e);
        case Mark(_) => CopierKeeps(s, e);
        case SetDirty(_) => CopierKeeps(s, e);
        case PeekValid(_) => PeekKeeps(s, e);
        case PeekDirty(_) => PeekKeeps(s, e);
        case Restore(_) => PeekKeeps(s, e);
        case _ => FlusherKeeps(s, e);
      }
    }
  }

  /** At first the stripe is not valid, nothing of it is loaded, and nobody works on it. */
  ghost predicate Init(s: State)
  {
    && Sizes(s) && !s.valid && !s.dirty && s.loaded == {} && s.content == s.disk
    && forall t :: 0 <= t < |s.pc| ==> s.pc[t].Idle?
  }

  ghost function Run(s: State, events: seq<Event>): (n: State)
    requires Sizes(s)
    ensures Sizes(n)
    decreases |events|
  {
    if events == [] then s else Run(Step(s, events[0]), events[1..])
  }

  lemma {:induction false} RunKeepsInv(s: State, events: seq<Event>)
    requires Inv(s)
    ensures Inv(Run(s, events))
    decreases |events|
  {
    if events != [] {
      StepKeepsInv(s, events[0]);
      RunKeepsInv(Step(s, events[0]), events[1..]);
    }
  }

  predicate FlusherBeforeWrite(p: Pc)
  {
    p.Failed? || (p.Writing? && p.todo != {})
  }

  predicate Unreleased(p: Pc)
  {
    p.Filling? || p.Refused? || p.Storing? || p.Releasing? || p.Marking? || p.Setting?
  }

  /** No update is lost to a flush: in every run, a valid stripe that differs from the medium is dirty, or
      some flusher has cleared the flag and not yet written it, or some copier has not released it. */
  lemma {:induction false} NoLostUpdate(s: State, events: seq<Event>)
    requires Init(s)
    ensures var n := Run(s, events);
            n.valid && n.mem != n.disk ==>
              || n.dirty
              || (exists t :: 0 <= t < |n.pc| && FlusherBeforeWrite(n.pc[t]))
              || (exists t :: 0 <= t < |n.pc| && Unreleased(n.pc[t]))
  {
    RunKeepsInv(s, events);
    var n := Run(s, events);
    if n.valid && n.mem != n.disk {
      var i: nat :| i < |n.mem| && n.mem[i] != n.disk[i];
      assert i in All(n);
      assert Answered(n, i);
      if !n.dirty {
        var t :| 0 <= t < |n.pc| && Answers(n.pc[t], i);
        assert FlusherBeforeWrite(n.pc[t]) || Unreleased(n.pc[t]);
      }
    }
  }

  // ----- When a byte can be lost

  predicate Writes(p: Pc)
  {
    (p.Filling? || p.Storing? || p.Releasing? || p.Marking? || p.Setting?) && p.job.write
  }

  /** The thread may yet store FALSE into the valid flag: its fill may fail, or it has read FALSE there. */
  predicate Threatens(p: Pc)
  {
    p.Filling? || p.Refused? || (p.Peeking? && p.valid == Some(false))
  }

  /** The writer has not stored byte `i` yet. */
  predicate Pending(p: Pc, i: nat)
  {
    p.Filling? || (p.Storing? && i in p.todo)
  }

  /** The writer makes, or has made, byte `i` of the file differ from the medium. */
  predicate Differs(s: State, p: Pc, i: nat)
    requires Sizes(s)
  {
    Writes(p) && i in p.job.bytes && i < |s.mem| &&
        (if Pending(p, i) then p.job.bytes[i] else s.content[i]) != s.disk[i]
  }

  ghost predicate Writer(s: State, u: nat)
    requires Sizes(s) && u < |s.pc|
  {
    exists i: nat :: Differs(s, s.pc[u], i)
  }

  /** While one thread threatens the valid flag, another writes a byte that differs from the medium. */
  ghost predicate Danger(s: State)
    requires Sizes(s)
  {
    exists t: nat, u: nat :: t < |s.pc| && u < |s.pc| && t != u && Threatens(s.pc[t]) && Writer(s, u)
  }

  /** The stripe passes for valid, but a byte of the file is neither in it nor on the medium. */
  ghost predicate Lost(s: State)
    requires Sizes(s)
  {
    s.valid && exists i: nat :: i < |s.mem| && s.mem[i] == s.disk[i] != s.content[i]
  }

  // ----- Runs without danger

  /** While a thread threatens the valid flag, the medium holds the file. */
  ghost predicate Settled(s: State)
  {
    (exists t :: 0 <= t < |s.pc| && Threatens(s.pc[t])) ==> s.disk == s.content
  }

  /** Has stored byte `i` and will set the stripe valid. */
  predicate Restores(p: Pc, i: nat)
  {
    ((p.Storing? && i !in p.todo) || p.Releasing?) && p.job.write && i in p.job.bytes
  }

  /** While the stripe is not valid, a byte that differs from the medium has a writer to set it valid. */
  ghost predicate Secured(s: State)
    requires Sizes(s)
  {
    !s.valid ==> forall i: nat :: i < |s.mem| && s.disk[i] != s.content[i] ==>
      exists t :: 0 <= t < |s.pc| && Restores(s.pc[t], i)
  }

  /** Bytes that the thread takes for those of the file. */
  ghost predicate Known(p: Pc, i: nat)
  {
    || (p.Filling? && i !in p.todo) || (p.Storing? && (p.blind ==> i !in p.todo)) || p.Releasing?
    || ((p.Marking? || p.Setting?) && p.job.write) || p.Tested? || p.Writing? || p.Failed?
    || (p.Peeking? && (p.valid == Some(true) || p.dirty == Some(true)))
  }

  ghost predicate Faithful(s: State)
    requires Sizes(s)
  {
    && (s.valid || s.dirty ==> s.mem == s.content)
    && (forall t, i: nat :: 0 <= t < |s.pc| && i < |s.mem| && Known(s.pc[t], i) ==> s.mem[i] == s.content[i])
  }

  ghost predicate Durable(s: State)
    requires Sizes(s)
  {
    forall i: nat :: i < |s.mem| && s.disk[i] != s.content[i] ==> Answered(s, i)
  }

  ghost predicate Sound(s: State)
  {
    Sizes(s) && Settled(s) && Secured(s) && Faithful(s) && Durable(s)
  }

  ghost predicate SafeInv(s: State)
  {
    Inv(s) && Sound(s)
  }

  lemma {:induction false} DangerIs(s: State, t: nat, u: nat, i: nat)
    requires Sizes(s) && t < |s.pc| && u < |s.pc| && t != u && Threatens(s.pc[t]) && Differs(s, s.pc[u], i)
    ensures Danger(s)
  {
    assert Writer(s, u);
  }

  // A thread that begins to threaten an invalid stripe finds the medium up to date.
  lemma {:induction false} ThreatBegins(s: State, n: State, t: nat)
    requires Sizes(s) && Secured(s) && !s.valid && t < |s.pc| && (s.pc[t].Idle? || s.pc[t].Peeking?)
    requires |n.pc| == |s.pc| && n == Go(s, t, n.pc[t]) && Sizes(n) && Threatens(n.pc[t]) && !Danger(n)
    ensures n.disk == n.content
  {
    forall i: nat | i < |s.mem| ensures s.disk[i] == s.content[i] {
      if s.disk[i] != s.content[i] {
        var u :| 0 <= u < |s.pc| && Restores(s.pc[u], i);
        DangerIs(n, t, u, i);
      }
    }
  }

  // A store while another thread threatens stores what the medium holds.
  lemma {:induction false} StoreIsSettled(s: State, e: Event)
    requires Sizes(s) && Settled(s) && !Danger(s) && e.t < |s.pc| && ThreadOk(s, s.pc[e.t])
    requires e.StoreByte? && CopierStep(s, e) != s
    ensures Settled(CopierStep(s, e))
  {
    var n := CopierStep(s, e);
    if t :| 0 <= t < |n.pc| && Threatens(n.pc[t]) {
      assert t != e.t && Threatens(s.pc[t]);
      if n.content[e.i] != n.disk[e.i] {
        assert s.pc[e.t].job.write;
        DangerIs(s, t, e.t, e.i);
      }
    }
  }

  lemma {:induction false} SettledMove(s: State, n: State, t: nat)
    requires t < |s.pc| == |n.pc| && n.pc == s.pc[t := n.pc[t]] && Settled(s)
    requires Threatens(n.pc[t]) && !Threatens(s.pc[t]) ==> n.disk == n.content
    requires s.disk == s.content ==> n.disk == n.content
    ensures Settled(n)
  {
    if u :| 0 <= u < |n.pc| && Threatens(n.pc[u]) {
      assert u != t ==> Threatens(s.pc[u]);
    }
  }

  lemma {:induction false} SecuredMove(s: State, n: State, t: nat)
    requires Sizes(s) && Sizes(n) && |n.mem| == |s.mem| && t < |s.pc| == |n.pc| && n.pc == s.pc[t := n.pc[t]]
    requires Secured(s)
    requires s.valid && !n.valid ==> n.disk == n.content
    requires !n.valid ==> forall i: nat :: Restores(s.pc[t], i) ==> Restores(n.pc[t], i)
    requires forall i: nat :: i < |s.mem| && s.disk[i] == s.content[i] ==>
               n.disk[i] == n.content[i] || Restores(n.pc[t], i)
    ensures Secured(n)
  {
    if !n.valid && !s.valid {
      forall i: nat | i < |n.mem| && n.disk[i] != n.content[i]
        ensures exists u :: 0 <= u < |n.pc| && Restores(n.pc[u], i)
      {
        if s.disk[i] == s.content[i] {
          assert Restores(n.pc[t], i);
        } else {
          var u :| 0 <= u < |s.pc| && Restores(s.pc[u], i);
          assert Restores(n.pc[u], i);
        }
      }
    }
  }

  lemma {:induction false} FaithfulMove(s: State, n: State, t: nat)
    requires Sizes(s) && Sizes(n) && |n.mem| == |s.mem| && Faithful(s)
    requires t < |s.pc| == |n.pc| && n.pc == s.pc[t := n.pc[t]]
    requires (n.valid || n.dirty) && !(s.valid || s.dirty) ==> forall i: nat :: i < |s.mem| ==> Known(s.pc[t], i)
    requires forall i: nat :: i < |s.mem| && s.mem[i] == s.content[i] ==> n.mem[i] == n.content[i]
    requires forall i: nat :: i < |s.mem| && Known(n.pc[t], i) ==>
               s.valid || s.dirty || Known(s.pc[t], i) || n.mem[i] == n.content[i]
    ensures Faithful(n)
  {
    if n.valid || n.dirty {
      forall i: nat | i < |n.mem| ensures n.mem[i] == n.content[i] {
        if !(s.valid || s.dirty) {
          assert Known(s.pc[t], i);
        }
        assert s.mem[i] == s.content[i];
      }
    }
    forall u, i: nat | 0 <= u < |n.pc| && i < |n.mem| && Known(n.pc[u], i) ensures n.mem[i] == n.content[i] {
      if u == t {
        assert s.valid || s.dirty || Known(s.pc[t], i) || n.mem[i] == n.content[i];
      } else {
        assert Known(s.pc[u], i);
      }
    }
  }

  // What a flusher writes is the file.
  lemma {:induction false} FlushedIsContent(s: State, t: nat)
    requires Sizes(s) && Faithful(s) && t < |s.pc| && (s.pc[t].Tested? || s.pc[t].Writing? || s.pc[t].Failed?)
    ensures s.mem == s.content
  {
    assert forall i: nat :: Known(s.pc[t], i);
  }

  lemma {:induction false} FlusherSafe(s: State, e: Event)
    requires Sound(s) && e.t < |s.pc|
    ensures Sound(FlusherStep(s, e))
  {
    var n := FlusherStep(s, e);
    if n != s {
      if !e.TestDirty? {
        FlushedIsContent(s, e.t);
      }
      hide Settled, Secured, Faithful, Durable, Answered;
      SettledMove(s, n, e.t);
      SecuredMove(s, n, e.t);
      FaithfulMove(s, n, e.t);
      DurableMove(s, n, e.t);
    }
  }

  lemma {:induction false} DurableMove(s: State, n: State, t: nat)
    requires Sizes(s) && Sizes(n) && |n.mem| == |s.mem| && t < |s.pc| == |n.pc| && n.pc == s.pc[t := n.pc[t]]
    requires Durable(s)
    requires forall i: nat :: i < |s.mem| && s.disk[i] == s.content[i] ==>
               n.disk[i] == n.content[i] || Answers(n.pc[t], i)
    requires forall i: nat :: i < |s.mem| && n.disk[i] != n.content[i] && (s.dirty || Answers(s.pc[t], i)) ==>
               n.dirty || Answers(n.pc[t], i)
    ensures Durable(n)
  {
    forall i: nat | i < |n.mem| && n.disk[i] != n.content[i] ensures Answered(n, i) {
      if s.disk[i] == s.content[i] {
        assert Answers(n.pc[t], i);
      } else {
        hide Answered;
        StillAnswered(s, n, t, i);
      }
    }
  }

  lemma {:induction false} PeekSafe(s: State, e: Event)
    requires Sound(s) && e.t < |s.pc| && !Danger(PeekStep(s, e))
    ensures Sound(PeekStep(s, e))
  {
    var n := PeekStep(s, e);
    if Threatens(n.pc[e.t]) && !Threatens(s.pc[e.t]) {
      ThreatBegins(s, n, e.t);
    }
    if n.valid != s.valid && !n.valid {
      assert Threatens(s.pc[e.t]);
    }
    hide Settled, Secured, Faithful, Durable, Answered, Danger;
    SettledMove(s, n, e.t);
    SecuredMove(s, n, e.t);
    FaithfulMove(s, n, e.t);
    DurableMove(s, n, e.t);
  }

  lemma {:induction false} RequestSafe(s: State, t: nat, job: Job)
    requires Sound(s) && t < |s.pc| && !Danger(RequestStep(s, t, job))
    ensures Sound(RequestStep(s, t, job))
  {
    var n := RequestStep(s, t, job);
    if Threatens(n.pc[t]) && !Threatens(s.pc[t]) {
      ThreatBegins(s, n, t);
    }
    hide Settled, Secured, Faithful, Durable, Answered, Danger;
    SettledMove(s, n, t);
    SecuredMove(s, n, t);
    FaithfulMove(s, n, t);
    DurableMove(s, n, t);
  }

  lemma {:induction false} SettledFill(s: State, t: nat, i: nat)
    requires Sizes(s) && Settled(s) && t < |s.pc| && s.pc[t].Filling? && i < |s.mem|
    ensures s.disk[i] == s.content[i]
  {
    assert Threatens(s.pc[t]);
  }

  lemma {:induction false} FillSafe(s: State, e: Event)
    requires Sound(s) && e.t < |s.pc| && e.FillByte?
    ensures Sound(CopierStep(s, e))
  {
    var n := CopierStep(s, e);
    if n != s {
      SettledFill(s, e.t, e.i);
      hide Settled, Secured, Faithful, Durable, Answered;
      SettledMove(s, n, e.t);
      SecuredMove(s, n, e.t);
      FaithfulMove(s, n, e.t);
      DurableMove(s, n, e.t);
    }
  }

  lemma {:induction false} StoreSafe(s: State, e: Event)
    requires Sound(s) && e.t < |s.pc| && e.StoreByte? && ThreadOk(s, s.pc[e.t]) && !Danger(s)
    ensures Sound(CopierStep(s, e))
  {
    var n := CopierStep(s, e);
    if n != s {
      assert s.pc[e.t].job.write;
      hide Settled, Secured, Faithful, Durable, Answered, Danger;
      StoreIsSettled(s, e);
      SecuredMove(s, n, e.t);
      FaithfulMove(s, n, e.t);
      DurableMove(s, n, e.t);
    }
  }

  lemma {:induction false} CopierSafe(s: State, e: Event)
    requires Sound(s) && e.t < |s.pc| && !e.FillByte? && !e.StoreByte? && ThreadOk(s, s.pc[e.t])
    ensures Sound(CopierStep(s, e))
  {
    var n := CopierStep(s, e);
    if n != s {
      assert n.mem == s.mem && n.disk == s.disk && n.content == s.content;
      assert Threatens(s.pc[e.t]) ==> s.disk == s.content;
      hide Settled, Secured, Faithful, Durable, Answered;
      SettledMove(s, n, e.t);
      SecuredMove(s, n, e.t);
      FaithfulMove(s, n, e.t);
      DurableMove(s, n, e.t);
    }
  }

  /** A step that neither starts from nor leads into danger keeps the file safe. */
  lemma {:induction false} SafeStep(s: State, e: Event)
    requires SafeInv(s) && !Danger(s) && !Danger(Step(s, e))
    ensures SafeInv(Step(s, e))
  {
    StepKeepsInv(s, e);
    if e.t < |s.pc| {
      assert ThreadOk(s, s.pc[e.t]);
      hide Inv, Sound, Danger, FlusherStep, PeekStep, CopierStep, RequestStep, ThreadOk;
      match e {
        case Request(t, job) => RequestSafe(s, t, job);
        case FillByte(_, _) => FillSafe(s, e);
        case StoreByte(_, _) => StoreSafe(s, e);
        case PeekValid(_) => PeekSafe(s, e);
        case PeekDirty(_) => PeekSafe(s, e);
        case Restore(_) => PeekSafe(s, e);
        case EndFill(_) => CopierSafe(s, e);
        case FailFill(_) => CopierSafe(s, e);
        case Refuse(_) => CopierSafe(s, e);
        case EndStore(_) => CopierSafe(s, e);
        case SetValid(_) => CopierSafe(s, e);
        case Mark(_) => CopierSafe(s, e);
        case SetDirty(_) => CopierSafe(s, e);
        case _ => FlusherSafe(s, e);
      }
    }
  }

  /** No state of the run is a danger. */
  ghost predicate SafeRun(s: State, events: seq<Event>)
    requires Sizes(s)
    decreases |events|
  {
    !Danger(s) && (events != [] ==> SafeRun(Step(s, events[0]), events[1..]))
  }

  lemma {:induction false} SafeRunKeeps(s: State, events: seq<Event>)
    requires SafeInv(s) && SafeRun(s, events)
    ensures SafeInv(Run(s, events)) && !Danger(Run(s, events))
    decreases |events|
  {
    if events != [] {
      hide Inv, Sound, Danger, Step;
      SafeStep(s, events[0]);
      SafeRunKeeps(Step(s, events[0]), events[1..]);
    }
  }

  /** In every run without danger, what a fill reads from the medium is the file. */
  lemma {:induction false} FilledIsContent(s: State, events: seq<Event>, t: nat, i: nat)
    requires Init(s) && SafeRun(s, events)
    ensures var n := Run(s, events);
            t < |n.pc| && n.pc[t].Filling? && i < |n.mem| ==> n.disk[i] == n.content[i]
  {
    SafeRunKeeps(s, events);
    var n := Run(s, events);
    if t < |n.pc| && n.pc[t].Filling? && i < |n.mem| {
      SettledFill(n, t, i);
    }
  }

  /** In every run without danger: a valid stripe holds the file, so does the medium under a stripe that is
      not valid and that nobody writes, or that is not dirty and that nobody works on, and a reader that is
      about to release the stripe has seen the file's bytes. */
  lemma {:induction false} UpdatesReachTheMedium(s: State, events: seq<Event>)
    requires Init(s) && SafeRun(s, events)
    ensures var n := Run(s, events);
            && (n.valid ==> n.mem == n.content)
            && (!n.dirty && (forall t :: 0 <= t < |n.pc| ==> n.pc[t].Idle?) ==> n.disk == n.content)
            && (!n.valid && (forall t :: 0 <= t < |n.pc| ==> !Writes(n.pc[t])) ==> n.disk == n.content)
            && (forall t :: 0 <= t < |n.pc| && n.pc[t].Releasing? ==> n.mem == n.content)
  {
    SafeRunKeeps(s, events);
    var n := Run(s, events);
    forall i: nat | i < |n.mem| && n.disk[i] != n.content[i]
      ensures n.dirty || exists t :: 0 <= t < |n.pc| && !n.pc[t].Idle?
      ensures n.valid || exists t :: 0 <= t < |n.pc| && Writes(n.pc[t])
    {
      assert Answered(n, i);
      if !n.valid {
        var t :| 0 <= t < |n.pc| && Restores(n.pc[t], i);
        assert Writes(n.pc[t]);
      }
    }
    forall t | 0 <= t < |n.pc| && n.pc[t].Releasing? ensures n.mem == n.content {
      assert forall i: nat :: Known(n.pc[t], i);
    }
  }
}
