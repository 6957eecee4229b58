/** Exactly which overlaps of threads can lose a byte of the file, and exactly which can break the
    assertions about the dirty flag. */
module FlushRaceExact {
  import opened Options
  import opened FlushRace

  lemma {:induction false} RunCons(s: State, e: Event, rest: seq<Event>)
    requires Sizes(s)
    ensures Run(s, [e] + rest) == Run(Step(s, e), rest)
  {
    assert ([e] + rest)[1..] == rest;
  }

  lemma {:induction false} RunConcat(s: State, a: seq<Event>, b: seq<Event>)
    requires Sizes(s)
    ensures Run(s, a + b) == Run(Run(s, a), b)
    decreases |a|
  {
    hide Step;
    if a == [] {
      assert a + b == b;
    } else {
      RunConcat(Step(s, a[0]), a[1..], b);
      assert (a + b)[1..] == a[1..] + b;
    }
  }

  // ----- Driving one thread until it decides about the dirty flag

  /** The thread may yet set the dirty flag. */
  predicate Marks(p: Pc)
  {
    Writes(p) || (p.Peeking? && p.dirty == Some(true))
  }

  /** The thread has come to the dirty flag: it is about to set it, or will find it set. */
  predicate Decides(s: State, p: Pc)
  {
    Marks(p) && (p.Setting? || (p.Marking? && s.dirty))
  }

  function Phase(p: Pc): (k: nat)
  {
    match p
    case Peeking(v, _) => if v.None? then 5 else 4
    case Filling(_, _) => 5
    case Storing(_, _, _) => 4
    case Releasing(_) => 3
    case Marking(_) => 2
    case _ => 1
  }

  function Todo(p: Pc): (r: set<nat>)
  {
    if p.Filling? || p.Storing? then p.todo else {}
  }

  /** `u` has gone on from `s` to `n`; the flag, the medium and all other threads are as before. */
  ghost predicate Progress(s: State, n: State, u: nat)
  {
    && Sizes(s) && Sizes(n) && |n.mem| == |s.mem| && n.disk == s.disk && n.dirty == s.dirty
    && u < |s.pc| == |n.pc| && n.pc == s.pc[u := n.pc[u]] && Marks(n.pc[u]) && ThreadOk(n, n.pc[u])
    && forall i: nat :: Differs(s, s.pc[u], i) ==> Differs(n, n.pc[u], i)
  }

  /** The thread is going to set the stripe valid, or has done so. */
  predicate MakesValid(s: State, p: Pc)
  {
    p.Filling? || p.Storing? || p.Releasing? || (s.valid && (p.Marking? || p.Setting?))
  }

  lemma {:induction false} GoOn(s: State, u: nat) returns (e: Event)
    requires Sizes(s) && u < |s.pc| && ThreadOk(s, s.pc[u]) && Marks(s.pc[u]) && !Decides(s, s.pc[u])
    ensures !e.FailFill?
    ensures var n := Step(s, e);
            && Progress(s, n, u) && (MakesValid(s, s.pc[u]) ==> MakesValid(n, n.pc[u]))
            && (|| Phase(n.pc[u]) < Phase(s.pc[u])
                || (Phase(n.pc[u]) == Phase(s.pc[u]) && |Todo(n.pc[u])| < |Todo(s.pc[u])|))
  {
    hide Step, Progress, ThreadOk;
    if s.pc[u].Filling? {
      e := GoOnFilling(s, u);
    } else if s.pc[u].Storing? {
      e := GoOnStoring(s, u);
    } else {
      e := GoOnReleasing(s, u);
    }
  }

  lemma {:induction false} GoOnReleasing(s: State, u: nat) returns (e: Event)
    requires Sizes(s) && u < |s.pc| && ThreadOk(s, s.pc[u]) && Marks(s.pc[u]) && !Decides(s, s.pc[u])
    requires !s.pc[u].Filling? && !s.pc[u].Storing?
    ensures !e.FailFill?
    ensures var n := Step(s, e);
            && Progress(s, n, u) && (MakesValid(s, s.pc[u]) ==> MakesValid(n, n.pc[u]))
            && Phase(n.pc[u]) < Phase(s.pc[u])
  {
    var p := s.pc[u];
    match p {
      case Peeking(v, _) => e := if v.None? then PeekValid(u) else Restore(u);
      case Releasing(_) => e := SetValid(u);
      case Marking(_) => e := Mark(u);
    }
  }

  lemma {:induction false} GoOnFilling(s: State, u: nat) returns (e: Event)
    requires Sizes(s) && u < |s.pc| && ThreadOk(s, s.pc[u]) && Marks(s.pc[u]) && s.pc[u].Filling?
    ensures !e.FailFill?
    ensures var n := Step(s, e);
            && Progress(s, n, u)
            && (n.pc[u].Storing? || (n.pc[u].Filling? && |n.pc[u].todo| < |s.pc[u].todo|))
  {
    if s.pc[u].todo == {} {
      e := EndFill(u);
    } else {
      hide Step, Progress, ThreadOk;
      var i :| i in s.pc[u].todo;
      e := FillByte(u, i);
      FillOne(s, u, i);
    }
  }

  lemma {:induction false} FillOne(s: State, u: nat, i: nat)
    requires Sizes(s) && u < |s.pc| && ThreadOk(s, s.pc[u]) && Marks(s.pc[u]) && s.pc[u].Filling? && i in s.pc[u].todo
    ensures var n := Step(s, FillByte(u, i));
            Progress(s, n, u) && n.pc[u].Filling? && |n.pc[u].todo| < |s.pc[u].todo|
  {
    var p := s.pc[u];
    var n := Go(s, u, Filling(p.todo - {i}, p.job)).(mem := s.mem[i := s.disk[i]], loaded := s.loaded + {i});
    assert i in All(s);
    assert Step(s, FillByte(u, i)) == n;
    hide Step, CopierStep;
    assert ThreadOk(n, n.pc[u]);
  }

  lemma {:induction false} GoOnStoring(s: State, u: nat) returns (e: Event)
    requires Sizes(s) && u < |s.pc| && ThreadOk(s, s.pc[u]) && Marks(s.pc[u]) && s.pc[u].Storing?
    ensures !e.FailFill?
    ensures var n := Step(s, e);
            && Progress(s, n, u)
            && (n.pc[u].Releasing? || (n.pc[u].Storing? && |n.pc[u].todo| < |s.pc[u].todo|))
  {
    if s.pc[u].todo == {} {
      e := EndStore(u);
    } else {
      hide Step, Progress, ThreadOk;
      var i :| i in s.pc[u].todo;
      e := StoreByte(u, i);
      StoreOne(s, u, i);
    }
  }

  lemma {:induction false} StoreOne(s: State, u: nat, i: nat)
    requires Sizes(s) && u < |s.pc| && ThreadOk(s, s.pc[u]) && Marks(s.pc[u]) && s.pc[u].Storing? && i in s.pc[u].todo
    ensures var n := Step(s, StoreByte(u, i));
            Progress(s, n, u) && n.pc[u].Storing? && |n.pc[u].todo| < |s.pc[u].todo|
  {
    var p := s.pc[u];
    assert i in All(s);
    var n := Step(s, StoreByte(u, i));
    assert n.pc == s.pc[u := Storing(p.todo - {i}, p.job, p.blind)];
    assert n.disk == s.disk && n.dirty == s.dirty && n.content == s.content[i := p.job.bytes[i]] &&
        n.loaded == s.loaded + {i};
    hide Step, CopierStep;
    assert ThreadOk(n, n.pc[u]);
  }

  /** All steps are progress of `u`. */
  ghost predicate Driven(s: State, u: nat, events: seq<Event>)
    requires Sizes(s)
    decreases |events|
  {
    events != [] ==> Progress(s, Step(s, events[0]), u) && Driven(Step(s, events[0]), u, events[1..])
  }

  /** No read of the medium fails. */
  ghost predicate ReadsSucceed(events: seq<Event>)
  {
    forall i :: 0 <= i < |events| ==> !events[i].FailFill?
  }

  lemma {:induction false} Drive(s: State, u: nat) returns (events: seq<Event>)
    requires Sizes(s) && u < |s.pc| && ThreadOk(s, s.pc[u]) && Marks(s.pc[u])
    ensures var n := Run(s, events);
            && Driven(s, u, events) && Progress(s, n, u) && Decides(n, n.pc[u])
            && (MakesValid(s, s.pc[u]) ==> n.valid)
    ensures ReadsSucceed(events)
    decreases Phase(s.pc[u]), |Todo(s.pc[u])|
  {
    hide Step, ThreadOk;
    if Decides(s, s.pc[u]) {
      events := [];
    } else {
      var e := GoOn(s, u);
      var rest := Drive(Step(s, e), u);
      events := [e] + rest;
      assert events[1..] == rest;
    }
  }

  // ----- A danger can lose a byte

  /** No step of the run begins a danger. */
  ghost predicate Unprovoked(s: State, events: seq<Event>)
    requires Sizes(s)
    decreases |events|
  {
    events != [] ==> (Danger(Step(s, events[0])) ==> Danger(s)) && Unprovoked(Step(s, events[0]), events[1..])
  }

  lemma {:induction false} UnprovokedConcat(s: State, a: seq<Event>, b: seq<Event>)
    requires Sizes(s) && Unprovoked(s, a) && Unprovoked(Run(s, a), b)
    ensures Unprovoked(s, a + b)
    decreases |a|
  {
    hide Danger, Step;
    if a == [] {
      assert a + b == b;
    } else {
      UnprovokedConcat(Step(s, a[0]), a[1..], b);
      assert (a + b)[1..] == a[1..] + b;
    }
  }

  lemma {:induction false} UnprovokedCons(s: State, e: Event, rest: seq<Event>)
    requires Sizes(s) && (Danger(Step(s, e)) ==> Danger(s)) && Unprovoked(Step(s, e), rest)
    ensures Unprovoked(s, [e] + rest)
  {
    assert ([e] + rest)[1..] == rest;
  }

  lemma {:induction false} DrivenUnprovoked(s: State, t: nat, u: nat, i: nat, events: seq<Event>)
    requires Sizes(s) && t < |s.pc| && u < |s.pc| && t != u && Threatens(s.pc[t]) && Differs(s, s.pc[u], i)
    requires Driven(s, u, events)
    ensures Unprovoked(s, events)
    decreases |events|
  {
    hide Danger, Step, Differs;
    DangerIs(s, t, u, i);
    if events != [] {
      DrivenUnprovoked(Step(s, events[0]), t, u, i, events[1..]);
    }
  }

  /** `u` ends; its byte is in the file and not on the medium. */
  lemma {:induction false} FinishWriter(s: State, t: nat, u: nat, i: nat) returns (events: seq<Event>)
    requires Inv(s) && t < |s.pc| && u < |s.pc| && t != u && Threatens(s.pc[t]) && Differs(s, s.pc[u], i)
    ensures var n := Run(s, events);
            && Unprovoked(s, events) && Inv(n) && n.pc == s.pc[u := Idle] && i < |n.mem| && n.content[i] != n.disk[i]
  {
    assert ThreadOk(s, s.pc[u]);
    hide Inv, ThreadOk, Danger, Unprovoked, Run;
    var drive := Drive(s, u);
    var m := Run(s, drive);
    DrivenUnprovoked(s, t, u, i, drive);
    DangerIs(m, t, u, i);
    var e := LastStep(m, u, i);
    hide Step;
    UnprovokedNil(Step(m, e));
    UnprovokedCons(m, e, []);
    UnprovokedConcat(s, drive, [e] + []);
    RunNil(Step(m, e));
    RunCons(m, e, []);
    RunConcat(s, drive, [e] + []);
    events := drive + ([e] + []);
    RunKeepsInv(s, events);
  }

  lemma {:induction false} LastStep(s: State, u: nat, i: nat) returns (e: Event)
    requires Sizes(s) && u < |s.pc| && Decides(s, s.pc[u]) && Differs(s, s.pc[u], i)
    ensures var n := Step(s, e); n.pc == s.pc[u := Idle] && i < |n.mem| && n.content[i] != n.disk[i]
  {
    e := if s.pc[u].Setting? then SetDirty(u) else Mark(u);
  }

  lemma {:induction false} UnprovokedNil(s: State)
    requires Sizes(s)
    ensures Unprovoked(s, [])
  {
  }

  lemma {:induction false} RunNil(s: State)
    requires Sizes(s)
    ensures Run(s, []) == s
  {
  }

  ghost function Writers(s: State): set<nat>
  {
    set u: nat | u < |s.pc| && Writes(s.pc[u])
  }

  /** No thread but `t` writes a byte that differs from the medium. */
  ghost predicate Alone(s: State, t: nat)
    requires Sizes(s)
  {
    forall u: nat :: u < |s.pc| && u != t ==> !Writer(s, u)
  }

  /** All writers of bytes that differ from the medium end, and some byte does differ. */
  lemma {:induction false} FinishWriters(s: State, t: nat, u: nat) returns (events: seq<Event>)
    requires Inv(s) && t < |s.pc| && Threatens(s.pc[t]) && u < |s.pc| && u != t && Writer(s, u)
    ensures var n := Run(s, events);
            && Unprovoked(s, events) && Inv(n) && |n.pc| == |s.pc| && n.pc[t] == s.pc[t] && Alone(n, t)
            && n.content != n.disk
    decreases |Writers(s)|
  {
    hide ThreadOk, Covered, Danger, Unprovoked, Run;
    var i: nat :| Differs(s, s.pc[u], i);
    events := FinishWriter(s, t, u, i);
    var n := Run(s, events);
    if v: nat :| v < |n.pc| && v != t && Writer(n, v) {
      assert Writers(n) == Writers(s) - {u} && u in Writers(s);
      var rest := FinishWriters(n, t, v);
      UnprovokedConcat(s, events, rest);
      RunConcat(s, events, rest);
      events := events + rest;
    }
  }

  /** `t` is the only thread that moves, stores no byte of the file, and no other writer disturbs it. */
  ghost predicate Lone(s: State, n: State, t: nat)
  {
    && Sizes(s) && Sizes(n) && |n.mem| == |s.mem| && n.disk == s.disk && n.content == s.content
    && t < |s.pc| == |n.pc| && n.pc == s.pc[t := n.pc[t]] && (Writes(n.pc[t]) ==> n.pc[t].job.bytes == map[])
  }

  lemma {:induction false} LoneIsQuiet(s: State, n: State, t: nat)
    requires Lone(s, n, t) && Alone(s, t)
    ensures Alone(n, t) && !Danger(n)
  {
    forall u: nat | u < |n.pc| ensures !Writer(n, u) {
      if u != t {
        assert !Writer(s, u);
        forall i: nat ensures !Differs(n, n.pc[u], i) {
          assert !Differs(s, s.pc[u], i);
        }
      }
    }
  }

  predicate GivesUp(s: State, p: Pc)
  {
    Threatens(p) || (!s.valid && (p.Idle? || ((p.Marking? || p.Setting?) && p.job.bytes == map[])))
  }

  function Left(p: Pc): (k: nat)
  {
    match p
    case Peeking(_, d) => if d.None? then 5 else 4
    case Filling(_, _) => 4
    case Marking(_) => 3
    case Setting(_) => 2
    case Refused => 1
    case _ => 0
  }

  lemma {:induction false} GiveUpStep(s: State, t: nat) returns (e: Event)
    requires Sizes(s) && t < |s.pc| && GivesUp(s, s.pc[t]) && !s.pc[t].Idle?
    ensures var n := Step(s, e);
            Lone(s, n, t) && GivesUp(n, n.pc[t]) && Left(n.pc[t]) < Left(s.pc[t]) && (n.pc[t].Idle? ==> !n.valid)
  {
    var p := s.pc[t];
    match p {
      case Peeking(_, d) => e := if d.None? then PeekDirty(t) else Restore(t);
      case Filling(_, _) => e := FailFill(t);
      case Refused => e := Refuse(t);
      case Marking(_) => e := Mark(t);
      case Setting(_) => e := SetDirty(t);
    }
  }

  /** A thread that threatens the valid flag can end with the stripe invalid. */
  lemma {:induction false} GiveUp(s: State, t: nat) returns (events: seq<Event>)
    requires Sizes(s) && t < |s.pc| && GivesUp(s, s.pc[t]) && Alone(s, t)
    ensures var n := Run(s, events);
            && Unprovoked(s, events) && Sizes(n) && Alone(n, t) && !n.valid && n.disk == s.disk
            && n.content == s.content
            && |n.pc| == |s.pc| && n.pc[t].Idle? && |n.mem| == |s.mem|
    decreases Left(s.pc[t])
  {
    hide Step, Danger, Alone;
    if s.pc[t].Idle? {
      events := [];
    } else {
      var e := GiveUpStep(s, t);
      LoneIsQuiet(s, Step(s, e), t);
      var rest := GiveUp(Step(s, e), t);
      UnprovokedCons(s, e, rest);
      RunCons(s, e, rest);
      events := [e] + rest;
    }
  }

  const READING: Job := Job(false, map[])

  /** `t` reads, and what it has of the stripe is what the medium holds. */
  ghost predicate ReadsBack(s: State, p: Pc)
  {
    && Sizes(s)
    && (|| (p.Filling? && p.job == READING && p.todo <= All(s)
            && forall i: nat :: i < |s.mem| && i !in p.todo ==> s.mem[i] == s.disk[i])
        || (s.mem == s.disk && (p == Storing({}, READING, false) || p == Releasing(READING)))
        || (s.mem == s.disk && p == Marking(READING) && s.valid))
  }

  lemma {:induction false} ReadBackStep(s: State, t: nat) returns (e: Event)
    requires t < |s.pc| && ReadsBack(s, s.pc[t]) && !s.pc[t].Marking?
    ensures var n := Step(s, e);
            && Lone(s, n, t) && ReadsBack(n, n.pc[t])
            && (|| Phase(n.pc[t]) < Phase(s.pc[t])
                || (Phase(n.pc[t]) == Phase(s.pc[t]) && |Todo(n.pc[t])| < |Todo(s.pc[t])|))
  {
    if s.pc[t].Filling? && s.pc[t].todo != {} {
      hide Step, ReadsBack, Lone;
      var i := ReadOne(s, t);
      e := FillByte(t, i);
    } else {
      e := if s.pc[t].Filling? then EndFill(t) else if s.pc[t].Storing? then EndStore(t) else SetValid(t);
      hide Step, ReadsBack, Lone;
      ReadEnds(s, t, e);
    }
  }

  lemma {:induction false} ReadEnds(s: State, t: nat, e: Event)
    requires t < |s.pc| && ReadsBack(s, s.pc[t]) && !s.pc[t].Marking? && (s.pc[t].Filling? ==> s.pc[t].todo == {})
    requires e == if s.pc[t].Filling? then EndFill(t) else if s.pc[t].Storing? then EndStore(t) else SetValid(t)
    ensures var n := Step(s, e); Lone(s, n, t) && ReadsBack(n, n.pc[t]) && Phase(n.pc[t]) < Phase(s.pc[t])
  {
    var p := s.pc[t];
    assert READING.bytes.Keys == {};
    if p.Filling? {
      assert s.mem == s.disk;
    }
    var q := if p.Filling? then Storing({}, READING, false) else if p.Storing? then Releasing(READING)
        else Marking(READING);
    assert Step(s, e) == Go(s, t, q).(valid := s.valid || p.Releasing?);
    hide Step, CopierStep;
  }

  lemma {:induction false} ReadOne(s: State, t: nat) returns (i: nat)
    requires t < |s.pc| && ReadsBack(s, s.pc[t]) && s.pc[t].Filling? && s.pc[t].todo != {}
    ensures var n := Step(s, FillByte(t, i));
            Lone(s, n, t) && ReadsBack(n, n.pc[t]) && n.pc[t].Filling? && |n.pc[t].todo| < |s.pc[t].todo|
  {
    var p := s.pc[t];
    i :| i in p.todo;
    assert i in All(s);
    var n := Go(s, t, Filling(p.todo - {i}, p.job)).(mem := s.mem[i := s.disk[i]], loaded := s.loaded + {i});
    assert Step(s, FillByte(t, i)) == n;
    hide Step, CopierStep;
    assert ReadsBack(n, n.pc[t]);
  }

  lemma {:induction false} ReadBack(s: State, t: nat) returns (events: seq<Event>)
    requires t < |s.pc| && ReadsBack(s, s.pc[t]) && Alone(s, t) && s.content != s.disk
    ensures Unprovoked(s, events) && Lost(Run(s, events))
    decreases Phase(s.pc[t]), |Todo(s.pc[t])|
  {
    if s.pc[t].Marking? {
      events := [];
      var i: nat :| i < |s.mem| && s.content[i] != s.disk[i];
    } else {
      hide Step, Danger, Alone, ReadsBack, Lost;
      var e := ReadBackStep(s, t);
      LoneIsQuiet(s, Step(s, e), t);
      var rest := ReadBack(Step(s, e), t);
      UnprovokedCons(s, e, rest);
      RunCons(s, e, rest);
      events := [e] + rest;
    }
  }

  /** From every danger some run that begins no other danger loses a byte. */
  lemma {:induction false} DangerLoses(s: State) returns (events: seq<Event>)
    requires Inv(s) && Danger(s)
    ensures Unprovoked(s, events) && Lost(Run(s, events))
  {
    var t: nat, u: nat :| t < |s.pc| && u < |s.pc| && t != u && Threatens(s.pc[t]) && Writer(s, u);
    hide Inv, Danger, Unprovoked, Run, Alone, Lost;
    var finish := FinishWriters(s, t, u);
    var s1 := Run(s, finish);
    var give := GiveUp(s1, t);
    var s2 := Run(s1, give);
    var e := Request(t, READING);
    var s3 := Step(s2, e);
    assert ReadsBack(s3, s3.pc[t]) && Lone(s2, s3, t);
    hide Step;
    LoneIsQuiet(s2, s3, t);
    var read := ReadBack(s3, t);
    UnprovokedCons(s2, e, read);
    RunCons(s2, e, read);
    UnprovokedConcat(s1, give, [e] + read);
    RunConcat(s1, give, [e] + read);
    UnprovokedConcat(s, finish, give + ([e] + read));
    RunConcat(s, finish, give + ([e] + read));
    events := finish + (give + ([e] + read));
  }

  lemma {:induction false} UnprovokedIsSafe(s: State, events: seq<Event>)
    requires Sizes(s) && !Danger(s) && Unprovoked(s, events)
    ensures SafeRun(s, events)
    decreases |events|
  {
    hide Danger, Step;
    if events != [] {
      UnprovokedIsSafe(Step(s, events[0]), events[1..]);
    }
  }

  lemma {:induction false} SafeIsNotLost(s: State, events: seq<Event>)
    requires SafeInv(s) && SafeRun(s, events)
    ensures !Lost(Run(s, events))
  {
    SafeRunKeeps(s, events);
  }

  lemma {:induction false} InitIsSafe(s: State)
    requires Init(s)
    ensures SafeInv(s) && !Danger(s)
  {
  }

  /** However a run without danger is continued by one step: this step leads into danger if and only if
      from there some run that begins no further danger loses a byte. */
  lemma {:induction false} LossExactly(s: State, events: seq<Event>, e: Event)
    requires Init(s) && SafeRun(s, events)
    ensures var n := Step(Run(s, events), e);
            Danger(n) <==> exists more :: Unprovoked(n, more) && Lost(Run(n, more))
  {
    hide Init, ThreadOk, Covered, Sound, Danger, Unprovoked, SafeRun, Run, Step, Lost;
    InitIsSafe(s);
    SafeRunKeeps(s, events);
    var m := Run(s, events);
    var n := Step(m, e);
    if Danger(n) {
      StepKeepsInv(m, e);
      var more := DangerLoses(n);
    } else {
      SafeStep(m, e);
      forall more | Unprovoked(n, more) ensures !Lost(Run(n, more)) {
        UnprovokedIsSafe(n, more);
        SafeIsNotLost(n, more);
      }
    }
  }

  // ----- The assertions about the dirty flag

  predicate Flushes(p: Pc)
  {
    p.Tested? || p.Writing? || p.Failed?
  }

  /** A flusher about to clear the flag finds it set, one about to set it finds it clear. */
  ghost predicate FlagAsAsserted(s: State)
  {
    forall t :: 0 <= t < |s.pc| ==>
      (s.pc[t].Tested? ==> s.dirty) && (s.pc[t].Writing? || s.pc[t].Failed? || s.pc[t].Setting? ==> !s.dirty)
  }

  predicate Collide(s: State, p: Pc, q: Pc)
  {
    (Flushes(p) && (Flushes(q) || Marks(q))) || (Marks(p) && Marks(q) && !s.dirty)
  }

  /** One thread flushes while another flushes or may mark the stripe dirty, or two may mark a clean stripe. */
  ghost predicate Clash(s: State)
  {
    exists t: nat, u: nat :: t < |s.pc| && u < |s.pc| && t != u && Collide(s, s.pc[t], s.pc[u])
  }

  lemma {:induction false} ClashIs(s: State, t: nat, u: nat)
    requires t < |s.pc| && u < |s.pc| && t != u && Collide(s, s.pc[t], s.pc[u])
    ensures Clash(s)
  {
  }

  lemma {:induction false} OthersKeepFlag(s: State, e: Event, u: nat)
    requires Inv(s) && !Clash(s) && e.t < |s.pc| && u < |s.pc| && u != e.t
    requires FlagAsAsserted(s) && (Flushes(s.pc[u]) || s.pc[u].Setting?)
    ensures Step(s, e).dirty == s.dirty
  {
    assert ThreadOk(s, s.pc[u]) && ThreadOk(s, s.pc[e.t]);
    assert !Collide(s, s.pc[u], s.pc[e.t]) && !Collide(s, s.pc[e.t], s.pc[u]);
    hide Clash, Covered, Step;
    BystanderKeepsFlag(s, e);
  }

  lemma {:induction false} BystanderKeepsFlag(s: State, e: Event)
    requires Sizes(s) && e.t < |s.pc| && !Flushes(s.pc[e.t]) && !Marks(s.pc[e.t])
    requires s.pc[e.t].Setting? ==> s.pc[e.t].job.write
    ensures Step(s, e).dirty == s.dirty
  {
  }

  /** Without a clash the next step finds the flag as it asserts. */
  lemma {:induction false} FlagStep(s: State, e: Event)
    requires Inv(s) && FlagAsAsserted(s) && !Clash(s)
    ensures FlagAsAsserted(Step(s, e))
  {
    hide ThreadOk, Covered, Clash;
    var n := Step(s, e);
    if e.t < |s.pc| {
      OwnFlag(s, e);
      MovesOne(s, e);
      hide Step;
      forall u: nat | u < |n.pc| && u != e.t && (Flushes(s.pc[u]) || s.pc[u].Setting?) ensures n.dirty == s.dirty {
        OthersKeepFlag(s, e, u);
      }
    }
  }

  lemma {:induction false} OwnFlag(s: State, e: Event)
    requires Sizes(s) && e.t < |s.pc|
    requires s.pc[e.t].Writing? || s.pc[e.t].Failed? || s.pc[e.t].Setting? ==> !s.dirty
    requires s.pc[e.t].Tested? ==> s.dirty
    ensures var n := Step(s, e);
            && (n.pc[e.t].Tested? ==> n.dirty)
            && (n.pc[e.t].Writing? || n.pc[e.t].Failed? || n.pc[e.t].Setting? ==> !n.dirty)
  {
    hide Below;
  }

  lemma {:induction false} MovesOne(s: State, e: Event)
    requires Sizes(s) && e.t < |s.pc|
    ensures forall u :: 0 <= u < |s.pc| && u != e.t ==> Step(s, e).pc[u] == s.pc[u]
  {
    hide Below;
  }

  ghost predicate ClashFree(s: State, events: seq<Event>)
    requires Sizes(s)
    decreases |events|
  {
    !Clash(s) && (events != [] ==> ClashFree(Step(s, events[0]), events[1..]))
  }

  /** The assertions hold throughout every run without a clash. */
  lemma {:induction false} AssertionsHold(s: State, events: seq<Event>)
    requires Inv(s) && FlagAsAsserted(s) && ClashFree(s, events)
    ensures FlagAsAsserted(Run(s, events)) && !Clash(Run(s, events))
    decreases |events|
  {
    hide ThreadOk, Covered, Step, FlagAsAsserted, Clash;
    if events != [] {
      FlagStep(s, events[0]);
      StepKeepsInv(s, events[0]);
      AssertionsHold(Step(s, events[0]), events[1..]);
    }
  }

  /** No step of the run begins a clash. */
  ghost predicate Unclashed(s: State, events: seq<Event>)
    requires Sizes(s)
    decreases |events|
  {
    events != [] ==> (Clash(Step(s, events[0])) ==> Clash(s)) && Unclashed(Step(s, events[0]), events[1..])
  }

  lemma {:induction false} UnclashedConcat(s: State, a: seq<Event>, b: seq<Event>)
    requires Sizes(s) && Unclashed(s, a) && Unclashed(Run(s, a), b)
    ensures Unclashed(s, a + b)
    decreases |a|
  {
    hide Clash, Step;
    if a == [] {
      assert a + b == b;
    } else {
      UnclashedConcat(Step(s, a[0]), a[1..], b);
      assert (a + b)[1..] == a[1..] + b;
    }
  }

  lemma {:induction false} ClashThenOne(s: State, e: Event)
    requires Sizes(s) && Clash(s)
    ensures Unclashed(s, [e]) && Run(s, [e]) == Step(s, e)
  {
    hide Step, Clash;
    assert [e][1..] == [];
  }

  lemma {:induction false} DrivenUnclashed(s: State, t: nat, u: nat, events: seq<Event>)
    requires Sizes(s) && t < |s.pc| && u < |s.pc| && t != u && (Flushes(s.pc[t]) || (Marks(s.pc[t]) && !s.dirty))
    requires Marks(s.pc[u]) && Driven(s, u, events)
    ensures Unclashed(s, events)
    decreases |events|
  {
    hide Clash, Step, Differs;
    ClashIs(s, t, u);
    if events != [] {
      DrivenUnclashed(Step(s, events[0]), t, u, events[1..]);
    }
  }

  /** One step from a clash breaks an assertion. */
  ghost predicate Breaks(s: State, events: seq<Event>)
    requires Sizes(s)
  {
    Unclashed(s, events) && !FlagAsAsserted(Run(s, events))
  }

  lemma {:induction false} BreaksLater(s: State, a: seq<Event>, b: seq<Event>)
    requires Sizes(s) && Unclashed(s, a) && Breaks(Run(s, a), b)
    ensures Breaks(s, a + b)
  {
    hide Unclashed, FlagAsAsserted, Run;
    UnclashedConcat(s, a, b);
    RunConcat(s, a, b);
  }

  lemma {:induction false} BreaksNow(s: State, e: Event)
    requires Sizes(s) && Clash(s) && !FlagAsAsserted(Step(s, e))
    ensures Breaks(s, [e])
  {
    ClashThenOne(s, e);
  }

  lemma {:induction false} SetBreaks(s: State, t: nat, u: nat)
    requires Sizes(s) && t < |s.pc| && u < |s.pc| && t != u && s.pc[u].Setting?
    requires s.pc[t].Writing? || s.pc[t].Failed? || s.pc[t].Setting?
    ensures !FlagAsAsserted(Step(s, SetDirty(u)))
  {
    assert Step(s, SetDirty(u)).pc[t] == s.pc[t];
  }

  // A writer or a release with a stale flag sets the flag under a flusher or another marker.
  lemma {:induction false} MarkBreaks(s: State, t: nat, u: nat) returns (events: seq<Event>)
    requires Inv(s) && !s.dirty && t < |s.pc| && u < |s.pc| && t != u && Marks(s.pc[u])
    requires s.pc[t].Writing? || s.pc[t].Failed? || s.pc[t].Setting?
    ensures Breaks(s, events)
  {
    assert ThreadOk(s, s.pc[u]);
    assert s.pc[t].Setting? ==> ThreadOk(s, s.pc[t]) && Marks(s.pc[t]);
    hide Inv, ThreadOk, Clash, Breaks, Run, Unclashed, Step, Differs, FlagAsAsserted;
    var drive := Drive(s, u);
    var m := Run(s, drive);
    DrivenUnclashed(s, t, u, drive);
    ClashIs(m, t, u);
    SetBreaks(m, t, u);
    BreaksNow(m, SetDirty(u));
    BreaksLater(s, drive, [SetDirty(u)]);
    events := drive + [SetDirty(u)];
  }

  lemma {:induction false} FlushersBreak(s: State, t: nat, u: nat) returns (events: seq<Event>)
    requires Inv(s) && FlagAsAsserted(s) && t < |s.pc| && u < |s.pc| && t != u && Flushes(s.pc[t]) && Flushes(s.pc[u])
    ensures Breaks(s, events)
  {
    ClashIs(s, t, u);
    hide Inv, Clash, Breaks, Run, Unclashed;
    if s.pc[t].Tested? {
      assert Step(s, Clear(t)).pc[u] == s.pc[u];
      BreaksNow(s, Clear(t));
      events := [Clear(t)];
    } else if s.pc[t].Failed? {
      assert Step(s, MarkAgain(t)).pc[u] == s.pc[u];
      BreaksNow(s, MarkAgain(t));
      events := [MarkAgain(t)];
    } else {
      var n := Step(s, FailWrite(t));
      ClashThenOne(s, FailWrite(t));
      ClashIs(n, t, u);
      assert Step(n, MarkAgain(t)).pc[u] == s.pc[u];
      BreaksNow(n, MarkAgain(t));
      BreaksLater(s, [FailWrite(t)], [MarkAgain(t)]);
      events := [FailWrite(t)] + [MarkAgain(t)];
    }
  }

  lemma {:induction false} FlusherAndMarkerBreak(s: State, t: nat, u: nat) returns (events: seq<Event>)
    requires Inv(s) && FlagAsAsserted(s) && t < |s.pc| && u < |s.pc| && t != u && Flushes(s.pc[t]) && Marks(s.pc[u])
    ensures Breaks(s, events)
  {
    if s.pc[t].Tested? {
      var n := Step(s, Clear(t));
      ClashIs(s, t, u);
      ClashThenOne(s, Clear(t));
      StepKeepsInv(s, Clear(t));
      assert n.pc[u] == s.pc[u] && n.pc[t].Writing? && !n.dirty;
      hide Inv, Clash, Breaks, Run, Unclashed, Step;
      var rest := MarkBreaks(n, t, u);
      BreaksLater(s, [Clear(t)], rest);
      events := [Clear(t)] + rest;
    } else {
      events := MarkBreaks(s, t, u);
    }
  }

  lemma {:induction false} MarkersBreak(s: State, t: nat, u: nat) returns (events: seq<Event>)
    requires Inv(s) && !s.dirty && t < |s.pc| && u < |s.pc| && t != u && Marks(s.pc[t]) && Marks(s.pc[u])
    ensures Breaks(s, events)
  {
    assert ThreadOk(s, s.pc[t]);
    hide Inv, Clash, Breaks, Run, Unclashed;
    var drive := Drive(s, t);
    var n := Run(s, drive);
    DrivenUnclashed(s, u, t, drive);
    RunKeepsInv(s, drive);
    var rest := MarkBreaks(n, t, u);
    BreaksLater(s, drive, rest);
    events := drive + rest;
  }

  /** From every clash some run that begins no other clash breaks an assertion. */
  lemma {:induction false} ClashBreaks(s: State) returns (events: seq<Event>)
    requires Inv(s) && Clash(s)
    ensures Breaks(s, events)
  {
    if !FlagAsAsserted(s) {
      events := [];
    } else {
      var t: nat, u: nat :| t < |s.pc| && u < |s.pc| && t != u && Collide(s, s.pc[t], s.pc[u]);
      if Flushes(s.pc[t]) && Flushes(s.pc[u]) {
        events := FlushersBreak(s, t, u);
      } else if Flushes(s.pc[t]) {
        events := FlusherAndMarkerBreak(s, t, u);
      } else {
        events := MarkersBreak(s, t, u);
      }
    }
  }

  lemma {:induction false} UnclashedIsFree(s: State, events: seq<Event>)
    requires Sizes(s) && !Clash(s) && Unclashed(s, events)
    ensures ClashFree(s, events)
    decreases |events|
  {
    hide Clash, Step;
    if events != [] {
      UnclashedIsFree(Step(s, events[0]), events[1..]);
    }
  }

  lemma {:induction false} InitIsAsAsserted(s: State)
    requires Init(s)
    ensures Inv(s) && FlagAsAsserted(s)
  {
  }

  /** However a run without a clash is continued by one step: this step leads into a clash if and only if
      from there some run that begins no further clash breaks an assertion. */
  lemma {:induction false} AssertionsExactly(s: State, events: seq<Event>, e: Event)
    requires Init(s) && ClashFree(s, events)
    ensures var n := Step(Run(s, events), e);
            Clash(n) <==> exists more :: Unclashed(n, more) && !FlagAsAsserted(Run(n, more))
  {
    InitIsAsAsserted(s);
    hide Init, ThreadOk, Covered, Clash, Unclashed, ClashFree, Run, Step, FlagAsAsserted;
    AssertionsHold(s, events);
    RunKeepsInv(s, events);
    var m := Run(s, events);
    var n := Step(m, e);
    FlagStep(m, e);
    StepKeepsInv(m, e);
    if Clash(n) {
      var more := ClashBreaks(n);
      assert Unclashed(n, more) && !FlagAsAsserted(Run(n, more));
    } else {
      forall more | Unclashed(n, more) ensures FlagAsAsserted(Run(n, more)) {
        UnclashedIsFree(n, more);
        AssertionsHold(n, more);
      }
    }
  }

  // ----- Both do happen

  /** A one-byte stripe that two threads may work on. */
  function Fresh(): (s: State)
  {
    State([0], [0], false, false, [Idle, Idle], {}, [0])
  }

  const SEVEN: Job := Job(true, map[0 := 7])

  lemma {:induction false} StartTwo(d: Event, e: Event, rest: seq<Event>)
    requires d.t == 0 && e.t == 1
    ensures Inv(Run(Fresh(), [d] + ([e] + []))) && Run(Fresh(), [d] + ([e] + [])) == Step(Step(Fresh(), d), e)
    ensures Run(Fresh(), [d] + ([e] + []) + rest) == Run(Step(Step(Fresh(), d), e), rest)
  {
    assert Init(Fresh());
    hide Step, Inv;
    InitIsSafe(Fresh());
    RunCons(Fresh(), d, [e] + []);
    RunCons(Step(Fresh(), d), e, []);
    RunConcat(Fresh(), [d] + ([e] + []), rest);
    RunKeepsInv(Fresh(), [d] + ([e] + []));
  }

  lemma {:induction false} WriterStarts(s: State)
    requires |s.mem| == |s.disk| == |s.content| == 1 && |s.pc| == 2 && s.pc[1].Idle?
    ensures Step(s, Request(1, SEVEN)) == Go(s, 1, Storing({0}, SEVEN, !s.valid))
  {
    assert All(s) == {0} && SEVEN.bytes.Keys == {0};
  }

  /** Without any failed read, a fill that has not come to a byte yet loses what another thread writes there
      before it sets the stripe valid. */
  lemma {:induction false} UnreadFillLoses(s: State, t: nat, u: nat, i: nat) returns (events: seq<Event>)
    requires Inv(s) && t < |s.pc| && u < |s.pc| && t != u && s.pc[t].Filling? && i in s.pc[t].todo
    requires Differs(s, s.pc[u], i) && MakesValid(s, s.pc[u])
    ensures ReadsSucceed(events) && Lost(Run(s, events))
  {
    assert ThreadOk(s, s.pc[u]);
    hide Inv, ThreadOk, Run;
    var drive := Drive(s, u);
    var m := Run(s, drive);
    var e := FillByte(t, i);
    assert m.pc[t] == s.pc[t] && Differs(m, m.pc[u], i);
    var n := Step(m, e);
    assert n.valid && i < |n.mem| && n.mem[i] == n.disk[i] != n.content[i];
    hide Step;
    RunNil(n);
    RunCons(m, e, []);
    RunConcat(s, drive, [e] + []);
    events := drive + ([e] + []);
  }

  /** So a fill that overlaps a write of the same stripe can lose the byte written, although no read fails. */
  lemma {:induction false} FillCanLoseAWrite() returns (events: seq<Event>)
    ensures Init(Fresh()) && ReadsSucceed(events) && Lost(Run(Fresh(), events))
  {
    var d, e := Request(0, READING), Request(1, SEVEN);
    var s := Step(Fresh(), d);
    assert All(Fresh()) == {0};
    assert s == Go(Fresh(), 0, Filling({0}, READING));
    WriterStarts(s);
    var n := Step(s, e);
    hide Step;
    StartTwo(d, e, []);
    var more := UnreadFillLoses(n, 0, 1, 0);
    StartTwo(d, e, more);
    events := [d] + ([e] + []) + more;
  }

  /** One writer and one CcFlushCache suffice: the flag it read before the write, FALSE, overwrites TRUE. */
  lemma {:induction false} StaleValidCanLoseAWrite() returns (events: seq<Event>)
    ensures Init(Fresh()) && Lost(Run(Fresh(), events))
  {
    var d := PeekValid(0);
    assert Step(Fresh(), d) == Go(Fresh(), 0, Peeking(Some(false), None));
    events := OverlapLoses(d);
  }

  lemma {:induction false} OverlapLoses(d: Event) returns (events: seq<Event>)
    requires d.t == 0 && var s := Step(Fresh(), d); s == Go(Fresh(), 0, s.pc[0]) && Threatens(s.pc[0])
    ensures Lost(Run(Fresh(), events))
  {
    var e := Request(1, SEVEN);
    var s := Step(Fresh(), d);
    WriterStarts(s);
    var n := Step(s, e);
    hide Step;
    StartTwo(d, e, []);
    DangerIs(n, 0, 1, 0);
    var more := DangerLoses(n);
    StartTwo(d, e, more);
    events := [d] + ([e] + []) + more;
  }

  /** Two writers suffice to break the assertion of CcRosMarkDirtyVacb. */
  lemma {:induction false} MarkCanFail() returns (events: seq<Event>)
    ensures Init(Fresh()) && !FlagAsAsserted(Run(Fresh(), events))
  {
    var d, e := Request(0, SEVEN), Request(1, SEVEN);
    assert All(Fresh()) == {0} && SEVEN.bytes.Keys == {0};
    var s := Step(Fresh(), d);
    assert s == Go(Fresh(), 0, Storing({0}, SEVEN, true));
    WriterStarts(s);
    var n := Step(s, e);
    hide Step;
    StartTwo(d, e, []);
    ClashIs(n, 0, 1);
    var more := ClashBreaks(n);
    StartTwo(d, e, more);
    events := [d] + ([e] + []) + more;
  }

  /** Two flushers suffice to break the assertion of CcRosUnmarkDirtyVacb, on any dirty stripe. */
  lemma {:induction false} ClearCanFail(s: State, t: nat, u: nat) returns (events: seq<Event>)
    requires Sizes(s) && s.dirty && t < |s.pc| && u < |s.pc| && t != u && s.pc[t].Idle? && s.pc[u].Idle?
    ensures var n := Run(s, events); |n.pc| == |s.pc| && n.pc[u].Tested? && !n.dirty
  {
    var s1 := Step(s, TestDirty(t));
    var s2 := Step(s1, TestDirty(u));
    var s3 := Step(s2, Clear(t));
    assert s3.pc[u].Tested? && !s3.dirty;
    hide Step;
    RunCons(s2, Clear(t), []);
    RunCons(s1, TestDirty(u), [Clear(t)] + []);
    RunCons(s, TestDirty(t), [TestDirty(u)] + ([Clear(t)] + []));
    events := [TestDirty(t)] + ([TestDirty(u)] + ([Clear(t)] + []));
  }
}
