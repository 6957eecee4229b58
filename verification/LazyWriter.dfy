/** The cache manager's worker pool: an express and a regular queue of work items, a list of idle
    workers, a count of active ones, and a throttle that keeps workers from starting while a
    "set done" item waits to be alone. Each step is one section under the work queue lock, or the
    end of an item's execution. */
module LazyWriter {
  import opened Seqs

  datatype Kind = ReadAhead | LazyWrite | SetDone | Other

  datatype Worker = Idle | Ready(dropThrottle: bool) | Running(item: nat)

  /** Items are numbered in the order in which they are posted. */
  datatype State = State(
    kinds: seq<Kind>,          // history: what was posted so far
    finished: set<nat>,        // history: items whose execution has ended
    express: seq<nat>,
    regular: seq<nat>,
    worker: map<nat, Worker>,
    idle: seq<nat>,
    active: nat,
    throttle: bool)

  /** `SetDone` items go to the regular queue only. */
  datatype Event = PostExpress(kind: Kind) | PostRegular(kind: Kind) | Lock(w: nat) | Finish(w: nat)

  predicate IsSetDone(s: State, i: nat)
  {
    i < |s.kinds| && s.kinds[i].SetDone?
  }

  // ----- The steps

  /** The tail of CcPostWorkQueue: start an idle worker unless throttled. */
  function Spawn(s: State): State
  {
    if !s.throttle && s.idle != [] then
      s.(idle := s.idle[1..], worker := s.worker[s.idle[0] := Ready(false)], active := s.active + 1)
    else s
  }

  function GoIdle(s: State, w: nat): State
  {
    s.(worker := s.worker[w := Idle], idle := s.idle + [w], active := if s.active == 0 then 0 else s.active - 1)
  }

  function Dropped(s: State, w: nat): State
  {
    if w in s.worker && s.worker[w] == Ready(true) then s.(throttle := false) else s
  }

  /** Dequeues the first express item, or else the first regular one. */
  function Take(s: State, w: nat): State
    requires s.express != [] || s.regular != []
  {
    if s.express != [] then s.(express := s.express[1..], worker := s.worker[w := Running(s.express[0])])
    else s.(regular := s.regular[1..], worker := s.worker[w := Running(s.regular[0])])
  }

  /** One pass of a worker through the locked section of its loop. */
  function LockedSection(s0: State, w: nat): State
    requires w in s0.worker && s0.worker[w].Ready?
  {
    var s := Dropped(s0, w);
    if s.express == [] && s.regular == [] then GoIdle(s, w)
    else
      var i := if s.express != [] then s.express[0] else s.regular[0];
      if IsSetDone(s, i) && s.active > 1 then GoIdle(s, w).(throttle := true)
      else Take(s, w)
  }

  function Step(s: State, e: Event): State
  {
    match e
    case PostExpress(k) =>
      if k.SetDone? then s else Spawn(s.(kinds := s.kinds + [k], express := s.express + [|s.kinds|]))
    case PostRegular(k) => Spawn(s.(kinds := s.kinds + [k], regular := s.regular + [|s.kinds|]))
    case Lock(w) => if w in s.worker && s.worker[w].Ready? then LockedSection(s, w) else s
    case Finish(w) =>
      if w in s.worker && s.worker[w].Running? then
        s.(worker := s.worker[w := Ready(IsSetDone(s, s.worker[w].item))], finished := s.finished + {s.worker[w].item})
      else s
  }

  // ----- The invariant

  ghost function Busy(s: State): set<nat>
  {
    set w | w in s.worker && !s.worker[w].Idle?
  }

  ghost predicate Ascending(q: seq<nat>, n: nat)
  {
    && (forall a, b :: 0 <= a < b < |q| ==> q[a] < q[b])
    && (forall a :: 0 <= a < |q| ==> q[a] < n)
  }

  /** Every posted item is in exactly one place: a queue, one worker's hands, or finished. */
  ghost predicate Placed(s: State)
  {
    && Ascending(s.express, |s.kinds|) && Ascending(s.regular, |s.kinds|)
    && (forall i :: i in s.finished ==> i < |s.kinds|)
    && (forall i :: i in s.express ==> i !in s.regular && i !in s.finished && !IsSetDone(s, i))
    && (forall i :: i in s.regular ==> i !in s.finished)
    && (forall w :: w in s.worker && s.worker[w].Running? ==>
          var i := s.worker[w].item; i < |s.kinds| && i !in s.express && i !in s.regular && i !in s.finished)
    && (forall w, v :: w in s.worker && v in s.worker && s.worker[w].Running? && s.worker[v].Running? && w != v ==>
          s.worker[w].item != s.worker[v].item)
    && (forall i :: 0 <= i < |s.kinds| ==> Accounted(s, i))
  }

  ghost predicate Accounted(s: State, i: nat)
  {
    i in s.express || i in s.regular || i in s.finished || exists w :: w in s.worker && s.worker[w] == Running(i)
  }

  /** The idle list holds the idle workers, the count is the number of the others. */
  ghost predicate Counted(s: State)
  {
    && s.active == |Busy(s)|
    && Distinct(s.idle)
    && (forall w :: w in s.idle <==> w in s.worker && s.worker[w].Idle?)
  }

  ghost predicate WillDropThrottle(s: State, w: nat)
  {
    w in s.worker && (s.worker[w] == Ready(true) || (s.worker[w].Running? && IsSetDone(s, s.worker[w].item)))
  }

  ghost predicate SetDoneQueued(s: State)
  {
    exists i :: i in s.regular && IsSetDone(s, i)
  }

  ghost predicate NotStranded(s: State)
  {
    && (s.express != [] || s.regular != [] ==> s.active >= 1)
    && (s.throttle ==> SetDoneQueued(s) || exists w :: WillDropThrottle(s, w))
  }

  ghost predicate Inv(s: State)
  {
    s.worker != map[] && Placed(s) && Counted(s) && NotStranded(s)
  }

  // ----- Each item in one place

  lemma {:induction false} EnqueuePlaced(s: State, k: Kind, toExpress: bool)
    requires Placed(s) && (toExpress ==> !k.SetDone?)
    ensures Placed(if toExpress then s.(kinds := s.kinds + [k], express := s.express + [|s.kinds|])
                   else s.(kinds := s.kinds + [k], regular := s.regular + [|s.kinds|]))
  {
    var n := if toExpress then s.(kinds := s.kinds + [k], express := s.express + [|s.kinds|])
             else s.(kinds := s.kinds + [k], regular := s.regular + [|s.kinds|]);
    forall i | 0 <= i < |n.kinds| ensures Accounted(n, i) {
      if i < |s.kinds| {
        assert Accounted(s, i);
      }
    }
    assert forall i :: 0 <= i < |s.kinds| ==> IsSetDone(n, i) == IsSetDone(s, i);
    assert forall i :: i in s.express ==> i < |s.kinds|;
  }

  // Starting or stopping a worker that runs nothing moves no item.
  lemma {:induction false} RestingPlaced(s: State, n: State, w: nat)
    requires Placed(s) && (w in s.worker ==> !s.worker[w].Running?)
    requires w in n.worker && !n.worker[w].Running? && n.worker == s.worker[w := n.worker[w]]
    requires n.kinds == s.kinds && n.finished == s.finished && n.express == s.express && n.regular == s.regular
    ensures Placed(n)
  {
    forall i | 0 <= i < |n.kinds| ensures Accounted(n, i) {
      assert Accounted(s, i);
      if v :| v in s.worker && s.worker[v] == Running(i) {
        assert n.worker[v] == Running(i);
      }
    }
  }

  lemma {:induction false} TakeAccounted(s: State, w: nat, i: nat)
    requires Accounted(s, i) && w in s.worker && s.worker[w].Ready? && (s.express != [] || s.regular != [])
    ensures Accounted(Take(s, w), i)
  {
    var n := Take(s, w);
    var taken := n.worker[w].item;
    if i == taken {
      assert n.worker[w] == Running(i);
    } else if v :| v in s.worker && s.worker[v] == Running(i) {
      assert n.worker[v] == Running(i);
    }
  }

  lemma {:induction false} TakePlaced(s: State, w: nat)
    requires Placed(s) && w in s.worker && s.worker[w].Ready? && (s.express != [] || s.regular != [])
    ensures Placed(Take(s, w))
  {
    var n := Take(s, w);
    if s.express != [] { assert s.express[0] in s.express; } else { assert s.regular[0] in s.regular; }
    assert forall i :: i in n.express ==> i in s.express;
    assert forall i :: i in n.regular ==> i in s.regular;
    assert forall i: nat :: IsSetDone(n, i) == IsSetDone(s, i);
    forall i | 0 <= i < |n.kinds| ensures Accounted(n, i) {
      assert Accounted(s, i);
      TakeAccounted(s, w, i);
    }
  }

  lemma {:induction false} FinishPlaced(s: State, w: nat)
    requires Placed(s) && w in s.worker && s.worker[w].Running?
    ensures Placed(Step(s, Finish(w)))
  {
    var n := Step(s, Finish(w));
    forall i | 0 <= i < |n.kinds| ensures Accounted(n, i) {
      assert Accounted(s, i);
      if v :| v in s.worker && s.worker[v] == Running(i) {
        assert v == w ==> i in n.finished;
        assert v != w ==> n.worker[v] == Running(i);
      }
    }
  }

  // ----- Workers counted

  lemma {:induction false} SpawnCounted(s: State)
    requires Counted(s)
    ensures Counted(Spawn(s))
  {
    if !s.throttle && s.idle != [] {
      assert s.idle[0] in s.idle;
      assert Busy(Spawn(s)) == Busy(s) + {s.idle[0]};
    }
  }

  lemma {:induction false} GoIdleCounted(s: State, w: nat)
    requires Counted(s) && w in Busy(s)
    ensures Counted(GoIdle(s, w)) && GoIdle(s, w).active == s.active - 1
  {
    assert Busy(GoIdle(s, w)) == Busy(s) - {w};
  }

  lemma {:induction false} StayCounted(s: State, n: State, w: nat)
    requires Counted(s) && w in Busy(s) && w in n.worker && !n.worker[w].Idle?
    requires n.worker == s.worker[w := n.worker[w]] && n.idle == s.idle && n.active == s.active
    ensures Counted(n)
  {
    assert Busy(n) == Busy(s);
  }

  /** Idle and active workers together are always all the workers. */
  lemma {:induction false} WorkersConserved(s: State)
    requires Counted(s)
    ensures |s.idle| + s.active == |s.worker|
  {
    var rest := set w | w in s.worker && s.worker[w].Idle?;
    assert s.worker.Keys == rest + Busy(s);
    assert rest == Elements(s.idle);
    DistinctSize(s.idle);
  }

  ghost function Elements(q: seq<nat>): set<nat>
  {
    set w | w in q
  }

  lemma {:induction false} DistinctSize(q: seq<nat>)
    requires Distinct(q)
    ensures |Elements(q)| == |q|
  {
    if q != [] {
      DistinctSize(q[1..]);
      assert Elements(q) == {q[0]} + Elements(q[1..]) && q[0] !in Elements(q[1..]);
    }
  }

  // ----- No stranded work

  lemma {:induction false} SomeoneActive(s: State, w: nat)
    requires Counted(s) && w in Busy(s)
    ensures s.active >= 1
  {
    assert {w} <= Busy(s);
    assert |Busy(s) - {w}| == |Busy(s)| - 1;
  }

  lemma {:induction false} ThrottledIsActive(s: State)
    requires Counted(s) && NotStranded(s) && s.throttle
    ensures s.active >= 1
  {
    if !SetDoneQueued(s) {
      var w :| WillDropThrottle(s, w);
      SomeoneActive(s, w);
    }
  }

  lemma {:induction false} PostKeepsInv(s: State, k: Kind, toExpress: bool)
    requires Inv(s) && (toExpress ==> !k.SetDone?)
    ensures Inv(Step(s, if toExpress then PostExpress(k) else PostRegular(k)))
  {
    var m := if toExpress then s.(kinds := s.kinds + [k], express := s.express + [|s.kinds|])
             else s.(kinds := s.kinds + [k], regular := s.regular + [|s.kinds|]);
    var n := Spawn(m);
    EnqueuePlaced(s, k, toExpress);
    SpawnCounted(m);
    WorkersConserved(s);
    if !s.throttle && s.idle != [] {
      assert s.idle[0] in s.idle;
      RestingPlaced(m, n, s.idle[0]);
    }
    if s.throttle {
      ThrottledIsActive(s);
      if SetDoneQueued(s) {
        var i :| i in s.regular && IsSetDone(s, i);
        assert i in n.regular && IsSetDone(n, i);
      } else {
        var w :| WillDropThrottle(s, w);
        assert WillDropThrottle(n, w);
      }
    }
  }

  lemma {:induction false} FinishKeepsInv(s: State, w: nat)
    requires Inv(s)
    ensures Inv(Step(s, Finish(w)))
  {
    if w in s.worker && s.worker[w].Running? {
      var n := Step(s, Finish(w));
      FinishPlaced(s, w);
      StayCounted(s, n, w);
      if s.throttle && !SetDoneQueued(s) {
        var v :| WillDropThrottle(s, v);
        assert WillDropThrottle(n, v);
      }
      if SetDoneQueued(s) {
        var i :| i in s.regular && IsSetDone(s, i);
        assert i in n.regular && IsSetDone(n, i);
      }
    }
  }

  lemma {:induction false} DropKeeps(s: State, w: nat)
    requires Inv(s) && w in s.worker && s.worker[w].Ready?
    ensures Inv(Dropped(s, w))
    ensures Dropped(s, w).throttle && !SetDoneQueued(s) ==> exists v :: v != w && WillDropThrottle(s, v)
  {
    var n := Dropped(s, w);
    assert Busy(n) == Busy(s);
    if n.throttle && !SetDoneQueued(s) {
      var v :| WillDropThrottle(s, v);
      assert v != w;
    }
    assert forall i :: 0 <= i < |n.kinds| && Accounted(s, i) ==> Accounted(n, i);
  }

  lemma {:induction false} ThrottleWitnessKept(s: State, n: State, w: nat)
    requires s.throttle && n.regular == s.regular && n.kinds == s.kinds
    requires SetDoneQueued(s) || exists v :: v != w && WillDropThrottle(s, v)
    requires forall v :: v in s.worker && v != w ==> v in n.worker && n.worker[v] == s.worker[v]
    ensures SetDoneQueued(n) || exists v :: WillDropThrottle(n, v)
  {
    if SetDoneQueued(s) {
      var i :| i in s.regular && IsSetDone(s, i);
      assert i in n.regular && IsSetDone(n, i);
    } else {
      var v :| v != w && WillDropThrottle(s, v);
      assert WillDropThrottle(n, v);
    }
  }

  lemma {:induction false} RetireKeepsInv(s: State, w: nat, t: bool)
    requires Inv(s) && w in s.worker && s.worker[w].Ready?
    requires if t then SetDoneQueued(s) && s.active > 1 else s.express == [] && s.regular == []
    requires !t && s.throttle ==> exists v :: v != w && WillDropThrottle(s, v)
    ensures Inv(if t then GoIdle(s, w).(throttle := true) else GoIdle(s, w))
  {
    var g := GoIdle(s, w);
    var n := if t then g.(throttle := true) else g;
    GoIdleCounted(s, w);
    assert Busy(n) == Busy(g);
    RestingPlaced(s, n, w);
    if t || s.throttle {
      ThrottleWitnessKept(s.(throttle := true), n, w);
    }
  }

  lemma {:induction false} TakeKeepsInv(s: State, w: nat)
    requires Inv(s) && w in s.worker && s.worker[w].Ready? && (s.express != [] || s.regular != [])
    requires s.throttle && !SetDoneQueued(s) ==> exists v :: v != w && WillDropThrottle(s, v)
    ensures Inv(Take(s, w))
  {
    var n := Take(s, w);
    TakePlaced(s, w);
    StayCounted(s, n, w);
    SomeoneActive(s, w);
    if s.throttle {
      if SetDoneQueued(s) {
        var i :| i in s.regular && IsSetDone(s, i);
        assert i in n.regular || n.worker[w] == Running(i);
        assert WillDropThrottle(n, w) || (i in n.regular && IsSetDone(n, i));
      } else {
        var v :| v != w && WillDropThrottle(s, v);
        assert WillDropThrottle(n, v);
      }
    }
  }

  lemma {:induction false} LockKeepsInv(s0: State, w: nat)
    requires Inv(s0) && w in s0.worker && s0.worker[w].Ready?
    ensures Inv(LockedSection(s0, w))
  {
    DropKeeps(s0, w);
    var s := Dropped(s0, w);
    assert s.throttle && !SetDoneQueued(s) ==> exists v :: v != w && WillDropThrottle(s, v) by {
      if s.throttle && !SetDoneQueued(s) {
        assert !SetDoneQueued(s0) by {
          if i :| i in s0.regular && IsSetDone(s0, i) {
            assert i in s.regular && IsSetDone(s, i);
          }
        }
        var v :| v != w && WillDropThrottle(s0, v);
        assert WillDropThrottle(s, v);
      }
    }
    if s.express == [] && s.regular == [] {
      RetireKeepsInv(s, w, false);
    } else {
      var i := if s.express != [] then s.express[0] else s.regular[0];
      if IsSetDone(s, i) && s.active > 1 {
        assert i in s.regular;
        RetireKeepsInv(s, w, true);
      } else {
        TakeKeepsInv(s, w);
      }
    }
  }

  lemma {:induction false} StepKeepsInv(s: State, e: Event)
    requires Inv(s)
    ensures Inv(Step(s, e))
  {
    match e
    case PostExpress(k) => if !k.SetDone? { PostKeepsInv(s, k, true); }
    case PostRegular(k) => PostKeepsInv(s, k, false);
    case Lock(w) => if w in s.worker && s.worker[w].Ready? { LockKeepsInv(s, w); }
    case Finish(w) => FinishKeepsInv(s, w);
  }

  // ----- Runs

  /** At least one worker, all idle, nothing posted. */
  ghost predicate Init(s: State)
  {
    && s.kinds == [] && s.finished == {} && s.express == [] && s.regular == [] && s.active == 0 && !s.throttle
    && s.worker != map[] && (forall w :: w in s.worker ==> s.worker[w].Idle?)
    && Distinct(s.idle)
    && (forall w :: w in s.idle <==> w in s.worker)
  }

  function Run(s: State, events: seq<Event>): State
    decreases |events|
  {
    if events == [] then s else Run(Step(s, events[0]), events[1..])
  }

  lemma {:induction false} RunKeepsInv(s: State, events: seq<Event>)
    requires Inv(s)
    ensures Inv(Run(s, events))
    decreases |events|
  {
    if events != [] {
      StepKeepsInv(s, events[0]);
      RunKeepsInv(Step(s, events[0]), events[1..]);
    }
  }

  lemma {:induction false} ReachableInv(s: State, events: seq<Event>)
    requires Init(s)
    ensures Inv(Run(s, events))
  {
    assert Busy(s) == {};
    RunKeepsInv(s, events);
  }

  /** A full barrier: a worker that dequeues a `SetDone` item is the only active one, and everything
      posted before that item has finished executing. */
  lemma {:induction false} SetDoneIsBarrier(s: State, events: seq<Event>, w: nat)
    requires Init(s)
    requires var n := Run(s, events);
             && w in n.worker && n.worker[w].Ready? && LockedSection(n, w).worker[w].Running?
             && IsSetDone(n, LockedSection(n, w).worker[w].item)
    ensures var n := Run(s, events);
            && n.active == 1 && (forall v :: v in n.worker && v != w ==> n.worker[v].Idle?)
            && forall i :: 0 <= i < LockedSection(n, w).worker[w].item ==> i in n.finished
  {
    ReachableInv(s, events);
    var n := Run(s, events);
    var i := LockedSection(n, w).worker[w].item;
    assert i == n.regular[0] && n.active == 1;
    assert w in Busy(n) && |Busy(n) - {w}| == 0;
    forall v | v in n.worker && v != w ensures n.worker[v].Idle? {
      assert v !in Busy(n) - {w};
    }
    forall j | 0 <= j < i ensures j in n.finished {
      assert Accounted(n, j);
    }
  }

  /** No stranded work: workers are conserved, a non-empty queue has an active worker, and a set
      throttle will be dropped by a queued or running `SetDone`. */
  lemma {:induction false} NeverStranded(s: State, events: seq<Event>)
    requires Init(s)
    ensures var n := Run(s, events);
            && |n.idle| + n.active == |n.worker| == |s.worker|
            && (n.express != [] || n.regular != [] ==> exists w :: w in n.worker && !n.worker[w].Idle?)
            && (n.throttle ==> SetDoneQueued(n) || exists w :: WillDropThrottle(n, w))
  {
    ReachableInv(s, events);
    var n := Run(s, events);
    WorkersConserved(n);
    SameWorkers(s, events);
    if n.express != [] || n.regular != [] {
      var w :| w in Busy(n);
    }
  }

  lemma {:induction false} StepSameWorkers(s: State, e: Event)
    requires forall w :: w in s.idle ==> w in s.worker
    ensures Step(s, e).worker.Keys == s.worker.Keys
  {
    assert s.idle == [] || s.idle[0] in s.idle;
  }

  lemma {:induction false} SameWorkers(s: State, events: seq<Event>)
    requires Inv(s)
    ensures Run(s, events).worker.Keys == s.worker.Keys
    decreases |events|
  {
    if events != [] {
      StepSameWorkers(s, events[0]);
      StepKeepsInv(s, events[0]);
      SameWorkers(Step(s, events[0]), events[1..]);
    }
  }

  /** When every worker is idle again, everything posted has been executed, each item once. */
  lemma {:induction false} IdleMeansAllDone(s: State, events: seq<Event>)
    requires Init(s)
    requires forall w :: w in Run(s, events).worker ==> Run(s, events).worker[w].Idle?
    ensures var n := Run(s, events);
            !n.throttle && forall i :: i in n.finished <==> 0 <= i < |n.kinds|
  {
    ReachableInv(s, events);
    var n := Run(s, events);
    assert Busy(n) == {};
    forall i | 0 <= i < |n.kinds| ensures i in n.finished {
      assert Accounted(n, i);
    }
  }
}
