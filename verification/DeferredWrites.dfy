/** Deferred cached writes: when a write may go ahead, and how waiting writes are let go. */
module DeferredWrites {
  import opened Seqs

  const MAX_ZERO_LENGTH: nat := 0x4_0000
  const ULONG: nat := 0x1_0000_0000

  datatype Write = Write(id: nat, file: nat, bytes: nat, event: bool, limitModifiedPages: bool)

  // ----- CcCanIWrite

  datatype Try = FirstTry | RetryAllowRemote | RetryForceCheckPerFile | RetryMasterLocked

  function Rank(t: Try): nat
  {
    match t
    case FirstTry => 0
    case RetryAllowRemote => 253
    case RetryForceCheckPerFile => 254
    case RetryMasterLocked => 255
  }

  /** What the decision depends on, at one moment. */
  datatype Env = Env(
    writeThrough: bool,
    remote: bool,
    limited: bool,          // the file limits its modified pages
    cached: bool,
    fileThreshold: nat,
    fileDirty: nat,
    noneDeferred: bool,
    totalDirty: nat,
    threshold: nat,
    available: nat,
    throttleTop: nat,
    throttleBottom: nat,
    modified: nat)

  function Pages(bytes: nat): nat
  {
    ((if bytes < MAX_ZERO_LENGTH then bytes else MAX_ZERO_LENGTH) + 4095) / 4096
  }

  predicate FileDefers(e: Env, bytes: nat, t: Try)
  {
    && (Rank(t) >= Rank(RetryForceCheckPerFile) || e.limited)
    && e.cached && e.fileThreshold != 0 && e.fileDirty != 0 && Pages(bytes) + e.fileDirty > e.fileThreshold
  }

  /** CcCanIWrite without waiting. */
  predicate CanWrite(e: Env, bytes: nat, t: Try)
  {
    || e.writeThrough
    || (e.remote && Rank(t) < Rank(RetryAllowRemote))
    || ((t != FirstTry || e.noneDeferred)
        && e.totalDirty + Pages(bytes) < e.threshold
        && (e.available > e.throttleTop || (e.modified < 1000 && e.available > e.throttleBottom))
        && !FileDefers(e, bytes, t))
  }

  /** What may be written at a moment, less of it may be written too. */
  lemma {:induction false} LessCanBeWritten(e: Env, more: nat, less: nat, t: Try)
    requires CanWrite(e, more, t) && less <= more
    ensures CanWrite(e, less, t)
  {
    assert Pages(less) <= Pages(more) by {
      var a := if less < MAX_ZERO_LENGTH then less else MAX_ZERO_LENGTH;
      var b := if more < MAX_ZERO_LENGTH then more else MAX_ZERO_LENGTH;
      assert a + 4095 <= b + 4095;
    }
  }

  // ----- CcPostDeferredWrites

  /** What the world is like for a write at the n-th time CcCanIWrite is asked. */
  type World = (nat, Write) -> Env

  /** A write let go: when the search for it began, those it overtook, and the running total as the 32-bit
      variable has it. */
  datatype Release = Release(write: Write, overtaken: seq<Write>, total: nat, time: nat)

  predicate Allowed(world: World, time: nat, w: Write, sum: nat)
  {
    sum + w.bytes < ULONG && CanWrite(world(time, w), sum + w.bytes, RetryForceCheckPerFile)
  }

  predicate Refused(world: World, time: nat, w: Write, sum: nat)
  {
    sum + w.bytes < ULONG && !CanWrite(world(time, w), sum + w.bytes, RetryForceCheckPerFile)
  }

  /** Writes passed over: they limit their modified pages, and were refused when asked about in turn. */
  ghost predicate Passed(world: World, q: seq<Write>, sum: nat, time: nat)
  {
    forall i :: 0 <= i < |q| ==> q[i].limitModifiedPages && Refused(world, time + i, q[i], sum)
  }

  /** A search of the queue that finds nothing: it reaches the end, or a write that would make the total wrap,
      or one that is refused and does not limit its modified pages. */
  ghost predicate Stuck(world: World, q: seq<Write>, sum: nat, time: nat, p: nat)
  {
    && p <= |q| && Passed(world, q[..p], sum, time)
    && (p < |q| ==> sum + q[p].bytes >= ULONG || (Refused(world, time + p, q[p], sum) && !q[p].limitModifiedPages))
  }

  function Sum(log: seq<Release>): nat
  {
    if log == [] then 0 else log[0].write.bytes + Sum(log[1..])
  }

  /** The queue turns from `was` to `now` by the releases of `log`, with `sum` bytes let go before. Each takes
      the first write out of the queue that is allowed to go, past others that are passed over. */
  ghost predicate Explains(world: World, was: seq<Write>, log: seq<Release>, now: seq<Write>, sum: nat)
    decreases |log|
  {
    if log == [] then now == was
    else
      var p, r := |log[0].overtaken|, log[0];
      && p < |was| && r.write == was[p] && r.overtaken == was[..p] && Passed(world, r.overtaken, sum, r.time)
      && Allowed(world, r.time + p, r.write, sum)
      && r.total == sum + r.write.bytes && Explains(world, Without(was, p), log[1..], now, r.total)
  }

  lemma {:induction false} NothingReleased(world: World, q: seq<Write>)
    ensures Explains(world, q, [], q, 0) && Sum([]) == 0 && Chosen([], true) == [] && Chosen([], false) == []
  {
  }

  lemma {:induction false} Explained(world: World, was: seq<Write>, log: seq<Release>, q: seq<Write>, sum: nat,
                                     p: nat, time: nat)
    requires Explains(world, was, log, q, sum) && p < |q| && Passed(world, q[..p], sum + Sum(log), time)
    requires Allowed(world, time + p, q[p], sum + Sum(log))
    ensures var more := log + [Release(q[p], q[..p], sum + Sum(log) + q[p].bytes, time)];
            Explains(world, was, more, Without(q, p), sum) && Sum(more) == Sum(log) + q[p].bytes
    decreases |log|
  {
    hide Passed, Allowed;
    var r := Release(q[p], q[..p], sum + Sum(log) + q[p].bytes, time);
    var more := log + [r];
    if log == [] {
      assert more[1..] == [];
    } else {
      assert more[0] == log[0] && more[1..] == log[1..] + [r];
      Explained(world, Without(was, |log[0].overtaken|), log[1..], q, log[0].total, p, time);
    }
  }

  function Writes(log: seq<Release>): (ws: seq<Write>)
  {
    if log == [] then [] else [log[0].write] + Writes(log[1..])
  }

  /** The writes let go that have an event, or those that have a routine. */
  function Chosen(log: seq<Release>, event: bool): (ws: seq<Write>)
  {
    if log == [] then [] else (if log[0].write.event == event then [log[0].write] else []) + Chosen(log[1..], event)
  }

  lemma {:induction false} ChosenMore(log: seq<Release>, r: Release, event: bool)
    ensures Chosen(log + [r], event) == Chosen(log, event) + if r.write.event == event then [r.write] else []
  {
    if log == [] {
      assert log + [r] == [r] && [r][1..] == [];
    } else {
      assert (log + [r])[1..] == log[1..] + [r];
      ChosenMore(log[1..], r, event);
    }
  }

  lemma {:induction false} WithoutOne(q: seq<Write>, p: nat)
    requires p < |q|
    ensures multiset(q) == multiset{q[p]} + multiset(Without(q, p))
  {
    assert q == q[..p] + ([q[p]] + q[p + 1..]);
  }

  /** Every write is still queued or was let go, once. */
  lemma {:induction false} EachOnce(world: World, was: seq<Write>, log: seq<Release>, now: seq<Write>, sum: nat)
    requires Explains(world, was, log, now, sum)
    ensures multiset(was) == multiset(now) + multiset(Writes(log))
    decreases |log|
  {
    if log != [] {
      var p := |log[0].overtaken|;
      EachOnce(world, Without(was, p), log[1..], now, log[0].total);
      WithoutOne(was, p);
      assert multiset([log[0].write] + Writes(log[1..])) == multiset{log[0].write} + multiset(Writes(log[1..]));
    }
  }

  /** Only writes that limit their modified pages are overtaken, and the totals never wrap. */
  lemma {:induction false} Fair(world: World, was: seq<Write>, log: seq<Release>, now: seq<Write>, sum: nat, i: nat)
    requires Explains(world, was, log, now, sum) && i < |log|
    ensures forall j :: 0 <= j < |log[i].overtaken| ==> log[i].overtaken[j].limitModifiedPages
    ensures log[i].total == sum + Sum(log[..i + 1]) < ULONG
    decreases |log|
  {
    assert log[..i + 1][0] == log[0] && log[..i + 1][1..] == log[1..][..i];
    if i > 0 {
      Fair(world, Without(was, |log[0].overtaken|), log[1..], now, log[0].total, i - 1);
    }
  }

  /** A write at the head of the queue is the first to go, unless it limits its modified pages and is refused. */
  lemma {:induction false} RetriedFirst(world: World, w: Write, q: seq<Write>, log: seq<Release>, now: seq<Write>,
                                        sum: nat)
    requires Explains(world, [w] + q, log, now, sum) && log != []
    ensures log[0].write == w || (w.limitModifiedPages && Refused(world, log[0].time, w, sum))
  {
    var p := |log[0].overtaken|;
    assert p > 0 ==> log[0].overtaken[0] == w;
  }

  /** When a write from the end of the queue goes, all before it that do not limit their modified pages have
      gone. */
  lemma {:induction false} DeferredLast(world: World, q: seq<Write>, w: Write, log: seq<Release>, now: seq<Write>,
                                        sum: nat,
                                        i: nat, x: Write)
    requires Explains(world, q + [w], log, now, sum) && i < |log| && log[i].write == w && w !in q
    requires (forall j :: 0 <= j < i ==> log[j].write != w) && x in q
    ensures x in Writes(log[..i]) || x.limitModifiedPages
    decreases |log|
  {
    var p := |log[0].overtaken|;
    var k :| 0 <= k < |q| && q[k] == x;
    if i == 0 {
      assert p == |q| && log[0].overtaken[k] == x;
    } else {
      assert p < |q|;
      assert Without(q + [w], p) == Without(q, p) + [w];
      assert log[..i][0] == log[0] && log[..i][1..] == log[1..][..i - 1];
      if x != q[p] {
        assert x == if k < p then Without(q, p)[k] else Without(q, p)[k - 1];
        DeferredLast(world, Without(q, p), w, log[1..], now, log[0].total, i - 1, x);
      }
    }
  }

  class Queue {
    var list: seq<Write>
    var signalled: seq<Write>
    var posted: seq<Write>

    constructor ()
      ensures list == [] && signalled == [] && posted == []
    {
      list, signalled, posted := [], [], [];
    }

    /** One search of the list: the first write that may go ahead, where `total` has been let go before. */
    method Search(total: nat, world: World, time: nat) returns (found: bool, p: nat, total': nat)
      requires total < ULONG && forall w :: w in list ==> w.bytes < ULONG
      ensures found ==> p < |list| && Passed(world, list[..p], total, time) && Allowed(world, time + p, list[p], total)
      ensures found ==> total' == total + list[p].bytes < ULONG
      ensures !found ==> Stuck(world, list, total, time, p)
    {
      p, total' := 0, total;
      while p < |list|
        invariant p <= |list| && Passed(world, list[..p], total, time) && total' == total
      {
        var w := list[p];
        assert w in list;
        total' := (total' + w.bytes) % ULONG;
        if total' < w.bytes {
          return false, p, total';
        }
        if CanWrite(world(time + p, w), total', RetryForceCheckPerFile) {
          return true, p, total';
        }
        if !w.limitModifiedPages {
          return false, p, total';
        }
        total' := (total' + ULONG - w.bytes) % ULONG;
        assert list[..p + 1] == list[..p] + [w];
        p := p + 1;
      }
      found := false;
    }

    /** CcPostDeferredWrites, where no routine it calls queues a write again. It ends, whatever CcCanIWrite
        says at each time; it lets go what it may, and stops only when a search finds nothing. */
    method PostDeferredWrites(world: World) returns (ghost log: seq<Release>, ghost time: nat, ghost stop: nat)
      requires forall w :: w in list ==> w.bytes < ULONG
      modifies this
      ensures Explains(world, old(list), log, list, 0) && Stuck(world, list, Sum(log), time, stop)
      ensures signalled == old(signalled) + Chosen(log, true) && posted == old(posted) + Chosen(log, false)
    {
      hide Explains, Passed, Allowed, Stuck, Sum, Chosen;
      var total, now := 0, 0;
      log := [];
      NothingReleased(world, list);
      while true
        invariant Explains(world, old(list), log, list, 0) && total == Sum(log) < ULONG
        invariant forall w :: w in list ==> w.bytes < ULONG
        invariant signalled == old(signalled) + Chosen(log, true) && posted == old(posted) + Chosen(log, false)
        decreases |list|
      {
        var found, p, more := Search(total, world, now);
        if !found {
          time, stop := now, p;
          break;
        }
        var w := list[p];
        Explained(world, old(list), log, list, 0, p, now);
        ghost var r := Release(w, list[..p], more, now);
        ChosenMore(log, r, true);
        ChosenMore(log, r, false);
        list := Without(list, p);
        log := log + [r];
        total, now := more, now + p + 1;
        if w.event {
          signalled := signalled + [w];
        } else {
          posted := posted + [w];
        }
      }
    }

    /** The end of CcDeferWrite: a write that is tried again goes first. */
    method Defer(w: Write, retrying: bool)
      modifies this`list
      ensures list == if retrying then [w] + old(list) else old(list) + [w]
    {
      list := if retrying then [w] + list else list + [w];
    }
  }
}
