/** Whole runs of the cache: every answer is the one plain byte arrays would give. */
module CacheReplay {
  import opened Bytes
  import opened CacheState
  import opened CacheData
  import opened Cache

  /** What can be asked of the cache between two points in time. What the outside world decides is arbitrary:
      which files can be locked, which writes of a flush succeed. */
  datatype Request =
    | Copy(file: nat, off: nat, len: nat, op: Operation, buffer: seq<byte>, wait: bool)
    | ReadAhead(file: nat, off: nat, len: nat)
    | FlushDirty(target: nat, lazy: bool, locked: set<nat>, outcomes: seq<Outcome>)
    | FlushRange(file: nat, off: nat, len: nat, failing: set<nat>)
    | Trim(target: nat, locked: set<nat>, outcomes: seq<Outcome>)
    | Prune

  datatype Reply = Reply(ok: bool, copied: nat, out: seq<byte>)

  /** The request lies inside the sections, `sizes` giving their sizes. */
  predicate Fits(sizes: map<nat, nat>, r: Request)
  {
    match r
    case Copy(f, off, len, op, buffer, _) => f in sizes && off + len <= sizes[f] && (op.Write? ==> |buffer| == len)
    case ReadAhead(f, _, _) => f in sizes
    case FlushRange(f, _, _, _) => f in sizes
    case _ => true
  }

  /** A request that may wait for the medium. */
  predicate Patient(r: Request)
  {
    r.Copy? ==> r.wait
  }

  ghost function Sizes(c: Cc): (s: map<nat, nat>)
  {
    map f | f in c.files :: c.files[f].section
  }

  lemma {:induction false} KeptSizes(c: Cc, n: Cc)
    requires Kept(c, n)
    ensures Sizes(n) == Sizes(c)
  {
  }

  /** What a plain array answers: reads return the file's bytes; a copy that reports success is complete. */
  ghost predicate Right(m: map<nat, seq<byte>>, r: Request, a: Reply)
  {
    r.Copy? ==>
      && r.file in m && a.copied <= r.len && r.off + a.copied <= |m[r.file]| && (a.ok ==> a.copied == r.len)
      && (r.op.Write? ==> |r.buffer| == r.len)
      && (r.op.Read? ==> a.out == m[r.file][r.off..r.off + a.copied])
  }

  /** The plain arrays after a request: only a write or a zero changes bytes, just the ones it covers. */
  ghost function After(m: map<nat, seq<byte>>, r: Request, a: Reply): map<nat, seq<byte>>
    requires Right(m, r, a)
  {
    if r.Copy? && !r.op.Read? then Stored(m, r.file, r.off, Incoming(r.op, r.buffer, r.len), a.copied) else m
  }

  /** The plain arrays answer a whole run, and end as `m'`. */
  ghost predicate Agrees(m: map<nat, seq<byte>>, rs: seq<Request>, answers: seq<Reply>, m': map<nat, seq<byte>>)
    requires |rs| == |answers|
    decreases |rs|
  {
    if rs == [] then m' == m
    else Right(m, rs[0], answers[0]) && Agrees(After(m, rs[0], answers[0]), rs[1..], answers[1..], m')
  }

  lemma {:induction false} AgreesMore(m: map<nat, seq<byte>>, rs: seq<Request>, answers: seq<Reply>, mid: map<nat,
                                      seq<byte>>,
                                      r: Request, a: Reply)
    requires |rs| == |answers| && Agrees(m, rs, answers, mid) && Right(mid, r, a)
    ensures Agrees(m, rs + [r], answers + [a], After(mid, r, a))
    decreases |rs|
  {
    hide Right, After;
    var more, moreAnswers := rs + [r], answers + [a];
    if rs == [] {
      assert more[1..] == [] && moreAnswers[1..] == [];
    } else {
      AgreesMore(After(m, rs[0], answers[0]), rs[1..], answers[1..], mid, r, a);
      assert more[1..] == rs[1..] + [r] && moreAnswers[1..] == answers[1..] + [a];
    }
  }

  /** Serves one request. */
  method Serve(cm: CacheManager, r: Request) returns (a: Reply)
    requires cm.Valid() && Fits(Sizes(cm.cc), r)
    modifies cm`cc, cm`content
    ensures cm.Valid() && Kept(old(cm.cc), cm.cc) && Right(old(cm.content), r, a)
    ensures cm.readable && Patient(r) ==> a.ok
    ensures cm.content == After(old(cm.content), r, a)
  {
    hide Structure, Refines, Kept, Pruned, Cleaned, FlushedBetween, Settled, FreedCount, Available;
    a := Reply(true, 0, []);
    match r
    case Copy(f, off, len, op, buffer, wait) =>
      var ok, copied, out := cm.CopyData(f, off, len, op, buffer, wait);
      a := Reply(ok, copied, out);
    case ReadAhead(f, off, len) =>
      cm.PerformReadAhead(f, off, len);
    case FlushDirty(target, lazy, locked, outcomes) =>
      ghost var c := cm.cc;
      var count := cm.FlushDirtyPages(target, lazy, locked, outcomes);
      CleanedKept(c, cm.cc);
      CleanedLimbo(c, cm.cc);
    case FlushRange(f, off, len, failing) =>
      ghost var c := cm.cc;
      cm.FlushCache(f, off, len, failing);
      FlushedSettled(c, cm.cc, f, RoundDown(off), RoundDown(off) + RoundUp(len), failing);
      SettledKept(c, cm.cc);
    case Trim(target, locked, outcomes) =>
      var freed := cm.TrimCache(target, locked, outcomes);
    case Prune =>
      var freed := cm.FreeUnusedVacb();
  }

  /** Serves any sequence of requests: the answers, and the files in the end, are those of plain arrays. While
      the medium can be read, none fails that may wait. */
  method Replay(cm: CacheManager, requests: seq<Request>) returns (answers: seq<Reply>)
    requires cm.Valid() && forall r :: r in requests ==> Fits(Sizes(cm.cc), r)
    modifies cm`cc, cm`content
    ensures cm.Valid() && Kept(old(cm.cc), cm.cc)
    ensures |answers| == |requests| && Agrees(old(cm.content), requests, answers, cm.content)
    ensures cm.readable ==> forall k :: 0 <= k < |requests| && Patient(requests[k]) ==> answers[k].ok
  {
    hide Structure, Refines, Kept, Right, After, Agrees;
    answers := [];
    var i := 0;
    KeptRefl(cm.cc);
    ReplayStart(cm.content);
    assert requests[..0] == [];
    while i < |requests|
      invariant i <= |requests| && |answers| == i
      invariant cm.Valid() && Kept(old(cm.cc), cm.cc)
      invariant cm.readable ==> forall k :: 0 <= k < i && Patient(requests[k]) ==> answers[k].ok
      invariant Agrees(old(cm.content), requests[..i], answers, cm.content)
    {
      ghost var c, m := cm.cc, cm.content;
      KeptSizes(old(cm.cc), c);
      var a := Serve(cm, requests[i]);
      KeptTransitive(old(cm.cc), c, cm.cc);
      AgreesMore(old(cm.content), requests[..i], answers, m, requests[i], a);
      assert requests[..i] + [requests[i]] == requests[..i + 1];
      answers := answers + [a];
      i := i + 1;
    }
    assert requests[..i] == requests;
  }

  lemma {:induction false} ReplayStart(m: map<nat, seq<byte>>)
    ensures Agrees(m, [], [], m)
  {
  }
}
