/** The in-place code that orders the boot drivers. */
module BootOrder {
  import opened BootDriverList
  import opened BootOrderSpec

  /** One driver of a pass: `p` is the part of the list already treated, `q` what follows. */
  method PassOne(list: DriverList, up: char -> char, name: string, current: BootNode,
                 ghost p: seq<BootNode>, ghost q: seq<BootNode>)
    returns (next: BootNode)
    requires list.Valid() && list.ring == [list.head] + (p + q) && q != [] && current == q[0]
    modifies list, list.nodes
    ensures list.Valid() && list.nodes == old(list.nodes)
    ensures list.ring == [list.head] +
              ((if Matches(up, name, current) then [current] + p else p + [current]) + q[1..])
    ensures next == (if |q| == 1 then list.head else q[1]) && (|q| > 1 ==> q[1] != list.head)
  {
    RingSplit(list.ring, list.head, p, q);
    RingShift(list.ring, list.head, p, q);
    next := current.flink;
    if Matches(up, name, current) {
      list.MoveToFront(current, |p| + 1);
    }
  }

  /** Moves every driver of the group to the front of the list, one by one. */
  method MoveGroupToFront(list: DriverList, up: char -> char, name: string)
    requires list.Valid()
    modifies list, list.nodes
    ensures list.Valid() && list.nodes == old(list.nodes)
    ensures list.Drivers() == Pass(up, name, old(list.Drivers()))
  {
    ghost var s, done, p, q := list.Drivers(), [], [], list.Drivers();
    var next := list.head.flink;
    while next != list.head
      invariant list.Valid() && list.nodes == old(list.nodes) && list.ring == [list.head] + (p + q)
      invariant p == Pass(up, name, done) && s == done + q
      invariant next == (if q == [] then list.head else q[0]) && (q != [] ==> q[0] != list.head)
      decreases |q|
    {
      PassSnoc(up, name, done, next);
      Shift(done, q);
      var current := next;
      next := PassOne(list, up, name, current, p, q);
      p := if Matches(up, name, current) then [current] + p else p + [current];
      done, q := done + [current], q[1..];
    }
    assert p + q == p && done + q == done;
  }

  /** The inner scan of the group sort: the name that ends at the terminator at `c`. */
  method FindGroup(buf: string, c: nat) returns (start: nat, end: nat)
    requires 0 < c < |buf| && buf[c] == NUL
    ensures start == StartOf(buf, c - 1) && end == EndOf(buf, start, c)
  {
    end := c;
    start := c - 1;
    while start != 0 && buf[start - 1] != NUL
      invariant start < c && StartOf(buf, c - 1) == StartOf(buf, start)
      invariant end == if start < c - 1 && buf[c - 1] == NUL then c - 1 else c
      invariant forall k :: start <= k < c - 1 ==> buf[k] != NUL
    {
      if buf[start] == NUL {
        end := start;
      }
      start := start - 1;
    }
  }

  /** The group sort: `buf[..len]` is the multi-string of group names without its final terminator. */
  method DoSort(list: DriverList, up: char -> char, buf: string, len: nat)
    requires list.Valid() && len < |buf| && buf[len] == NUL
    modifies list, list.nodes
    ensures list.Valid() && list.nodes == old(list.nodes)
    ensures list.Drivers() == Passes(up, ScanNames(buf, len), old(list.Drivers()))
  {
    var current: int := len;
    while current > 0
      invariant -1 <= current <= len && (current >= 0 ==> buf[current] == NUL)
      invariant list.Valid() && list.nodes == old(list.nodes)
      invariant Passes(up, ScanNames(buf, current), list.Drivers())
             == Passes(up, ScanNames(buf, len), old(list.Drivers()))
      decreases current
    {
      var start, end := FindGroup(buf, current);
      PassesFromScan(up, buf, current, list.Drivers());
      MoveGroupToFront(list, up, buf[start..end]);
      current := start as int - 1;
    }
  }

  /** The end of the run that starts at `start`, and the entry after it. */
  method FindRun(list: DriverList, up: char -> char, start: BootNode, ghost lo: nat)
    returns (end: BootNode, next: BootNode, ghost hi: nat)
    requires list.Valid() && 1 <= lo < |list.ring| && list.ring[lo] == start
    ensures IsRun(up, list.ring, lo, hi) && list.ring[hi] == end
    ensures next == if hi + 1 < |list.ring| then list.ring[hi + 1] else list.head
  {
    end, next, hi := start, start.flink, lo;
    while next != list.head && SameGroup(up, start, next)
      invariant lo <= hi < |list.ring| && list.ring[hi] == end
      invariant forall k :: lo <= k <= hi ==> SameGroup(up, start, list.ring[k])
      invariant next == if hi + 1 < |list.ring| then list.ring[hi + 1] else list.head
      decreases |list.ring| - hi
    {
      end, next, hi := next, next.flink, hi + 1;
    }
  }

  /** Finds the run that starts at position `k` and sorts it. */
  method SortRun(list: DriverList, up: char -> char, start: BootNode, ghost k: nat)
    returns (next: BootNode, ghost hi: nat)
    requires list.Valid() && 1 <= k < |list.ring| && list.ring[k] == start
    modifies list, list.nodes
    ensures list.Valid() && list.nodes == old(list.nodes)
    ensures IsRun(up, old(list.ring), k, hi) && Scanned(old(list.ring), list.ring, k, hi, hi)
    ensures next == if hi + 1 < |list.ring| then list.ring[hi + 1] else list.head
  {
    var end;
    end, next, hi := FindRun(list, up, start, k);
    list.OrderGroup(start, end, k, hi);
  }

  /** Resolves one more run, from position `k` on. */
  method ResolveNext(list: DriverList, up: char -> char, start: BootNode, ghost r0: seq<BootNode>, ghost k: nat)
    returns (next: BootNode, ghost k': nat)
    requires list.Valid() && multiset(list.ring) == multiset(r0)
    requires k < |list.ring| && list.ring[k] == start && Resolved(up, r0, list.ring, k)
    modifies list, list.nodes
    ensures list.Valid() && list.nodes == old(list.nodes) && multiset(list.ring) == multiset(r0)
    ensures k < k' <= |list.ring| && Resolved(up, r0, list.ring, k')
    ensures next == if k' < |list.ring| then list.ring[k'] else list.head
  {
    ghost var r, hi := list.ring, k;
    next, hi := SortRun(list, up, start, k);
    ResolveRun(up, r0, r, list.ring, k, hi);
    k' := hi + 1;
  }

  /** Sorts every maximal run of drivers of the same group by tag. */
  method ResolveDriverDependencies(list: DriverList, up: char -> char)
    requires list.Valid()
    modifies list, list.nodes
    ensures list.Valid() && list.nodes == old(list.nodes)
    ensures multiset(list.ring) == multiset(old(list.ring))
    ensures Resolved(up, old(list.ring), list.ring, |list.ring|)
  {
    var next := list.head.flink;
    ghost var k := 1;
    while next != list.head
      invariant list.Valid() && list.nodes == old(list.nodes)
      invariant multiset(list.ring) == multiset(old(list.ring))
      invariant k <= |list.ring| && Resolved(up, old(list.ring), list.ring, k)
      invariant next == if k < |list.ring| then list.ring[k] else list.head
      decreases |list.ring| - k
    {
      next, k := ResolveNext(list, up, next, old(list.ring), k);
    }
  }

  /** Both sorts in a row, for any list of drivers and any buffer: the drivers end in the order of (position of
      their group among the names in the buffer, tag). */
  method OrderBootDrivers(list: DriverList, up: char -> char, buf: string, len: nat)
    requires list.Valid() && len < |buf| && buf[len] == NUL
    modifies list, list.nodes
    ensures list.Valid()
    ensures multiset(list.Drivers()) == multiset(old(list.Drivers()))
    ensures BootOrdered(up, Listed(buf, len), list.Drivers()) && RunsSorted(up, list.Drivers())
  {
    DoSort(list, up, buf, len);
    ghost var s, names := list.ring, Listed(buf, len);
    ReversedTwice(ScanNames(buf, len));
    ListedNonEmpty(buf, len);
    PassesByGroup(up, names, [], old(list.Drivers()));
    PassesPermute(up, Reversed(names), old(list.Drivers()));
    assert names + [] == names;
    ResolveDriverDependencies(list, up);
    ResolvedDrivers(up, s, list.ring);
    TailMultiset(list.ring, s);
    SameGroupsByGroup(up, names, s[1..], list.ring[1..]);
    RunsThenBootOrdered(up, names, list.ring[1..]);
  }

  /** On a well-formed multi-string these names are the ones in it. */
  method OrderByNames(list: DriverList, up: char -> char, names: seq<string>)
    requires list.Valid() && WellFormed(names)
    modifies list, list.nodes
    ensures list.Valid()
    ensures multiset(list.Drivers()) == multiset(old(list.Drivers()))
    ensures BootOrdered(up, names, list.Drivers()) && RunsSorted(up, list.Drivers())
  {
    var buf := Flat(names) + [NUL];
    ScanVisitsNamesInReverse(names);
    ReversedTwice(names);
    OrderBootDrivers(list, up, buf, |buf| - 1);
  }
}
