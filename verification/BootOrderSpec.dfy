/** What ordering the boot drivers means: move-to-front by load-order group, scanning the group list
    backward, then a tag sort of every run of drivers that share a group. */
module BootOrderSpec {
  import opened Names
  import opened Seqs
  import opened BootDriverList
  import opened Inversions

  const NUL: char := '\0'

  predicate Matches(up: char -> char, name: string, n: BootNode)
  {
    n.group.Some? && SameName(up, name, n.group.value)
  }

  function GroupText(n: BootNode): string
  {
    if n.group.Some? then n.group.value else ""
  }

  predicate SameGroup(up: char -> char, a: BootNode, b: BootNode)
  {
    SameName(up, GroupText(a), GroupText(b))
  }

  // ----- The multi-string and its backward scan

  /** Each name followed by its terminator. */
  function Flat(names: seq<string>): string
  {
    if names == [] then "" else Flat(names[..|names| - 1]) + names[|names| - 1] + [NUL]
  }

  ghost predicate WellFormed(names: seq<string>)
  {
    forall k :: 0 <= k < |names| ==> names[k] != "" && NUL !in names[k]
  }

  function Reversed<T>(s: seq<T>): (r: seq<T>)
    ensures |r| == |s|
  {
    if s == [] then [] else [s[|s| - 1]] + Reversed(s[..|s| - 1])
  }

  ghost predicate NoneEmpty(names: seq<string>)
  {
    forall k :: 0 <= k < |names| ==> names[k] != ""
  }

  function StartOf(buf: string, i: nat): (st: nat)
    requires i < |buf|
    ensures st <= i && (st == 0 || buf[st - 1] == NUL)
    ensures forall k :: st <= k < i ==> buf[k] != NUL
  {
    if i == 0 || buf[i - 1] == NUL then i else StartOf(buf, i - 1)
  }

  function EndOf(buf: string, st: nat, c: nat): nat
    requires st < c < |buf|
  {
    if st < c - 1 && buf[c - 1] == NUL then c - 1 else c
  }

  /** The names the scan visits, starting from the terminator at `c`. */
  function ScanNames(buf: string, c: int): seq<string>
    requires c < |buf|
    decreases c
  {
    if c <= 0 then []
    else
      var st := StartOf(buf, c - 1);
      [buf[st..EndOf(buf, st, c)]] + ScanNames(buf, st - 1)
  }

  // ----- One pass of the group sort, as a function

  function Moved(up: char -> char, name: string, s: seq<BootNode>): seq<BootNode>
  {
    if s == [] then []
    else
      var m := Moved(up, name, s[..|s| - 1]);
      if Matches(up, name, s[|s| - 1]) then [s[|s| - 1]] + m else m
  }

  function Kept(up: char -> char, name: string, s: seq<BootNode>): (k: seq<BootNode>)
    ensures |k| + |Moved(up, name, s)| == |s|
  {
    if s == [] then []
    else
      var k := Kept(up, name, s[..|s| - 1]);
      if Matches(up, name, s[|s| - 1]) then k else k + [s[|s| - 1]]
  }

  /** All drivers of the group to the front. */
  function Pass(up: char -> char, name: string, s: seq<BootNode>): seq<BootNode>
  {
    Moved(up, name, s) + Kept(up, name, s)
  }

  function Passes(up: char -> char, visited: seq<string>, s: seq<BootNode>): seq<BootNode>
  {
    if visited == [] then s else Passes(up, visited[1..], Pass(up, visited[0], s))
  }

  // ----- What the order is

  function FirstPos(up: char -> char, names: seq<string>, n: BootNode): (k: nat)
    ensures k <= |names|
    ensures k < |names| ==> Matches(up, names[k], n)
    ensures forall i :: 0 <= i < k ==> !Matches(up, names[i], n)
  {
    if names == [] || Matches(up, names[0], n) then 0 else 1 + FirstPos(up, names[1..], n)
  }

  ghost predicate ByGroup(up: char -> char, names: seq<string>, s: seq<BootNode>)
  {
    forall i, j :: 0 <= i < j < |s| ==> FirstPos(up, names, s[i]) <= FirstPos(up, names, s[j])
  }

  ghost predicate RunsSorted(up: char -> char, s: seq<BootNode>)
  {
    forall i, j :: 0 <= i < j < |s| && j == i + 1 && SameGroup(up, s[i], s[j]) ==> s[i].tag <= s[j].tag
  }

  ghost predicate SameGroups(up: char -> char, s: seq<BootNode>, t: seq<BootNode>)
  {
    |s| == |t| && forall i :: 0 <= i < |s| ==> SameGroup(up, s[i], t[i])
  }

  /** Drivers in the order of (position of their group in the list, tag); drivers of unlisted groups last. */
  ghost predicate BootOrdered(up: char -> char, names: seq<string>, s: seq<BootNode>)
  {
    forall i, j :: 0 <= i < j < |s| ==>
      var p, q := FirstPos(up, names, s[i]), FirstPos(up, names, s[j]);
      p < q || (p == q && (p < |names| ==> s[i].tag <= s[j].tag))
  }

  // ----- The scan visits exactly the names, last first

  lemma {:induction false} StartOfUnique(buf: string, i: nat, st: nat)
    requires st <= i < |buf| && (st == 0 || buf[st - 1] == NUL)
    requires forall k :: st <= k < i ==> buf[k] != NUL
    ensures StartOf(buf, i) == st
  {
  }

  ghost predicate NameAt(buf: string, st: nat, e: nat)
  {
    && st < e < |buf| && buf[e] == NUL && (st == 0 || buf[st - 1] == NUL)
    && forall k :: st <= k < e ==> buf[k] != NUL
  }

  lemma {:induction false} ScanOneName(buf: string, st: nat, e: nat)
    requires NameAt(buf, st, e)
    ensures ScanNames(buf, e) == [buf[st..e]] + ScanNames(buf, st - 1)
    ensures e + 1 < |buf| && buf[e + 1] == NUL ==> ScanNames(buf, e + 1) == ScanNames(buf, e)
  {
    StartOfUnique(buf, e - 1, st);
    StartOfUnique(buf, e, st);
  }

  lemma {:induction false} LastNameAt(names: seq<string>, buf: string)
    requires WellFormed(names) && names != [] && Flat(names) <= buf
    ensures var st := |Flat(names[..|names| - 1])|;
            && NameAt(buf, st, |Flat(names)| - 1) && buf[st..|Flat(names)| - 1] == names[|names| - 1]
            && Flat(names[..|names| - 1]) <= buf
  {
    var init, last := names[..|names| - 1], names[|names| - 1];
    var f, g := Flat(init), Flat(names);
    assert g == f + (last + [NUL]);
    assert forall k :: 0 <= k < |last| ==> g[|f| + k] == last[k];
    assert buf[|f|..|g| - 1] == last;
    assert forall k :: 0 <= k < |last| ==> last[k] != NUL;
    assert forall k :: |f| <= k < |g| - 1 ==> buf[k] == last[k - |f|];
    if init != [] {
      assert f == Flat(init[..|init| - 1]) + init[|init| - 1] + [NUL];
    }
  }

  /** `names` lie one after the other in `buf`, the last one terminated at `e`. */
  ghost predicate Laid(names: seq<string>, buf: string, e: int)
  {
    if names == [] then e == -1
    else
      var last := names[|names| - 1];
      && |last| <= e && NameAt(buf, e - |last|, e) && buf[e - |last|..e] == last
      && Laid(names[..|names| - 1], buf, e - |last| - 1)
  }

  lemma {:induction false} FlatLaid(names: seq<string>, buf: string)
    requires WellFormed(names) && Flat(names) <= buf
    ensures Laid(names, buf, |Flat(names)| - 1)
  {
    if names != [] {
      LastNameAt(names, buf);
      FlatLaid(names[..|names| - 1], buf);
    }
  }

  lemma {:induction false} ScanLaid(names: seq<string>, buf: string, e: int)
    requires e < |buf| && Laid(names, buf, e)
    ensures ScanNames(buf, e) == Reversed(names)
  {
    if names != [] {
      var st := e - |names[|names| - 1]|;
      ScanOneName(buf, st, e);
      ScanLaid(names[..|names| - 1], buf, st - 1);
    }
  }

  /** On a well-formed list of group names, the backward scan visits each name once, in reverse. */
  lemma {:induction false} ScanVisitsNamesInReverse(names: seq<string>)
    requires WellFormed(names)
    ensures var buf := Flat(names) + [NUL]; ScanNames(buf, |buf| - 1) == Reversed(names)
  {
    var buf := Flat(names) + [NUL];
    var e := |buf| - 2;
    FlatLaid(names, buf);
    ScanLaid(names, buf, e);
    if names != [] {
      ScanOneName(buf, e - |names[|names| - 1]|, e);
    }
  }

  // ----- The passes order the drivers by group

  lemma {:induction false} PassParts(up: char -> char, name: string, s: seq<BootNode>)
    ensures forall n :: n in Moved(up, name, s) ==> n in s && Matches(up, name, n)
    ensures forall n :: n in Kept(up, name, s) ==> n in s && !Matches(up, name, n)
    ensures multiset(Pass(up, name, s)) == multiset(s)
  {
    if s != [] {
      PassParts(up, name, s[..|s| - 1]);
      assert s == s[..|s| - 1] + [s[|s| - 1]];
    }
  }

  lemma {:induction false} KeptByGroup(up: char -> char, names: seq<string>, name: string, s: seq<BootNode>)
    requires ByGroup(up, names, s)
    ensures ByGroup(up, names, Kept(up, name, s))
  {
    if s != [] {
      var init, last := s[..|s| - 1], s[|s| - 1];
      var k := Kept(up, name, init);
      KeptByGroup(up, names, name, init);
      PassParts(up, name, init);
      forall i | 0 <= i < |k| ensures FirstPos(up, names, k[i]) <= FirstPos(up, names, last) {
        assert k[i] in init;
      }
    }
  }

  lemma {:induction false} PassByGroup(up: char -> char, name: string, names: seq<string>, s: seq<BootNode>)
    requires ByGroup(up, names, s)
    ensures ByGroup(up, [name] + names, Pass(up, name, s))
  {
    PassParts(up, name, s);
    KeptByGroup(up, names, name, s);
    assert ([name] + names)[1..] == names;
    var m, k := Moved(up, name, s), Kept(up, name, s);
    forall i, j | 0 <= i < j < |m + k|
      ensures FirstPos(up, [name] + names, (m + k)[i]) <= FirstPos(up, [name] + names, (m + k)[j])
    {
      if i < |m| {
        assert m[i] in m;
      } else {
        assert k[i - |m|] in k && k[j - |m|] in k;
      }
    }
  }

  lemma {:induction false} PassesByGroup(up: char -> char, names: seq<string>, rest: seq<string>, s: seq<BootNode>)
    requires ByGroup(up, rest, s)
    ensures ByGroup(up, names + rest, Passes(up, Reversed(names), s))
  {
    if names == [] {
      assert names + rest == rest;
    } else {
      var init, last := names[..|names| - 1], names[|names| - 1];
      PassByGroup(up, last, rest, s);
      PassesByGroup(up, init, [last] + rest, Pass(up, last, s));
      assert init + ([last] + rest) == names + rest;
      assert Reversed(names)[1..] == Reversed(init);
    }
  }

  lemma {:induction false} PassesPermute(up: char -> char, visited: seq<string>, s: seq<BootNode>)
    ensures multiset(Passes(up, visited, s)) == multiset(s)
  {
    if visited != [] {
      PassParts(up, visited[0], s);
      PassesPermute(up, visited[1..], Pass(up, visited[0], s));
    }
  }

  function Unlisted(up: char -> char, names: seq<string>, s: seq<BootNode>): seq<BootNode>
  {
    if s == [] then []
    else
      var u := Unlisted(up, names, s[..|s| - 1]);
      if FirstPos(up, names, s[|s| - 1]) == |names| then u + [s[|s| - 1]] else u
  }

  lemma {:induction false} UnlistedConcat(up: char -> char, names: seq<string>, a: seq<BootNode>, b: seq<BootNode>)
    ensures Unlisted(up, names, a + b) == Unlisted(up, names, a) + Unlisted(up, names, b)
  {
    if b == [] {
      assert a + b == a;
    } else {
      assert (a + b)[..|a + b| - 1] == a + b[..|b| - 1];
      UnlistedConcat(up, names, a, b[..|b| - 1]);
    }
  }

  lemma {:induction false} UnlistedAfterPass(up: char -> char, names: seq<string>, name: string, s: seq<BootNode>)
    requires name in names
    ensures Unlisted(up, names, Moved(up, name, s)) == []
    ensures Unlisted(up, names, Kept(up, name, s)) == Unlisted(up, names, s)
  {
    if s != [] {
      var last, init := s[|s| - 1], s[..|s| - 1];
      UnlistedAfterPass(up, names, name, init);
      UnlistedConcat(up, names, [last], Moved(up, name, init));
      UnlistedConcat(up, names, Kept(up, name, init), [last]);
      assert [last][..0] == [];
    }
  }

  /** Drivers whose group is not in the list keep their relative order. */
  lemma {:induction false} UnlistedKeepOrder(up: char -> char, names: seq<string>, visited: seq<string>,
                                             s: seq<BootNode>)
    requires forall k :: 0 <= k < |visited| ==> visited[k] in names
    ensures Unlisted(up, names, Passes(up, visited, s)) == Unlisted(up, names, s)
  {
    if visited != [] {
      UnlistedAfterPass(up, names, visited[0], s);
      UnlistedConcat(up, names, Moved(up, visited[0], s), Kept(up, visited[0], s));
      UnlistedKeepOrder(up, names, visited[1..], Pass(up, visited[0], s));
    }
  }

  lemma {:induction false} PassSnoc(up: char -> char, name: string, s: seq<BootNode>, x: BootNode)
    ensures Pass(up, name, s + [x])
         == if Matches(up, name, x) then [x] + Pass(up, name, s) else Pass(up, name, s) + [x]
  {
    assert (s + [x])[..|s|] == s;
  }

  lemma {:induction false} PassesFromScan(up: char -> char, buf: string, c: nat, s: seq<BootNode>)
    requires 0 < c < |buf|
    ensures var st: int := StartOf(buf, c - 1);
            Passes(up, ScanNames(buf, c), s) ==
            Passes(up, ScanNames(buf, st - 1), Pass(up, buf[st..EndOf(buf, st, c)], s))
  {
    var st: int := StartOf(buf, c - 1);
    var name, rest := buf[st..EndOf(buf, st, c)], ScanNames(buf, st - 1);
    assert ScanNames(buf, c) == [name] + rest;
    assert ([name] + rest)[1..] == rest;
  }

  // Where the next entry is when the part already treated is `p` and what follows is `q`.
  lemma {:induction false} RingSplit<T>(ring: seq<T>, h: T, p: seq<T>, q: seq<T>)
    requires ring == [h] + (p + q) && q != []
    ensures |ring| > |p| + 1 && ring[0] == h && ring[|p| + 1] == q[0]
    ensures if |q| == 1 then |ring| == |p| + 2 else |ring| > |p| + 2 && ring[|p| + 2] == q[1]
  {
  }

  lemma {:induction false} RingShift<T>(ring: seq<T>, h: T, p: seq<T>, q: seq<T>)
    requires ring == [h] + (p + q) && q != []
    ensures ring == [h] + ((p + [q[0]]) + q[1..])
    ensures InsertAt(Without(ring, |p| + 1), 1, q[0]) == [h] + (([q[0]] + p) + q[1..])
  {
    assert p + q == (p + [q[0]]) + q[1..];
    assert Without(ring, |p| + 1) == [h] + (p + q[1..]);
  }

  lemma {:induction false} Shift<T>(p: seq<T>, q: seq<T>)
    requires q != []
    ensures p + q == (p + [q[0]]) + q[1..]
  {
  }

  // ----- Runs of drivers that share a group

  ghost predicate IsRun(up: char -> char, r: seq<BootNode>, lo: nat, hi: nat)
  {
    && 1 <= lo <= hi < |r|
    && (forall k :: lo <= k <= hi ==> SameGroup(up, r[lo], r[k]))
    && (hi + 1 < |r| ==> !SameGroup(up, r[lo], r[hi + 1]))
  }

  /** `r` is the ring `r0` with the runs before position `k` sorted by tag; a run starts at `k`. */
  ghost predicate Resolved(up: char -> char, r0: seq<BootNode>, r: seq<BootNode>, k: nat)
  {
    && 1 <= k <= |r| == |r0| && r[0] == r0[0]
    && (forall i :: k <= i < |r| ==> r[i] == r0[i])
    && (forall i :: 0 <= i < |r| ==> SameGroup(up, r0[i], r[i]))
    && (forall i, j :: 1 <= i < j < k && j == i + 1 && SameGroup(up, r[i], r[j]) ==> r[i].tag <= r[j].tag)
    && (1 < k < |r| ==> !SameGroup(up, r[k - 1], r[k]))
  }

  // What lands in the sorted range comes from that range.
  lemma {:induction false} RunMember(r: seq<BootNode>, t: seq<BootNode>, lo: nat, hi: nat, i: nat) returns (k: nat)
    requires Scanned(r, t, lo, hi, hi) && Distinct(t) && lo <= i <= hi
    ensures lo <= k <= hi && r[k] == t[i]
  {
    assert t[i] in multiset(t) && t[i] in multiset(r);
    k :| 0 <= k < |r| && r[k] == t[i];
  }

  lemma {:induction false} RunKeepsGroups(up: char -> char, r: seq<BootNode>, t: seq<BootNode>, lo: nat, hi: nat,
                                          i: nat)
    requires IsRun(up, r, lo, hi) && Scanned(r, t, lo, hi, hi) && Distinct(t) && lo <= i <= hi
    ensures SameGroup(up, r[lo], t[i]) && SameGroup(up, r[i], t[i])
  {
    var k := RunMember(r, t, lo, hi, i);
  }

  lemma {:induction false} ResolveRun(up: char -> char, r0: seq<BootNode>, r: seq<BootNode>, t: seq<BootNode>,
                                      lo: nat, hi: nat)
    requires Resolved(up, r0, r, lo) && IsRun(up, r, lo, hi) && Scanned(r, t, lo, hi, hi) && Distinct(t)
    ensures Resolved(up, r0, t, hi + 1)
  {
    forall i | lo <= i <= hi ensures SameGroup(up, r[lo], t[i]) && SameGroup(up, r[i], t[i]) {
      RunKeepsGroups(up, r, t, lo, hi, i);
    }
    forall i, j | 1 <= i < j < hi + 1 && j == i + 1 && SameGroup(up, t[i], t[j]) ensures t[i].tag <= t[j].tag {
      if i < lo {
        assert t[i] == r[i];
      } else {
        assert Tags(t)[i] <= Tags(t)[j];
      }
    }
  }

  // ----- End to end

  lemma {:induction false} ReversedMore<T>(s: seq<T>, x: T)
    ensures Reversed([x] + s) == Reversed(s) + [x]
  {
    if s != [] {
      assert ([x] + s)[..|s|] == [x] + s[..|s| - 1];
      ReversedMore(s[..|s| - 1], x);
    }
  }

  lemma {:induction false} ReversedTwice<T>(s: seq<T>)
    ensures Reversed(Reversed(s)) == s
  {
    if s != [] {
      ReversedTwice(s[..|s| - 1]);
      ReversedMore(Reversed(s[..|s| - 1]), s[|s| - 1]);
    }
  }

  /** The names in the order of the list, whatever the buffer holds. */
  function Listed(buf: string, len: nat): seq<string>
    requires len < |buf|
  {
    Reversed(ScanNames(buf, len))
  }

  // The scan never takes an empty name.
  lemma {:induction false} ListedNonEmpty(buf: string, c: int)
    requires c < |buf|
    ensures NoneEmpty(Reversed(ScanNames(buf, c)))
    decreases c
  {
    if c > 0 {
      var st: int := StartOf(buf, c - 1);
      ListedNonEmpty(buf, st - 1);
      ReversedMore(ScanNames(buf, st - 1), buf[st..EndOf(buf, st, c)]);
    }
  }

  lemma {:induction false} SameGroupSamePos(up: char -> char, names: seq<string>, a: BootNode, b: BootNode)
    requires NoneEmpty(names) && SameGroup(up, a, b)
    ensures FirstPos(up, names, a) == FirstPos(up, names, b)
  {
    if names != [] {
      SameGroupSamePos(up, names[1..], a, b);
    }
  }

  lemma {:induction false} SamePosSameGroup(up: char -> char, names: seq<string>, a: BootNode, b: BootNode)
    requires FirstPos(up, names, a) == FirstPos(up, names, b) < |names|
    ensures SameGroup(up, a, b)
  {
  }

  lemma {:induction false} TagsAscend(up: char -> char, names: seq<string>, s: seq<BootNode>, i: nat, j: nat)
    requires ByGroup(up, names, s) && RunsSorted(up, s) && i <= j < |s|
    requires FirstPos(up, names, s[i]) == FirstPos(up, names, s[j]) < |names|
    ensures s[i].tag <= s[j].tag
    decreases j - i
  {
    if i < j {
      assert FirstPos(up, names, s[i]) <= FirstPos(up, names, s[j - 1]) <= FirstPos(up, names, s[j]);
      TagsAscend(up, names, s, i, j - 1);
      SamePosSameGroup(up, names, s[j - 1], s[j]);
    }
  }

  lemma {:induction false} SameGroupsByGroup(up: char -> char, names: seq<string>, s: seq<BootNode>, t: seq<BootNode>)
    requires NoneEmpty(names) && ByGroup(up, names, s) && SameGroups(up, s, t)
    ensures ByGroup(up, names, t)
  {
    forall i | 0 <= i < |s| ensures FirstPos(up, names, s[i]) == FirstPos(up, names, t[i]) {
      SameGroupSamePos(up, names, s[i], t[i]);
    }
  }

  /** Sorting each run by tag turns an order by group into an order by (group position, tag). */
  lemma {:induction false} RunsThenBootOrdered(up: char -> char, names: seq<string>, t: seq<BootNode>)
    requires ByGroup(up, names, t) && RunsSorted(up, t)
    ensures BootOrdered(up, names, t)
  {
    forall i, j | 0 <= i < j < |t| && FirstPos(up, names, t[i]) == FirstPos(up, names, t[j]) < |names|
      ensures t[i].tag <= t[j].tag
    {
      TagsAscend(up, names, t, i, j);
    }
  }

  lemma {:induction false} TailMultiset<T>(r: seq<T>, r0: seq<T>)
    requires |r| >= 1 && |r0| >= 1 && r[0] == r0[0] && multiset(r) == multiset(r0)
    ensures multiset(r[1..]) == multiset(r0[1..])
  {
    assert r == [r[0]] + r[1..] && r0 == [r0[0]] + r0[1..];
    assert multiset(r[1..]) == multiset(r) - multiset{r[0]} && multiset(r0[1..]) == multiset(r0) - multiset{r0[0]};
  }

  lemma {:induction false} ResolvedDrivers(up: char -> char, r0: seq<BootNode>, r: seq<BootNode>)
    requires |r0| >= 1 && Resolved(up, r0, r, |r|)
    ensures SameGroups(up, r0[1..], r[1..]) && RunsSorted(up, r[1..])
  {
  }
}
