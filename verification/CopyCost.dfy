/** How many cells the copy of a tree of keys asks for, and what a copy that does not get one of them leaves
    behind. */
module CopyCost {
  import opened Options
  import opened HiveCells

  /** What the hive answers to a request for room: it is there, it is elsewhere, or there is none. */
  datatype Answer = Fits | Moves | Full

  /** The answers, request by request. */
  type World = nat -> Answer

  /** The next `n` requests from `t` on are granted. */
  ghost predicate Room(world: World, t: nat, n: nat)
  {
    forall i :: t <= i < t + n ==> !world(i).Full?
  }

  /** The first of the next `n` requests that is refused, or `n`. */
  ghost function FirstFull(world: World, t: nat, n: nat): (j: nat)
    ensures j <= n && Room(world, t, j) && (j < n ==> world(t + j).Full?)
    decreases n
  {
    if n == 0 then 0
    else if world(t).Full? then 0
    else 1 + FirstFull(world, t + 1, n - 1)
  }

  lemma {:induction false} RoomSplit(world: World, t: nat, n: nat, m: nat)
    ensures Room(world, t, n + m) <==> Room(world, t, n) && Room(world, t + n, m)
  {
  }

  lemma {:induction false} RoomOne(world: World, t: nat)
    ensures Room(world, t, 1) <==> !world(t).Full?
  {
  }

  lemma {:induction false} FirstFullIs(world: World, t: nat, n: nat, j: nat)
    requires j < n && Room(world, t, j) && world(t + j).Full?
    ensures FirstFull(world, t, n) == j
    decreases j
  {
    if j > 0 {
      FirstFullIs(world, t + 1, n - 1, j - 1);
    }
  }

  /** The first refusal is where it is found in parts. */
  lemma {:induction false} FirstFullLater(world: World, t: nat, before: nat, n: nat, m: nat)
    requires Room(world, t, before) && !Room(world, t + before, n) && before + n <= m
    ensures FirstFull(world, t, m) == before + FirstFull(world, t + before, n) < before + n
  {
    var r := FirstFull(world, t + before, n);
    RoomSplit(world, t, before, r);
    assert t + (before + r) == t + before + r;
    FirstFullIs(world, t, m, before + r);
  }

  // ----- Requests of a copy

  /** A cell for the value, and one for longer data. */
  function ValueCost(v: Value): nat
  {
    if RealLength(v.dataLength) > SMALL then 2 else 1
  }

  /** For each value also room in the list. */
  ghost function ListCost(a: Cells, list: seq<nat>): nat
    requires AreValues(a, list)
  {
    if list == [] then 0
    else ListCost(a, list[..|list| - 1]) + ValueCost(a[list[|list| - 1]].value) + 1
  }

  function ClassCost(node: Node): nat
  {
    (if node.classLength > 0 then 1 else 0) + (if node.security.Some? then 1 else 0)
  }

  ghost function KeyCost(a: Cells, k: nat): nat
    requires KeyOk(a, k)
  {
    1 + (ClassCost(a[k].node) + ListCost(a, ListOf(a, a[k].node.values)))
  }

  lemma {:induction false} KidIsTree(a: Cells, k: nat, h: nat, i: nat)
    requires WellFormed(a, k, h) && i < |Kids(a[k].node)|
    ensures h > 0 && WellFormed(a, Kids(a[k].node)[i], h - 1) && KeyOk(a, Kids(a[k].node)[i])
  {
    var kid := Kids(a[k].node)[i];
  }

  ghost function TreeCost(a: Cells, k: nat, h: nat): nat
    requires WellFormed(a, k, h)
    decreases h, 1, 0
  {
    KeyCost(a, k) + KidsCost(a, k, h, |Kids(a[k].node)|)
  }

  /** The first `i` subkeys, each with room in the list of subkeys. */
  ghost function KidsCost(a: Cells, k: nat, h: nat, i: nat): nat
    requires WellFormed(a, k, h) && i <= |Kids(a[k].node)|
    decreases h, 0, i
  {
    if i == 0 then 0
    else
      KidIsTree(a, k, h, i - 1);
      KidsCost(a, k, h, i - 1) + TreeCost(a, Kids(a[k].node)[i - 1], h - 1) + 1
  }

  lemma {:induction false} KidsCostGrows(a: Cells, k: nat, h: nat, i: nat, j: nat)
    requires WellFormed(a, k, h) && i <= j <= |Kids(a[k].node)|
    ensures KidsCost(a, k, h, i) <= KidsCost(a, k, h, j)
    decreases j - i
  {
    if i < j {
      KidsCostGrows(a, k, h, i, j - 1);
    }
  }

  // ----- What a refusal leaves behind

  /** A key of one cell. */
  ghost predicate Bare(a: Cells, k: nat)
    requires KeyOk(a, k)
  {
    var node := a[k].node;
    node.classLength == 0 && node.security.None? && ListOf(a, node.values) == [] && Kids(node) == []
  }

  /** Refusing request number `j` leaves no cell behind: it is the key's own, or belongs to the first subkey of a
      key without values and leaves nothing behind there. */
  ghost predicate Clean(a: Cells, k: nat, h: nat, j: nat)
    requires WellFormed(a, k, h)
    decreases h, 1
  {
    || j < KeyCost(a, k)
    || (&& ListOf(a, a[k].node.values) == [] && Kids(a[k].node) != []
        && CleanBelow(a, k, h, 0, j - KeyCost(a, k)))
  }

  /** The same for request number `r` of the subkey at `i`; the last one is for room in the list of subkeys, and
      if it is refused only the subkey's own cell is freed. */
  ghost predicate CleanBelow(a: Cells, k: nat, h: nat, i: nat, r: nat)
    requires WellFormed(a, k, h) && i < |Kids(a[k].node)|
    decreases h, 0
  {
    KidIsTree(a, k, h, i);
    var kid := Kids(a[k].node)[i];
    if r < TreeCost(a, kid, h - 1) then Clean(a, kid, h - 1, r) else r == TreeCost(a, kid, h - 1) && Bare(a, kid)
  }

  /** No refusal can leave cells behind: there is no subkey, or the key has no values and one subkey of one
      cell. */
  ghost predicate Safe(a: Cells, k: nat, h: nat)
    requires WellFormed(a, k, h)
  {
    var kids := Kids(a[k].node);
    || kids == []
    || (ListOf(a, a[k].node.values) == [] && |kids| == 1 && (KidIsTree(a, k, h, 0); Bare(a, kids[0])))
  }

  lemma {:induction false} SafeIsClean(a: Cells, k: nat, h: nat, j: nat)
    requires WellFormed(a, k, h) && j < TreeCost(a, k, h) && Safe(a, k, h)
    ensures Clean(a, k, h, j)
  {
    if Kids(a[k].node) != [] {
      KidIsTree(a, k, h, 0);
      var kid := Kids(a[k].node)[0];
      assert TreeCost(a, kid, h - 1) == KeyCost(a, kid);
      assert KidsCost(a, k, h, 1) == KidsCost(a, k, h, 0) + TreeCost(a, kid, h - 1) + 1;
    }
  }

  /** A request that leaves cells behind when it is refused: room for the first or the second subkey. */
  lemma {:induction false} UnsafeRequest(a: Cells, k: nat, h: nat) returns (j: nat)
    requires WellFormed(a, k, h) && !Safe(a, k, h)
    ensures j < TreeCost(a, k, h) && !Clean(a, k, h, j)
  {
    var kids := Kids(a[k].node);
    var i := if |kids| == 1 then 1 else 2;
    KidIsTree(a, k, h, i - 1);
    KidIsTree(a, k, h, 0);
    j := KeyCost(a, k) + KidsCost(a, k, h, i) - 1;
    KidsCostGrows(a, k, h, i, |kids|);
    KidsCostGrows(a, k, h, 1, i);
    assert KidsCost(a, k, h, 1) == KidsCost(a, k, h, 0) + TreeCost(a, kids[0], h - 1) + 1;
  }

  /** Some answers make the copy leave cells behind. */
  ghost predicate LeavesCells(world: World, t: nat, a: Cells, k: nat, h: nat)
    requires WellFormed(a, k, h)
  {
    !Room(world, t, TreeCost(a, k, h)) && !Clean(a, k, h, FirstFull(world, t, TreeCost(a, k, h)))
  }

  /** Only the request at `j` is refused. */
  function OneFull(j: nat): World
  {
    i => if i == j then Full else Fits
  }

  lemma {:induction false} OneFullLeaves(a: Cells, k: nat, h: nat, j: nat)
    requires WellFormed(a, k, h) && j < TreeCost(a, k, h) && !Clean(a, k, h, j)
    ensures LeavesCells(OneFull(j), 0, a, k, h)
  {
    var world, n := OneFull(j), TreeCost(a, k, h);
    assert world(0 + j).Full?;
    FirstFullIs(world, 0, n, j);
  }

  /** No answers make the copy leave cells behind if and only if the tree is safe. */
  lemma {:induction false} SafeExactly(a: Cells, k: nat, h: nat)
    requires WellFormed(a, k, h)
    ensures (forall world: World, t: nat :: !LeavesCells(world, t, a, k, h)) <==> Safe(a, k, h)
  {
    hide WellFormed, KeyOk, TreeCost, Clean, Safe;
    if Safe(a, k, h) {
      forall world: World, t: nat ensures !LeavesCells(world, t, a, k, h) {
        var n := TreeCost(a, k, h);
        var j := FirstFull(world, t, n);
        if j < n {
          SafeIsClean(a, k, h, j);
        }
      }
    } else {
      var j := UnsafeRequest(a, k, h);
      OneFullLeaves(a, k, h, j);
    }
  }

  // ----- New cells change none of this

  lemma {:induction false} BareFrame(a: Cells, s: Cells, k: nat)
    requires KeyOk(a, k) && Agree(a, s, {})
    ensures KeyOk(s, k) && s[k] == a[k] && (Bare(s, k) <==> Bare(a, k))
  {
    hide KeyOk;
    SourceStays(a, s, k);
    KeyOfKey(a, k);
  }

  lemma {:induction false} ListCostFrame(a: Cells, s: Cells, list: seq<nat>)
    requires AreValues(a, list) && AreValues(s, list) && Agree(a, s, {})
    ensures ListCost(s, list) == ListCost(a, list)
  {
    if list != [] {
      ListCostFrame(a, s, list[..|list| - 1]);
      assert IsValue(a, list[|list| - 1]);
    }
  }

  lemma {:induction false} KeyCostFrame(a: Cells, s: Cells, k: nat)
    requires KeyOk(a, k) && KeyOk(s, k) && Agree(a, s, {})
    ensures KeyCost(s, k) == KeyCost(a, k) && s[k] == a[k]
  {
    SourceStays(a, s, k);
    ListCostFrame(a, s, ListOf(a, a[k].node.values));
  }

  lemma {:induction false} TreeCostFrame(a: Cells, s: Cells, k: nat, h: nat)
    requires WellFormed(a, k, h) && WellFormed(s, k, h) && Agree(a, s, {})
    ensures TreeCost(s, k, h) == TreeCost(a, k, h) && s[k] == a[k]
    decreases h, 1, 0
  {
    KeyCostFrame(a, s, k);
    KidsCostFrame(a, s, k, h, |Kids(a[k].node)|);
  }

  lemma {:induction false} KidsCostFrame(a: Cells, s: Cells, k: nat, h: nat, i: nat)
    requires WellFormed(a, k, h) && WellFormed(s, k, h) && Agree(a, s, {}) && s[k] == a[k] && i <= |Kids(a[k].node)|
    ensures KidsCost(s, k, h, i) == KidsCost(a, k, h, i)
    decreases h, 0, i
  {
    if i > 0 {
      KidIsTree(a, k, h, i - 1);
      KidIsTree(s, k, h, i - 1);
      KidsCostFrame(a, s, k, h, i - 1);
      TreeCostFrame(a, s, Kids(a[k].node)[i - 1], h - 1);
    }
  }

  lemma {:induction false} CleanFrame(a: Cells, s: Cells, k: nat, h: nat, j: nat)
    requires WellFormed(a, k, h) && WellFormed(s, k, h) && Agree(a, s, {})
    ensures Clean(s, k, h, j) <==> Clean(a, k, h, j)
    decreases h
  {
    KeyCostFrame(a, s, k);
    SourceStays(a, s, k);
    if Kids(a[k].node) != [] {
      KidIsTree(a, k, h, 0);
      KidIsTree(s, k, h, 0);
      var kid := Kids(a[k].node)[0];
      BareFrame(a, s, kid);
      TreeCostFrame(a, s, kid, h - 1);
      if KeyCost(a, k) <= j {
        CleanFrame(a, s, kid, h - 1, j - KeyCost(a, k));
      }
    }
  }
}
