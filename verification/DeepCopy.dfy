/** Copying a tree of registry keys into a hive, possibly the one it is in. Any allocation may fail. */
module DeepCopy {
  import opened Options
  import opened HiveCells
  import opened CopyCost
  import opened CopyTrail

  // A value appended to a list: the list's cell is new or the same.
  lemma {:induction false} Appended(a: Cells, b: Cells, l: Option<nat>, n: nat, v: nat, others: set<nat>)
    requires IsList(a, l) && IsValue(a, v) && ListOutside(a, l, others) && ValueOutside(a, v, others)
    requires n in b && b[n] == ListCell(ListOf(a, l) + [v]) && n !in others
    requires Agree(a, b, if l.Some? then {l.value} else {})
    requires n !in a || l == Some(n)
    ensures IsList(b, Some(n)) && ListOutside(b, Some(n), others)
    ensures Meanings(b, ListOf(b, Some(n))) == Meanings(a, ListOf(a, l)) + [MeaningOf(a, v)]
  {
    var list := ListOf(a, l) + [v];
    forall i | 0 <= i < |list|
      ensures IsValue(b, list[i]) && ValueOutside(b, list[i], others) && MeaningOf(b, list[i]) == MeaningOf(a, list[i])
    {
      ValueKept(a, b, list[i], l);
    }
  }

  // A list cell is no part of a value.
  lemma {:induction false} ValueKept(a: Cells, b: Cells, c: nat, l: Option<nat>)
    requires IsValue(a, c) && (l.Some? ==> l.value in a && a[l.value].ListCell?)
    requires Agree(a, b, if l.Some? then {l.value} else {})
    ensures IsValue(b, c) && MeaningOf(b, c) == MeaningOf(a, c) && b[c] == a[c]
  {
    var v := a[c].value;
    if !IsSmall(v.dataLength) && v.dataLength > 0 {
      assert v.data.cell in a;
    }
  }

  lemma {:induction false} AgreeTransitive(a: Cells, b: Cells, c: Cells)
    requires Agree(a, b, {}) && Agree(b, c, {})
    ensures Agree(a, c, {})
  {
  }

  lemma {:induction false} AgreeBut(a: Cells, b: Cells, c: Cells, l: Option<nat>)
    requires Agree(a, b, {}) && Agree(b, c, if l.Some? then {l.value} else {}) && (l.Some? ==> l.value !in a)
    ensures Agree(a, c, {})
  {
  }

  // Writing a key cell leaves the value lists alone.
  lemma {:induction false} KeyWritten(a: Cells, b: Cells, n: nat, l: Option<nat>, others: set<nat>)
    requires n in a && IsList(a, l) && ListOutside(a, l, others) && n in others && Agree(a, b, {n})
    ensures IsList(b, l) && ListOutside(b, l, others) && Meanings(b, ListOf(b, l)) == Meanings(a, ListOf(a, l))
  {
    ListFrame(a, b, l, others);
  }

  lemma {:induction false} ListFewer(a: Cells, l: Option<nat>, others: set<nat>, less: set<nat>)
    requires IsList(a, l) && ListOutside(a, l, others) && less <= others
    ensures ListOutside(a, l, less)
  {
  }

  ghost predicate Inserted(was: seq<nat>, now: seq<nat>, i: nat, kid: nat)
  {
    i <= |was| && now == was[..i] + [kid] + was[i..]
  }

  /** The copy `n` of `k` with the first `i` subkeys copied. `old` were the cells before, `base` those when
      the copying of subkeys began. */
  ghost predicate Partial(a: Cells, b: Cells, k: nat, n: nat, h: nat, parent: Option<nat>, base: set<nat>,
                          before: set<nat>, i: nat)
  {
    && WellFormed(a, k, h) && i <= |Kids(a[k].node)|
    && KeyOk(b, n) && Local(b, n) == Local(a, k) && KeyOutside(b, n, before) && n in base && n !in before
    && before <= base
    && b[n].node.parent == parent
    && b[n].node.flags == Flags(b[n].node.flags.compressedName, parent.None?, parent.None?, 0)
    && var kids := Kids(b[n].node);
       && AreTrees(b, kids, h) && AllOutside(b, kids, h, base) && AllLinked(b, kids, h, n)
       && multiset(Denotes(b, kids, h)) == multiset(Denotes(a, Kids(a[k].node), h)[..i])
  }

  lemma {:induction false} KeyOfTree(a: Cells, k: nat, h: nat)
    requires WellFormed(a, k, h)
    ensures KeyOk(a, k) && k in a && a[k].KeyCell?
  {
  }

  lemma {:induction false} KidOfTree(a: Cells, s: Cells, k: nat, h: nat, i: nat)
    requires WellFormed(a, k, h) && Agree(a, s, {}) && k in a && a[k].KeyCell? && i < |Kids(a[k].node)|
    ensures h > 0 && WellFormed(a, Kids(a[k].node)[i], h - 1) && WellFormed(s, Kids(a[k].node)[i], h - 1)
    ensures Denote(s, Kids(a[k].node)[i], h - 1) == Denote(a, Kids(a[k].node)[i], h - 1)
  {
    var kid := Kids(a[k].node)[i];
    OutsideNothing(a, kid, h - 1);
    TreeFrame(a, s, kid, h - 1, {});
  }

  lemma {:induction false} PartialStart(a: Cells, b: Cells, k: nat, n: nat, h: nat, parent: Option<nat>,
                                        base: set<nat>, before: set<nat>)
    requires WellFormed(a, k, h) && KeyOk(b, n) && Local(b, n) == Local(a, k) && KeyOutside(b, n, before) && n in base
    requires n !in before
    requires before <= base && Kids(b[n].node) == [] && b[n].node.parent == parent
    requires b[n].node.flags == Flags(b[n].node.flags.compressedName, parent.None?, parent.None?, 0)
    ensures Partial(a, b, k, n, h, parent, base, before, 0)
  {
  }

  lemma {:induction false} PartialKey(a: Cells, b: Cells, k: nat, n: nat, h: nat, parent: Option<nat>, base: set<nat>,
                                      before: set<nat>, i: nat)
    requires Partial(a, b, k, n, h, parent, base, before, i)
    ensures n in b && b[n].KeyCell? && n in base && n !in before
  {
  }

  lemma {:induction false} LinkedsFrame(a: Cells, b: Cells, kids: seq<nat>, h: nat, others: set<nat>, parent: nat)
    requires Agree(a, b, others) && AreTrees(a, kids, h) && AllOutside(a, kids, h, others)
    requires AllLinked(a, kids, h, parent)
    ensures AreTrees(b, kids, h) && AllLinked(b, kids, h, parent)
  {
    TreesFrame(a, b, kids, h, others);
    forall i | 0 <= i < |kids| ensures Linked(b, kids[i], h - 1, Some(parent)) {
      LinkedFrame(a, b, kids[i], h - 1, others, Some(parent));
    }
  }

  lemma {:induction false} PartialFrame(a: Cells, b: Cells, c: Cells, k: nat, n: nat, h: nat, parent: Option<nat>,
                                        base: set<nat>, before: set<nat>, i: nat)
    requires Partial(a, b, k, n, h, parent, base, before, i) && Agree(b, c, {})
    ensures Partial(a, c, k, n, h, parent, base, before, i)
  {
    KeyFrame(b, c, n, before);
    TreesFrame(b, c, Kids(b[n].node), h, base);
    LinkedsFrame(b, c, Kids(b[n].node), h, base, n);
  }

  lemma {:induction false} PartialAdd(a: Cells, b: Cells, c: Cells, d: Cells, k: nat, n: nat, h: nat,
                                      parent: Option<nat>, base: set<nat>, before: set<nat>, i: nat, kid: nat)
    requires Partial(a, c, k, n, h, parent, base, before, i) && n in d && d == c[n := d[n]] && d[n].KeyCell?
    requires c[n].KeyCell?
    requires d[n].node == c[n].node.(stable := d[n].node.stable, unstable := d[n].node.unstable)
    requires exists j :: Inserted(Kids(c[n].node), Kids(d[n].node), j, kid)
    requires i < |Kids(a[k].node)| && h > 0 && WellFormed(a, Kids(a[k].node)[i], h - 1) && base <= b.Keys
    requires WellFormed(c, kid, h - 1) && Outside(c, kid, h - 1, b.Keys) && Linked(c, kid, h - 1, Some(n))
    requires Denote(c, kid, h - 1) == Denote(a, Kids(a[k].node)[i], h - 1)
    ensures Partial(a, d, k, n, h, parent, base, before, i + 1)
  {
    var was, now := Kids(c[n].node), Kids(d[n].node);
    var j :| Inserted(was, now, j, kid);
    OutsideFewer(c, kid, h - 1, b.Keys, base);
    TreeFrame(c, d, kid, h - 1, base);
    LinkedFrame(c, d, kid, h - 1, base, Some(n));
    TreesFrame(c, d, was, h, base);
    LinkedsFrame(c, d, was, h, base, n);
    NodeRewritten(c, d, n, before);
    InsertedKids(d, was, now, j, kid, h, base, n);
    Taken(Denotes(a, Kids(a[k].node), h), i);
  }

  lemma {:induction false} NodeRewritten(c: Cells, d: Cells, n: nat, before: set<nat>)
    requires KeyOk(c, n) && KeyOutside(c, n, before) && n in d && d == c[n := d[n]] && d[n].KeyCell?
    requires d[n].node == c[n].node.(stable := d[n].node.stable, unstable := d[n].node.unstable)
    ensures KeyOk(d, n) && KeyOutside(d, n, before) && Local(d, n) == Local(c, n)
  {
    var l := c[n].node.values;
    if l.Some? {
      var list := c[l.value].cells;
      forall i | 0 <= i < |list|
        ensures IsValue(d, list[i]) && MeaningOf(d, list[i]) == MeaningOf(c, list[i]) && d[list[i]] == c[list[i]]
      {
      }
    }
  }

  lemma {:induction false} InsertedKids(d: Cells, was: seq<nat>, now: seq<nat>, j: nat, kid: nat, h: nat,
                                        base: set<nat>, n: nat)
    requires Inserted(was, now, j, kid) && AreTrees(d, was, h) && AllOutside(d, was, h, base) && AllLinked(d, was, h, n)
    requires h > 0 && WellFormed(d, kid, h - 1) && Outside(d, kid, h - 1, base) && Linked(d, kid, h - 1, Some(n))
    ensures AreTrees(d, now, h) && AllOutside(d, now, h, base) && AllLinked(d, now, h, n)
    ensures multiset(Denotes(d, now, h)) == multiset(Denotes(d, was, h)) + multiset{Denote(d, kid, h - 1)}
  {
    hide WellFormed, Outside, Linked, Denote;
    forall i | 0 <= i < |now| ensures now[i] == if i < j then was[i] else if i == j then kid else was[i - 1] {
    }
    hide Inserted;
    InsertedAt(Denotes(d, was, h), Denotes(d, now, h), j, Denote(d, kid, h - 1));
  }

  lemma {:induction false} InsertedAt(s: seq<KeyTree>, t: seq<KeyTree>, j: nat, x: KeyTree)
    requires |t| == |s| + 1 && j <= |s| && t[j] == x
    requires (forall i :: 0 <= i < j ==> t[i] == s[i]) && (forall i :: j < i < |t| ==> t[i] == s[i - 1])
    ensures multiset(t) == multiset(s) + multiset{x}
  {
    assert t[..j] == s[..j] && t[j + 1..] == s[j..];
    assert t == t[..j] + [x] + t[j + 1..] && s == s[..j] + s[j..];
  }

  lemma {:induction false} Taken(s: seq<KeyTree>, i: nat)
    requires i < |s|
    ensures multiset(s[..i + 1]) == multiset(s[..i]) + multiset{s[i]}
  {
    assert s[..i + 1] == s[..i] + [s[i]];
  }

  lemma {:induction false} PartialEnd(a: Cells, b: Cells, k: nat, n: nat, h: nat, parent: Option<nat>, base: set<nat>,
                                      before: set<nat>)
    requires WellFormed(a, k, h) && Partial(a, b, k, n, h, parent, base, before, |Kids(a[k].node)|)
    ensures WellFormed(b, n, h) && Denote(b, n, h) == Denote(a, k, h) && Outside(b, n, h, before)
    ensures Linked(b, n, h, parent)
  {
    var kids := Kids(b[n].node);
    var s := Denotes(a, Kids(a[k].node), h);
    assert s[..|s|] == s;
    forall i | 0 <= i < |kids| ensures Outside(b, kids[i], h - 1, before) {
      OutsideFewer(b, kids[i], h - 1, base, before);
    }
  }

  // The parts of a copied key make up its meaning.
  lemma {:induction false} KeyBuilt(a: Cells, b: Cells, k: nat, n: nat, node: Node, before: set<nat>)
    requires KeyOk(a, k) && n in b && b[n] == KeyCell(node) && n !in before
    requires var was := a[k].node;
             && node.name == was.name && node.flags.compressedName == was.flags.compressedName
             && node.classLength == was.classLength
             && (node.classLength > 0 ==>
                   node.cls.Some? && node.cls.value in b && node.cls.value !in before &&
                       b[node.cls.value] == a[was.cls.value])
             && node.security.Some? == was.security.Some?
             && (node.security.Some? ==>
                   node.security.value in b && node.security.value !in before &&
                       b[node.security.value] == a[was.security.value])
             && IsList(b, node.values) && ListOutside(b, node.values, before)
             && Meanings(b, ListOf(b, node.values)) == Meanings(a, ListOf(a, was.values))
    ensures KeyOk(b, n) && Local(b, n) == Local(a, k) && KeyOutside(b, n, before)
  {
    hide IsList, ListOutside, ListOf, Meanings;
  }

  // ----- What a copy that fails leaves behind

  /** The cells that the copy of a key frees when it fails. */
  function Own(n: nat, cls: Option<nat>, security: Option<nat>): set<nat>
  {
    {n} + Besides(cls, security)
  }

  function Besides(cls: Option<nat>, security: Option<nat>): set<nat>
  {
    (if cls.Some? then {cls.value} else {}) + (if security.Some? then {security.value} else {})
  }

  /** `n` is a copy of `k` without its subkeys; the cells are its own and those of its values. */
  ghost predicate KeyCopied(a: Cells, o: Cells, c: Cells, k: nat, n: nat, cls: Option<nat>, security: Option<nat>)
    requires KeyOk(a, k)
  {
    && Own(n, cls, security) !! o.Keys && o.Keys + Own(n, cls, security) <= c.Keys
    && (cls.Some? <==> a[k].node.classLength > 0) && (security.Some? <==> a[k].node.security.Some?)
    && (cls.Some? ==> cls.value != n) && (security.Some? ==> security.value != n)
    && (c.Keys == o.Keys + Own(n, cls, security) <==> ListOf(a, a[k].node.values) == [])
  }

  /** What the refusal of request `r` of the subkey at `i` leaves behind shows in the cells. */
  ghost predicate FailedHere(a: Cells, b: set<nat>, c: set<nat>, k: nat, h: nat, i: nat, r: nat)
    requires WellFormed(a, k, h) && i < |Kids(a[k].node)|
  {
    b <= c && (c == b <==> CleanBelow(a, k, h, i, r))
  }

  // `j` is the request refused, `r` its number among those of the subkey at `i`.
  lemma {:induction false} Abandoned(a: Cells, o: Cells, c0: Cells, b: set<nat>, c: set<nat>, k: nat, h: nat, n: nat,
                                     cls: Option<nat>, security: Option<nat>, i: nat, r: nat, j: nat)
    requires WellFormed(a, k, h) && KeyCopied(a, o, c0, k, n, cls, security) && i < |Kids(a[k].node)|
    requires c0.Keys <= b && (i == 0 <==> b == c0.Keys) && FailedHere(a, b, c, k, h, i, r)
    requires j == KeyCost(a, k) + KidsCost(a, k, h, i) + r
    ensures c - Own(n, cls, security) == o.Keys <==> Clean(a, k, h, j)
  {
    KidIsTree(a, k, h, 0);
    if i > 0 {
      KidsCostGrows(a, k, h, 1, i);
      assert KidsCost(a, k, h, 1) == KidsCost(a, k, h, 0) + TreeCost(a, Kids(a[k].node)[0], h - 1) + 1;
    }
    hide WellFormed, KeyOk, KidsCost, TreeCost;
    LeftBehind(o.Keys, Own(n, cls, security), c0.Keys, b, c);
  }

  lemma {:induction false} BareCopied(a: Cells, o: Cells, c0: Cells, c: set<nat>, k: nat, n: nat, cls: Option<nat>,
                                      security: Option<nat>)
    requires KeyOk(a, k) && KeyCopied(a, o, c0, k, n, cls, security)
    requires c0.Keys <= c && (|Kids(a[k].node)| == 0 <==> c == c0.Keys)
    ensures c == o.Keys + {n} <==> Bare(a, k)
  {
    if c == o.Keys + {n} {
      assert Own(n, cls, security) <= c && cls.None? && security.None?;
      assert c0.Keys == o.Keys + {n};
    }
  }

  lemma {:induction false} OwnIsNew(a: Cells, o: Cells, c: Cells, k: nat, n: nat, cls: Option<nat>,
                                    security: Option<nat>)
    requires KeyOk(a, k) && KeyCopied(a, o, c, k, n, cls, security)
    ensures Own(n, cls, security) !! o.Keys
  {
  }

  // The copy of a subkey failed; `s` are the cells of the source at that time.
  lemma {:induction false} SubKeyFailed(world: World, t: nat, a: Cells, s: Cells, b: Cells, c: Cells, k: nat, h: nat,
                                        i: nat)
    requires WellFormed(a, k, h) && i < |Kids(a[k].node)| && h > 0 && Agree(b, c, {}) && Agree(a, s, {})
    requires WellFormed(s, Kids(a[k].node)[i], h - 1) && !Room(world, t, TreeCost(s, Kids(a[k].node)[i], h - 1))
    requires (c == b <==> !LeavesCells(world, t, s, Kids(a[k].node)[i], h - 1))
    ensures FailedHere(a, b.Keys, c.Keys, k, h, i, FirstFull(world, t, TreeCost(s, Kids(a[k].node)[i], h - 1) + 1))
  {
    var kid := Kids(a[k].node)[i];
    var cost := TreeCost(s, kid, h - 1);
    FirstFullLater(world, t, 0, cost, cost + 1);
    SameIffKeys(b, c);
    KidIsTree(a, k, h, i);
    CleanFrame(a, s, kid, h - 1, FirstFull(world, t, cost));
    TreeCostFrame(a, s, kid, h - 1);
  }

  // Adding the copy of a subkey failed.
  lemma {:induction false} AddingFailed(a: Cells, s: Cells, b: Cells, c: Cells, k: nat, h: nat, i: nat, kid: nat)
    requires WellFormed(a, k, h) && i < |Kids(a[k].node)| && h > 0 && Agree(b, c, {}) && Agree(a, s, {})
    requires WellFormed(s, Kids(a[k].node)[i], h - 1) && kid !in b && kid in c
    requires c.Keys == b.Keys + {kid} <==> Bare(s, Kids(a[k].node)[i])
    ensures FailedHere(a, b.Keys, (c - {kid}).Keys, k, h, i, TreeCost(s, Kids(a[k].node)[i], h - 1))
  {
    KidIsTree(a, k, h, i);
    BareFrame(a, s, Kids(a[k].node)[i]);
    TreeCostFrame(a, s, Kids(a[k].node)[i], h - 1);
    assert (c - {kid}).Keys == c.Keys - {kid};
  }

  // The requests of one subkey, and of the subkeys up to it.
  lemma {:induction false} KidCost(a: Cells, s: Cells, k: nat, h: nat, i: nat)
    requires WellFormed(a, k, h) && i < |Kids(a[k].node)| && Agree(a, s, {})
    requires h > 0 && WellFormed(s, Kids(a[k].node)[i], h - 1)
    ensures KidsCost(a, k, h, i + 1) == KidsCost(a, k, h, i) + (TreeCost(s, Kids(a[k].node)[i], h - 1) + 1)
    ensures KeyCost(a, k) + KidsCost(a, k, h, i + 1) <= TreeCost(a, k, h)
  {
    KidIsTree(a, k, h, i);
    TreeCostFrame(a, s, Kids(a[k].node)[i], h - 1);
    KidsCostGrows(a, k, h, i + 1, |Kids(a[k].node)|);
  }

  lemma {:induction false} KidRoom(world: World, t: nat, a: Cells, s: Cells, k: nat, h: nat, i: nat)
    requires WellFormed(a, k, h) && i < |Kids(a[k].node)| && Agree(a, s, {})
    requires h > 0 && WellFormed(s, Kids(a[k].node)[i], h - 1)
    requires Room(world, t, KeyCost(a, k) + KidsCost(a, k, h, i))
    ensures KidsCost(a, k, h, i + 1) == KidsCost(a, k, h, i) + (TreeCost(s, Kids(a[k].node)[i], h - 1) + 1)
    ensures Room(world, t, KeyCost(a, k) + KidsCost(a, k, h, i + 1)) <==>
              Room(world, t + (KeyCost(a, k) + KidsCost(a, k, h, i)), TreeCost(s, Kids(a[k].node)[i], h - 1) + 1)
  {
    KidCost(a, s, k, h, i);
    RoomSplit(world, t, KeyCost(a, k) + KidsCost(a, k, h, i), TreeCost(s, Kids(a[k].node)[i], h - 1) + 1);
  }

  lemma {:induction false} TreeCostIs(a: Cells, k: nat, h: nat)
    requires WellFormed(a, k, h)
    ensures KidsCost(a, k, h, 0) == 0 && KeyCost(a, k) <= TreeCost(a, k, h)
    ensures TreeCost(a, k, h) == KeyCost(a, k) + KidsCost(a, k, h, |Kids(a[k].node)|)
  {
  }

  // A refusal of one of the key's own requests leaves nothing behind.
  lemma {:induction false} KeyFailed(world: World, t: nat, a: Cells, k: nat, h: nat)
    requires WellFormed(a, k, h) && !Room(world, t, KeyCost(a, k))
    ensures !Room(world, t, TreeCost(a, k, h)) && !LeavesCells(world, t, a, k, h)
  {
    TreeCostIs(a, k, h);
    RoomSplit(world, t, KeyCost(a, k), TreeCost(a, k, h) - KeyCost(a, k));
    FirstFullLater(world, t, 0, KeyCost(a, k), TreeCost(a, k, h));
  }

  // The refusal of a request of the subkey at `i` is the first one.
  lemma {:induction false} KidFailed(world: World, t: nat, a: Cells, s: Cells, k: nat, h: nat, i: nat)
    requires WellFormed(a, k, h) && i < |Kids(a[k].node)| && Agree(a, s, {})
    requires h > 0 && WellFormed(s, Kids(a[k].node)[i], h - 1)
    requires Room(world, t, KeyCost(a, k) + KidsCost(a, k, h, i))
    requires !Room(world, t + (KeyCost(a, k) + KidsCost(a, k, h, i)), TreeCost(s, Kids(a[k].node)[i], h - 1) + 1)
    ensures !Room(world, t, TreeCost(a, k, h))
    ensures FirstFull(world, t, TreeCost(a, k, h)) ==
              KeyCost(a, k) + KidsCost(a, k, h, i) +
              FirstFull(world, t + (KeyCost(a, k) + KidsCost(a, k, h, i)), TreeCost(s, Kids(a[k].node)[i], h - 1) + 1)
  {
    KidCost(a, s, k, h, i);
    FirstFullLater(world, t, KeyCost(a, k) + KidsCost(a, k, h, i), TreeCost(s, Kids(a[k].node)[i], h - 1) + 1,
                   TreeCost(a, k, h));
  }

  /** The parts of a key copied into new cells. */
  ghost predicate PartsCopied(a: Cells, o: Cells, c: Cells, node: Node, cls: Option<nat>, security: Option<nat>,
                              values: Option<nat>)
  {
    && Agree(o, c, {}) && (cls.Some? <==> node.classLength > 0) && (security.Some? <==> node.security.Some?)
    && (cls.Some? ==> && cls.value in c && cls.value !in o && node.cls.Some? && node.cls.value in a
                      && c[cls.value] == a[node.cls.value])
    && (security.Some? ==> && security.value in c && security.value !in o && node.security.value in a
                           && c[security.value] == a[node.security.value])
    && IsList(c, values) && ListOutside(c, values, o.Keys) && IsList(a, node.values)
    && Meanings(c, ListOf(c, values)) == Meanings(a, ListOf(a, node.values))
    && o.Keys + Besides(cls, security) <= c.Keys
    && (c.Keys == o.Keys + Besides(cls, security) <==> ListOf(a, node.values) == [])
  }

  lemma {:induction false} Freed(o: Cells, c: Cells, own: set<nat>)
    requires Agree(o, c, {}) && c.Keys == o.Keys + own && own !! o.Keys
    ensures c - own == o
  {
  }

  lemma {:induction false} SameCells(c: Cells)
    ensures Agree(c, c, {})
  {
  }

  // The source's cells stay, or it is the hive into which new cells came.
  lemma {:induction false} SameSource(a: Cells, s: Cells, o: Cells, c: Cells, same: bool)
    requires Agree(o, c, {}) && (if same then a == o && s == c else s == a)
    ensures Agree(a, s, {})
  {
  }

  lemma {:induction false} SourceHasKey(a: Cells, s: Cells, o: Cells, c: Cells, same: bool, k: nat)
    requires Agree(o, c, {}) && (if same then a == o && s == c else s == a) && k in a
    ensures k in s && s[k] == a[k]
  {
  }

  lemma {:induction false} PartsAre(a: Cells, s: Cells, o: Cells, c: Cells, d: Cells, k: nat, cls: Option<nat>,
                                    security: Option<nat>,
                                    values: Option<nat>)
    requires KeyOk(a, k) && KeyOk(s, k) && Agree(a, s, {}) && s[k] == a[k] && Agree(o, c, {}) && Agree(c, d, {})
    requires c.Keys == o.Keys + Besides(cls, security) && Besides(cls, security) !! o.Keys
    requires var node := a[k].node;
             && (cls.Some? <==> node.classLength > 0) && (security.Some? <==> node.security.Some?)
             && (cls.Some? ==> cls.value in c && node.cls.value in a && c[cls.value] == a[node.cls.value])
             && (security.Some? ==>
                   && security.value in c && node.security.value in a
                   && c[security.value] == a[node.security.value])
             && IsList(s, node.values) && IsList(d, values) && ListOutside(d, values, c.Keys)
             && Meanings(d, ListOf(d, values)) == Meanings(s, ListOf(s, node.values))
             && (d.Keys == c.Keys <==> ListOf(s, node.values) == [])
    ensures PartsCopied(a, o, d, a[k].node, cls, security, values) && Agree(o, d, {})
  {
    SourceStays(a, s, k);
    hide IsList, ListOf, Meanings, ListOutside;
    AgreeTransitive(o, c, d);
    ListFewer(d, values, c.Keys, o.Keys);
    assert cls.Some? ==> cls.value in Besides(cls, security);
    assert security.Some? ==> security.value in Besides(cls, security);
  }

  lemma {:induction false} EmptyList(c: Cells, others: set<nat>)
    ensures IsList(c, None) && ListOutside(c, None, others) && Meanings(c, ListOf(c, None)) == []
  {
  }

  lemma {:induction false} MeaningAt(c: Cells, l: nat, i: nat)
    requires IsList(c, Some(l)) && i < |ListOf(c, Some(l))|
    ensures var list := ListOf(c, Some(l));
            IsValue(c, list[i]) && Meanings(c, list)[..i] + [MeaningOf(c, list[i])] == Meanings(c, list)[..i + 1]
  {
  }

  lemma {:induction false} ListIs(c: Cells, l: nat)
    requires IsList(c, Some(l))
    ensures l in c && c[l] == ListCell(ListOf(c, Some(l)))
  {
  }

  // The key's cell written over the copy of its parts. `a` is the source, `s` the same with the new cell.
  lemma {:induction false} KeyFinished(a: Cells, s: Cells, o: Cells, c1: Cells, c3: Cells, d: Cells, k: nat, n: nat,
                                       cls: Option<nat>, security: Option<nat>, values: Option<nat>)
    requires KeyOk(a, k) && KeyOk(s, k) && Agree(a, s, {}) && s[k] == a[k]
    requires n !in o && c1.Keys == o.Keys + {n} && Agree(o, c1, {})
    requires PartsCopied(s, c1, c3, a[k].node, cls, security, values)
    requires n in d && d == c3[n := d[n]] && d[n].KeyCell?
    requires var node, was := d[n].node, a[k].node;
             && node.name == was.name && node.flags.compressedName == was.flags.compressedName
             && node.classLength == was.classLength && node.cls == cls && node.security == security
             && node.values == values
    ensures KeyOk(d, n) && Local(d, n) == Local(a, k) && KeyOutside(d, n, o.Keys)
    ensures KeyCopied(a, o, d, k, n, cls, security)
  {
    KeyFinishedMeans(a, s, o, c1, c3, d, k, n, cls, security, values);
    KeyFinishedKeys(a, s, o, c1, c3, d, k, n, cls, security, values);
  }

  lemma {:induction false} KeyFinishedMeans(a: Cells, s: Cells, o: Cells, c1: Cells, c3: Cells, d: Cells, k: nat,
                                            n: nat,
                                            cls: Option<nat>, security: Option<nat>, values: Option<nat>)
    requires KeyOk(a, k) && KeyOk(s, k) && Agree(a, s, {}) && s[k] == a[k]
    requires n !in o && c1.Keys == o.Keys + {n} && Agree(o, c1, {})
    requires PartsCopied(s, c1, c3, a[k].node, cls, security, values)
    requires n in d && d == c3[n := d[n]] && d[n].KeyCell?
    requires var node, was := d[n].node, a[k].node;
             && node.name == was.name && node.flags.compressedName == was.flags.compressedName
             && node.classLength == was.classLength && node.cls == cls && node.security == security
             && node.values == values
    ensures KeyOk(d, n) && Local(d, n) == Local(a, k) && KeyOutside(d, n, o.Keys)
  {
    hide IsList, ListOutside, ListOf, Meanings, Local, KeyOutside;
    SourceStays(a, s, k);
    KeyWritten(c3, d, n, values, c1.Keys);
    ListFewer(d, values, c1.Keys, o.Keys);
    KeyBuilt(a, d, k, n, d[n].node, o.Keys);
  }

  lemma {:induction false} KeyFinishedKeys(a: Cells, s: Cells, o: Cells, c1: Cells, c3: Cells, d: Cells, k: nat, n: nat,
                                           cls: Option<nat>, security: Option<nat>, values: Option<nat>)
    requires KeyOk(a, k) && KeyOk(s, k) && Agree(a, s, {}) && s[k] == a[k]
    requires n !in o && c1.Keys == o.Keys + {n} && PartsCopied(s, c1, c3, a[k].node, cls, security, values)
    requires n in d && d == c3[n := d[n]]
    ensures KeyCopied(a, o, d, k, n, cls, security)
  {
    SourceStays(a, s, k);
    hide IsList, ListOutside, Meanings;
    assert n in c3;
    assert d.Keys == c3.Keys;
  }

  // The requests up to the value at `i`, and those of that value.
  lemma {:induction false} ListCostNext(world: World, t: nat, a: Cells, list: seq<nat>, i: nat)
    requires AreValues(a, list) && i < |list| && Room(world, t, ListCost(a, list[..i]))
    ensures ListCost(a, list[..i + 1]) == ListCost(a, list[..i]) + (ValueCost(a[list[i]].value) + 1)
    ensures Room(world, t, ListCost(a, list[..i + 1])) <==>
              Room(world, t + ListCost(a, list[..i]), ValueCost(a[list[i]].value) + 1)
    ensures !Room(world, t, ListCost(a, list[..i + 1])) ==> !Room(world, t, ListCost(a, list))
  {
    assert list[..i + 1][..i] == list[..i];
    RoomSplit(world, t, ListCost(a, list[..i]), ValueCost(a[list[i]].value) + 1);
    ListCostGrows(a, list, i + 1);
    RoomSplit(world, t, ListCost(a, list[..i + 1]), ListCost(a, list) - ListCost(a, list[..i + 1]));
  }

  lemma {:induction false} ListCostGrows(a: Cells, list: seq<nat>, i: nat)
    requires AreValues(a, list) && i <= |list|
    ensures ListCost(a, list[..i]) <= ListCost(a, list)
  {
    if i == |list| {
      assert list[..i] == list;
    } else {
      ListCostGrows(a, list[..|list| - 1], i);
      assert list[..|list| - 1][..i] == list[..i];
    }
  }

  // The key's own cell, and then its parts.
  lemma {:induction false} KeyRoom(world: World, t: nat, a: Cells, k: nat)
    requires KeyOk(a, k)
    ensures var cost := ClassCost(a[k].node) + ListCost(a, ListOf(a, a[k].node.values));
            && KeyCost(a, k) == 1 + cost
            && (Room(world, t, KeyCost(a, k)) <==> !world(t).Full? && Room(world, t + 1, cost))
  {
    var cost := ClassCost(a[k].node) + ListCost(a, ListOf(a, a[k].node.values));
    RoomOne(world, t);
    RoomSplit(world, t, 1, cost);
  }

  lemma {:induction false} PartsCostFrame(a: Cells, s: Cells, k: nat)
    requires KeyOk(a, k) && KeyOk(s, k) && Agree(a, s, {})
    ensures s[k] == a[k] && IsList(s, a[k].node.values) && IsList(a, a[k].node.values)
    ensures ListCost(s, ListOf(s, a[k].node.values)) == ListCost(a, ListOf(a, a[k].node.values))
  {
    SourceStays(a, s, k);
    ListCostFrame(a, s, ListOf(a, a[k].node.values));
  }

  lemma {:induction false} SameIffKeys(o: Cells, c: Cells)
    requires Agree(o, c, {})
    ensures c == o <==> c.Keys == o.Keys
  {
  }

  /** The copy of the subkey at `i` failed: the cells were `b` before and are `c` now. */
  ghost predicate FailedAt(world: World, t: nat, a: Cells, k: nat, h: nat, c0: set<nat>, b: set<nat>, c: set<nat>,
                           i: nat)
    requires WellFormed(a, k, h)
  {
    && i < |Kids(a[k].node)| && c0 <= b && (i == 0 <==> b == c0)
    && (KidIsTree(a, k, h, i);
        var before, cost := KeyCost(a, k) + KidsCost(a, k, h, i), TreeCost(a, Kids(a[k].node)[i], h - 1) + 1;
        && Room(world, t, before) && !Room(world, t + before, cost)
        && FailedHere(a, b, c, k, h, i, FirstFull(world, t + before, cost)))
  }

  lemma {:induction false} FailedAtIs(world: World, t: nat, a: Cells, s: Cells, k: nat, h: nat, c0: set<nat>,
                                      b: set<nat>,
                                      c: set<nat>, i: nat)
    requires WellFormed(a, k, h) && i < |Kids(a[k].node)| && Agree(a, s, {}) && c0 <= b && (i == 0 <==> b == c0)
    requires h > 0 && WellFormed(s, Kids(a[k].node)[i], h - 1)
    requires var before, cost := KeyCost(a, k) + KidsCost(a, k, h, i), TreeCost(s, Kids(a[k].node)[i], h - 1) + 1;
             && Room(world, t, before) && !Room(world, t + before, cost)
             && FailedHere(a, b, c, k, h, i, FirstFull(world, t + before, cost))
    ensures FailedAt(world, t, a, k, h, c0, b, c, i)
  {
    KidIsTree(a, k, h, i);
    TreeCostFrame(a, s, Kids(a[k].node)[i], h - 1);
  }

  // The copy given up, and the key's own cells freed.
  lemma {:induction false} GivenUp(world: World, t: nat, a: Cells, o: Cells, c0: Cells, b: set<nat>, c: Cells,
                                   k: nat, h: nat, n: nat, cls: Option<nat>, security: Option<nat>, i: nat)
    requires WellFormed(a, k, h) && Agree(o, c, {}) && KeyOk(a, k) && KeyCopied(a, o, c0, k, n, cls, security)
    requires FailedAt(world, t, a, k, h, c0.Keys, b, c.Keys, i)
    ensures var d := c - Own(n, cls, security);
            && Agree(o, d, {}) && !Room(world, t, TreeCost(a, k, h))
            && (d == o <==> !LeavesCells(world, t, a, k, h))
  {
    hide KeyOk, WellFormed, Clean, KeyCopied, FailedHere, TreeCost, KidsCost, KeyCost, Room, FirstFull, Agree, Own;
    KeyOfTree(a, k, h);
    KidIsTree(a, k, h, i);
    SameCells(a);
    KidFailed(world, t, a, a, k, h, i);
    var before, cost := KeyCost(a, k) + KidsCost(a, k, h, i), TreeCost(a, Kids(a[k].node)[i], h - 1) + 1;
    Abandoned(a, o, c0, b, c.Keys, k, h, n, cls, security, i, FirstFull(world, t + before, cost),
              FirstFull(world, t, TreeCost(a, k, h)));
    OwnIsNew(a, o, c0, k, n, cls, security);
    FreedAgrees(o, c, Own(n, cls, security));
  }

  lemma {:induction false} FreedAgrees(o: Cells, c: Cells, own: set<nat>)
    requires Agree(o, c, {}) && own !! o.Keys
    ensures Agree(o, c - own, {}) && (c - own == o <==> c.Keys - own == o.Keys)
  {
    assert (c - own).Keys == c.Keys - own;
  }

  // Three requests for the key, one for its subkey, one for the list of subkeys.
  lemma {:induction false} ValueCosts(cells: Cells)
    requires WellFormed(cells, 0, 1) && cells[0].node.classLength == 0 && cells[0].node.security.None?
    requires cells[0].node.values == Some(1) && cells[1] == ListCell([2]) && 2 in cells && cells[2].ValueCell?
    requires RealLength(cells[2].value.dataLength) == 0 && Kids(cells[0].node) == [3]
    requires WellFormed(cells, 3, 0) && cells[3].node.classLength == 0 && cells[3].node.security.None?
    requires cells[3].node.values.None? && Kids(cells[3].node) == []
    ensures 4 < TreeCost(cells, 0, 1) && !Clean(cells, 0, 1, 4)
  {
    assert [2][..0] == [] && ListCost(cells, [2]) == ListCost(cells, []) + 2;
    assert KeyCost(cells, 0) == 3 && KeyCost(cells, 3) == 1 && TreeCost(cells, 3, 0) == 1;
    KidIsTree(cells, 0, 1, 0);
    assert KidsCost(cells, 0, 1, 1) == KidsCost(cells, 0, 1, 0) + TreeCost(cells, 3, 0) + 1;
  }

  class Hive {
    var cells: Cells
    var next: nat
    const world: World  // whether there is room, request by request
    var clock: nat      // requests made so far

    ghost predicate Valid()
      reads this
    {
      forall c :: c in cells ==> c < next
    }

    constructor (cells: Cells, next: nat, world: World)
      requires forall c :: c in cells ==> c < next
      ensures Valid() && this.cells == cells && this.world == world && clock == 0
    {
      this.cells, this.next, this.world, clock := cells, next, world, 0;
    }

    /** HvAllocateCell, which may fail. */
    method Allocate(content: Cell) returns (c: Option<nat>)
      requires Valid()
      modifies this
      ensures Valid() && clock == old(clock) + 1 && (c.Some? <==> !world(old(clock)).Full?)
      ensures c.None? ==> cells == old(cells)
      ensures c.Some? ==> c.value !in old(cells) && cells == old(cells)[c.value := content]
    {
      clock := clock + 1;
      if world(clock - 1).Full? {
        return None;
      }
      c := Some(next);
      cells := cells[next := content];
      next := next + 1;
    }

    /** Replaces what a cell holds. */
    method Write(c: nat, content: Cell)
      requires Valid() && c in cells
      modifies this`cells
      ensures Valid() && cells == old(cells)[c := content]
    {
      cells := cells[c := content];
    }

    /** CmpCopyCell. */
    method CopyCell(src: Hive, c: nat) returns (n: Option<nat>)
      requires Valid() && c in src.cells
      modifies this
      ensures Valid() && clock == old(clock) + 1 && (n.Some? <==> !world(old(clock)).Full?)
      ensures n.None? ==> cells == old(cells)
      ensures n.Some? ==> n.value !in old(cells) && cells == old(cells)[n.value := old(src.cells)[c]]
    {
      n := Allocate(src.cells[c]);
    }

    /** CmpCopyValue: short data ends up in the value itself wherever it was; a failure leaves nothing behind. */
    method CopyValue(src: Hive, c: nat) returns (r: Option<nat>)
      requires Valid() && IsValue(src.cells, c)
      modifies this
      ensures Valid() && Agree(old(cells), cells, {})
      ensures r.Some? <==> Room(world, old(clock), ValueCost(old(src.cells)[c].value))
      ensures r.None? ==> cells == old(cells)
      ensures r.Some? ==>
                && clock == old(clock) + ValueCost(old(src.cells)[c].value)
                && r.value !in old(cells) && IsValue(cells, r.value) && ValueOutside(cells, r.value, old(cells).Keys)
                && MeaningOf(cells, r.value) == MeaningOf(old(src.cells), c)
                && cells.Keys == old(cells).Keys + ValueCells(cells, r.value)
    {
      var v := src.cells[c].value;
      RoomOne(world, clock);
      RoomOne(world, clock + 1);
      RoomSplit(world, clock, 1, 1);
      r := CopyCell(src, c);
      if r.None? {
        return;
      }
      var n := r.value;
      assert n in cells;
      var size := RealLength(v.dataLength);
      if size == 0 {
        Write(n, ValueCell(v.(dataLength := 0, data := Nothing)));
        return;
      }
      if size <= SMALL {
        var data := if IsSmall(v.dataLength) then v.data.bytes else src.cells[v.data.cell].bytes[..SMALL];
        Write(n, ValueCell(v.(dataLength := size + SPECIAL, data := Inline(data))));
      } else {
        var d := CopyCell(src, v.data.cell);
        if d.None? {
          cells := cells - {n};
          return None;
        }
        Write(n, ValueCell(v.(dataLength := size, data := At(d.value))));
      }
    }

    /** CmpFreeValue. */
    method FreeValue(c: nat)
      requires Valid() && c in cells && cells[c].ValueCell?
      modifies this`cells
      ensures Valid() && cells == old(cells) - ValueCells(old(cells), c)
    {
      var v := cells[c].value;
      if !IsSmall(v.dataLength) && v.dataLength > 0 && v.data.At? {
        cells := cells - {v.data.cell};
      }
      cells := cells - {c};
    }

    /** CmpAddValueToList at the end of the list; the list's cell may have to move, and that may fail. */
    method AddValueToList(l: Option<nat>, v: nat, ghost others: set<nat>) returns (r: Option<nat>)
      requires Valid() && IsList(cells, l) && IsValue(cells, v) && ListOutside(cells, l, others)
      requires ValueOutside(cells, v, others)
      requires others <= cells.Keys
      modifies this
      ensures Valid() && Agree(old(cells), cells, if l.Some? then {l.value} else {})
      ensures clock == old(clock) + 1 && (r.Some? <==> !world(old(clock)).Full?)
      ensures r.None? ==> cells == old(cells)
      ensures r.Some? ==>
                && IsList(cells, r) && ListOutside(cells, r, others) && ListOf(cells, r) == ListOf(old(cells), l) + [v]
                && Meanings(cells, ListOf(cells, r)) ==
                     Meanings(old(cells), ListOf(old(cells), l)) + [MeaningOf(old(cells), v)]
                && (r.value !in old(cells) || r == l)
                && cells.Keys == old(cells).Keys - (if l.Some? then {l.value} else {}) + {r.value}
    {
      var list := if l.None? then [] else cells[l.value].cells;
      if l.None? || !world(clock).Fits? {
        r := Allocate(ListCell(list + [v]));
        if r.None? {
          return;
        }
        if l.Some? {
          cells := cells - {l.value};
        }
      } else {
        r := l;
        cells := cells[r.value := ListCell(list + [v])];
        clock := clock + 1;
      }
      Appended(old(cells), cells, l, r.value, v, others);
    }

    /** Copies one value and appends it to the list; a failure leaves the list as it was. */
    method CopyNextValue(src: Hive, c: nat, l: Option<nat>, ghost o: Cells, ghost owned: seq<set<nat>>)
      returns (r: Option<nat>, ghost more: seq<set<nat>>)
      requires Valid() && IsValue(src.cells, c) && IsList(cells, l) && ListOutside(cells, l, o.Keys)
      requires ListTrail(o, cells, l, owned)
      requires o.Keys <= cells.Keys
      modifies this
      ensures Valid() && Agree(old(cells), cells, if l.Some? then {l.value} else {})
      ensures r.Some? <==> Room(world, old(clock), ValueCost(old(src.cells)[c].value) + 1)
      ensures r.None? ==> cells == old(cells) && more == owned
      ensures r.Some? ==>
                && clock == old(clock) + ValueCost(old(src.cells)[c].value) + 1
                && IsList(cells, r) && ListOutside(cells, r, o.Keys) && ListTrail(o, cells, r, more)
                && Meanings(cells, ListOf(cells, r)) ==
                     Meanings(old(cells), ListOf(old(cells), l)) + [MeaningOf(old(src.cells), c)]
    {
      hide ListOutside, ListOf, Meanings, ListTrail;
      more := owned;
      ghost var cost := ValueCost(src.cells[c].value);
      RoomSplit(world, clock, cost, 1);
      RoomOne(world, clock + cost);
      var v := CopyValue(src, c);
      if v.None? {
        return None, more;
      }
      ghost var b := cells;
      ListFrame(old(cells), cells, l, o.Keys);
      r := AddValueToList(l, v.value, o.Keys);
      if r.None? {
        FreeValue(v.value);
        assert cells == old(cells);
        return;
      }
      NextTrail(o, old(cells), b, cells, l, owned, v.value, r);
      more := owned + [ValueCells(b, v.value)];
    }

    /** Takes the copied values back. */
    method RevertValues(l: Option<nat>, ghost o: Cells, ghost owned: seq<set<nat>>)
      requires Valid() && ListTrail(o, cells, l, owned)
      modifies this`cells
      ensures Valid() && cells == o
    {
      if l.None? {
        return;
      }
      var entries := cells[l.value].cells;
      var i: nat := |entries|;
      hide Trail;
      while i > 0
        invariant i <= |entries| && Valid() && Trail(o, cells, l.value, entries, owned, i)
      {
        i := i - 1;
        ghost var b := cells;
        TrailLast(o, b, l.value, entries, owned, i);
        FreeValue(entries[i]);
        TrailLess(o, b, cells, l.value, entries, owned, i + 1);
      }
      TrailEnd(o, cells, l.value, entries, owned);
      cells := cells - {l.value};
    }

    /** CmpCopyKeyValueList: a failure leaves nothing behind. */
    method CopyValueList(src: Hive, from: Option<nat>) returns (ok: bool, l: Option<nat>)
      requires Valid() && IsList(src.cells, from)
      modifies this
      ensures Valid() && Agree(old(cells), cells, {})
      ensures ok <==> Room(world, old(clock), ListCost(old(src.cells), ListOf(old(src.cells), from)))
      ensures !ok ==> cells == old(cells)
      ensures ok ==>
                && clock == old(clock) + ListCost(old(src.cells), ListOf(old(src.cells), from))
                && IsList(cells, l) && ListOutside(cells, l, old(cells).Keys)
                && Meanings(cells, ListOf(cells, l)) == Meanings(old(src.cells), ListOf(old(src.cells), from))
                && (cells.Keys == old(cells).Keys <==> ListOf(old(src.cells), from) == [])
    {
      hide ListTrail, Trail, ListOutside, Meanings, IsValue;
      ghost var a, o, owned := src.cells, cells, [];
      ok, l := true, None;
      EmptyList(o, o.Keys);
      if from.None? {
        EmptyList(a, {});
        SameCells(o);
        return;
      }
      ListIs(a, from.value);
      var list := src.cells[from.value].cells;
      var i := 0;
      TrailStart(o);
      SameCells(o);
      while i < |list|
        invariant i <= |list| && Valid() && Agree(o, cells, {}) && (if src == this then a == o else a == src.cells)
        invariant IsList(cells, l) && ListOutside(cells, l, o.Keys) && ListTrail(o, cells, l, owned) && o == old(cells)
        invariant Meanings(cells, ListOf(cells, l)) == Meanings(a, list)[..i] && (l.None? <==> i == 0)
        invariant clock == old(clock) + ListCost(a, list[..i]) && Room(world, old(clock), ListCost(a, list[..i]))
      {
        ghost var b := cells;
        MeaningAt(a, from.value, i);
        ListCostNext(world, old(clock), a, list, i);
        SameSource(a, src.cells, o, cells, src == this);
        ValueFrame(a, src.cells, list[i], {});
        var n;
        TrailIsNew(o, b, l, owned);
        n, owned := CopyNextValue(src, list[i], l, o, owned);
        if n.None? {
          RevertValues(l, o, owned);
          SameCells(o);
          return false, None;
        }
        AgreeBut(o, b, cells, l);
        l := n;
        i := i + 1;
      }
      assert Meanings(a, list)[..i] == Meanings(a, list) && list[..i] == list;
      TrailKeys(o, cells, l, owned);
    }

    /** The class and security cells of a key that is being copied. */
    method CopyClassAndSecurity(src: Hive, node: Node) returns (ok: bool, cls: Option<nat>, security: Option<nat>)
      requires Valid()
      requires node.classLength > 0 ==> node.cls.Some? && IsData(src.cells, node.cls.value)
      requires node.security.Some? ==> IsData(src.cells, node.security.value)
      modifies this
      ensures Valid() && Agree(old(cells), cells, {})
      ensures cells.Keys == old(cells).Keys + Besides(cls, security)
      ensures ok <==> Room(world, old(clock), ClassCost(node))
      ensures ok ==> clock == old(clock) + ClassCost(node)
      ensures ok ==> (cls.Some? <==> node.classLength > 0) && (security.Some? <==> node.security.Some?)
      ensures cls.Some? ==>
                && cls.value in cells && cls.value !in old(cells)
                && (ok ==> cells[cls.value] == old(src.cells)[node.cls.value])
      ensures security.Some? ==>
                && security.value in cells && security.value !in old(cells)
                && (ok ==> cells[security.value] == old(src.cells)[node.security.value])
    {
      ok, cls, security := true, None, None;
      RoomOne(world, clock);
      RoomOne(world, clock + 1);
      RoomSplit(world, clock, 1, 1);
      if node.classLength > 0 {
        cls := CopyCell(src, node.cls.value);
        if cls.None? {
          return false, cls, security;
        }
      }
      if node.security.Some? {
        security := CopyCell(src, node.security.value);
        if security.None? {
          return false, cls, security;
        }
      }
    }

    /** The class, security data and values of a key that is being copied; a failure leaves nothing behind. */
    method CopyParts(src: Hive, k: nat, node: Node)
      returns (ok: bool, cls: Option<nat>, security: Option<nat>, values: Option<nat>)
      requires Valid() && KeyOk(src.cells, k) && node == src.cells[k].node
      modifies this
      ensures Valid() && Agree(old(cells), cells, {})
      ensures var cost := ClassCost(node) + ListCost(old(src.cells), ListOf(old(src.cells), node.values));
              (ok <==> Room(world, old(clock), cost)) && (ok ==> clock == old(clock) + cost)
      ensures !ok ==> cells == old(cells)
      ensures ok ==> PartsCopied(old(src.cells), old(cells), cells, node, cls, security, values)
    {
      ghost var a := src.cells;
      ghost var list := ListOf(a, node.values);
      RoomSplit(world, clock, ClassCost(node), ListCost(a, list));
      hide ListOutside, Meanings, PartsCopied, Agree, ListCost, Room;
      ok, cls, security := CopyClassAndSecurity(src, node);
      ghost var c, s := cells, src.cells;
      values := None;
      if ok {
        SameSource(a, src.cells, old(cells), cells, src == this);
        SourceStays(a, src.cells, k);
        ListCostFrame(a, src.cells, list);
        ok, values := CopyValueList(src, node.values);
      }
      if !ok {
        Freed(old(cells), cells, Besides(cls, security));
        cells := cells - Besides(cls, security);
        SameCells(cells);
        return;
      }
      PartsAre(a, s, old(cells), c, cells, k, cls, security, values);
    }

    /** The first part of CmpDeepCopyKeyInternal: the key itself, its class, security data and values; a failure
        leaves nothing behind. */
    method CopyKey(src: Hive, k: nat, parent: Option<nat>) returns (r: Option<nat>, cls: Option<nat>,
                   security: Option<nat>)
      requires Valid() && KeyOk(src.cells, k)
      modifies this
      ensures Valid() && Agree(old(cells), cells, {})
      ensures r.Some? <==> Room(world, old(clock), KeyCost(old(src.cells), k))
      ensures r.None? ==> cells == old(cells)
      ensures r.Some? ==>
                && clock == old(clock) + KeyCost(old(src.cells), k)
                && r.value !in old(cells) && r.value in cells && cells[r.value].KeyCell? && KeyOk(cells, r.value)
                && KeyOutside(cells, r.value, old(cells).Keys) && Local(cells, r.value) == Local(old(src.cells), k)
                && Kids(cells[r.value].node) == [] && cells[r.value].node.parent == parent
                && cells[r.value].node.flags ==
                     Flags(cells[r.value].node.flags.compressedName, parent.None?, parent.None?, 0)
                && KeyCopied(old(src.cells), old(cells), cells, k, r.value, cls, security)
    {
      hide PartsCopied, KeyCopied, KeyOk, Local, KeyOutside, Room;
      ghost var a := src.cells;
      KeyOfKey(a, k);
      KeyRoom(world, clock, a, k);
      var node := src.cells[k].node;
      r := CopyCell(src, k);
      cls, security := None, None;
      if r.None? {
        return;
      }
      var n := r.value;
      ghost var c1 := cells;
      SourceStays(a, src.cells, k);
      var ok, values;
      ghost var s1 := src.cells;
      PartsCostFrame(a, s1, k);
      ok, cls, security, values := CopyParts(src, k, node);
      if !ok {
        cells := cells - {n};
        assert cells == old(cells);
        return None, None, None;
      }
      var flags := Flags(node.flags.compressedName, parent.None?, parent.None?, 0);
      ghost var c3 := cells;
      var length := if node.classLength > 0 then node.classLength else 0;
      Write(n, KeyCell(Node(node.name, flags, parent, length, cls, security, values, [], [])));
      KeyFinished(a, s1, old(cells), c1, c3, cells, k, n, cls, security, values);
    }

    /** CmpAddSubKey: the subkey goes somewhere into the list of its storage, or there is no room. */
    method AddSubKey(k: nat, kid: nat, unstable: bool) returns (ok: bool)
      requires Valid() && k in cells && cells[k].KeyCell?
      modifies this`cells, this`clock
      ensures Valid() && clock == old(clock) + 1 && (ok <==> !world(old(clock)).Full?)
      ensures !ok ==> cells == old(cells)
      ensures ok ==>
                && k in cells && cells == old(cells)[k := cells[k]] && cells[k].KeyCell?
                && var node, was := cells[k].node, old(cells)[k].node;
                   && node == was.(stable := node.stable, unstable := node.unstable)
                   && exists i :: Inserted(Kids(was), Kids(node), i, kid)
    {
      clock := clock + 1;
      if world(clock - 1).Full? {
        return false;
      }
      var node := cells[k].node;
      var list := if unstable then node.unstable else node.stable;
      var i: nat :| i <= |list|;
      var more := list[..i] + [kid] + list[i..];
      node := if unstable then node.(unstable := more) else node.(stable := more);
      assert Inserted(Kids(cells[k].node), Kids(node), if unstable then |node.stable| + i else i, kid);
      Write(k, KeyCell(node));
      ok := true;
    }

    /** One turn of the loop over the subkeys: the copy of one more subkey of `k`. */
    method CopySubKey(src: Hive, k: nat, kid: nat, n: nat, unstable: bool, ghost parent: Option<nat>, ghost a: Cells,
                      ghost o: Cells, ghost base: set<nat>, ghost i: nat, ghost h: nat)
      returns (ok: bool)
      requires Valid() && Agree(a, src.cells, {}) && Agree(o, cells, {}) && o.Keys <= base <= cells.Keys
      requires WellFormed(a, k, h) && k in a && a[k].KeyCell? && i < |Kids(a[k].node)| && kid == Kids(a[k].node)[i]
      requires h > 0 && WellFormed(src.cells, kid, h - 1)
      requires Partial(a, cells, k, n, h, parent, base, o.Keys, i)
      modifies this
      ensures Valid() && Agree(o, cells, {})
      ensures ok <==> Room(world, old(clock), TreeCost(old(src.cells), kid, h - 1) + 1)
      ensures ok ==>
                && clock == old(clock) + TreeCost(old(src.cells), kid, h - 1) + 1 && old(cells).Keys < cells.Keys
                && Partial(a, cells, k, n, h, parent, base, o.Keys, i + 1)
      ensures !ok ==>
                FailedHere(a, old(cells).Keys, cells.Keys, k, h, i,
                           FirstFull(world, old(clock), TreeCost(old(src.cells), kid, h - 1) + 1))
      decreases h, 0
    {
      hide KeyOk, Partial, WellFormed, Denote, Outside, Linked, LeavesCells, Bare, FailedHere, TreeCost;
      hide Room, FirstFull;
      ghost var b, s, t := cells, src.cells, clock;
      ghost var cost := TreeCost(s, kid, h - 1);
      KidOfTree(a, s, k, h, i);
      RoomSplit(world, t, cost, 1);
      RoomOne(world, t + cost);
      var copy := DeepCopyKey(src, kid, Some(n), unstable, h - 1);
      AgreeTransitive(o, b, cells);
      ghost var c := cells;
      if copy.None? {
        SubKeyFailed(world, t, a, s, b, c, k, h, i);
        return false;
      }
      PartialFrame(a, b, c, k, n, h, parent, base, o.Keys, i);
      PartialKey(a, c, k, n, h, parent, base, o.Keys, i);
      ok := AddSubKey(n, copy.value, unstable);
      if !ok {
        FirstFullIs(world, t, cost + 1, cost);
        AddingFailed(a, s, b, c, k, h, i, copy.value);
        cells := cells - {copy.value};
        return false;
      }
      PartialAdd(a, b, c, cells, k, n, h, parent, base, o.Keys, i, copy.value);
      AgreeBut(o, c, cells, Some(n));
    }

    /** The loop over the subkeys, from the copy `n` of `k` without them. */
    method CopySubKeys(src: Hive, k: nat, n: nat, unstable: bool, ghost parent: Option<nat>, ghost a: Cells,
                       ghost o: Cells,
                       ghost t: nat, ghost h: nat)
      returns (ok: bool, ghost i: nat, ghost b: set<nat>)
      requires Valid() && WellFormed(a, k, h) && k in a && a[k].KeyCell? && KeyOk(a, k) && Agree(o, cells, {})
      requires if src == this then a == o else a == src.cells
      requires o.Keys <= cells.Keys && Partial(a, cells, k, n, h, parent, cells.Keys, o.Keys, 0)
      requires clock == t + KeyCost(a, k) && Room(world, t, KeyCost(a, k))
      modifies this
      ensures Valid() && Agree(o, cells, {})
      ensures ok ==>
                && Room(world, t, TreeCost(a, k, h)) && clock == t + TreeCost(a, k, h)
                && old(cells).Keys <= cells.Keys && (|Kids(a[k].node)| == 0 <==> cells.Keys == old(cells).Keys)
                && Partial(a, cells, k, n, h, parent, old(cells).Keys, o.Keys, |Kids(a[k].node)|)
      ensures !ok ==> FailedAt(world, t, a, k, h, old(cells).Keys, b, cells.Keys, i)
      decreases h, 1
    {
      hide KeyOk, Partial, WellFormed, TreeCost, KidsCost, KeyCost, Room, FirstFull, FailedHere, FailedAt;
      SourceHasKey(a, src.cells, o, cells, src == this, k);
      TreeCostIs(a, k, h);
      var kids := Kids(src.cells[k].node);
      ghost var base := cells.Keys;
      i, b := 0, base;
      var m := 0;
      while m < |kids|
        invariant m <= |kids| && Valid() && Agree(o, cells, {}) && (if src == this then a == o else a == src.cells)
        invariant base <= cells.Keys && (m == 0 <==> cells.Keys == base)
        invariant Partial(a, cells, k, n, h, parent, base, o.Keys, m)
        invariant clock == t + (KeyCost(a, k) + KidsCost(a, k, h, m))
        invariant Room(world, t, KeyCost(a, k) + KidsCost(a, k, h, m))
      {
        ghost var s := src.cells;
        b := cells.Keys;
        SameSource(a, s, o, cells, src == this);
        KidOfTree(a, s, k, h, m);
        KidRoom(world, t, a, s, k, h, m);
        ok := CopySubKey(src, k, kids[m], n, unstable, parent, a, o, base, m, h);
        if !ok {
          FailedAtIs(world, t, a, s, k, h, base, b, cells.Keys, m);
          i := m;
          return;
        }
        m := m + 1;
      }
      ok := true;
    }

    /** CmpDeepCopyKeyInternal: it succeeds exactly when there is room for all its cells. The new tree then means
        what the old one means, its cells are all new, and its keys point back to their parents. No old cell
        changes, in no case. If it fails, cells are left behind exactly where `LeavesCells` says so. */
    method DeepCopyKey(src: Hive, k: nat, parent: Option<nat>, unstable: bool, ghost h: nat) returns (r: Option<nat>)
      requires Valid() && WellFormed(src.cells, k, h)
      modifies this
      ensures Valid() && Agree(old(cells), cells, {})
      ensures r.Some? <==> Room(world, old(clock), TreeCost(old(src.cells), k, h))
      ensures r.None? ==> (cells == old(cells) <==> !LeavesCells(world, old(clock), old(src.cells), k, h))
      ensures r.Some? ==>
                && clock == old(clock) + TreeCost(old(src.cells), k, h)
                && r.value !in old(cells) && r.value in cells && WellFormed(cells, r.value, h)
                && Denote(cells, r.value, h) == Denote(old(src.cells), k, h)
                && Outside(cells, r.value, h, old(cells).Keys) && Linked(cells, r.value, h, parent)
                && (cells.Keys == old(cells).Keys + {r.value} <==> Bare(old(src.cells), k))
      decreases h, 2
    {
      hide KeyOk, KeyOutside, Partial, WellFormed, Denote, Outside, Linked, Bare, KeyCopied, TreeCost, KeyCost, Room;
      hide FirstFull, LeavesCells, FailedAt;
      ghost var a, o, t := src.cells, cells, clock;
      KeyOfTree(a, k, h);
      var cls, security;
      r, cls, security := CopyKey(src, k, parent);
      if r.None? {
        KeyFailed(world, t, a, k, h);
        return;
      }
      var n := r.value;
      ghost var c0 := cells;
      PartialStart(a, cells, k, n, h, parent, c0.Keys, o.Keys);
      var ok;
      ghost var i, b;
      ok, i, b := CopySubKeys(src, k, n, unstable, parent, a, o, t, h);
      if !ok {
        GivenUp(world, t, a, o, c0, b, cells, k, h, n, cls, security, i);
        cells := cells - Own(n, cls, security);
        return None;
      }
      PartialKey(a, cells, k, n, h, parent, c0.Keys, o.Keys, |Kids(a[k].node)|);
      PartialEnd(a, cells, k, n, h, parent, c0.Keys, o.Keys);
      BareCopied(a, o, c0, cells.Keys, k, n, cls, security);
    }
  }

  /** A copy into a new hive that is refused one request leaves cells behind, if that request is not clean; such
      a request there is for every tree that is not safe. */
  method CopyLeavesCells(src: Hive, k: nat, j: nat, ghost h: nat) returns (dest: Hive, r: Option<nat>)
    requires WellFormed(src.cells, k, h) && j < TreeCost(src.cells, k, h) && !Clean(src.cells, k, h, j)
    ensures fresh(dest) && r.None? && dest.cells != map[]
  {
    OneFullLeaves(src.cells, k, h, j);
    dest := new Hive(map[], 0, OneFull(j));
    r := dest.DeepCopyKey(src, k, None, false, h);
  }

  /** A key with one value and one subkey: without room for the subkey in the list of subkeys the copied value
      is left behind. */
  method ValueIsLeft() returns (dest: Hive, r: Option<nat>)
    ensures r.None? && dest.cells != map[]
  {
    var flags := Flags(true, false, false, 0);
    var value := Value("v", true, 4, SPECIAL, Inline([0, 0, 0, 0]));
    var cells := map[0 := KeyCell(Node("k", flags, None, 0, None, None, Some(1), [3], [])), 1 := ListCell([2]),
                     2 := ValueCell(value), 3 := KeyCell(Node("s", flags, Some(0), 0, None, None, None, [], []))];
    var src := new Hive(cells, 4, OneFull(100));
    assert IsValue(cells, 2) && KeyOk(cells, 3) && Kids(cells[3].node) == [];
    assert WellFormed(cells, 3, 0) && Kids(cells[0].node) == [3] && WellFormed(cells, 0, 1);
    ValueCosts(cells);
    dest, r := CopyLeavesCells(src, 0, 4, 1);
  }
}
