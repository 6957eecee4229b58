/** The cells that a copy has made so far, so that a copy that fails can take them back. */
module CopyTrail {
  import opened Options
  import opened HiveCells

  ghost function Union(sets: seq<set<nat>>): set<nat>
  {
    if sets == [] then {} else Union(sets[..|sets| - 1]) + sets[|sets| - 1]
  }

  lemma {:induction false} UnionMember(sets: seq<set<nat>>, c: nat)
    ensures c in Union(sets) <==> exists i :: 0 <= i < |sets| && c in sets[i]
  {
    if sets != [] {
      UnionMember(sets[..|sets| - 1], c);
    }
  }

  /** The cells of a value. */
  ghost function ValueCells(cells: Cells, c: nat): set<nat>
    requires c in cells && cells[c].ValueCell?
  {
    {c} + DataCells(cells[c].value)
  }

  /** The first `j` values of a list of copies own the cells `owned`. */
  ghost predicate Owned(cells: Cells, entries: seq<nat>, owned: seq<set<nat>>, j: nat)
  {
    && j <= |entries| == |owned|
    && (forall i :: 0 <= i < j ==>
          entries[i] in cells && cells[entries[i]].ValueCell? && owned[i] == ValueCells(cells, entries[i]))
    && (forall i, m :: 0 <= i < m < |owned| ==> owned[i] !! owned[m])
  }

  /** Besides the cells `o` there are the list `l` and the cells of its first `j` values. */
  ghost predicate Trail(o: Cells, cells: Cells, l: nat, entries: seq<nat>, owned: seq<set<nat>>, j: nat)
  {
    && Agree(o, cells, {}) && l !in o && l in cells && cells[l] == ListCell(entries) && Owned(cells, entries, owned, j)
    && cells.Keys == o.Keys + {l} + Union(owned[..j]) && l !in Union(owned) && o.Keys !! Union(owned)
  }

  /** The same for a list that may be missing. */
  ghost predicate ListTrail(o: Cells, cells: Cells, l: Option<nat>, owned: seq<set<nat>>)
  {
    if l.None? then owned == [] && cells == o
    else l.value in cells && cells[l.value].ListCell? && Trail(o, cells, l.value, cells[l.value].cells, owned, |owned|)
  }

  lemma {:induction false} TrailStart(o: Cells)
    ensures ListTrail(o, o, None, [])
  {
  }

  // One more value and its cells; the list's cell may have moved.
  lemma {:induction false} TrailMore(o: Cells, b: Cells, c: Cells, d: Cells, l: Option<nat>, owned: seq<set<nat>>,
                                     v: nat, n: nat)
    requires IsList(b, l) && ListTrail(o, b, l, owned) && Agree(b, c, {}) && v !in b && v in c && c[v].ValueCell?
    requires ValueCells(c, v) !! b.Keys && c.Keys == b.Keys + ValueCells(c, v)
    requires n in d && d[n] == ListCell(ListOf(b, l) + [v]) && (n !in c || l == Some(n))
    requires Agree(c, d, if l.Some? then {l.value} else {})
    requires d.Keys == c.Keys - (if l.Some? then {l.value} else {}) + {n}
    ensures ListTrail(o, d, Some(n), owned + [ValueCells(c, v)])
  {
    var x := ValueCells(c, v);
    var more := owned + [x];
    assert more[..|more| - 1] == owned && more[..|more|] == more && owned[..|owned|] == owned;
    assert Union(more) == Union(owned) + x;
    forall i, e | 0 <= i < |owned| && e in owned[i] ensures e in Union(owned) {
      UnionMember(owned, e);
    }
    OwnedMore(b, c, d, l, owned, v, ListOf(b, l));
    hide Union, Owned;
    KeysMore(o.Keys, b.Keys, c.Keys, d.Keys, Union(owned), x, if l.Some? then {l.value} else {}, n);
  }

  lemma {:induction false} KeysMore(o: set<nat>, b: set<nat>, c: set<nat>, d: set<nat>, made: set<nat>, x: set<nat>,
                                    l: set<nat>, n: nat)
    requires b == o + l + made && c == b + x && x !! b && d == c - l + {n} && (n !in c || l == {n})
    requires l !! made && l !! o && o !! made
    ensures d == o + {n} + (made + x) && n !in made + x && n !in o && o !! made + x
  {
  }

  lemma {:induction false} OwnedMore(b: Cells, c: Cells, d: Cells, l: Option<nat>, owned: seq<set<nat>>, v: nat,
                                     entries: seq<nat>)
    requires Owned(b, entries, owned, |owned|) && (forall i :: 0 <= i < |owned| ==> owned[i] <= b.Keys)
    requires forall i :: 0 <= i < |owned| && l.Some? ==> l.value !in owned[i]
    requires Agree(b, c, {}) && v !in b && v in c && c[v].ValueCell? && ValueCells(c, v) !! b.Keys
    requires Agree(c, d, if l.Some? then {l.value} else {}) && (l.Some? ==> l.value in b)
    ensures Owned(d, entries + [v], owned + [ValueCells(c, v)], |owned| + 1)
  {
    forall i | 0 <= i < |owned| ensures entries[i] in d && d[entries[i]] == b[entries[i]] {
      assert entries[i] in owned[i];
    }
  }

  // Freeing the last value.
  lemma {:induction false} TrailLess(o: Cells, c: Cells, d: Cells, l: nat, entries: seq<nat>, owned: seq<set<nat>>,
                                     j: nat)
    requires j > 0 && Trail(o, c, l, entries, owned, j) && d == c - owned[j - 1]
    ensures Trail(o, d, l, entries, owned, j - 1)
  {
    var x := owned[j - 1];
    assert owned[..j][..|owned[..j]| - 1] == owned[..j - 1];
    forall e | e in x ensures e in Union(owned) && e !in Union(owned[..j - 1]) {
      UnionMember(owned, e);
      UnionMember(owned[..j - 1], e);
    }
    forall i | 0 <= i < j - 1 ensures entries[i] in d && d[entries[i]] == c[entries[i]] {
      assert entries[i] in owned[i] && owned[i] !! x;
    }
  }

  lemma {:induction false} TrailEnd(o: Cells, c: Cells, l: nat, entries: seq<nat>, owned: seq<set<nat>>)
    requires Trail(o, c, l, entries, owned, 0)
    ensures c - {l} == o
  {
    assert owned[..0] == [];
  }

  /** What is left when the copy of a key is given up: `own` are the cells it frees, `o` the cells before,
      `c0` those with the key copied, `b` those before the last subkey, `c` those after it failed. */
  lemma {:induction false} LeftBehind(o: set<nat>, own: set<nat>, c0: set<nat>, b: set<nat>, c: set<nat>)
    requires own !! o && o + own <= c0 <= b <= c
    ensures c - own == o <==> c0 == o + own && b == c0 && c == b
  {
    if c - own == o {
      assert forall x :: x in c ==> x in o + own;
    }
  }

  lemma {:induction false} TrailLast(o: Cells, c: Cells, l: nat, entries: seq<nat>, owned: seq<set<nat>>, j: nat)
    requires j < |entries| && Trail(o, c, l, entries, owned, j + 1)
    ensures entries[j] in c && c[entries[j]].ValueCell? && j < |owned| && ValueCells(c, entries[j]) == owned[j]
  {
  }

  lemma {:induction false} TrailIsNew(o: Cells, c: Cells, l: Option<nat>, owned: seq<set<nat>>)
    requires ListTrail(o, c, l, owned)
    ensures l.Some? ==> l.value !in o
  {
  }

  lemma {:induction false} TrailKeys(o: Cells, c: Cells, l: Option<nat>, owned: seq<set<nat>>)
    requires IsList(c, l) && ListTrail(o, c, l, owned)
    ensures c.Keys == o.Keys <==> l.None?
  {
  }

  lemma {:induction false} NextTrail(o: Cells, b: Cells, c: Cells, d: Cells, l: Option<nat>, owned: seq<set<nat>>,
                                     v: nat, r: Option<nat>)
    requires IsList(b, l) && ListTrail(o, b, l, owned) && Agree(b, c, {}) && v !in b && IsValue(c, v)
    requires ValueOutside(c, v, b.Keys)
    requires c.Keys == b.Keys + ValueCells(c, v) && IsList(c, l) && r.Some? && IsList(d, r)
    requires ListOf(d, r) == ListOf(c, l) + [v] && (r.value !in c || r == l)
    requires Agree(c, d, if l.Some? then {l.value} else {})
    requires d.Keys == c.Keys - (if l.Some? then {l.value} else {}) + {r.value}
    ensures ListTrail(o, d, r, owned + [ValueCells(c, v)])
  {
    hide ListTrail;
    TrailMore(o, b, c, d, l, owned, v, r.value);
  }
}
