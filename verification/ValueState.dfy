/** The values of one registry key: a list of value cells in a hive, short data inside the value, longer data
    in a cell of its own. */
module ValueState {
  import opened Options
  import opened Bytes
  import opened Names
  import opened Seqs
  import opened HiveCells

  /** The hive's cells and the key's value list. */
  datatype Store = Store(cells: Cells, list: Option<nat>)

  /** Data of up to four bytes is inside the value. */
  predicate ShortInline(v: Value)
  {
    IsSmall(v.dataLength) || v.dataLength == 0 || v.dataLength > SMALL
  }

  ghost function Entries(s: Store): seq<nat>
    requires IsList(s.cells, s.list)
  {
    ListOf(s.cells, s.list)
  }

  function NameOf(cells: Cells, c: nat): string
    requires c in cells && cells[c].ValueCell?
  {
    cells[c].value.name
  }

  ghost predicate EntriesOk(up: char -> char, cells: Cells, entries: seq<nat>)
  {
    && Distinct(entries) && (forall i :: 0 <= i < |entries| ==> IsValue(cells, entries[i]))
    && (forall i, j :: 0 <= i < j < |entries| ==> Apart(up, cells, entries[i], entries[j]))
  }

  /** Different names, different data cells. */
  ghost predicate Apart(up: char -> char, cells: Cells, c: nat, d: nat)
    requires IsValue(cells, c) && IsValue(cells, d)
  {
    !SameName(up, NameOf(cells, c), NameOf(cells, d)) && DataCells(cells[c].value) !! DataCells(cells[d].value)
  }

  /** The cell belongs to the key's values. */
  ghost predicate Owns(s: Store, entries: seq<nat>, c: nat)
  {
    s.list == Some(c) || c in entries ||
    exists i :: 0 <= i < |entries| && entries[i] in s.cells && s.cells[entries[i]].ValueCell? &&
        c in DataCells(s.cells[entries[i]].value)
  }

  /** The list is sound, and besides the cells of `others` the hive holds exactly the cells of these values:
      none is lost, none is shared. */
  ghost predicate StoreOk(up: char -> char, s: Store, others: set<nat>)
  {
    && IsList(s.cells, s.list) && (s.list.Some? ==> Entries(s) != []) && EntriesOk(up, s.cells, Entries(s))
    && (forall c :: c in s.cells <==> c in others || Owns(s, Entries(s), c))
    && (forall c :: c in others ==> !Owns(s, Entries(s), c))
  }

  // ----- What a name stands for

  datatype Stored = Stored(kind: nat, data: seq<byte>)

  ghost function StoredAt(cells: Cells, c: nat): Stored
    requires IsValue(cells, c)
  {
    Stored(cells[c].value.kind, DataOf(cells, cells[c].value))
  }

  /** The type and data stored under a name, if any. */
  ghost function Lookup(up: char -> char, cells: Cells, entries: seq<nat>, name: string): Option<Stored>
    requires AreValues(cells, entries)
  {
    if entries == [] then None
    else if SameName(up, name, NameOf(cells, entries[0])) then Some(StoredAt(cells, entries[0]))
    else Lookup(up, cells, entries[1..], name)
  }

  /** The cell of the value with that name, if any. */
  ghost function Find(up: char -> char, cells: Cells, entries: seq<nat>, name: string): (r: Option<nat>)
    requires AreValues(cells, entries)
    ensures r.Some? ==> r.value in entries && IsValue(cells, r.value)
    ensures Lookup(up, cells, entries, name) == if r.Some? then Some(StoredAt(cells, r.value)) else None
  {
    if entries == [] then None
    else if SameName(up, name, NameOf(cells, entries[0])) then Some(entries[0])
    else Find(up, cells, entries[1..], name)
  }

  lemma {:induction false} LookupFound(up: char -> char, cells: Cells, entries: seq<nat>, name: string, i: nat)
    requires AreValues(cells, entries) && i < |entries| && SameName(up, name, NameOf(cells, entries[i]))
    requires forall j :: 0 <= j < i ==> !SameName(up, name, NameOf(cells, entries[j]))
    ensures Find(up, cells, entries, name) == Some(entries[i])
  {
    if i > 0 {
      LookupFound(up, cells, entries[1..], name, i - 1);
    }
  }

  lemma {:induction false} LookupMissing(up: char -> char, cells: Cells, entries: seq<nat>, name: string)
    requires AreValues(cells, entries)
    requires forall j :: 0 <= j < |entries| ==> !SameName(up, name, NameOf(cells, entries[j]))
    ensures Find(up, cells, entries, name) == None
  {
    if entries != [] {
      LookupMissing(up, cells, entries[1..], name);
    }
  }

  // One entry rewritten under its name.
  lemma {:induction false} LookupRewritten(up: char -> char, a: Cells, b: Cells, entries: seq<nat>, i: nat,
                                           name: string)
    requires AreValues(a, entries) && AreValues(b, entries) && i < |entries|
    requires forall j :: 0 <= j < |entries| ==> NameOf(b, entries[j]) == NameOf(a, entries[j])
    requires forall j :: 0 <= j < |entries| && j != i ==> StoredAt(b, entries[j]) == StoredAt(a, entries[j])
    requires forall j :: 0 <= j < i ==> !SameName(up, NameOf(a, entries[i]), NameOf(a, entries[j]))
    ensures Lookup(up, b, entries, name) ==
              if SameName(up, name, NameOf(a, entries[i])) then Some(StoredAt(b, entries[i]))
              else Lookup(up, a, entries, name)
  {
    if i == 0 {
      LookupSame(up, a, b, entries[1..], name);
    } else {
      LookupRewritten(up, a, b, entries[1..], i - 1, name);
    }
  }

  lemma {:induction false} LookupSame(up: char -> char, a: Cells, b: Cells, entries: seq<nat>, name: string)
    requires AreValues(a, entries) && AreValues(b, entries)
    requires forall j :: 0 <= j < |entries| ==>
               NameOf(b, entries[j]) == NameOf(a, entries[j]) && StoredAt(b, entries[j]) == StoredAt(a, entries[j])
    ensures Lookup(up, b, entries, name) == Lookup(up, a, entries, name)
  {
    if entries != [] {
      LookupSame(up, a, b, entries[1..], name);
    }
  }

  // One entry appended, whose name was not there.
  lemma {:induction false} LookupAppended(up: char -> char, a: Cells, b: Cells, entries: seq<nat>, v: nat, name: string)
    requires AreValues(a, entries) && AreValues(b, entries) && IsValue(b, v)
    requires forall j :: 0 <= j < |entries| ==>
               NameOf(b, entries[j]) == NameOf(a, entries[j]) && StoredAt(b, entries[j]) == StoredAt(a, entries[j])
    requires forall j :: 0 <= j < |entries| ==> !SameName(up, NameOf(b, v), NameOf(a, entries[j]))
    ensures AreValues(b, entries + [v])
    ensures Lookup(up, b, entries + [v], name) ==
              if SameName(up, name, NameOf(b, v)) then Some(StoredAt(b, v)) else Lookup(up, a, entries, name)
  {
    if entries == [] {
      assert entries + [v] == [v] && [v][1..] == [];
    } else {
      assert (entries + [v])[0] == entries[0] && (entries + [v])[1..] == entries[1..] + [v];
      LookupAppended(up, a, b, entries[1..], v, name);
    }
  }

  // ----- Is the value equal to what is to be stored?

  /** The bytes of a cell's index, as they lie in a data field. */
  function IndexBytes(c: nat): (b: seq<byte>)
    ensures |b| == 4
  {
    [c % 256, c / 0x100 % 256, c / 0x1_0000 % 256, c / 0x100_0000 % 256]
  }

  function Raw(f: Field): seq<byte>
  {
    match f
    case Inline(b) => b
    case At(c) => IndexBytes(c)
    case Nothing => [255, 255, 255, 255]
  }

  /** CmpCompareNewValueDataAgainstKCBCache, once the value is found: short data is compared with the data
      field, wherever the value's data is. */
  ghost predicate SaysEqual(cells: Cells, v: Value, kind: nat, data: seq<byte>)
    requires ValueOk(cells, v)
  {
    && kind == v.kind && |data| == RealLength(v.dataLength)
    && if |data| <= SMALL then |data| == 0 || (|Raw(v.data)| >= |data| && Raw(v.data)[..|data|] == data)
       else DataOf(cells, v) == data
  }

  /** The comparison is right for every data if and only if the value's data is not short data in a cell of
      its own, or happens to equal that cell's index. */
  lemma {:induction false} SaysEqualExactly(cells: Cells, v: Value)
    requires ValueOk(cells, v)
    ensures (forall kind, data :: SaysEqual(cells, v, kind, data) <==> kind == v.kind && data == DataOf(cells, v))
            <==> (ShortInline(v) || IndexBytes(v.data.cell)[..v.dataLength] == DataOf(cells, v))
  {
    if ShortInline(v) || IndexBytes(v.data.cell)[..v.dataLength] == DataOf(cells, v) {
      forall kind, data ensures SaysEqual(cells, v, kind, data) <==> kind == v.kind && data == DataOf(cells, v) {
      }
    } else {
      assert !SaysEqual(cells, v, v.kind, DataOf(cells, v));
    }
  }

  /** Data equal to the index of the cell in which the value keeps other short data. */
  ghost predicate Mistaken(up: char -> char, s: Store, name: string, kind: nat, data: seq<byte>)
    requires IsList(s.cells, s.list)
  {
    var e := Find(up, s.cells, Entries(s), name);
    e.Some? &&
    var v := s.cells[e.value].value;
    && !ShortInline(v) && kind == v.kind && |data| == v.dataLength
    && IndexBytes(v.data.cell)[..|data|] == data != DataOf(s.cells, v)
  }

  ghost predicate TakenForEqual(up: char -> char, s: Store, name: string, kind: nat, data: seq<byte>)
    requires IsList(s.cells, s.list)
  {
    var e := Find(up, s.cells, Entries(s), name);
    e.Some? && SaysEqual(s.cells, s.cells[e.value].value, kind, data)
  }

  /** What the shortcut takes for equal is equal, or is mistaken for it. */
  lemma {:induction false} TakenExactly(up: char -> char, s: Store, name: string, kind: nat, data: seq<byte>)
    requires IsList(s.cells, s.list) && TakenForEqual(up, s, name, kind, data)
    ensures Lookup(up, s.cells, Entries(s), name) == Some(Stored(kind, data)) <==> !Mistaken(up, s, name, kind, data)
  {
  }

  lemma {:induction false} NotMistaken(up: char -> char, s: Store, name: string, kind: nat, data: seq<byte>)
    requires IsList(s.cells, s.list) && !TakenForEqual(up, s, name, kind, data)
    ensures !Mistaken(up, s, name, kind, data)
  {
  }

  lemma {:induction false} MistakenLength(up: char -> char, s: Store, name: string, kind: nat, data: seq<byte>)
    requires IsList(s.cells, s.list) && Mistaken(up, s, name, kind, data)
    ensures var r := Lookup(up, s.cells, Entries(s), name); r.Some? && |r.value.data| == |data|
  {
  }

  lemma {:induction false} MistakenIsTaken(up: char -> char, s: Store, name: string, kind: nat, data: seq<byte>)
    requires IsList(s.cells, s.list) && Mistaken(up, s, name, kind, data)
    ensures TakenForEqual(up, s, name, kind, data)
  {
  }

  /** A key whose only value keeps its four bytes, 1, in the cell with the index 8. */
  function Odd(): (s: Store)
  {
    Store(map[8 := DataCell([1, 0, 0, 0]), 16 := ValueCell(Value("a", false, 4, 4, At(8))), 24 := ListCell([16])],
        Some(24))
  }

  /** A hive may hold such a key; the comparison then takes 8 for the stored 1. */
  lemma {:induction false} CanBeMistaken(up: char -> char)
    ensures StoreOk(up, Odd(), {}) && Mistaken(up, Odd(), "a", 4, [8, 0, 0, 0])
  {
    var s := Odd();
    assert IsData(s.cells, 8) && IsValue(s.cells, 16);
    assert Entries(s) == [16] && s.cells[Entries(s)[0]].ValueCell? && 8 in DataCells(s.cells[Entries(s)[0]].value);
    assert Owns(s, Entries(s), 8);
    assert SameName(up, "a", NameOf(s.cells, 16));
    assert IndexBytes(8)[..4] == [8, 0, 0, 0];
    assert [1, 0, 0, 0][..4] == [1, 0, 0, 0];
  }

  // ----- Changing the store

  /** The value in `e` replaced by `v`, whose data cell is new or was the old value's; an old data cell that
      is not used any more is gone. */
  ghost predicate Rewritten(s: Store, n: Store, e: nat, v: Value)
  {
    && n.list == s.list && e in s.cells && s.cells[e].ValueCell? && e in n.cells && n.cells[e] == ValueCell(v)
    && v.name == s.cells[e].value.name
    && var was := DataCells(s.cells[e].value);
       && (forall c :: c != e && c !in was && c !in DataCells(v) ==>
             (c in n.cells <==> c in s.cells) && (c in s.cells ==> n.cells[c] == s.cells[c]))
       && (forall c :: c in DataCells(v) ==> c !in s.cells || c in was)
       && (forall c :: c in was && c !in DataCells(v) ==> c !in n.cells)
  }

  // The other entries do not notice.
  lemma {:induction false} OtherEntry(up: char -> char, s: Store, n: Store, e: nat, v: Value, c: nat)
    requires Rewritten(s, n, e, v) && IsValue(s.cells, e) && IsValue(s.cells, c) && c != e
    requires DataCells(s.cells[c].value) !! DataCells(s.cells[e].value)
    ensures IsValue(n.cells, c) && n.cells[c] == s.cells[c] && StoredAt(n.cells, c) == StoredAt(s.cells, c)
    ensures DataCells(v) !! DataCells(s.cells[c].value)
  {
    var x := s.cells[c].value;
    if !IsSmall(x.dataLength) && x.dataLength > 0 {
      assert x.data.cell in DataCells(x);
    }
  }

  lemma {:induction false} RewriteEntries(up: char -> char, s: Store, n: Store, i: nat, v: Value)
    requires IsList(s.cells, s.list) && EntriesOk(up, s.cells, Entries(s)) && i < |Entries(s)|
    requires Rewritten(s, n, Entries(s)[i], v) && IsValue(n.cells, Entries(s)[i])
    ensures IsList(n.cells, n.list) && Entries(n) == Entries(s) && EntriesOk(up, n.cells, Entries(s))
    ensures forall j :: 0 <= j < |Entries(s)| && j != i ==>
              n.cells[Entries(s)[j]] == s.cells[Entries(s)[j]] &&
                  StoredAt(n.cells, Entries(s)[j]) == StoredAt(s.cells, Entries(s)[j])
  {
    var entries := Entries(s);
    forall j | 0 <= j < |entries| && j != i
      ensures IsValue(n.cells, entries[j]) && n.cells[entries[j]] == s.cells[entries[j]]
      ensures StoredAt(n.cells, entries[j]) == StoredAt(s.cells, entries[j])
      ensures DataCells(v) !! DataCells(s.cells[entries[j]].value)
    {
      assert if i < j then Apart(up, s.cells, entries[i], entries[j]) else Apart(up, s.cells, entries[j], entries[i]);
      OtherEntry(up, s, n, entries[i], v, entries[j]);
    }
    forall j, k | 0 <= j < k < |entries| ensures Apart(up, n.cells, entries[j], entries[k]) {
      assert Apart(up, s.cells, entries[j], entries[k]);
    }
  }

  lemma {:induction false} RewriteKeeps(up: char -> char, s: Store, n: Store, others: set<nat>, i: nat, v: Value)
    requires StoreOk(up, s, others) && i < |Entries(s)|
    requires Rewritten(s, n, Entries(s)[i], v) && IsValue(n.cells, Entries(s)[i])
    ensures StoreOk(up, n, others) && Entries(n) == Entries(s)
    ensures forall name :: Lookup(up, n.cells, Entries(n), name) ==
              if SameName(up, name, v.name) then Some(StoredAt(n.cells, Entries(s)[i]))
              else Lookup(up, s.cells, Entries(s), name)
  {
    RewriteEntries(up, s, n, i, v);
    var entries := Entries(s);
    forall name ensures Lookup(up, n.cells, entries, name) ==
              if SameName(up, name, v.name) then Some(StoredAt(n.cells, entries[i]))
              else Lookup(up, s.cells, entries, name)
    {
      LookupRewritten(up, s.cells, n.cells, entries, i, name);
    }
  }

  /** A value `v` appended in the new cell `e`; its data cell is new, the list's cell is new or the same. */
  ghost predicate AppendedTo(s: Store, n: Store, e: nat, v: Value)
    requires IsList(s.cells, s.list)
  {
    && e !in s.cells && e in n.cells && n.cells[e] == ValueCell(v) && DataCells(v) !! s.cells.Keys
    && n.list.Some? && n.list.value in n.cells && n.cells[n.list.value] == ListCell(Entries(s) + [e])
    && (n.list == s.list || n.list.value !in s.cells)
    && (forall c :: c != e && s.list != Some(c) && n.list != Some(c) && c !in DataCells(v) ==>
          (c in n.cells <==> c in s.cells) && (c in s.cells ==> n.cells[c] == s.cells[c]))
    && (s.list.Some? && n.list != s.list ==> s.list.value !in n.cells)
  }

  lemma {:induction false} KeptEntry(s: Store, n: Store, e: nat, v: Value, c: nat)
    requires IsList(s.cells, s.list) && AppendedTo(s, n, e, v) && IsValue(s.cells, c)
    ensures IsValue(n.cells, c) && n.cells[c] == s.cells[c] && StoredAt(n.cells, c) == StoredAt(s.cells, c) && c != e
    ensures DataCells(v) !! DataCells(s.cells[c].value)
  {
    var x := s.cells[c].value;
    if !IsSmall(x.dataLength) && x.dataLength > 0 {
      assert x.data.cell in DataCells(x);
    }
  }

  lemma {:induction false} AppendEntries(up: char -> char, s: Store, n: Store, e: nat, v: Value)
    requires IsList(s.cells, s.list) && EntriesOk(up, s.cells, Entries(s)) && AppendedTo(s, n, e, v)
    requires IsValue(n.cells, e)
    requires forall j :: 0 <= j < |Entries(s)| ==> !SameName(up, v.name, NameOf(s.cells, Entries(s)[j]))
    ensures IsList(n.cells, n.list) && Entries(n) == Entries(s) + [e] && EntriesOk(up, n.cells, Entries(n))
    ensures AreValues(n.cells, Entries(s))
    ensures forall j :: 0 <= j < |Entries(s)| ==>
              n.cells[Entries(s)[j]] == s.cells[Entries(s)[j]] &&
                  StoredAt(n.cells, Entries(s)[j]) == StoredAt(s.cells, Entries(s)[j])
  {
    var entries := Entries(s);
    forall j | 0 <= j < |entries|
      ensures IsValue(n.cells, entries[j]) && n.cells[entries[j]] == s.cells[entries[j]] && entries[j] != e
      ensures StoredAt(n.cells, entries[j]) == StoredAt(s.cells, entries[j])
      ensures DataCells(v) !! DataCells(s.cells[entries[j]].value)
    {
      KeptEntry(s, n, e, v, entries[j]);
    }
    var all := entries + [e];
    forall j, k | 0 <= j < k < |all| ensures Apart(up, n.cells, all[j], all[k]) {
      if k < |entries| {
        assert Apart(up, s.cells, entries[j], entries[k]);
      }
    }
  }

  lemma {:induction false} AppendKeeps(up: char -> char, s: Store, n: Store, others: set<nat>, e: nat, v: Value)
    requires StoreOk(up, s, others) && AppendedTo(s, n, e, v) && IsValue(n.cells, e)
    requires forall j :: 0 <= j < |Entries(s)| ==> !SameName(up, v.name, NameOf(s.cells, Entries(s)[j]))
    ensures StoreOk(up, n, others) && Entries(n) == Entries(s) + [e]
    ensures forall name :: Lookup(up, n.cells, Entries(n), name) ==
              if SameName(up, name, v.name) then Some(StoredAt(n.cells, e)) else Lookup(up, s.cells, Entries(s), name)
  {
    AppendEntries(up, s, n, e, v);
    AppendOwns(up, s, n, others, e, v);
    forall name ensures Lookup(up, n.cells, Entries(n), name) ==
              if SameName(up, name, v.name) then Some(StoredAt(n.cells, e)) else Lookup(up, s.cells, Entries(s), name)
    {
      LookupAppended(up, s.cells, n.cells, Entries(s), e, name);
    }
  }

  lemma {:induction false} AppendOwns(up: char -> char, s: Store, n: Store, others: set<nat>, e: nat, v: Value)
    requires StoreOk(up, s, others) && AppendedTo(s, n, e, v) && IsList(n.cells, n.list)
    requires Entries(n) == Entries(s) + [e]
    requires IsValue(n.cells, e)
    requires forall j :: 0 <= j < |Entries(s)| ==> n.cells[Entries(s)[j]] == s.cells[Entries(s)[j]]
    ensures forall c :: c in n.cells <==> c in others || Owns(n, Entries(n), c)
    ensures forall c :: c in others ==> !Owns(n, Entries(n), c)
  {
    var was, now := Entries(s), Entries(n);
    forall c
      ensures Owns(n, now, c) <==>
                n.list == Some(c) || c == e || c in DataCells(v) || (Owns(s, was, c) && s.list != Some(c))
    {
      assert c in now <==> c in was || c == e;
      if i :| && 0 <= i < |now| && now[i] in n.cells && n.cells[now[i]].ValueCell?
              && c in DataCells(n.cells[now[i]].value)
      {
        assert i < |was| ==> now[i] == was[i] && IsValue(s.cells, was[i]);
      }
      if i :| && 0 <= i < |was| && was[i] in s.cells && s.cells[was[i]].ValueCell?
              && c in DataCells(s.cells[was[i]].value)
      {
        assert now[i] == was[i] && IsValue(s.cells, was[i]);
      }
      if c in DataCells(v) {
        assert now[|was|] == e;
      }
    }
  }

  /** `name` now stands for the type and data; all other names for what they stood for. */
  ghost predicate Means(up: char -> char, s: Store, n: Store, name: string, kind: nat, data: seq<byte>)
    requires IsList(s.cells, s.list) && IsList(n.cells, n.list)
  {
    forall x :: Lookup(up, n.cells, Entries(n), x) ==
      if SameName(up, x, name) then Some(Stored(kind, data)) else Lookup(up, s.cells, Entries(s), x)
  }

  ghost predicate Added(up: char -> char, s: Store, n: Store, others: set<nat>, name: string, kind: nat,
                        data: seq<byte>)
  {
    && StoreOk(up, s, others) && StoreOk(up, n, others) && Means(up, s, n, name, kind, data)
    && |Entries(n)| == |Entries(s)| + 1 && Entries(s) == Entries(n)[..|Entries(s)|]
    && (forall i :: 0 <= i < |Entries(s)| ==> n.cells[Entries(s)[i]] == s.cells[Entries(s)[i]])
    && var v := n.cells[Entries(n)[|Entries(s)|]].value; v.name == name && RealLength(v.dataLength) == |data|
  }

  // New cells do not disturb the list.
  lemma {:induction false} ListStays(up: char -> char, s: Store, c: Cells, others: set<nat>)
    requires StoreOk(up, s, others) && forall x :: x in s.cells ==> x in c && c[x] == s.cells[x]
    ensures IsList(c, s.list) && ListOf(c, s.list) == ListOf(s.cells, s.list)
  {
    ListFrame(s.cells, c, s.list, {});
  }

  lemma {:induction false} AddedNew(up: char -> char, s: Store, c: Cells, n: Store, others: set<nat>, e: nat,
                                    d: Option<nat>, v: Value, data: seq<byte>)
    requires StoreOk(up, s, others) && e !in s.cells && |data| <= BIG
    requires forall j :: 0 <= j < |Entries(s)| ==> !SameName(up, v.name, NameOf(s.cells, Entries(s)[j]))
    requires d.Some? <==> |data| > SMALL
    requires d.Some? ==> d.value !in s.cells && d.value != e && v.dataLength == |data| && v.data == At(d.value)
    requires d.Some? ==> d.value in c && c[d.value].DataCell? && data <= c[d.value].bytes
    requires d.None? ==>
               v.dataLength == |data| + SPECIAL && v.data.Inline? && |v.data.bytes| == SMALL &&
                   data == v.data.bytes[..|data|]
    requires c == (if d.Some? then s.cells[d.value := c[d.value]] else s.cells)[e := ValueCell(v)]
    requires n.list.Some? && n.list.value in n.cells && (n.list == s.list || n.list.value !in c)
    requires n.cells[n.list.value] == ListCell(Entries(s) + [e])
    requires n.cells == if n.list == s.list || s.list.None? then c[n.list.value := n.cells[n.list.value]]
                        else c[n.list.value := n.cells[n.list.value]] - {s.list.value}
    ensures Added(up, s, n, others, v.name, v.kind, data)
  {
    hide Lookup, EntriesOk, Owns;
    assert IsList(s.cells, s.list);
    assert AppendedTo(s, n, e, v);
    assert IsValue(n.cells, e) && StoredAt(n.cells, e) == Stored(v.kind, data);
    AppendKeeps(up, s, n, others, e, v);
    AppendSame(up, s, n, others, e, v);
  }

  lemma {:induction false} AppendSame(up: char -> char, s: Store, n: Store, others: set<nat>, e: nat, v: Value)
    requires StoreOk(up, s, others) && AppendedTo(s, n, e, v) && StoreOk(up, n, others)
    ensures forall i :: 0 <= i < |Entries(s)| ==>
              Entries(s)[i] in n.cells && n.cells[Entries(s)[i]] == s.cells[Entries(s)[i]]
  {
    forall i | 0 <= i < |Entries(s)|
      ensures Entries(s)[i] in n.cells && n.cells[Entries(s)[i]] == s.cells[Entries(s)[i]]
    {
      KeptEntry(s, n, e, v, Entries(s)[i]);
    }
  }

  lemma {:induction false} SoundList(up: char -> char, s: Store, others: set<nat>)
    requires StoreOk(up, s, others)
    ensures IsList(s.cells, s.list) && (s.list.Some? ==> Entries(s) != [])
  {
  }

  lemma {:induction false} SoundEntry(up: char -> char, s: Store, others: set<nat>, i: nat)
    requires StoreOk(up, s, others) && i < |Entries(s)|
    ensures s.list.Some? && s.list.value in s.cells && Entries(s) == s.cells[s.list.value].cells
    ensures IsValue(s.cells, Entries(s)[i])
  {
  }

  /** Entry `i` now holds the type and data under its name; all other names stand for what they stood for. */
  ghost predicate Replaced(up: char -> char, s: Store, n: Store, others: set<nat>, i: nat, kind: nat, data: seq<byte>)
  {
    && StoreOk(up, s, others) && StoreOk(up, n, others) && i < |Entries(s)| && Entries(n) == Entries(s)
    && n.list == s.list
    && Means(up, s, n, NameOf(s.cells, Entries(s)[i]), kind, data)
    && (forall j :: 0 <= j < |Entries(s)| && j != i ==> n.cells[Entries(s)[j]] == s.cells[Entries(s)[j]])
    && NameOf(n.cells, Entries(s)[i]) == NameOf(s.cells, Entries(s)[i])
    && RealLength(n.cells[Entries(s)[i]].value.dataLength) == |data|
  }

  /** Cell `d` holds the data; it was `v`'s data cell, or it is new and `v`'s data cell is gone. */
  ghost predicate ReplacedData(a: Cells, b: Cells, v: Value, d: nat, data: seq<byte>)
  {
    && d in b && b[d].DataCell? && data <= b[d].bytes && (d !in a || d in DataCells(v))
    && (forall c :: c != d && c !in DataCells(v) ==> (c in b <==> c in a) && (c in a ==> b[c] == a[c]))
    && (forall c :: c in DataCells(v) && c != d ==> c !in b)
  }

  lemma {:induction false} ReplaceKeeps(up: char -> char, s: Store, n: Store, others: set<nat>, i: nat, v: Value,
                                        data: seq<byte>)
    requires StoreOk(up, s, others) && i < |Entries(s)| && Rewritten(s, n, Entries(s)[i], v)
    requires IsValue(n.cells, Entries(s)[i]) && DataOf(n.cells, v) == data
    ensures Replaced(up, s, n, others, i, v.kind, data)
  {
    hide Lookup, Owns;
    RewriteKeeps(up, s, n, others, i, v);
    RewriteEntries(up, s, n, i, v);
  }

  lemma {:induction false} ReplacedInline(up: char -> char, s: Store, n: Store, others: set<nat>, i: nat, v: Value,
                                          data: seq<byte>)
    requires StoreOk(up, s, others) && i < |Entries(s)| && |data| <= SMALL && IsValue(s.cells, Entries(s)[i])
    requires var e := Entries(s)[i];
             && v == s.cells[e].value.(dataLength := |data| + SPECIAL, data := v.data, kind := v.kind)
             && v.data.Inline? && |v.data.bytes| == SMALL && data == v.data.bytes[..|data|]
             && n == s.(cells := (s.cells - DataCells(s.cells[e].value))[e := ValueCell(v)])
    ensures Replaced(up, s, n, others, i, v.kind, data)
  {
    hide StoreOk, Replaced;
    SoundList(up, s, others);
    assert Rewritten(s, n, Entries(s)[i], v);
    ReplaceKeeps(up, s, n, others, i, v, data);
  }

  lemma {:induction false} ReplacedAt(up: char -> char, s: Store, c: Cells, n: Store, others: set<nat>, i: nat,
                                      d: nat, v: Value, data: seq<byte>)
    requires StoreOk(up, s, others) && i < |Entries(s)| && SMALL < |data| <= BIG && IsValue(s.cells, Entries(s)[i])
    requires var e := Entries(s)[i];
             && ReplacedData(s.cells, c, s.cells[e].value, d, data)
             && v == s.cells[e].value.(data := At(d), dataLength := |data|, kind := v.kind)
             && n == s.(cells := c[e := ValueCell(v)])
    ensures Replaced(up, s, n, others, i, v.kind, data)
  {
    hide StoreOk, Replaced;
    SoundList(up, s, others);
    var e := Entries(s)[i];
    assert d != e;
    assert Rewritten(s, n, e, v);
    ReplaceKeeps(up, s, n, others, i, v, data);
  }

  /** No name and no data is longer than the maxima; names count two bytes a character. */
  ghost predicate Fits(cells: Cells, entries: seq<nat>, maxName: nat, maxData: nat)
  {
    forall i :: 0 <= i < |entries| && IsValue(cells, entries[i]) ==>
      RealLength(cells[entries[i]].value.dataLength) <= maxData && 2 * |NameOf(cells, entries[i])| <= maxName
  }

  lemma {:induction false} LookupSameName(up: char -> char, cells: Cells, entries: seq<nat>, x: string, name: string)
    requires AreValues(cells, entries) && SameName(up, x, name)
    ensures Lookup(up, cells, entries, x) == Lookup(up, cells, entries, name)
  {
    if entries != [] {
      LookupSameName(up, cells, entries[1..], x, name);
    }
  }

  // If the shortcut is taken, nothing changes, which is right unless the data was mistaken.
  lemma {:induction false} MeansSame(up: char -> char, s: Store, name: string, kind: nat, data: seq<byte>)
    requires IsList(s.cells, s.list) && TakenForEqual(up, s, name, kind, data)
    ensures Means(up, s, s, name, kind, data) <==> !Mistaken(up, s, name, kind, data)
  {
    TakenExactly(up, s, name, kind, data);
    if Mistaken(up, s, name, kind, data) {
      assert SameName(up, name, name);
    } else {
      StaysSame(up, s, name, kind, data);
    }
  }

  lemma {:induction false} StaysSame(up: char -> char, s: Store, name: string, kind: nat, data: seq<byte>)
    requires IsList(s.cells, s.list) && Lookup(up, s.cells, Entries(s), name) == Some(Stored(kind, data))
    ensures Means(up, s, s, name, kind, data)
  {
    forall x | SameName(up, x, name) ensures Lookup(up, s.cells, Entries(s), x) == Some(Stored(kind, data)) {
      LookupSameName(up, s.cells, Entries(s), x, name);
    }
  }

  lemma {:induction false} MeansIsThere(up: char -> char, s: Store, n: Store, name: string, kind: nat, data: seq<byte>)
    requires IsList(s.cells, s.list) && IsList(n.cells, n.list) && Means(up, s, n, name, kind, data)
    ensures Lookup(up, n.cells, Entries(n), name) == Some(Stored(kind, data))
  {
    assert SameName(up, name, name);
  }

  lemma {:induction false} ReplacedMeans(up: char -> char, s: Store, n: Store, others: set<nat>, i: nat, kind: nat,
                                         data: seq<byte>,
                                         name: string, maxName: nat, maxData: nat, maxName': nat, maxData': nat)
    requires Replaced(up, s, n, others, i, kind, data) && SameName(up, name, NameOf(s.cells, Entries(s)[i]))
    requires Fits(s.cells, Entries(s), maxName, maxData) && maxName <= maxName' && maxData <= maxData'
    requires |data| <= maxData'
    ensures StoreOk(up, n, others) && Entries(n) == Entries(s) && n.list == s.list && Means(up, s, n, name, kind, data)
    ensures Fits(n.cells, Entries(n), maxName', maxData')
  {
    hide Lookup, Owns, Apart;
    var entries := Entries(s);
    forall j | 0 <= j < |entries| && IsValue(n.cells, entries[j])
      ensures RealLength(n.cells[entries[j]].value.dataLength) <= maxData'
      ensures 2 * |NameOf(n.cells, entries[j])| <= maxName'
    {
      assert IsValue(s.cells, entries[j]);
    }
  }

  lemma {:induction false} AddedMeans(up: char -> char, s: Store, n: Store, others: set<nat>, name: string, kind: nat,
                                      data: seq<byte>,
                                      maxName: nat, maxData: nat, maxName': nat, maxData': nat)
    requires Added(up, s, n, others, name, kind, data)
    requires Fits(s.cells, Entries(s), maxName, maxData) && maxName <= maxName' && maxData <= maxData'
    requires |data| <= maxData' && 2 * |name| <= maxName'
    ensures StoreOk(up, n, others) && |Entries(n)| == |Entries(s)| + 1 && Means(up, s, n, name, kind, data)
    ensures Fits(n.cells, Entries(n), maxName', maxData')
  {
    hide Lookup, Owns, Apart;
    var was, now := Entries(s), Entries(n);
    forall j | 0 <= j < |now| && IsValue(n.cells, now[j])
      ensures RealLength(n.cells[now[j]].value.dataLength) <= maxData' && 2 * |NameOf(n.cells, now[j])| <= maxName'
    {
      if j < |was| {
        assert now[j] == was[j] && IsValue(s.cells, was[j]);
      }
    }
  }
}
