/** A registry hive as a heap of cells: keys with their values, classes, security data and subkeys. */
module HiveCells {
  import opened Options
  import opened Bytes

  const SMALL: nat := 4              // CM_KEY_VALUE_SMALL
  const BIG: nat := 0x3FD8           // CM_KEY_VALUE_BIG
  const SPECIAL: nat := 0x8000_0000  // CM_KEY_VALUE_SPECIAL_SIZE

  /** The data field of a value: four bytes of data, or the cell that holds the data. */
  datatype Field = Inline(bytes: seq<byte>) | At(cell: nat) | Nothing

  datatype Value = Value(name: string, compressed: bool, kind: nat, dataLength: nat, data: Field)

  datatype Flags = Flags(compressedName: bool, hiveEntry: bool, noDelete: bool, other: nat)

  datatype Node = Node(
    name: string,
    flags: Flags,
    parent: Option<nat>,
    classLength: nat,
    cls: Option<nat>,
    security: Option<nat>,
    values: Option<nat>,      // the value list's cell
    stable: seq<nat>,         // subkeys, by storage
    unstable: seq<nat>)

  datatype Cell = KeyCell(node: Node) | ValueCell(value: Value) | DataCell(bytes: seq<byte>) | ListCell(cells: seq<nat>)

  type Cells = map<nat, Cell>

  /** CmpIsKeyValueSmall. */
  predicate IsSmall(length: nat)
  {
    length >= SPECIAL
  }

  function RealLength(length: nat): nat
  {
    if length >= SPECIAL then length - SPECIAL else length
  }

  ghost predicate IsData(cells: Cells, c: nat)
  {
    c in cells && cells[c].DataCell?
  }

  // ----- Values

  /** The value's data is where its length says. No cell is shorter than four bytes, and big values are
      not supported. */
  ghost predicate ValueOk(cells: Cells, v: Value)
  {
    if IsSmall(v.dataLength) then RealLength(v.dataLength) <= SMALL && v.data.Inline? && |v.data.bytes| == SMALL
    else v.dataLength > 0 ==>
      v.data.At? && IsData(cells, v.data.cell) && SMALL <= |cells[v.data.cell].bytes| && v.dataLength <= BIG
      && v.dataLength <= |cells[v.data.cell].bytes|
  }

  ghost function DataOf(cells: Cells, v: Value): (d: seq<byte>)
    requires ValueOk(cells, v)
    ensures |d| == RealLength(v.dataLength)
  {
    if IsSmall(v.dataLength) then v.data.bytes[..RealLength(v.dataLength)]
    else if v.dataLength == 0 then []
    else cells[v.data.cell].bytes[..v.dataLength]
  }

  /** Cells that the value owns besides its own. */
  ghost function DataCells(v: Value): set<nat>
  {
    if !IsSmall(v.dataLength) && v.dataLength > 0 && v.data.At? then {v.data.cell} else {}
  }

  ghost predicate IsValue(cells: Cells, c: nat)
  {
    c in cells && cells[c].ValueCell? && ValueOk(cells, cells[c].value)
  }

  /** What a value means. */
  datatype Meaning = Meaning(name: string, compressed: bool, kind: nat, data: seq<byte>)

  ghost function MeaningOf(cells: Cells, c: nat): Meaning
    requires IsValue(cells, c)
  {
    var v := cells[c].value;
    Meaning(v.name, v.compressed, v.kind, DataOf(cells, v))
  }

  ghost predicate AreValues(cells: Cells, list: seq<nat>)
  {
    forall i :: 0 <= i < |list| ==> IsValue(cells, list[i])
  }

  ghost predicate IsList(cells: Cells, l: Option<nat>)
  {
    l.Some? ==> l.value in cells && cells[l.value].ListCell? && AreValues(cells, cells[l.value].cells)
  }

  ghost function ListOf(cells: Cells, l: Option<nat>): seq<nat>
    requires IsList(cells, l)
  {
    if l.None? then [] else cells[l.value].cells
  }

  ghost function Meanings(cells: Cells, list: seq<nat>): (ms: seq<Meaning>)
    requires AreValues(cells, list)
    ensures |ms| == |list|
  {
    seq(|list|, i requires 0 <= i < |list| => MeaningOf(cells, list[i]))
  }

  // ----- Keys

  function Kids(node: Node): seq<nat>
  {
    node.stable + node.unstable
  }

  /** The key without its subkeys. */
  ghost predicate KeyOk(cells: Cells, k: nat)
  {
    && k in cells && cells[k].KeyCell?
    && var node := cells[k].node;
       && (node.classLength > 0 ==>
             node.cls.Some? && IsData(cells, node.cls.value) && node.classLength <= |cells[node.cls.value].bytes|)
       && (node.security.Some? ==> IsData(cells, node.security.value))
       && IsList(cells, node.values)
  }

  /** A tree of keys of at most height `h`. */
  ghost predicate WellFormed(cells: Cells, k: nat, h: nat)
    decreases h, 1
  {
    KeyOk(cells, k) && AreTrees(cells, Kids(cells[k].node), h)
  }

  ghost predicate AreTrees(cells: Cells, kids: seq<nat>, h: nat)
    decreases h, 0
  {
    forall i :: 0 <= i < |kids| ==> h > 0 && WellFormed(cells, kids[i], h - 1)
  }

  /** What a tree of keys means: names, classes, security data, values, and the subkeys, in any order. */
  datatype KeyTree = KeyTree(
    name: string,
    compressedName: bool,
    cls: seq<byte>,
    security: Option<seq<byte>>,
    values: seq<Meaning>,
    kids: multiset<KeyTree>)

  ghost function ClassOf(cells: Cells, node: Node): seq<byte>
    requires node.classLength > 0 ==>
               node.cls.Some? && IsData(cells, node.cls.value) && node.classLength <= |cells[node.cls.value].bytes|
  {
    if node.classLength > 0 then cells[node.cls.value].bytes[..node.classLength] else []
  }

  ghost function SecurityOf(cells: Cells, node: Node): Option<seq<byte>>
    requires node.security.Some? ==> IsData(cells, node.security.value)
  {
    if node.security.Some? then Some(cells[node.security.value].bytes) else None
  }

  ghost function Denote(cells: Cells, k: nat, h: nat): KeyTree
    requires WellFormed(cells, k, h)
    decreases h, 1
  {
    var node := cells[k].node;
    KeyTree(node.name, node.flags.compressedName, ClassOf(cells, node), SecurityOf(cells, node),
            Meanings(cells, ListOf(cells, node.values)),
            multiset(Denotes(cells, Kids(node), h)))
  }

  ghost function Denotes(cells: Cells, kids: seq<nat>, h: nat): (ts: seq<KeyTree>)
    requires AreTrees(cells, kids, h)
    ensures |ts| == |kids|
    decreases h, 0
  {
    seq(|kids|, i requires 0 <= i < |kids| => Denote(cells, kids[i], h - 1))
  }

  // ----- What stays when other cells change

  /** Outside `old`, all of `a` is in `b` unchanged. */
  ghost predicate Agree(a: Cells, b: Cells, others: set<nat>)
  {
    forall c :: c in a && c !in others ==> c in b && b[c] == a[c]
  }

  ghost predicate ValueOutside(cells: Cells, c: nat, others: set<nat>)
    requires IsValue(cells, c)
  {
    c !in others && DataCells(cells[c].value) !! others
  }

  ghost predicate ListOutside(cells: Cells, l: Option<nat>, others: set<nat>)
    requires IsList(cells, l)
  {
    l.Some? ==> l.value !in others && forall i :: 0 <= i < |cells[l.value].cells| ==>
        ValueOutside(cells, cells[l.value].cells[i], others)
  }

  ghost predicate KeyOutside(cells: Cells, k: nat, others: set<nat>)
    requires KeyOk(cells, k)
  {
    && k !in others && ListOutside(cells, cells[k].node.values, others)
    && (cells[k].node.classLength > 0 ==> cells[k].node.cls.value !in others)
    && (cells[k].node.security.Some? ==> cells[k].node.security.value !in others)
  }

  /** All cells of the tree lie outside `others`. */
  ghost predicate Outside(cells: Cells, k: nat, h: nat, others: set<nat>)
    requires WellFormed(cells, k, h)
    decreases h, 1
  {
    KeyOutside(cells, k, others) && AllOutside(cells, Kids(cells[k].node), h, others)
  }

  ghost predicate AllOutside(cells: Cells, kids: seq<nat>, h: nat, others: set<nat>)
    requires AreTrees(cells, kids, h)
    decreases h, 0
  {
    forall i :: 0 <= i < |kids| ==> Outside(cells, kids[i], h - 1, others)
  }

  /** Every key points back to its parent; only a key without one carries the root's flags. */
  ghost predicate Linked(cells: Cells, k: nat, h: nat, parent: Option<nat>)
    requires WellFormed(cells, k, h)
    decreases h, 1
  {
    && cells[k].node.parent == parent
    && cells[k].node.flags == Flags(cells[k].node.flags.compressedName, parent.None?, parent.None?, 0)
    && AllLinked(cells, Kids(cells[k].node), h, k)
  }

  ghost predicate AllLinked(cells: Cells, kids: seq<nat>, h: nat, parent: nat)
    requires AreTrees(cells, kids, h)
    decreases h, 0
  {
    forall i :: 0 <= i < |kids| ==> Linked(cells, kids[i], h - 1, Some(parent))
  }

  lemma {:induction false} ValueFrame(a: Cells, b: Cells, c: nat, others: set<nat>)
    requires Agree(a, b, others) && IsValue(a, c) && ValueOutside(a, c, others)
    ensures IsValue(b, c) && ValueOutside(b, c, others) && MeaningOf(b, c) == MeaningOf(a, c) && b[c] == a[c]
  {
    var v := a[c].value;
    if !IsSmall(v.dataLength) && v.dataLength > 0 {
      assert v.data.cell in DataCells(v);
    }
  }

  lemma {:induction false} ListFrame(a: Cells, b: Cells, l: Option<nat>, others: set<nat>)
    requires Agree(a, b, others) && IsList(a, l) && ListOutside(a, l, others)
    ensures IsList(b, l) && ListOutside(b, l, others) && ListOf(b, l) == ListOf(a, l)
    ensures Meanings(b, ListOf(b, l)) == Meanings(a, ListOf(a, l))
  {
    if l.Some? {
      var list := a[l.value].cells;
      forall i | 0 <= i < |list|
        ensures IsValue(b, list[i]) && ValueOutside(b, list[i], others)
        ensures MeaningOf(b, list[i]) == MeaningOf(a, list[i])
      {
        ValueFrame(a, b, list[i], others);
      }
    }
  }

  lemma {:induction false} KeyFrame(a: Cells, b: Cells, k: nat, others: set<nat>)
    requires Agree(a, b, others) && KeyOk(a, k) && KeyOutside(a, k, others)
    ensures KeyOk(b, k) && KeyOutside(b, k, others) && b[k] == a[k] && Local(b, k) == Local(a, k)
  {
    hide IsList, ListOutside, ListOf, Meanings;
    ListFrame(a, b, a[k].node.values, others);
  }

  /** The meaning of the key without its subkeys. */
  ghost function Local(cells: Cells, k: nat): KeyTree
    requires KeyOk(cells, k)
  {
    var node := cells[k].node;
    KeyTree(node.name, node.flags.compressedName, ClassOf(cells, node), SecurityOf(cells, node),
            Meanings(cells, ListOf(cells, node.values)), multiset{})
  }

  lemma {:induction false} TreeFrame(a: Cells, b: Cells, k: nat, h: nat, others: set<nat>)
    requires Agree(a, b, others) && WellFormed(a, k, h) && Outside(a, k, h, others)
    ensures WellFormed(b, k, h) && Outside(b, k, h, others) && Denote(b, k, h) == Denote(a, k, h) && b[k] == a[k]
    decreases h, 1
  {
    hide KeyOutside, Agree;
    KeyFrame(a, b, k, others);
    TreesFrame(a, b, Kids(a[k].node), h, others);
  }

  lemma {:induction false} TreesFrame(a: Cells, b: Cells, kids: seq<nat>, h: nat, others: set<nat>)
    requires Agree(a, b, others) && AreTrees(a, kids, h) && AllOutside(a, kids, h, others)
    ensures AreTrees(b, kids, h) && AllOutside(b, kids, h, others) && Denotes(b, kids, h) == Denotes(a, kids, h)
    decreases h, 0
  {
    if kids != [] {
      assert WellFormed(a, kids[0], h - 1);
      forall i | 0 <= i < |kids| ensures WellFormed(b, kids[i], h - 1) {
        TreeFrame(a, b, kids[i], h - 1, others);
      }
      assert AreTrees(b, kids, h);
      forall i | 0 <= i < |kids|
        ensures Outside(b, kids[i], h - 1, others) && Denotes(b, kids, h)[i] == Denotes(a, kids, h)[i]
      {
        TreeFrame(a, b, kids[i], h - 1, others);
      }
    }
  }

  lemma {:induction false} LinkedFrame(a: Cells, b: Cells, k: nat, h: nat, others: set<nat>, parent: Option<nat>)
    requires Agree(a, b, others) && WellFormed(a, k, h) && Outside(a, k, h, others) && Linked(a, k, h, parent)
    ensures WellFormed(b, k, h) && Linked(b, k, h, parent)
    decreases h
  {
    TreeFrame(a, b, k, h, others);
    var kids := Kids(a[k].node);
    forall i | 0 <= i < |kids| ensures Linked(b, kids[i], h - 1, Some(k)) {
      LinkedFrame(a, b, kids[i], h - 1, others, Some(k));
    }
  }

  lemma {:induction false} OutsideNothing(a: Cells, k: nat, h: nat)
    requires WellFormed(a, k, h)
    ensures Outside(a, k, h, {})
    decreases h
  {
    var kids := Kids(a[k].node);
    forall i | 0 <= i < |kids| ensures Outside(a, kids[i], h - 1, {}) {
      OutsideNothing(a, kids[i], h - 1);
    }
  }

  lemma {:induction false} OutsideFewer(a: Cells, k: nat, h: nat, others: set<nat>, less: set<nat>)
    requires WellFormed(a, k, h) && Outside(a, k, h, others) && less <= others
    ensures Outside(a, k, h, less)
    decreases h
  {
    var kids := Kids(a[k].node);
    forall i | 0 <= i < |kids| ensures Outside(a, kids[i], h - 1, less) {
      OutsideFewer(a, kids[i], h - 1, others, less);
    }
  }

  lemma {:induction false} SourceStays(a: Cells, b: Cells, k: nat)
    requires Agree(a, b, {}) && KeyOk(a, k)
    ensures KeyOk(b, k) && b[k] == a[k] && Local(b, k) == Local(a, k)
    ensures IsList(b, a[k].node.values)
    ensures Meanings(b, ListOf(b, a[k].node.values)) == Meanings(a, ListOf(a, a[k].node.values))
    ensures ListOf(b, a[k].node.values) == ListOf(a, a[k].node.values)
  {
    KeyFrame(a, b, k, {});
    ListFrame(a, b, a[k].node.values, {});
  }

  lemma {:induction false} KeyOfKey(a: Cells, k: nat)
    requires KeyOk(a, k)
    ensures k in a && a[k].KeyCell?
  {
  }
}
