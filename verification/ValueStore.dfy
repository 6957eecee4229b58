/** Setting and querying the values of a registry key. */
module ValueStore {
  import opened Options
  import opened Bytes
  import opened Names
  import opened HiveCells
  import opened ValueState

  const PARTIAL_HEADER: nat := 12  // up to the data of KEY_VALUE_PARTIAL_INFORMATION
  const FULL_HEADER: nat := 20     // up to the name of KEY_VALUE_FULL_INFORMATION

  datatype QueryStatus = Found | NotFound | TooSmall | Overflow

  /** ALIGN_UP to four or eight bytes. */
  function AlignUp(n: nat, eight: bool): (r: nat)
    ensures n <= r < n + 8 && (if eight then r % 8 == 0 else r % 4 == 0)
  {
    if eight then (n + 7) / 8 * 8 else (n + 3) / 4 * 4
  }

  function Min(a: nat, b: nat): nat
  {
    if a < b then a else b
  }

  datatype Status = Success | KeyDeleted | NoLogSpace | InsufficientResources

  /** Up to four bytes of data, as they lie in the value. */
  function Padded(data: seq<byte>): (b: seq<byte>)
    requires |data| <= SMALL
    ensures |b| == SMALL && b[..|data|] == data
  {
    data + seq(SMALL - |data|, _ => 0)
  }

  class Key {
    const up: char -> char
    var cells: Cells
    var next: nat
    var count: nat            // the key node's value list
    var list: Option<nat>
    var kcbCount: nat         // the copy in the key control block
    var kcbList: Option<nat>
    var maxName: nat
    var maxData: nat
    var kcbMaxName: nat
    var kcbMaxData: nat
    var deleted: bool
    var plenty: bool          // whether there is room for cells and for the log
    ghost var others: set<nat>  // cells of other keys

    ghost function S(): Store
      reads this
    {
      Store(cells, list)
    }

    /** The key control block agrees with the node, and the maxima cover all values. */
    ghost predicate CacheOk()
      reads this
      requires IsList(cells, list)
    {
      && count == |Entries(S())| && kcbCount == count && kcbList == list && kcbMaxName == maxName
      && kcbMaxData == maxData
      && Fits(cells, Entries(S()), maxName, maxData)
    }

    ghost predicate Valid()
      reads this
    {
      StoreOk(up, S(), others) && CacheOk() && forall c :: c in cells ==> c < next
    }

    /** A key without values in a hive with the given cells. */
    constructor (up: char -> char, cells: Cells, next: nat, plenty: bool)
      requires forall c :: c in cells ==> c < next
      ensures Valid() && this.plenty == plenty && !deleted && this.cells == cells && others == cells.Keys && list.None?
    {
      this.up, this.cells, this.next, this.plenty, deleted, others := up, cells, next, plenty, false, cells.Keys;
      count, list, kcbCount, kcbList := 0, None, 0, None;
      maxName, maxData, kcbMaxName, kcbMaxData := 0, 0, 0, 0;
    }

    /** CmpFindNameInList and the search of CmpFindValueByNameFromCache. */
    method FindName(name: string) returns (i: nat, found: bool)
      requires Valid()
      ensures found ==> i < count && SameName(up, name, NameOf(cells, Entries(S())[i]))
      ensures found ==> Find(up, cells, Entries(S()), name) == Some(Entries(S())[i])
      ensures !found ==>
                i == count && forall j :: 0 <= j < count ==> !SameName(up, name, NameOf(cells, Entries(S())[j]))
      ensures !found ==> Find(up, cells, Entries(S()), name) == None
    {
      i, found := 0, false;
      if count == 0 {
        return;
      }
      var entries := cells[list.value].cells;
      while i < count
        invariant i <= count && forall j :: 0 <= j < i ==> !SameName(up, name, NameOf(cells, entries[j]))
      {
        if SameName(up, name, cells[entries[i]].value.name) {
          LookupFound(up, cells, entries, name, i);
          return i, true;
        }
        i := i + 1;
      }
      LookupMissing(up, cells, entries, name);
    }

    /** CmpCompareNewValueDataAgainstKCBCache: short data is compared with the data field of the value found,
        even if that field is the index of a cell. */
    method CompareNewValue(name: string, kind: nat, data: seq<byte>) returns (equal: bool)
      requires Valid()
      ensures equal <==> TakenForEqual(up, S(), name, kind, data)
    {
      var i, found := FindName(name);
      if !found {
        return false;
      }
      assert IsValue(cells, Entries(S())[i]);
      var v := cells[cells[list.value].cells[i]].value;
      if kind != v.kind || |data| != RealLength(v.dataLength) {
        return false;
      }
      if |data| <= SMALL {
        equal := |data| == 0 || Raw(v.data)[..|data|] == data;
      } else {
        equal := cells[v.data.cell].bytes[..|data|] == data;
      }
    }

    /** HvAllocateCell, which may fail. */
    method Allocate(content: Cell) returns (c: Option<nat>)
      requires forall c :: c in cells ==> c < next
      modifies this`cells, this`next
      ensures forall c :: c in cells ==> c < next
      ensures c.None? ==> cells == old(cells) && !plenty
      ensures c.Some? ==> c.value !in old(cells) && cells == old(cells)[c.value := content]
    {
      var fails: bool := *;
      if fails && !plenty {
        return None;
      }
      c := Some(next);
      cells := cells[next := content];
      next := next + 1;
    }

    /** CmpSetValueDataNew: a cell for the data; cells may be longer than asked for. */
    method SetDataNew(data: seq<byte>) returns (c: Option<nat>)
      requires |data| > SMALL && forall c :: c in cells ==> c < next
      modifies this`cells, this`next
      ensures forall c :: c in cells ==> c < next
      ensures c.None? ==> cells == old(cells) && !plenty
      ensures c.Some? ==>
                && c.value !in old(cells) && c.value in cells && cells == old(cells)[c.value := cells[c.value]]
                && cells[c.value].DataCell? && data <= cells[c.value].bytes
    {
      var room: seq<byte> := *;
      c := Allocate(DataCell(data + room));
    }

    /** CmpAddValueToList at the end; the list's cell may have to move, and that may fail. */
    method AddValueToList(e: nat) returns (ok: bool)
      requires IsList(cells, list) && e in cells && forall c :: c in cells ==> c < next
      modifies this`cells, this`next, this`list, this`count
      ensures forall c :: c in cells ==> c < next
      ensures !ok ==> cells == old(cells) && list == old(list) && count == old(count) && !plenty
      ensures ok ==>
                && count == old(count) + 1 && list.Some? && list.value in cells
                && (list == old(list) || list.value !in old(cells))
                && cells[list.value] == ListCell(ListOf(old(cells), old(list)) + [e])
                && (if list == old(list) || old(list).None? then cells == old(cells)[list.value := cells[list.value]]
                    else cells == old(cells)[list.value := cells[list.value]] - {old(list).value})
    {
      var entries := if list.None? then [] else cells[list.value].cells;
      var fits: bool := *;
      if list.Some? && fits {
        cells := cells[list.value := ListCell(entries + [e])];
      } else {
        var c := Allocate(ListCell(entries + [e]));
        if c.None? {
          return false;
        }
        if list.Some? {
          cells := cells - {list.value};
        }
        list := c;
      }
      count := count + 1;
      ok := true;
    }

    /** The value's cell and, for longer data, its data cell; if there is no room, neither. */
    method NewValue(name: string, kind: nat, data: seq<byte>) returns (e: Option<nat>, d: Option<nat>, v: Value)
      requires |data| <= BIG && forall c :: c in cells ==> c < next
      modifies this`cells, this`next
      ensures forall c :: c in cells ==> c < next
      ensures e.None? ==> cells == old(cells) && !plenty
      ensures e.Some? ==>
                e.value in cells && e.value !in old(cells) && (d.Some? <==> |data| > SMALL) && v.name == name &&
                    v.kind == kind
      ensures e.Some? && d.Some? ==>
                && d.value !in old(cells) && d.value != e.value && v.dataLength == |data| && v.data == At(d.value)
                && d.value in cells && cells[d.value].DataCell? && data <= cells[d.value].bytes
                && cells == old(cells)[d.value := cells[d.value]][e.value := ValueCell(v)]
      ensures e.Some? && d.None? ==>
                && v.dataLength == |data| + SPECIAL && v.data.Inline? && |v.data.bytes| == SMALL
                && data == v.data.bytes[..|data|]
                && cells == old(cells)[e.value := ValueCell(v)]
    {
      var compressed: bool := *;
      v := Value(name, compressed, kind, SPECIAL, Inline([0, 0, 0, 0]));
      e := Allocate(ValueCell(v));
      d := None;
      if e.None? {
        return;
      }
      assert e.value in cells;
      if |data| > SMALL {
        d := SetDataNew(data);
        if d.None? {
          cells := cells - {e.value};
          e := None;
          return;
        }
        v := v.(dataLength := |data|, data := At(d.value));
      } else {
        v := v.(dataLength := |data| + SPECIAL, data := Inline(Padded(data)));
      }
      assert e.value in cells && e.value < next;
      cells := cells[e.value := ValueCell(v)];
    }

    /** CmpSetValueKeyNew: a failure leaves no cell behind. */
    method SetValueNew(name: string, kind: nat, data: seq<byte>) returns (status: Status)
      requires Valid() && |data| <= BIG
      requires forall j :: 0 <= j < count ==> !SameName(up, name, NameOf(cells, Entries(S())[j]))
      modifies this`cells, this`next, this`list, this`count
      ensures forall c :: c in cells ==> c < next
      ensures status.Success? ==> Added(up, old(S()), S(), others, name, kind, data) && count == old(count) + 1
      ensures !status.Success? ==> S() == old(S()) && count == old(count) && !plenty
    {
      hide StoreOk, EntriesOk, Lookup, Added;
      var logged: bool := *;
      if count > 0 && !logged && !plenty {
        return NoLogSpace;
      }
      ghost var s := S();
      SoundList(up, s, others);
      var e, d, v := NewValue(name, kind, data);
      if e.None? {
        return InsufficientResources;
      }
      ghost var c := cells;
      ListStays(up, s, c, others);
      var ok := AddValueToList(e.value);
      if !ok {
        cells := cells - (if d.Some? then {d.value} else {}) - {e.value};
        assert cells == old(cells);
        return InsufficientResources;
      }
      AddedNew(up, s, c, S(), others, e.value, d, v, data);
      status := Success;
    }

    /** The data cell for longer data that replaces `v`'s data: `v`'s own cell if it is long enough. */
    method DataCellFor(v: Value, data: seq<byte>) returns (d: Option<nat>)
      requires ValueOk(cells, v) && |data| > SMALL && forall c :: c in cells ==> c < next
      modifies this`cells, this`next
      ensures forall c :: c in cells ==> c < next
      ensures d.None? ==> cells == old(cells) && !plenty
      ensures d.Some? ==> ReplacedData(old(cells), cells, v, d.value, data)
    {
      if !IsSmall(v.dataLength) && v.dataLength > 0 {
        var was := v.data.cell;
        var bytes := cells[was].bytes;
        if |data| <= |bytes| {
          cells := cells[was := DataCell(data + bytes[|data|..])];
          return Some(was);
        }
        d := SetDataNew(data);
        if d.Some? {
          cells := cells - {was};
        }
      } else {
        d := SetDataNew(data);
      }
    }

    /** CmpSetValueKeyExisting: any of the four changes between short and longer data. */
    method SetValueExisting(i: nat, kind: nat, data: seq<byte>) returns (status: Status)
      requires Valid() && i < count && |data| <= BIG
      modifies this`cells, this`next
      ensures forall c :: c in cells ==> c < next
      ensures status.Success? ==> Replaced(up, old(S()), S(), others, i, kind, data)
      ensures !status.Success? ==> S() == old(S()) && !plenty
    {
      hide StoreOk, EntriesOk, Lookup, Replaced;
      ghost var s := S();
      SoundList(up, s, others);
      SoundEntry(up, s, others, i);
      var e := cells[list.value].cells[i];
      var v := cells[e].value;
      var logged: bool := *;
      if !logged && !plenty {
        return NoLogSpace;
      }
      if |data| <= SMALL {
        if !IsSmall(v.dataLength) && v.dataLength > 0 {
          cells := cells - {v.data.cell};
        }
        v := v.(dataLength := |data| + SPECIAL, data := Inline(Padded(data)), kind := kind);
        cells := cells[e := ValueCell(v)];
        ReplacedInline(up, s, S(), others, i, v, data);
        return Success;
      }
      var d := DataCellFor(v, data);
      if d.None? {
        return InsufficientResources;
      }
      ghost var c := cells;
      v := v.(data := At(d.value), dataLength := |data|, kind := kind);
      assert e in cells;
      cells := cells[e := ValueCell(v)];
      ReplacedAt(up, s, c, S(), others, i, d.value, v, data);
      status := Success;
    }

    /** Brings the key control block and the maxima up to date after a value was set. */
    method UpdateCache(name: string, data: seq<byte>)
      modifies this`kcbList, this`kcbCount, this`maxName, this`maxData, this`kcbMaxName, this`kcbMaxData
      requires kcbMaxName == maxName && kcbMaxData == maxData
      ensures kcbCount == count && kcbList == list && kcbMaxName == maxName && kcbMaxData == maxData
      ensures maxName >= old(maxName) && maxName >= 2 * |name| && maxData >= old(maxData) && maxData >= |data|
    {
      if maxName < 2 * |name| {
        maxName, kcbMaxName := 2 * |name|, 2 * |name|;
      }
      if maxData < |data| {
        maxData, kcbMaxData := |data|, |data|;
      }
      kcbCount, kcbList := count, list;
    }

    /** The value is there: rewrite it. */
    method ReplaceValue(name: string, i: nat, kind: nat, data: seq<byte>) returns (status: Status)
      requires Valid() && |data| <= BIG && i < count && SameName(up, name, NameOf(cells, Entries(S())[i]))
      modifies this`cells, this`next, this`kcbList, this`kcbCount
      modifies this`maxName, this`maxData, this`kcbMaxName, this`kcbMaxData
      ensures Valid()
      ensures status.Success? ==> Means(up, old(S()), S(), name, kind, data)
      ensures !status.Success? ==> S() == old(S()) && !plenty
    {
      hide StoreOk, EntriesOk, Lookup, Replaced, Fits, Means;
      SoundList(up, S(), others);
      status := SetValueExisting(i, kind, data);
      if status.Success? {
        UpdateCache(name, data);
        ReplacedMeans(up, old(S()), S(), others, i, kind, data, name, old(maxName), old(maxData), maxName, maxData);
        SoundList(up, S(), others);
      }
    }

    /** The value is not there: append it. */
    method AppendValue(name: string, kind: nat, data: seq<byte>) returns (status: Status)
      requires Valid() && |data| <= BIG
      requires forall j :: 0 <= j < count ==> !SameName(up, name, NameOf(cells, Entries(S())[j]))
      modifies this`cells, this`next, this`list, this`count, this`kcbList
      modifies this`kcbCount, this`maxName, this`maxData, this`kcbMaxName, this`kcbMaxData
      ensures Valid()
      ensures status.Success? ==> Means(up, old(S()), S(), name, kind, data)
      ensures !status.Success? ==> S() == old(S()) && !plenty
    {
      hide StoreOk, EntriesOk, Lookup, Added, Fits, Means;
      SoundList(up, S(), others);
      status := SetValueNew(name, kind, data);
      if status.Success? {
        UpdateCache(name, data);
        AddedMeans(up, old(S()), S(), others, name, kind, data, old(maxName), old(maxData), maxName, maxData);
        SoundList(up, S(), others);
      }
    }

    /** CmSetValueKey: on success the name stands for exactly this type and data and every other name for what
        it stood for, if and only if the data was not mistaken for short data that the value keeps in a cell.
        It fails only if the key is deleted or room runs out, and then changes nothing. */
    method SetValueKey(name: string, kind: nat, data: seq<byte>) returns (status: Status)
      requires Valid() && |data| <= BIG
      modifies this`cells, this`next, this`list, this`count, this`kcbList
      modifies this`kcbCount, this`maxName, this`maxData, this`kcbMaxName, this`kcbMaxData
      ensures Valid()
      ensures status.Success? ==>
                (Means(up, old(S()), S(), name, kind, data) <==> !Mistaken(up, old(S()), name, kind, data))
      ensures !deleted && Mistaken(up, old(S()), name, kind, data) ==> status.Success? && S() == old(S())
      ensures !status.Success? ==> S() == old(S()) && (deleted || !plenty)
      ensures deleted ==> status.KeyDeleted?
    {
      hide StoreOk, EntriesOk, Lookup, Find, Fits, Means, Mistaken, TakenForEqual;
      SoundList(up, S(), others);
      if deleted {
        return KeyDeleted;
      }
      var equal := CompareNewValue(name, kind, data);
      if equal {
        MeansSame(up, S(), name, kind, data);
        return Success;
      }
      NotMistaken(up, S(), name, kind, data);
      var i, found := FindName(name);
      var logged: bool := *;
      if !logged && !plenty {
        return NoLogSpace;
      }
      if found {
        status := ReplaceValue(name, i, kind, data);
      } else {
        status := AppendValue(name, kind, data);
      }
    }

    /** At such data the call reports success, changes nothing, and the value still is what it was. */
    method SetSkipped(name: string, kind: nat, data: seq<byte>) returns (status: Status)
      requires Valid() && |data| <= BIG && !deleted && Mistaken(up, S(), name, kind, data)
      modifies this`cells, this`next, this`list, this`count, this`kcbList
      modifies this`kcbCount, this`maxName, this`maxData, this`kcbMaxName, this`kcbMaxData
      ensures Valid() && status.Success? && S() == old(S())
      ensures Lookup(up, cells, Entries(S()), name) != Some(Stored(kind, data))
    {
      hide StoreOk, EntriesOk, Lookup, Find, Fits, Means;
      SoundList(up, S(), others);
      MistakenIsTaken(up, S(), name, kind, data);
      TakenExactly(up, S(), name, kind, data);
      status := SetValueKey(name, kind, data);
    }

    /** The data of a value, from inside it or from its cell. */
    method ValueData(e: nat) returns (data: seq<byte>)
      requires IsValue(cells, e)
      ensures data == DataOf(cells, cells[e].value)
    {
      var v := cells[e].value;
      var size := RealLength(v.dataLength);
      if size == 0 {
        data := [];
      } else if IsSmall(v.dataLength) {
        data := v.data.bytes[..size];
      } else {
        data := cells[v.data.cell].bytes[..size];
      }
    }

    /** CmpQueryKeyValueData for the partial information of a value: its type, the length of its data, and as
        much of the data as there is room for. */
    method QueryPartial(name: string, length: nat) returns (status: QueryStatus, kind: nat, size: nat,
                        data: seq<byte>, needed: nat)
      requires Valid()
      ensures var r := Lookup(up, cells, Entries(S()), name);
              if r.None? then status == NotFound
              else
                && needed == PARTIAL_HEADER + |r.value.data|
                && (if length < PARTIAL_HEADER then status == TooSmall
                    else
                      && kind == r.value.kind && size == |r.value.data|
                      && data == r.value.data[..Min(size, length - PARTIAL_HEADER)]
                      && status == if length < needed then Overflow else Found)
    {
      hide StoreOk, EntriesOk, Lookup, Find, Fits;
      kind, size, data, needed := 0, 0, [], 0;
      SoundList(up, S(), others);
      var i, found := FindName(name);
      if !found {
        return NotFound, kind, size, data, needed;
      }
      SoundEntry(up, S(), others, i);
      var e := cells[list.value].cells[i];
      size := RealLength(cells[e].value.dataLength);
      needed := PARTIAL_HEADER + size;
      status := Found;
      if length < PARTIAL_HEADER {
        return TooSmall, kind, size, data, needed;
      }
      kind := cells[e].value.kind;
      if size > 0 {
        data := ValueData(e);
        var left := length - PARTIAL_HEADER;
        if left < size {
          data := data[..left];
          status := Overflow;
        }
      }
    }

    /** The same for the full information: the name, then the data at an aligned offset behind it. */
    method QueryFull(name: string, length: nat, eight: bool)
      returns (status: QueryStatus, kind: nat, size: nat, nameSize: nat, offset: nat, copied: nat, data: seq<byte>,
          needed: nat)
      requires Valid() && length < 0x8000_0000
      ensures var e, r := Find(up, cells, Entries(S()), name), Lookup(up, cells, Entries(S()), name);
              if r.None? then status == NotFound
              else
                && nameSize == 2 * |NameOf(cells, e.value)|
                && (|r.value.data| == 0 ==> needed == FULL_HEADER + nameSize)
                && (|r.value.data| > 0 ==> needed == AlignUp(FULL_HEADER + nameSize, eight) + |r.value.data|)
                && (if length < FULL_HEADER then status == TooSmall
                    else
                      && kind == r.value.kind && size == |r.value.data| && copied == Min(nameSize, length - FULL_HEADER)
                      && (size > 0 ==> offset == needed - size)
                      && data == r.value.data[..Min(size, if length < offset then 0 else length - offset)]
                      && status == if length < needed then Overflow else Found)
    {
      hide StoreOk, EntriesOk, Lookup, Find, Fits;
      kind, size, nameSize, offset, copied, data, needed := 0, 0, 0, 0, 0, [], 0;
      SoundList(up, S(), others);
      var i, found := FindName(name);
      if !found {
        status := NotFound;
        return;
      }
      SoundEntry(up, S(), others, i);
      var e := cells[list.value].cells[i];
      size := RealLength(cells[e].value.dataLength);
      nameSize := 2 * |cells[e].value.name|;
      needed := FULL_HEADER + nameSize + size;
      if size > 0 {
        offset := AlignUp(needed - size, eight);
        needed := offset + size;
      }
      status := Found;
      if length < FULL_HEADER {
        status := TooSmall;
        return;
      }
      kind, copied := cells[e].value.kind, nameSize;
      if length - FULL_HEADER < nameSize {
        copied := length - FULL_HEADER;
        status := Overflow;
      }
      if size > 0 {
        data := ValueData(e);
        var left := if length < offset then 0 else length - offset;
        if left < size {
          data := data[..left];
          status := Overflow;
        }
      }
    }

    /** What was set is what a big enough query returns, if and only if the data was not mistaken; another name
        still has what it had. */
    method SetThenQuery(name: string, kind: nat, data: seq<byte>, other: string, length: nat)
      returns (status: Status, q: QueryStatus, k: nat, d: seq<byte>)
      requires Valid() && |data| <= BIG && length >= PARTIAL_HEADER + |data|
      modifies this`cells, this`next, this`list, this`count, this`kcbList
      modifies this`kcbCount, this`maxName, this`maxData, this`kcbMaxName, this`kcbMaxData
      ensures Valid()
      ensures status.Success? ==>
                (q == Found && k == kind && d == data <==> !Mistaken(up, old(S()), name, kind, data))
      ensures plenty && !deleted ==> status.Success?
      ensures !SameName(up, other, name) ==>
                Lookup(up, cells, Entries(S()), other) == old(Lookup(up, cells, Entries(S()), other))
    {
      hide StoreOk, EntriesOk, Lookup, Find, Fits, Mistaken, TakenForEqual;
      var n, m;
      SoundList(up, S(), others);
      if Mistaken(up, S(), name, kind, data) {
        MistakenIsTaken(up, S(), name, kind, data);
        MistakenLength(up, S(), name, kind, data);
        TakenExactly(up, S(), name, kind, data);
      }
      status := SetValueKey(name, kind, data);
      SoundList(up, S(), others);
      q, k, n, d, m := QueryPartial(name, length);
      if status.Success? && !Mistaken(up, old(S()), name, kind, data) {
        MeansIsThere(up, old(S()), S(), name, kind, data);
      } else if status.Success? {
        ghost var r := Lookup(up, cells, Entries(S()), name).value;
        assert r.data[..|r.data|] == r.data && r == Stored(r.kind, r.data);
      }
    }
  }
}
