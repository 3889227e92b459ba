/** Setting up a memory heap and writing records to it: lnf_mem_fadd, lnf_mem_fastaggr and lnf_mem_write
    (src/memheap.c:332-470, 708-804). */
module MemHeap {
  import opened Aggregate
  import opened Bytes
  import opened FastAggr
  import opened FieldList
  import opened HashTable
  import opened RecordBuffer
  import opened Rows
  import opened TableSpec

  /** flags & LNF_AGGR_FLAGS. */
  datatype Flag = Default | MinFlag | MaxFlag | SumFlag | OrFlag | KeyFlag | OtherFlag

  /** A row of the field table: its type and the aggregation it has when none is asked for. */
  datatype Info = Unknown | Known(kind: Kind, aggr: Flag)

  datatype Result = Done | UnknownField | NoMemory | Refused

  datatype SortIn = Nowhere | InKey | InVal

  const MAX_KEY_LEN := 512   // LNF_MAX_KEY_LEN
  const MAX_VAL_LEN := 256   // LNF_MAX_VAL_LEN

  function SizeOf(kind: Kind): nat {
    match kind
    case U8 => 1
    case U16 => 2
    case U32 => 4
    case U64 => 8
    case Addr => 16
    case Mac => 6
  }

  function OpOf(kind: Kind, flag: Flag): Op {
    if kind == Addr || kind == Mac then Op.Empty
    else
      match flag
      case SumFlag => Sum
      case MinFlag => Min
      case MaxFlag => Max
      case OrFlag => Or
      case Default | KeyFlag | OtherFlag => Op.Empty
  }

  /** The aggregation a field gets: a 64-bit field with numbits is a key unless the caller says otherwise. */
  function FlagOf(info: Info, flag: Flag, numbits: int): Flag
    requires info.Known?
  {
    if flag != Default then flag else if numbits > 0 && info.kind == U64 then KeyFlag else info.aggr
  }

  /** The choice as it is made. */
  method ChooseFlag(info: Info, flag: Flag, numbits: int) returns (aggr: Flag)
    requires info.Known?
    ensures aggr == FlagOf(info, flag, numbits)
  {
    aggr := flag;
    if flag == Default {
      if numbits > 0 && info.kind == U64 {
        aggr := KeyFlag;
      } else {
        aggr := info.aggr;
      }
    }
  }

  function FldOf(info: Info, field: nat, flag: Flag, sorting: Sorting, numbits: int, numbits6: int): Fld
    requires info.Known?
  {
    Fld(field, SizeOf(info.kind), info.kind, OpOf(info.kind, FlagOf(info, flag, numbits)), sorting, numbits, numbits6)
  }

  /** A field is refused when the list has other fields and it alone would fill the buffer. */
  predicate Refuses(fs: seq<Fld>, f: Fld, maxsize: nat) {
    Position(fs, f.id) == |fs| && fs != [] && f.size >= maxsize
  }

  // ---------- what a write stores ----------

  datatype Modes = Modes(fast: bool, statistics: bool, compStatistics: bool, listMode: bool)

  function Value(cat: Catalog, vals: seq<Fld>, modes: Modes, rec: Record): Data {
    if modes.fast then FastValue(rec) else WholeBuffer(cat, vals, rec, 0)
  }

  function Key(cat: Catalog, keys: seq<Fld>, rec: Record, pairset: nat): Data {
    WholeBuffer(cat, keys, rec, pairset)
  }

  predicate SameKeys(cat: Catalog, keys: seq<Fld>, rec: Record) {
    Key(cat, keys, rec, 1) == Key(cat, keys, rec, 2)
  }

  /** The inserts of one record.  In statistics mode it counts once under each of its two keys, unless they
      are equal and the nfdump way of counting is asked for. */
  function Writes(cat: Catalog, keys: seq<Fld>, vals: seq<Fld>, modes: Modes, rec: Record): seq<Item<Data, Data>> {
    var v := Value(cat, vals, modes, rec);
    if !modes.statistics then [Item(Key(cat, keys, rec, 0), v)]
    else if modes.listMode || (modes.compStatistics && SameKeys(cat, keys, rec)) then [Item(Key(cat, keys, rec, 1), v)]
    else [Item(Key(cat, keys, rec, 1), v), Item(Key(cat, keys, rec, 2), v)]
  }

  /** The sort field: where it is found in a row and which way to sort. */
  datatype SortBy = SortBy(field: nat, offset: nat, place: SortIn, how: Sorting)

  ghost predicate Apart(a: FieldList, b: FieldList)
    reads a, b
  {
    a != b && a.repr !! b.repr
  }

  /** One list grows, the other one stays. */
  method Extend(list: FieldList, other: FieldList, f: Fld, maxsize: nat, len: nat) returns (st: Result, size: nat, offset: nat)
    requires list.Valid() && other.Valid() && Apart(other, list)
    modifies list, list.repr
    ensures list.Valid() && other.Valid() && Apart(other, list) && other.flds == old(other.flds)
    ensures list.flds == AddOrUpdated(old(list.flds), f, maxsize)
    ensures st == (if Refuses(old(list.flds), f, maxsize) then NoMemory else Done)
    ensures if st == Done then list.Reported(f.id, size, offset) else size == len && list.flds == old(list.flds)
    ensures fresh(list.repr - old(list.repr))
  {
    var ok;
    ok, size, offset := list.AddOrUpdate(f, maxsize, len, 0);
    st := if ok == Status.NoMem then NoMemory else Done;
    other.StaysValid();
  }

  lemma PutOne(m: map<Data, Data>, x: Item<Data, Data>, aggr: (Data, Data) -> Data)
    ensures PutAll(m, [x], aggr) == Put(m, x.key, x.val, aggr)
  {
    assert [x][..0] == [];
  }

  lemma PutTwo(m: map<Data, Data>, x: Item<Data, Data>, y: Item<Data, Data>, aggr: (Data, Data) -> Data)
    ensures PutAll(m, [x, y], aggr) == Put(Put(m, x.key, x.val, aggr), y.key, y.val, aggr)
  {
    PutOne(m, x, aggr);
    assert [x, y][..1] == [x];
  }

  class MemHeap {
    const cat: Catalog
    const info: nat -> Info
    const keys: FieldList
    const vals: FieldList
    var keyLen: nat
    var valLen: nat
    var sort: SortBy
    var modes: Modes

    ghost predicate ListsOK()
      reads keys, keys.repr, vals, vals.repr
    {
      keys.Valid() && vals.Valid() && Apart(keys, vals) && Apart(vals, keys)
    }

    /** keyLen and valLen are the sizes of the lists. */
    ghost predicate Valid()
      reads this, keys, keys.repr, vals, vals.repr
    {
      && ListsOK()
      && keyLen == Total(keys.flds) && valLen == Total(vals.flds)
    }

    constructor (cat: Catalog, info: nat -> Info)
      ensures Valid() && this.cat == cat && this.info == info && keys.flds == [] && vals.flds == []
      ensures sort.place == Nowhere && modes == Modes(false, false, false, false)
      ensures fresh(keys) && fresh(vals)
    {
      this.cat, this.info := cat, info;
      keys := new FieldList();
      vals := new FieldList();
      keyLen, valLen, sort := 0, 0, SortBy(0, 0, Nowhere, NoSort);
      modes := Modes(false, false, false, false);
    }

    /** What a call leaves as the sort field. */
    function Sorted(f: Fld, st: Result, fs: seq<Fld>, place: SortIn, before: SortBy): SortBy {
      if st == Done && f.sorting != NoSort then SortBy(f.id, Offset(fs, Position(fs, f.id)), place, f.sorting) else before
    }

    /** A field added with a sort flag becomes the sort field. */
    method NoteSort(f: Fld, st: Result, offset: nat, place: SortIn)
      modifies this`sort
      ensures sort == if st == Done && f.sorting != NoSort then SortBy(f.id, offset, place, f.sorting) else old(sort)
    {
      if st == Done && f.sorting != NoSort {
        sort := SortBy(f.id, offset, place, f.sorting);
      }
    }

    method AddKey(f: Fld) returns (st: Result)
      requires Valid()
      modifies this`keyLen, this`sort, keys, keys.repr
      ensures Valid() && keys.flds == AddOrUpdated(old(keys.flds), f, MAX_KEY_LEN) && vals.flds == old(vals.flds)
      ensures st == (if Refuses(old(keys.flds), f, MAX_KEY_LEN) then NoMemory else Done)
      ensures fresh(keys.repr - old(keys.repr))
      ensures sort == Sorted(f, st, keys.flds, InKey, old(sort)) && modes == old(modes)
    {
      var size, offset;
      st, size, offset := Extend(keys, vals, f, MAX_KEY_LEN, keyLen);
      assert ListsOK();
      keyLen := size;
      NoteSort(f, st, offset, InKey);
    }

    method AddValue(f: Fld) returns (st: Result)
      requires Valid()
      modifies this`valLen, this`sort, vals, vals.repr
      ensures Valid() && vals.flds == AddOrUpdated(old(vals.flds), f, MAX_VAL_LEN) && keys.flds == old(keys.flds)
      ensures st == (if Refuses(old(vals.flds), f, MAX_VAL_LEN) then NoMemory else Done)
      ensures fresh(vals.repr - old(vals.repr))
      ensures sort == Sorted(f, st, vals.flds, InVal, old(sort)) && modes == old(modes)
    {
      var size, offset;
      st, size, offset := Extend(vals, keys, f, MAX_VAL_LEN, valLen);
      assert ListsOK();
      valLen := size;
      NoteSort(f, st, offset, InVal);
    }

    /** The field goes to the key list or to the value list. */
    method AddTo(f: Fld, key: bool) returns (st: Result)
      requires Valid()
      modifies this, keys, keys.repr, vals, vals.repr
      ensures Valid()
      ensures if key then
                && keys.flds == AddOrUpdated(old(keys.flds), f, MAX_KEY_LEN) && vals.flds == old(vals.flds)
                && st == (if Refuses(old(keys.flds), f, MAX_KEY_LEN) then NoMemory else Done)
                && sort == Sorted(f, st, keys.flds, InKey, old(sort))
                && modes == (if st == Done && cat.pair1(f.id) != 0 && cat.pair2(f.id) != 0
                             then old(modes).(statistics := true) else old(modes))
              else
                && vals.flds == AddOrUpdated(old(vals.flds), f, MAX_VAL_LEN) && keys.flds == old(keys.flds)
                && st == (if Refuses(old(vals.flds), f, MAX_VAL_LEN) then NoMemory else Done)
                && modes == old(modes) && sort == Sorted(f, st, vals.flds, InVal, old(sort))
      ensures fresh(keys.repr - old(keys.repr))
      ensures fresh(vals.repr - old(vals.repr))
    {
      if key {
        st := AddKey(f);
        if st == Done && cat.pair1(f.id) != 0 && cat.pair2(f.id) != 0 {
          modes := modes.(statistics := true);
        }
      } else {
        st := AddValue(f);
      }
    }

    /** lnf_mem_fadd for a field that is not calculated from others. */
    method Fadd(field: nat, flag: Flag, sorting: Sorting, numbits: int, numbits6: int) returns (st: Result)
      requires Valid()
      modifies this, keys, keys.repr, vals, vals.repr
      ensures Valid()
      ensures info(field).Unknown? ==> st == UnknownField && keys.flds == old(keys.flds) && vals.flds == old(vals.flds)
      ensures info(field).Known? ==>
                var f := FldOf(info(field), field, flag, sorting, numbits, numbits6);
                if FlagOf(info(field), flag, numbits) == KeyFlag then
                  && keys.flds == AddOrUpdated(old(keys.flds), f, MAX_KEY_LEN) && vals.flds == old(vals.flds)
                  && st == (if Refuses(old(keys.flds), f, MAX_KEY_LEN) then NoMemory else Done)
                  && sort == Sorted(f, st, keys.flds, InKey, old(sort))
                  && modes == (if st == Done && cat.pair1(field) != 0 && cat.pair2(field) != 0
                               then old(modes).(statistics := true) else old(modes))
                else
                  && vals.flds == AddOrUpdated(old(vals.flds), f, MAX_VAL_LEN) && keys.flds == old(keys.flds)
                  && st == (if Refuses(old(vals.flds), f, MAX_VAL_LEN) then NoMemory else Done)
                  && modes == old(modes) && sort == Sorted(f, st, vals.flds, InVal, old(sort))
      ensures fresh(keys.repr - old(keys.repr))
      ensures fresh(vals.repr - old(vals.repr))
    {
      var k := info(field);
      if k == Unknown {
        return UnknownField;
      }
      var aggr := ChooseFlag(k, flag, numbits);
      var f := FldOf(k, field, flag, sorting, numbits, numbits6);
      st := AddTo(f, aggr == KeyFlag);
    }

    lemma FastChain(i: nat)
      requires i < 5
      ensures AddOrUpdated(FastFields()[..i], FastFields()[i], MAX_VAL_LEN) == FastFields()[..i + 1]
    {
      assert forall j :: 0 <= j < i ==> FastFields()[..i][j].id != FastFields()[i].id;
    }

    /** The i-th of the calls of lnf_mem_fastaggr. */
    method AddFast(field: nat, flag: Flag, ghost i: nat)
      requires Valid() && info(field).Known? && flag != Default && flag != KeyFlag
      requires i < 5 && FldOf(info(field), field, flag, NoSort, 0, 0) == FastFields()[i]
      modifies this, keys, keys.repr, vals, vals.repr
      ensures Valid() && keys.flds == old(keys.flds) && modes == old(modes)
      ensures old(vals.flds) == FastFields()[..i] ==> vals.flds == FastFields()[..i + 1]
      ensures fresh(keys.repr - old(keys.repr))
      ensures fresh(vals.repr - old(vals.repr))
    {
      FastChain(i);
      var st := Fadd(field, flag, NoSort, 0, 0);
    }

    predicate Counters(ids: set<nat>) {
      forall id :: id in ids ==> info(id).Known? && info(id).kind == U64
    }

    method AddTimes()
      requires Valid() && Counters({FIRST, LAST})
      modifies this, keys, keys.repr, vals, vals.repr
      ensures Valid() && keys.flds == old(keys.flds) && modes == old(modes)
      ensures fresh(keys.repr - old(keys.repr))
      ensures fresh(vals.repr - old(vals.repr))
      ensures old(vals.flds) == [] ==> vals.flds == FastFields()[..2]
    {
      AddFast(FIRST, MinFlag, 0);
      AddFast(LAST, MaxFlag, 1);
    }

    method AddTraffic()
      requires Valid() && Counters({DOCTETS, DPKTS})
      modifies this, keys, keys.repr, vals, vals.repr
      ensures Valid() && keys.flds == old(keys.flds) && modes == old(modes)
      ensures fresh(keys.repr - old(keys.repr))
      ensures fresh(vals.repr - old(vals.repr))
      ensures old(vals.flds) == FastFields()[..2] ==> vals.flds == FastFields()[..4]
    {
      AddFast(DOCTETS, SumFlag, 2);
      AddFast(DPKTS, SumFlag, 3);
    }

    method AddCounters()
      requires Valid() && Counters({DOCTETS, DPKTS, AGGR_FLOWS})
      modifies this, keys, keys.repr, vals, vals.repr
      ensures Valid() && keys.flds == old(keys.flds) && modes == old(modes)
      ensures old(vals.flds) == FastFields()[..2] ==> vals.flds == FastFields()
    {
      AddTraffic();
      AddFast(AGGR_FLOWS, SumFlag, 4);
    }

    /** lnf_mem_fastaggr: on an empty value list it leaves exactly the five fields of the struct. */
    method FastAggr(mode: nat) returns (st: Result)
      requires Valid() && Counters({FIRST, LAST, DOCTETS, DPKTS, AGGR_FLOWS})
      modifies this, keys, keys.repr, vals, vals.repr
      ensures Valid() && keys.flds == old(keys.flds)
      ensures mode !in {1, 2} ==> st == Refused && vals.flds == old(vals.flds) && modes == old(modes)
      ensures mode in {1, 2} ==> st == Done && modes == old(modes).(fast := true)
      ensures mode in {1, 2} && old(vals.flds) == [] ==> vals.flds == FastFields()
    {
      if mode != 1 && mode != 2 {
        return Refused;
      }
      modes := modes.(fast := true);
      AddTimes();
      AddCounters();
      return Done;
    }

    // ---------- writing ----------

    static method InsertRecord(table: HashTable<Data, Data>, key: Data, key2: Data, second: bool, val: Data)
      requires table.Valid()
      modifies table, table.buckets, table.rows
      ensures table.Valid()
      ensures var items := if second then [Item(key, val), Item(key2, val)] else [Item(key, val)];
              table.model == PutAll(old(table.model), items, table.aggr)
    {
      PutOne(table.model, Item(key, val), table.aggr);
      PutTwo(table.model, Item(key, val), Item(key2, val), table.aggr);
      var row := table.InsertHash(key, val);
      if second {
        row := table.InsertHash(key2, val);
      }
    }

    /** The lists fit their buffers and describe the fields of this catalog; in fast mode the value list is
        the one the struct stands for. */
    ghost predicate Ready()
      reads this, keys, keys.repr, vals, vals.repr
    {
      && Valid() && FieldsOK(cat, keys.flds) && FieldsOK(cat, vals.flds)
      && keyLen <= MAX_KEY_LEN && valLen <= MAX_VAL_LEN
      && (modes.fast ==> vals.flds == FastFields())
    }

    method BuildKey(rec: Record, pairset: nat) returns (key: Data)
      requires Ready() && RecordOK(cat, rec)
      ensures key == Key(cat, keys.flds, rec, pairset)
    {
      var keybuf := new byte[MAX_KEY_LEN];
      var n := FillBuf(cat, keys, rec, keybuf, pairset);
      key := keybuf[..keyLen];
    }

    /** fa->first and so on. */
    method BuildStruct(rec: Record, fa: array<byte>)
      requires fa.Length >= STRUCT_LEN && |rec(FIRST)| == |rec(LAST)| == |rec(DOCTETS)| == |rec(DPKTS)| == |rec(AGGR_FLOWS)| == 8
      modifies fa
      ensures fa[..STRUCT_LEN] == FastValue(rec)
    {
      Copy(fa, 0, rec(FIRST));
      Copy(fa, 8, rec(LAST));
      Copy(fa, 16, rec(DOCTETS));
      Copy(fa, 24, rec(DPKTS));
      Copy(fa, 32, rec(AGGR_FLOWS));
    }

    lemma FastSizes(rec: Record)
      requires FieldsOK(cat, FastFields()) && RecordOK(cat, rec)
      ensures |rec(FIRST)| == |rec(LAST)| == |rec(DOCTETS)| == |rec(DPKTS)| == |rec(AGGR_FLOWS)| == 8
    {
      var fs := FastFields();
      assert FieldOK(cat, fs[0]) && FieldOK(cat, fs[1]) && FieldOK(cat, fs[2]) && FieldOK(cat, fs[3]) && FieldOK(cat, fs[4]);
      forall i | 0 <= i < 5 ensures |rec(fs[i].id)| == 8 {
        assert Source(cat, fs[i].id, 0) == fs[i].id;
      }
      assert rec(fs[0].id) == rec(FIRST) && rec(fs[1].id) == rec(LAST) && rec(fs[2].id) == rec(DOCTETS);
      assert rec(fs[3].id) == rec(DPKTS) && rec(fs[4].id) == rec(AGGR_FLOWS);
    }

    method BuildValue(rec: Record) returns (val: Data)
      requires Ready() && RecordOK(cat, rec)
      ensures val == Value(cat, vals.flds, modes, rec)
    {
      var valbuf := new byte[MAX_VAL_LEN];
      if modes.fast {
        FastSizes(rec);
        FastOffsets();
        BuildStruct(rec, valbuf);
      } else {
        var n := FillBuf(cat, vals, rec, valbuf, 0);
      }
      val := valbuf[..valLen];
    }

    /** The key for pair set 2, and whether the record is inserted under it. */
    method SecondKey(rec: Record, key: Data) returns (second: bool, key2: Data)
      requires Ready() && RecordOK(cat, rec) && key == Key(cat, keys.flds, rec, if modes.statistics then 1 else 0)
      ensures second <==> modes.statistics && !(modes.compStatistics && SameKeys(cat, keys.flds, rec))
      ensures second ==> key2 == Key(cat, keys.flds, rec, 2)
    {
      second, key2 := modes.statistics, [];
      if second {
        key2 := BuildKey(rec, 2);
        if modes.compStatistics && key == key2 {
          second := false;
        }
      }
    }

    /** What lnf_mem_write inserts, before it looks for a table. */
    method Prepare(rec: Record) returns (key: Data, key2: Data, second: bool, val: Data)
      requires Ready() && RecordOK(cat, rec)
      ensures val == Value(cat, vals.flds, modes, rec) && key == Key(cat, keys.flds, rec, if modes.statistics then 1 else 0)
      ensures !modes.listMode ==> (if second then [Item(key, val), Item(key2, val)] else [Item(key, val)])
                                  == Writes(cat, keys.flds, vals.flds, modes, rec)
    {
      key := BuildKey(rec, if modes.statistics then 1 else 0);
      val := BuildValue(rec);
      second, key2 := SecondKey(rec, key);
    }

    /** lnf_mem_write in hash mode, on the table of the calling thread. */
    method WriteHash(table: HashTable<Data, Data>, rec: Record)
      requires Ready() && RecordOK(cat, rec) && table.Valid() && !modes.listMode
      modifies table, table.buckets, table.rows
      ensures table.Valid() && table.model == old(PutAll(table.model, Writes(cat, keys.flds, vals.flds, modes, rec), table.aggr))
    {
      var key, key2, second, val := Prepare(rec);
      InsertRecord(table, key, key2, second, val);
    }

    /** lnf_mem_write in list mode: one row, under the first key in statistics mode. */
    method WriteList(table: HashTable<Data, Data>, rec: Record)
      requires Ready() && RecordOK(cat, rec) && table.ListOK() && modes.listMode
      modifies table
      ensures table.ListOK()
      ensures ItemsOf(table.rows) == old(Writes(cat, keys.flds, vals.flds, modes, rec) + ItemsOf(table.rows))
    {
      var key := BuildKey(rec, if modes.statistics then 1 else 0);
      var val := BuildValue(rec);
      var row := table.InsertList(key, val);
    }
  }
}
