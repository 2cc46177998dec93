/** The calls that take wrapper structs by value, at the structs gonix makes for them: what each leaves
    allocated. */
module WrapperCalls {
  import opened Optional
  import opened AllocMaps

  // ---- the structs of the binding ----

  function StringItem(value: seq<bv8>): Struct { Struct([Bytes(value), Scalar(|value|)], None) }

  function StoreParam(p: Param): Struct {
    Struct([Bytes(p.key), Scalar(|p.key|), Bytes(p.value), Scalar(|p.value|)], None)
  }

  /** StorePathItem and ValueItem: a borrowed pointer. */
  function PointerItem(pointer: int): Struct { Struct([Scalar(pointer)], None) }

  /** StringArray, StoreParams, StorePathList and ValueArray: a slice and its length. */
  function List(items: Option<seq<Struct>>, len: int): Struct {
    Struct([if items.Some? then Items(items.value) else NilItems, Scalar(len)], None)
  }

  function StoreGCOptions(action: int, ignoreLiveness: int, paths: Struct, maxFreed: int): Struct {
    Struct([Scalar(action), Scalar(ignoreLiveness), Nested(paths), Scalar(maxFreed)], None)
  }

  /** One setting of a store. */
  datatype Param = Param(key: seq<bv8>, value: seq<bv8>)

  function StringArray(values: seq<seq<bv8>>): Struct {
    List(Some(seq(|values|, i requires 0 <= i < |values| => StringItem(values[i]))), |values|)
  }

  function StoreParams(params: seq<Param>): Struct {
    List(Some(seq(|params|, i requires 0 <= i < |params| => StoreParam(params[i]))), |params|)
  }

  function PointerArray(pointers: seq<int>): Struct {
    List(Some(seq(|pointers|, i requires 0 <= i < |pointers| => PointerItem(pointers[i]))), |pointers|)
  }

  // ---- how many blocks they take ----

  lemma {:induction false} EqualItems(xs: seq<Struct>, n: nat)
    requires forall i | 0 <= i < |xs| :: Blocks(xs[i]) == n
    ensures ItemBlocks(xs) == n * |xs|
  {
    if xs != [] {
      EqualItems(xs[..|xs| - 1], n);
    }
  }

  lemma FieldBlocksOf(fs: seq<Field>)
    ensures |fs| == 1 ==> FieldBlocks(fs) == BlocksOf(fs[0])
    ensures |fs| == 2 ==> FieldBlocks(fs) == BlocksOf(fs[0]) + BlocksOf(fs[1])
    ensures |fs| == 4 ==> FieldBlocks(fs) == BlocksOf(fs[0]) + BlocksOf(fs[1]) + BlocksOf(fs[2]) + BlocksOf(fs[3])
  {
    if |fs| > 1 {
      FieldBlocksOf(fs[..|fs| - 1]);
      assert FieldBlocks(fs) == FieldBlocks(fs[..|fs| - 1]) + BlocksOf(fs[|fs| - 1]);
    }
  }

  /** A list costs one block for itself, and, unless its slice is nil, one for the array and those of
      its items, each of which is first passed on its own. */
  lemma ListBlocks(items: Option<seq<Struct>>, len: int, n: nat)
    requires items.Some? ==> forall i | 0 <= i < |items.value| :: Blocks(items.value[i]) == n
    ensures Blocks(List(items, len)) == if items.Some? then 2 + n * |items.value| else 1
  {
    FieldBlocksOf(List(items, len).fields);
    if items.Some? {
      EqualItems(items.value, n);
    }
  }

  lemma ItemBlocksOf(value: seq<bv8>, param: Param, pointer: int)
    ensures Blocks(StringItem(value)) == 2
    ensures Blocks(StoreParam(param)) == 3
    ensures Blocks(PointerItem(pointer)) == 1
  {
    FieldBlocksOf(StringItem(value).fields);
    FieldBlocksOf(StoreParam(param).fields);
    FieldBlocksOf(PointerItem(pointer).fields);
  }

  lemma StringArrayBlocks(values: seq<seq<bv8>>)
    ensures Blocks(StringArray(values)) == 2 + 2 * |values|
  {
    var items := seq(|values|, i requires 0 <= i < |values| => StringItem(values[i]));
    forall i | 0 <= i < |items| ensures Blocks(items[i]) == 2 {
      ItemBlocksOf(values[i], Param([], []), 0);
    }
    ListBlocks(Some(items), |values|, 2);
  }

  lemma StoreParamsBlocks(params: seq<Param>)
    ensures Blocks(StoreParams(params)) == 2 + 3 * |params|
  {
    var items := seq(|params|, i requires 0 <= i < |params| => StoreParam(params[i]));
    forall i | 0 <= i < |items| ensures Blocks(items[i]) == 3 {
      ItemBlocksOf([], params[i], 0);
    }
    ListBlocks(Some(items), |params|, 3);
  }

  lemma PointerArrayBlocks(pointers: seq<int>)
    ensures Blocks(PointerArray(pointers)) == 2 + |pointers|
  {
    var items := seq(|pointers|, i requires 0 <= i < |pointers| => PointerItem(pointers[i]));
    forall i | 0 <= i < |items| ensures Blocks(items[i]) == 1 {
      ItemBlocksOf([], Param([], []), pointers[i]);
    }
    ListBlocks(Some(items), |pointers|, 1);
  }

  /** Garbage collection options copy the list into themselves, besides passing it on its own. */
  lemma GCOptionsBlocks(action: int, ignore: int, paths: Struct, max: int)
    ensures Blocks(StoreGCOptions(action, ignore, paths, max)) == 1 + Blocks(paths)
  {
    FieldBlocksOf(StoreGCOptions(action, ignore, paths, max).fields);
  }

  /** None of their parts was passed before, so they can be passed in any memory. */
  lemma ListLive(mem: Memory, items: seq<Struct>, len: int)
    requires forall i | 0 <= i < |items| :: LiveStruct(mem, items[i])
    ensures LiveStruct(mem, List(Some(items), len))
  {
    var fields := List(Some(items), len).fields;
    assert Live(mem, fields[0]) && Live(mem, fields[1]);
  }

  lemma ArraysLive(mem: Memory, values: seq<seq<bv8>>, params: seq<Param>, pointers: seq<int>)
    ensures LiveStruct(mem, StringArray(values))
    ensures LiveStruct(mem, StoreParams(params))
    ensures LiveStruct(mem, PointerArray(pointers))
  {
    ListLive(mem, seq(|values|, i requires 0 <= i < |values| => StringItem(values[i])), |values|);
    ListLive(mem, seq(|params|, i requires 0 <= i < |params| => StoreParam(params[i])), |params|);
    ListLive(mem, seq(|pointers|, i requires 0 <= i < |pointers| => PointerItem(pointers[i])), |pointers|);
  }

  // ---- what the C layer finds in memory ----

  /** A pointer to a copy of `data`. */
  predicate PointsToText(mem: Memory, v: Val, data: seq<bv8>) {
    v.Pointer? && v.to.Some? && v.to.value in mem && mem[v.to.value] == Text(data)
  }

  /** A pointer to an array of `n` objects, and their number. */
  predicate PointsToArray(mem: Memory, vals: seq<Val>, n: nat) {
    && |vals| == 2 && vals[1] == Number(n)
    && vals[0].Pointer? && vals[0].to.Some? && vals[0].to.value in mem
    && mem[vals[0].to.value].Array? && |mem[vals[0].to.value].elems| == n
  }

  /** Each object is a pointer to a string and its length. */
  predicate StringsInMemory(mem: Memory, vals: seq<Val>, values: seq<seq<bv8>>) {
    && PointsToArray(mem, vals, |values|)
    && var elems := mem[vals[0].to.value].elems;
       forall i | 0 <= i < |values| ::
         |elems[i]| == 2 && PointsToText(mem, elems[i][0], values[i]) && elems[i][1] == Number(|values[i]|)
  }

  /** Each object is a pointer to the key and its length, and a pointer to the value and its length. */
  predicate ParamsInMemory(mem: Memory, vals: seq<Val>, params: seq<Param>) {
    && PointsToArray(mem, vals, |params|)
    && var elems := mem[vals[0].to.value].elems;
       forall i | 0 <= i < |params| ::
         && |elems[i]| == 4
         && PointsToText(mem, elems[i][0], params[i].key) && elems[i][1] == Number(|params[i].key|)
         && PointsToText(mem, elems[i][2], params[i].value) && elems[i][3] == Number(|params[i].value|)
  }

  /** Each object is a pointer that was borrowed. */
  predicate PointersInMemory(mem: Memory, vals: seq<Val>, pointers: seq<int>) {
    && PointsToArray(mem, vals, |pointers|)
    && var elems := mem[vals[0].to.value].elems;
       forall i | 0 <= i < |pointers| :: elems[i] == [Number(pointers[i])]
  }

  /** The action, whether liveness is ignored, the paths as an array and its length, and the limit. */
  predicate OptionsInMemory(mem: Memory, vals: seq<Val>, action: int, ignore: int, paths: seq<int>, max: int) {
    && |vals| == 4 && vals[0] == Number(action) && vals[1] == Number(ignore) && vals[3] == Number(max)
    && vals[2].Inline? && PointersInMemory(mem, vals[2].vals, paths)
  }

  lemma ListIsRead(was: Memory, mem: Memory, lo: Block, vals: seq<Val>, items: seq<Struct>)
    requires ReadsStruct(was, mem, lo, vals, List(Some(items), |items|))
    ensures PointsToArray(mem, vals, |items|)
    ensures forall i | 0 <= i < |items| :: ReadsStruct(was, mem, lo, mem[vals[0].to.value].elems[i], items[i])
  {
    var fields := List(Some(items), |items|).fields;
    assert Reads(was, mem, lo, vals[0], fields[0]) && Reads(was, mem, lo, vals[1], fields[1]);
  }

  lemma StringsAreRead(was: Memory, mem: Memory, lo: Block, vals: seq<Val>, values: seq<seq<bv8>>)
    requires ReadsStruct(was, mem, lo, vals, StringArray(values))
    ensures StringsInMemory(mem, vals, values)
  {
    var items := seq(|values|, i requires 0 <= i < |values| => StringItem(values[i]));
    ListIsRead(was, mem, lo, vals, items);
    var elems := mem[vals[0].to.value].elems;
    forall i | 0 <= i < |values|
      ensures |elems[i]| == 2 && PointsToText(mem, elems[i][0], values[i]) && elems[i][1] == Number(|values[i]|)
    {
      var fields := items[i].fields;
      assert ReadsStruct(was, mem, lo, elems[i], items[i]);
      assert Reads(was, mem, lo, elems[i][0], fields[0]) && Reads(was, mem, lo, elems[i][1], fields[1]);
    }
  }

  lemma ParamIsRead(was: Memory, mem: Memory, lo: Block, vals: seq<Val>, p: Param)
    requires ReadsStruct(was, mem, lo, vals, StoreParam(p))
    ensures |vals| == 4
    ensures PointsToText(mem, vals[0], p.key) && vals[1] == Number(|p.key|)
    ensures PointsToText(mem, vals[2], p.value) && vals[3] == Number(|p.value|)
  {
    var fields := StoreParam(p).fields;
    assert Reads(was, mem, lo, vals[0], fields[0]) && Reads(was, mem, lo, vals[1], fields[1]);
    assert Reads(was, mem, lo, vals[2], fields[2]) && Reads(was, mem, lo, vals[3], fields[3]);
  }

  lemma ParamsAreRead(was: Memory, mem: Memory, lo: Block, vals: seq<Val>, params: seq<Param>)
    requires ReadsStruct(was, mem, lo, vals, StoreParams(params))
    ensures ParamsInMemory(mem, vals, params)
  {
    var items := seq(|params|, i requires 0 <= i < |params| => StoreParam(params[i]));
    ListIsRead(was, mem, lo, vals, items);
    forall i | 0 <= i < |params|
      ensures ReadsStruct(was, mem, lo, mem[vals[0].to.value].elems[i], StoreParam(params[i]))
    {
      assert items[i] == StoreParam(params[i]);
    }
    forall i | 0 <= i < |params| {
      ParamIsRead(was, mem, lo, mem[vals[0].to.value].elems[i], params[i]);
    }
  }

  lemma PointersAreRead(was: Memory, mem: Memory, lo: Block, vals: seq<Val>, pointers: seq<int>)
    requires ReadsStruct(was, mem, lo, vals, PointerArray(pointers))
    ensures PointersInMemory(mem, vals, pointers)
  {
    var items := seq(|pointers|, i requires 0 <= i < |pointers| => PointerItem(pointers[i]));
    ListIsRead(was, mem, lo, vals, items);
    var elems := mem[vals[0].to.value].elems;
    forall i | 0 <= i < |pointers| ensures elems[i] == [Number(pointers[i])] {
      assert ReadsStruct(was, mem, lo, elems[i], items[i]);
      assert Reads(was, mem, lo, elems[i][0], items[i].fields[0]);
    }
  }

  lemma OptionsAreRead(was: Memory, mem: Memory, lo: Block, vals: seq<Val>, action: int, ignore: int,
                       paths: seq<int>, max: int)
    requires ReadsStruct(was, mem, lo, vals, StoreGCOptions(action, ignore, PointerArray(paths), max))
    ensures OptionsInMemory(mem, vals, action, ignore, paths, max)
  {
    var fields := StoreGCOptions(action, ignore, PointerArray(paths), max).fields;
    assert Reads(was, mem, lo, vals[0], fields[0]) && Reads(was, mem, lo, vals[1], fields[1]);
    assert Reads(was, mem, lo, vals[2], fields[2]) && Reads(was, mem, lo, vals[3], fields[3]);
    PointersAreRead(was, mem, lo, vals[2].vals, paths);
  }

  // ---- calls without a passing by reference ----

  /** A struct literal handed by value to a call. */
  method CallUnguarded(h: Heap, x: Struct) returns (vals: seq<Val>, ghost left: set<Block>)
    requires h.Valid() && LiveStruct(h.mem, x) && x.ref.None?
    modifies h`mem, h`next, h`owner, h`maps
    ensures h.Valid() && ReadsStruct(old(h.mem), h.mem, old(h.next), vals, x)
    ensures Left(old(h.mem), h.mem, left) && |left| == Blocks(x)
    ensures forall m <- h.maps :: m in old(h.maps) || !m.finalizer || m.m == {}
  {
    var w := new Wrapper(x);
    vals, left := CallByValue(w, h);
  }

  /** `later` is `mem` and the blocks `left`. */
  predicate Left(mem: Memory, later: Memory, left: set<Block>) {
    later.Keys == mem.Keys + left && left !! mem.Keys && Keeps(mem, later, 0)
  }

  /** The lookup path of `eval.New`: two blocks stay, and two for each of its entries. */
  method SetLookupPath(h: Heap, values: seq<seq<bv8>>) returns (vals: seq<Val>, ghost left: set<Block>)
    requires h.Valid()
    modifies h`mem, h`next, h`owner, h`maps
    ensures h.Valid() && StringsInMemory(h.mem, vals, values)
    ensures ReadsStruct(old(h.mem), h.mem, old(h.next), vals, StringArray(values))
    ensures Left(old(h.mem), h.mem, left) && |left| == 2 + 2 * |values|
    ensures forall m <- h.maps :: m in old(h.maps) || !m.finalizer || m.m == {}
  {
    ArraysLive(h.mem, values, [], []);
    StringArrayBlocks(values);
    ghost var mem, lo := h.mem, h.next;
    vals, left := CallUnguarded(h, StringArray(values));
    StringsAreRead(mem, h.mem, lo, vals, values);
  }

  /** `CallMulti`: two blocks stay, and one for each argument. */
  method CallMulti(h: Heap, args: seq<int>) returns (vals: seq<Val>, ghost left: set<Block>)
    requires h.Valid()
    modifies h`mem, h`next, h`owner, h`maps
    ensures h.Valid() && PointersInMemory(h.mem, vals, args)
    ensures ReadsStruct(old(h.mem), h.mem, old(h.next), vals, PointerArray(args))
    ensures Left(old(h.mem), h.mem, left) && |left| == 2 + |args|
    ensures forall m <- h.maps :: m in old(h.maps) || !m.finalizer || m.m == {}
  {
    ArraysLive(h.mem, [], [], args);
    PointerArrayBlocks(args);
    ghost var mem, lo := h.mem, h.next;
    vals, left := CallUnguarded(h, PointerArray(args));
    PointersAreRead(mem, h.mem, lo, vals, args);
  }

  /** `CollectGarbage`: three blocks stay, and one for each path. */
  method CollectGarbage(h: Heap, action: int, ignoreLiveness: int, paths: seq<int>, maxFreed: int)
    returns (vals: seq<Val>, ghost left: set<Block>)
    requires h.Valid()
    modifies h`mem, h`next, h`owner, h`maps
    ensures h.Valid() && OptionsInMemory(h.mem, vals, action, ignoreLiveness, paths, maxFreed)
    ensures ReadsStruct(old(h.mem), h.mem, old(h.next), vals,
                        StoreGCOptions(action, ignoreLiveness, PointerArray(paths), maxFreed))
    ensures Left(old(h.mem), h.mem, left) && |left| == 3 + |paths|
    ensures forall m <- h.maps :: m in old(h.maps) || !m.finalizer || m.m == {}
  {
    var options := StoreGCOptions(action, ignoreLiveness, PointerArray(paths), maxFreed);
    ArraysLive(h.mem, [], [], paths);
    assert forall i | 0 <= i < |options.fields| :: Live(h.mem, options.fields[i]);
    PointerArrayBlocks(paths);
    GCOptionsBlocks(action, ignoreLiveness, PointerArray(paths), maxFreed);
    ghost var mem, lo := h.mem, h.next;
    vals, left := CallUnguarded(h, options);
    OptionsAreRead(mem, h.mem, lo, vals, action, ignoreLiveness, paths, maxFreed);
  }

  // ---- store.New ----

  /** `unpackPCharString`: a copy in a block of its own, in a map with a finalizer. */
  method CopyString(h: Heap, text: seq<bv8>, ghost w: Wrapper) returns (c: Block, copies: AllocMap)
    requires w.Valid(h)
    modifies h`mem, h`next, h`owner, h`maps
    ensures w.Valid(h) && fresh(copies) && copies in h.maps && copies.m == {c} && copies.finalizer
    ensures c == old(h.next) && h.next == c + 1 && c !in old(h.mem) && h.mem == old(h.mem)[c := Text(text)]
    ensures old(h.maps) <= h.maps
  {
    ghost var s := h.Now();
    c, copies := AllocNew(h, s, Text(text), true);
    GrewKeeps(h, s, copies);
    LiveStructKept(s.mem, h.mem, w.x);
    JustOne(Recorded(copies), c);
  }

  lemma JustOne(blocks: set<Block>, c: Block)
    requires forall b: Block :: b in blocks <==> c <= b < c + 1
    ensures blocks == {c}
  {}

  lemma LeftBoth(mem: Memory, c: Block, text: Cell, later: Memory, left: set<Block>)
    requires c !in mem && Left(mem[c := text], later, left)
    ensures Left(mem, later, {c} + left) && c !in left && c in later && later[c] == text
  {}

  /** The generated call of `store.New`: the URI is copied and the parameters are taken by value. */
  method StoreOpen(h: Heap, uri: seq<bv8>, w: Wrapper)
    returns (vals: seq<Val>, c: Block, copies: AllocMap, ghost left: set<Block>)
    requires w.Valid(h)
    modifies h`mem, h`next, h`owner, h`maps
    ensures w.Valid(h) && ReadsStruct(old(h.mem), h.mem, old(h.next), vals, w.x)
    ensures fresh(copies) && copies in h.maps && copies.m == {c} && copies.finalizer
    ensures Left(old(h.mem), h.mem, {c} + left) && c !in left && c in h.mem && h.mem[c] == Text(uri)
    ensures |left| == Blocks(w.x) && (left == {} <==> w.x.ref.Some?)
  {
    ghost var was, lo := h.mem, h.next;
    c, copies := CopyString(h, uri, w);
    ghost var mem, from := h.mem, h.next;
    vals, left := CallByValue(w, h);
    LeftBoth(was, c, Text(uri), h.mem, left);
    StructKept(was, mem, h.mem, h.mem, lo, from, vals, w.x);
  }

  /** `store.New` passes the parameters by reference first exactly when there are any. With
      parameters the C heap is as before once the finalizer of the URI's copy has freed it; without
      any, two blocks stay. */
  method OpenStore(h: Heap, uri: seq<bv8>, params: seq<Param>)
    returns (vals: seq<Val>, ghost during: Memory, ghost c: Block)
    requires h.Valid()
    modifies h`mem, h`next, h`owner, h`maps, h`freed
    ensures h.Valid() && ParamsInMemory(during, vals, params)
    ensures ReadsStruct(old(h.mem), during, old(h.next), vals, StoreParams(params))
    ensures c in during && during[c] == Text(uri)
    ensures h.mem == old(h.mem) <==> params != []
    ensures params != [] ==>
      exists blocks: set<Block> :: h.freed == old(h.freed) + blocks + {c} && |blocks| == 2 + 3 * |params|
    ensures params == [] ==> exists left ::
      Left(old(h.mem), h.mem, left) && |left| == 2 && h.freed == old(h.freed) + {c}
  {
    ArraysLive(h.mem, [], params, []);
    StoreParamsBlocks(params);
    ghost var mem, lo := h.mem, h.next;
    var w := new Wrapper(StoreParams(params));
    if params == [] {
      vals, during, c := OpenWithout(h, uri, w);
    } else {
      vals, during, c := OpenWith(h, uri, w);
    }
    ParamsAreRead(mem, during, lo, vals, params);
  }

  lemma CopyFreed(mem: Memory, later: Memory, c: Block, left: set<Block>)
    requires Left(mem, later, {c} + left) && c !in left
    ensures Left(mem, later - {c}, left)
  {}

  method OpenWithout(h: Heap, uri: seq<bv8>, w: Wrapper) returns (vals: seq<Val>, ghost during: Memory, ghost c: Block)
    requires w.Valid(h) && w.x.ref.None?
    modifies h`mem, h`next, h`owner, h`maps, h`freed
    ensures h.Valid() && ReadsStruct(old(h.mem), during, old(h.next), vals, w.x)
    ensures c in during && during[c] == Text(uri) && h.freed == old(h.freed) + {c}
    ensures exists left :: Left(old(h.mem), h.mem, left) && |left| == Blocks(w.x)
  {
    ghost var mem, left := h.mem, {};
    var copies, copy;
    vals, copy, copies, left := StoreOpen(h, uri, w);
    during, c := h.mem, copy;
    CopyFreed(mem, during, c, left);
    h.FreeAll(copies);
  }

  /** Everything is freed: the object with what it needed, and then the copy. */
  lemma BothFreed(mem: Memory, during: Memory, c: Block, blocks: set<Block>)
    requires Left(mem, during, {c} + {}) && blocks <= mem.Keys
    ensures during - blocks - {c} == mem - blocks
  {}

  method OpenPassed(h: Heap, uri: seq<bv8>, w: Wrapper) returns (vals: seq<Val>, ghost during: Memory, ghost c: Block)
    requires w.Valid(h) && w.x.ref.Some?
    modifies w`x, w.allocs, h`mem, h`next, h`owner, h`maps, h`freed
    ensures h.Valid() && ReadsStruct(old(h.mem), during, old(h.next), vals, old(w.x))
    ensures c in during && during[c] == Text(uri) && Keeps(old(h.mem), during, 0)
    ensures h.mem == old(h.mem) - old(Recorded(w.allocs))
    ensures h.freed == old(h.freed) + old(Recorded(w.allocs)) + {c}
  {
    ghost var mem, blocks, left := h.mem, Recorded(w.allocs), {};
    assert blocks <= mem.Keys;
    var copies, copy;
    vals, copy, copies, left := StoreOpen(h, uri, w);
    during, c := h.mem, copy;
    FreeBoth(h, w, copies);
    BothFreed(mem, during, c, blocks);
  }

  method FreeBoth(h: Heap, w: Wrapper, copies: AllocMap)
    requires w.Valid(h) && copies in h.maps && copies != w.allocs
    modifies w`x, w.allocs, copies, h`mem, h`owner, h`freed
    ensures h.Valid()
    ensures h.mem == old(h.mem) - old(Recorded(w.allocs)) - old(copies.m)
    ensures h.freed == old(h.freed) + old(Recorded(w.allocs)) + old(copies.m)
  {
    w.Free(h);
    h.FreeAll(copies);
  }

  method OpenWith(h: Heap, uri: seq<bv8>, w: Wrapper) returns (vals: seq<Val>, ghost during: Memory, ghost c: Block)
    requires w.Valid(h) && w.x.ref.None?
    modifies w, h`mem, h`next, h`owner, h`maps, h`freed
    ensures h.Valid() && ReadsStruct(old(h.mem), during, old(h.next), vals, old(w.x))
    ensures c in during && during[c] == Text(uri) && h.mem == old(h.mem)
    ensures exists blocks: set<Block> :: h.freed == old(h.freed) + blocks + {c} && |blocks| == Blocks(old(w.x))
  {
    ghost var x, mem, lo := w.x, h.mem, h.next;
    var ref, a := w.PassRef(h);
    ghost var passed, blocks := h.mem, Recorded(a);
    vals, during, c := OpenPassed(h, uri, w);
    RemoveNew(mem, passed, blocks);
    StructKept(mem, mem, passed, during, lo, lo, vals, x);
  }
}
