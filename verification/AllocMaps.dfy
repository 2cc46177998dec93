/** C memory behind Go wrapper structs: `PassRef` and `PassValue` copy a struct and everything below
    it into C blocks, and allocation maps record which blocks are whose to free. */
module AllocMaps {
  import opened Optional

  type Block = nat

  /** A Go wrapper struct: its fields, and the C object it was last passed as, if any. */
  datatype Struct = Struct(fields: seq<Field>, ref: Option<Block>)

  datatype Field =
    | Scalar(value: int)                // a number, an enum, a boolean or a borrowed pointer
    | Bytes(data: seq<bv8>)             // copied by copyPCharBytes
    | NilItems                          // a nil slice
    | Items(items: seq<Struct>)         // any other slice, copied by an unpackS function
    | Nested(inner: Struct)             // a struct inside the struct

  /** What a field holds in C, and what a block holds. */
  datatype Val = Number(value: int) | Pointer(to: Option<Block>) | Inline(vals: seq<Val>)
  datatype Cell = Text(data: seq<bv8>) | Object(vals: seq<Val>) | Array(elems: seq<seq<Val>>)

  type Memory = map<Block, Cell>

  /** cgoAllocMap. Those that copyPCharBytes and the unpackS functions make have a finalizer, which
      frees what they still record once they are unreachable. */
  class AllocMap {
    var m: set<Block>
    const finalizer: bool

    constructor (finalizer: bool)
      ensures m == {} && this.finalizer == finalizer
    {
      m := {};
      this.finalizer := finalizer;
    }
  }

  /** The C heap, as far as these helpers allocate on it. */
  class Heap {
    var mem: Memory
    var next: Block
    const unknown: AllocMap
    ghost var maps: set<AllocMap>
    ghost var owner: map<Block, AllocMap>
    ghost var freed: set<Block>

    /** Every live block is recorded in exactly one allocation map, no map records any other block,
        and none is recorded as unknown. */
    ghost predicate Valid() reads this, maps {
      && unknown in maps && unknown.m == {}
      && (forall b <- mem.Keys :: b < next) && (forall b <- freed :: b < next && b !in mem)
      && owner.Keys == mem.Keys
      && (forall b <- owner.Keys :: owner[b] in maps)
      && (forall a <- maps, b: Block :: b in a.m <==> b in owner && owner[b] == a)
    }

    constructor ()
      ensures Valid() && fresh(maps) && mem == map[]
    {
      unknown := new AllocMap(false);
      mem, next, owner, freed := map[], 0, map[], {};
      new;
      maps := {unknown};
    }

    ghost function Now(): Moment
      reads this
    {
      Moment(mem, next, owner)
    }

    /** `new(cgoAllocMap)` */
    method NewMap(finalizer: bool) returns (a: AllocMap)
      requires Valid()
      modifies this`maps
      ensures Valid() && fresh(a) && a.m == {} && a.finalizer == finalizer && maps == old(maps) + {a}
    {
      a := new AllocMap(finalizer);
      maps := maps + {a};
    }

    /** Allocates a block and adds it to `a`. */
    method Alloc(a: AllocMap, cell: Cell) returns (b: Block)
      requires Valid() && a in maps && a != unknown
      modifies this`mem, this`next, this`owner, a
      ensures Valid()
      ensures b == old(next) && next == b + 1 && b !in old(mem)
      ensures owner == old(owner)[b := a]
      ensures mem == old(mem)[b := cell] && a.m == old(a.m) + {b}
    {
      b := next;
      next := next + 1;
      mem := mem[b := cell];
      owner := owner[b := a];
      a.m := a.m + {b};
    }

    method Write(b: Block, cell: Cell)
      requires Valid() && b in mem
      modifies this`mem
      ensures Valid() && mem == old(mem)[b := cell]
    {
      mem := mem[b := cell];
    }

    /** `a.Borrow(b)`: `a` takes over every block of `b`, which is left empty. */
    method Borrow(a: AllocMap, b: AllocMap?)
      requires Valid() && a in maps && a != unknown && (b != null ==> b in maps && b != a)
      modifies this`owner, a, (if b == null || b.m == {} then {} else {b})
      ensures Valid()
      ensures a.m == old(a.m) + (if b == null then {} else old(b.m))
      ensures b != null ==> b.m == {}
      ensures owner.Keys == old(owner.Keys)
      ensures forall k <- owner.Keys :: owner[k] == old(owner[k]) || (b != null && k in old(b.m))
    {
      if b == null || b.m == {} {
        return;
      }
      while b.m != {}
        invariant Valid()
        invariant a.m + b.m == old(a.m + b.m) && b.m <= old(b.m)
        invariant owner.Keys == old(owner.Keys)
        invariant forall k <- owner.Keys :: owner[k] == old(owner[k]) || k in old(b.m)
        decreases b.m
      {
        var ptr :| ptr in b.m;
        Take(a, b, ptr);
      }
    }

    method Take(a: AllocMap, b: AllocMap, ptr: Block)
      requires Valid() && a in maps && a != unknown && b in maps && b != a && ptr in b.m
      modifies this`owner, a, b
      ensures Valid() && a.m == old(a.m) + {ptr} && b.m == old(b.m) - {ptr} && owner == old(owner)[ptr := a]
      ensures ptr in old(owner)
    {
      a.m := a.m + {ptr};
      b.m := b.m - {ptr};
      owner := owner[ptr := a];
    }

    /** `a.Free()`: frees every block of `a`, each once. */
    method FreeAll(a: AllocMap)
      requires Valid() && a in maps
      modifies this`mem, this`owner, this`freed, a
      ensures Valid() && a.m == {}
      ensures mem == old(mem) - old(a.m)
      ensures freed == old(freed) + old(a.m) && old(freed) !! old(a.m)
    {
      while a.m != {}
        invariant Valid()
        invariant a.m <= old(a.m) && mem == old(mem) - (old(a.m) - a.m)
        invariant freed == old(freed) + (old(a.m) - a.m)
        decreases a.m
      {
        var ptr :| ptr in a.m;
        Release(a, ptr);
      }
    }

    method Release(a: AllocMap, ptr: Block)
      requires Valid() && a in maps && ptr in a.m
      modifies this`mem, this`owner, this`freed, a
      ensures Valid() && a.m == old(a.m) - {ptr}
      ensures mem == old(mem) - {ptr} && freed == old(freed) + {ptr} && ptr !in old(freed)
    {
      assert ptr in mem;
      freed := freed + {ptr};
      mem := mem - {ptr};
      owner := owner - {ptr};
      a.m := a.m - {ptr};
    }
  }

  // ---- what a C object must hold ----

  /** C value `v`, in memory `mem`, spells out field `f` in blocks from `lo` on. A struct that has
      been passed before is taken as it then was, in memory `was`. */
  predicate Reads(was: Memory, mem: Memory, lo: Block, v: Val, f: Field)
    decreases f
  {
    match f
    case Scalar(n) => v == Number(n)
    case Bytes(data) => v.Pointer? && v.to.Some? && lo <= v.to.value && v.to.value in mem
      && mem[v.to.value] == Text(data)
    case NilItems => v == Pointer(None)
    case Items(xs) =>
      && v.Pointer? && v.to.Some? && lo <= v.to.value && v.to.value in mem && mem[v.to.value].Array?
      && var elems := mem[v.to.value].elems;
      |elems| == |xs| && forall i | 0 <= i < |xs| :: ReadsStruct(was, mem, lo, elems[i], xs[i])
    case Nested(x) => v.Inline? && ReadsStruct(was, mem, lo, v.vals, x)
  }

  predicate ReadsStruct(was: Memory, mem: Memory, lo: Block, vals: seq<Val>, x: Struct)
    decreases x
  {
    if x.ref.Some? then x.ref.value in was && was[x.ref.value] == Object(vals)
    else |vals| == |x.fields| && forall i | 0 <= i < |x.fields| :: Reads(was, mem, lo, vals[i], x.fields[i])
  }

  /** The structs below that were passed before have not been freed since. */
  predicate Live(mem: Memory, f: Field)
    decreases f
  {
    match f
    case Scalar(_) => true
    case Bytes(_) => true
    case NilItems => true
    case Items(xs) => forall i | 0 <= i < |xs| :: LiveStruct(mem, xs[i])
    case Nested(x) => LiveStruct(mem, x)
  }

  predicate LiveStruct(mem: Memory, x: Struct)
    decreases x
  {
    if x.ref.Some? then x.ref.value in mem && mem[x.ref.value].Object?
    else forall i | 0 <= i < |x.fields| :: Live(mem, x.fields[i])
  }

  /** How many blocks passing a field allocates. */
  function BlocksOf(f: Field): nat
    decreases f
  {
    match f
    case Scalar(_) => 0
    case Bytes(_) => 1
    case NilItems => 0
    case Items(xs) => 1 + ItemBlocks(xs)
    case Nested(x) => Blocks(x)
  }

  function Blocks(x: Struct): nat
    decreases x
  {
    if x.ref.Some? then 0 else 1 + FieldBlocks(x.fields)
  }

  function FieldBlocks(fs: seq<Field>): nat
    decreases fs
  {
    if fs == [] then 0 else FieldBlocks(fs[..|fs| - 1]) + BlocksOf(fs[|fs| - 1])
  }

  function ItemBlocks(xs: seq<Struct>): nat
    decreases xs
  {
    if xs == [] then 0 else ItemBlocks(xs[..|xs| - 1]) + Blocks(xs[|xs| - 1])
  }

  /** `later` holds what `mem` holds from block `lo` on. */
  predicate Keeps(mem: Memory, later: Memory, lo: Block) {
    forall b <- mem.Keys :: b >= lo ==> b in later && later[b] == mem[b]
  }

  lemma {:induction false} ReadsKept(was: Memory, now: Memory, mem: Memory, later: Memory, lo: Block, from: Block,
                                     v: Val, f: Field)
    requires Reads(now, mem, from, v, f) && lo <= from
    requires Live(was, f) && Keeps(was, now, 0) && Keeps(mem, later, from)
    ensures Reads(was, later, lo, v, f)
    decreases f
  {
    match f
    case Scalar(_) =>
    case Bytes(_) =>
    case NilItems =>
    case Items(xs) =>
      var elems := mem[v.to.value].elems;
      forall i | 0 <= i < |xs| ensures ReadsStruct(was, later, lo, elems[i], xs[i]) {
        StructKept(was, now, mem, later, lo, from, elems[i], xs[i]);
      }
    case Nested(x) =>
      StructKept(was, now, mem, later, lo, from, v.vals, x);
  }

  lemma {:induction false} StructKept(was: Memory, now: Memory, mem: Memory, later: Memory, lo: Block, from: Block,
                                      vals: seq<Val>, x: Struct)
    requires ReadsStruct(now, mem, from, vals, x) && lo <= from
    requires LiveStruct(was, x) && Keeps(was, now, 0) && Keeps(mem, later, from)
    ensures ReadsStruct(was, later, lo, vals, x)
    decreases x
  {
    if x.ref.None? {
      forall i | 0 <= i < |x.fields| ensures Reads(was, later, lo, vals[i], x.fields[i]) {
        ReadsKept(was, now, mem, later, lo, from, vals[i], x.fields[i]);
      }
    }
  }

  lemma {:induction false} LiveKept(mem: Memory, later: Memory, f: Field)
    requires Live(mem, f) && Keeps(mem, later, 0)
    ensures Live(later, f)
    decreases f
  {
    match f
    case Items(xs) =>
      forall i | 0 <= i < |xs| ensures LiveStruct(later, xs[i]) {
        LiveStructKept(mem, later, xs[i]);
      }
    case Nested(x) => LiveStructKept(mem, later, x);
    case Scalar(_) =>
    case Bytes(_) =>
    case NilItems =>
  }

  lemma {:induction false} LiveStructKept(mem: Memory, later: Memory, x: Struct)
    requires LiveStruct(mem, x) && Keeps(mem, later, 0)
    ensures LiveStruct(later, x)
    decreases x
  {
    if x.ref.None? {
      forall i | 0 <= i < |x.fields| ensures Live(later, x.fields[i]) {
        LiveKept(mem, later, x.fields[i]);
      }
    }
  }

  // ---- passing ----

  function Recorded(allocs: AllocMap?): set<Block>
    reads allocs
  {
    if allocs == null then {} else allocs.m
  }

  /** A moment of the heap. */
  datatype Moment = Moment(mem: Memory, next: Block, owner: map<Block, AllocMap>)

  /** The blocks older than `next`, and who owns them, are the same in `s` and `t`. */
  ghost predicate SameBelow(next: Block, s: Moment, t: Moment) {
    && (forall b <- s.mem.Keys :: b < next ==> b in t.mem && t.mem[b] == s.mem[b])
    && (forall b <- s.owner.Keys :: b < next ==> b in t.owner && t.owner[b] == s.owner[b])
    && (forall b <- t.mem.Keys :: b < next ==> b in s.mem)
  }

  /** Since moment `s` the heap grew by exactly the blocks that `allocs` records. */
  ghost predicate Grew(h: Heap, s: Moment, allocs: AllocMap?)
    reads h, h.maps, allocs
  {
    && h.Valid() && s.next <= h.next && SameBelow(s.next, s, h.Now())
    && (allocs != null ==> allocs in h.maps)
    && (forall b: Block :: b in Recorded(allocs) <==> s.next <= b < h.next)
  }

  lemma GrewKeeps(h: Heap, s: Moment, allocs: AllocMap?)
    requires Grew(h, s, allocs) && forall b <- s.mem.Keys :: b < s.next
    ensures Keeps(s.mem, h.mem, 0)
  {}

  /** A block recorded in a map of its own. */
  method AllocNew(h: Heap, ghost s: Moment, cell: Cell, finalizer: bool) returns (b: Block, allocs: AllocMap)
    requires h.Valid() && s == h.Now()
    modifies h`mem, h`next, h`owner, h`maps
    ensures Grew(h, s, allocs) && fresh(allocs) && allocs != h.unknown && allocs.finalizer == finalizer
    ensures old(h.maps) <= h.maps
    ensures b == s.next && h.next == b + 1 && h.mem == s.mem[b := cell]
  {
    allocs := h.NewMap(finalizer);
    b := h.Alloc(allocs, cell);
  }

  /** `allocs.Borrow(more)` between two allocations: what was recorded in two maps is in one. */
  method Absorb(h: Heap, ghost s: Moment, ghost t: Moment, allocs: AllocMap, more: AllocMap?)
    requires s.next <= t.next && SameBelow(s.next, s, t) && Grew(h, t, more)
    requires forall b: Block :: b in Recorded(allocs) <==> s.next <= b < t.next
    requires allocs in h.maps && allocs != h.unknown && allocs != more
    modifies h`owner, allocs, (if more == null || more.m == {} then {} else {more})
    ensures Grew(h, s, allocs)
  {
    assert t.next in Recorded(more) <==> t.next < h.next;
    assert Recorded(allocs) == allocs.m;
    h.Borrow(allocs, more);
    assert forall b: Block :: b in allocs.m <==> s.next <= b < h.next;
  }

  /** One field of a struct, converted to C. */
  method PassField(h: Heap, ghost s: Moment, f: Field) returns (v: Val, allocs: AllocMap?)
    requires h.Valid() && s == h.Now() && Live(s.mem, f)
    modifies h`mem, h`next, h`owner, h`maps
    ensures old(h.maps) <= h.maps
    ensures Grew(h, s, allocs) && (allocs == null || allocs == h.unknown || fresh(allocs))
    ensures Reads(s.mem, h.mem, s.next, v, f)
    ensures h.next == s.next + BlocksOf(f)
    decreases f, 0
  {
    match f
    case Scalar(n) =>
      return Number(n), h.unknown;
    case Bytes(data) =>
      var b;
      b, allocs := AllocNew(h, s, Text(data), true);
      return Pointer(Some(b)), allocs;
    case NilItems =>
      return Pointer(None), null;
    case Items(xs) =>
      var b;
      b, allocs := UnpackItems(h, s, xs);
      return Pointer(Some(b)), allocs;
    case Nested(x) =>
      var vals;
      vals, allocs := PassValue(h, s, x);
      return Inline(vals), allocs;
  }

  /** The first fields of `fs`, or items of `xs`, are spelled out. */
  predicate FieldsRead(was: Memory, mem: Memory, lo: Block, vals: seq<Val>, fs: seq<Field>) {
    |vals| <= |fs| && forall k | 0 <= k < |vals| :: Reads(was, mem, lo, vals[k], fs[k])
  }

  predicate ItemsRead(was: Memory, mem: Memory, lo: Block, elems: seq<seq<Val>>, xs: seq<Struct>, n: nat) {
    n <= |elems| == |xs| && forall k | 0 <= k < n :: ReadsStruct(was, mem, lo, elems[k], xs[k])
  }

  lemma FieldsKept(was: Memory, mem: Memory, later: Memory, lo: Block, from: Block, vals: seq<Val>, fs: seq<Field>)
    requires FieldsRead(was, mem, from, vals, fs) && lo <= from && Keeps(mem, later, from)
    requires forall k | 0 <= k < |fs| :: Live(was, fs[k])
    ensures FieldsRead(was, later, lo, vals, fs)
  {
    forall k | 0 <= k < |vals| ensures Reads(was, later, lo, vals[k], fs[k]) {
      ReadsKept(was, was, mem, later, lo, from, vals[k], fs[k]);
    }
  }

  lemma ItemsKept(was: Memory, mem: Memory, later: Memory, lo: Block, from: Block, elems: seq<seq<Val>>,
                  xs: seq<Struct>, n: nat)
    requires ItemsRead(was, mem, from, elems, xs, n) && lo <= from && Keeps(mem, later, from)
    requires forall k | 0 <= k < |xs| :: LiveStruct(was, xs[k])
    ensures ItemsRead(was, later, lo, elems, xs, n)
  {
    forall k | 0 <= k < n ensures ReadsStruct(was, later, lo, elems[k], xs[k]) {
      StructKept(was, was, mem, later, lo, from, elems[k], xs[k]);
    }
  }

  /** Writes the block of the struct, or of the array, being built. */
  method FillObject(h: Heap, ghost s: Moment, allocs: AllocMap, b: Block, vals: seq<Val>, ghost fs: seq<Field>)
    requires Grew(h, s, allocs) && s.next <= b && b in h.mem && FieldsRead(s.mem, h.mem, b + 1, vals, fs)
    requires forall k | 0 <= k < |fs| :: Live(s.mem, fs[k])
    modifies h`mem
    ensures Grew(h, s, allocs) && h.mem == old(h.mem)[b := Object(vals)] && FieldsRead(s.mem, h.mem, b + 1, vals, fs)
  {
    ghost var mem := h.mem;
    h.Write(b, Object(vals));
    FieldsKept(s.mem, mem, h.mem, b + 1, b + 1, vals, fs);
  }

  method FillArray(h: Heap, ghost s: Moment, allocs: AllocMap, b: Block, elems: seq<seq<Val>>, ghost xs: seq<Struct>,
                   ghost n: nat)
    requires Grew(h, s, allocs) && s.next <= b && b in h.mem && ItemsRead(s.mem, h.mem, b + 1, elems, xs, n)
    requires forall k | 0 <= k < |xs| :: LiveStruct(s.mem, xs[k])
    modifies h`mem
    ensures Grew(h, s, allocs) && h.mem == old(h.mem)[b := Array(elems)] && ItemsRead(s.mem, h.mem, b + 1, elems, xs, n)
  {
    ghost var mem := h.mem;
    h.Write(b, Array(elems));
    ItemsKept(s.mem, mem, h.mem, b + 1, b + 1, elems, xs, n);
  }

  /** The next field of the struct whose block is `b`, after `vals`. */
  method PassNextField(h: Heap, ghost s: Moment, allocs: AllocMap, ghost b: Block, f: Field) returns (v: Val)
    requires Grew(h, s, allocs) && allocs != h.unknown && s.next <= b < h.next && Live(s.mem, f)
    requires forall k <- s.mem.Keys :: k < s.next
    modifies h`mem, h`next, h`owner, h`maps, allocs
    ensures old(h.maps) <= h.maps
    ensures Grew(h, s, allocs) && Keeps(old(h.mem), h.mem, 0)
    ensures Reads(s.mem, h.mem, b + 1, v, f)
    ensures h.next == old(h.next) + BlocksOf(f)
    decreases f, 1
  {
    GrewKeeps(h, s, allocs);
    LiveKept(s.mem, h.mem, f);
    ghost var t := h.Now();
    var more;
    v, more := PassField(h, t, f);
    GrewKeeps(h, t, more);
    Absorb(h, s, t, allocs, more);
    ReadsKept(s.mem, t.mem, h.mem, h.mem, b + 1, t.next, v, f);
  }

  method StoreNextField(h: Heap, ghost s: Moment, allocs: AllocMap, b: Block, vals: seq<Val>, fs: seq<Field>)
    returns (filled: seq<Val>)
    requires Grew(h, s, allocs) && allocs != h.unknown && s.next == b < h.next && b in h.mem && h.mem[b] == Object(vals)
    requires (forall k | 0 <= k < |fs| :: Live(s.mem, fs[k])) && forall k <- s.mem.Keys :: k < s.next
    requires |vals| < |fs| && FieldsRead(s.mem, h.mem, b + 1, vals, fs)
    modifies h`mem, h`next, h`owner, h`maps, allocs
    ensures old(h.maps) <= h.maps
    ensures Grew(h, s, allocs) && b in h.mem && h.mem[b] == Object(filled)
    ensures |filled| == |vals| + 1 && FieldsRead(s.mem, h.mem, b + 1, filled, fs)
    ensures h.next == old(h.next) + BlocksOf(fs[|vals|])
    decreases fs[|vals|], 2
  {
    ghost var mem := h.mem;
    var v := PassNextField(h, s, allocs, b, fs[|vals|]);
    FieldsKept(s.mem, mem, h.mem, b + 1, b + 1, vals, fs);
    filled := vals + [v];
    FillObject(h, s, allocs, b, filled, fs);
  }

  /** The next item of the slice whose block is `b`. */
  method PassNextItem(h: Heap, ghost s: Moment, allocs: AllocMap, ghost b: Block, x: Struct) returns (vals: seq<Val>)
    requires Grew(h, s, allocs) && allocs != h.unknown && s.next <= b < h.next && LiveStruct(s.mem, x)
    requires forall k <- s.mem.Keys :: k < s.next
    modifies h`mem, h`next, h`owner, h`maps, allocs
    ensures old(h.maps) <= h.maps
    ensures Grew(h, s, allocs) && Keeps(old(h.mem), h.mem, 0)
    ensures ReadsStruct(s.mem, h.mem, b + 1, vals, x)
    ensures h.next == old(h.next) + Blocks(x)
    decreases x, 2
  {
    GrewKeeps(h, s, allocs);
    LiveStructKept(s.mem, h.mem, x);
    ghost var t := h.Now();
    var more;
    vals, more := PassValue(h, t, x);
    GrewKeeps(h, t, more);
    Absorb(h, s, t, allocs, more);
    StructKept(s.mem, t.mem, h.mem, h.mem, b + 1, t.next, vals, x);
  }

  method StoreNextItem(h: Heap, ghost s: Moment, allocs: AllocMap, b: Block, elems: seq<seq<Val>>, xs: seq<Struct>,
                       i: nat)
    returns (filled: seq<seq<Val>>)
    requires Grew(h, s, allocs) && allocs != h.unknown && s.next == b < h.next && b in h.mem && h.mem[b] == Array(elems)
    requires (forall k | 0 <= k < |xs| :: LiveStruct(s.mem, xs[k])) && forall k <- s.mem.Keys :: k < s.next
    requires i < |xs| && ItemsRead(s.mem, h.mem, b + 1, elems, xs, i)
    modifies h`mem, h`next, h`owner, h`maps, allocs
    ensures old(h.maps) <= h.maps
    ensures Grew(h, s, allocs) && b in h.mem && h.mem[b] == Array(filled)
    ensures ItemsRead(s.mem, h.mem, b + 1, filled, xs, i + 1)
    ensures h.next == old(h.next) + Blocks(xs[i])
    decreases xs[i], 3
  {
    ghost var mem := h.mem;
    var vals := PassNextItem(h, s, allocs, b, xs[i]);
    ItemsKept(s.mem, mem, h.mem, b + 1, b + 1, elems, xs, i);
    filled := elems[i := vals];
    FillArray(h, s, allocs, b, filled, xs, i + 1);
  }

  lemma ItemsDone(was: Memory, mem: Memory, b: Block, elems: seq<seq<Val>>, xs: seq<Struct>)
    requires ItemsRead(was, mem, b + 1, elems, xs, |xs|) && b in mem && mem[b] == Array(elems)
    requires forall k | 0 <= k < |xs| :: LiveStruct(was, xs[k])
    ensures Reads(was, mem, b, Pointer(Some(b)), Items(xs))
  {
    ItemsKept(was, mem, mem, b, b + 1, elems, xs, |xs|);
  }

  lemma FieldsDone(was: Memory, mem: Memory, b: Block, vals: seq<Val>, x: Struct)
    requires FieldsRead(was, mem, b + 1, vals, x.fields) && |vals| == |x.fields| && x.ref.None?
    requires forall k | 0 <= k < |x.fields| :: Live(was, x.fields[k])
    ensures ReadsStruct(was, mem, b, vals, x)
  {
    FieldsKept(was, mem, mem, b, b + 1, vals, x.fields);
  }

  lemma FieldBlocksNext(fs: seq<Field>, i: nat)
    requires i < |fs|
    ensures FieldBlocks(fs[..i + 1]) == FieldBlocks(fs[..i]) + BlocksOf(fs[i])
  {
    assert fs[..i + 1][..i] == fs[..i];
  }

  /** The unpackS functions: an array of the structs' C values. */
  method UnpackItems(h: Heap, ghost s: Moment, xs: seq<Struct>) returns (b: Block, allocs: AllocMap)
    requires h.Valid() && s == h.Now() && forall i | 0 <= i < |xs| :: LiveStruct(s.mem, xs[i])
    modifies h`mem, h`next, h`owner, h`maps
    ensures old(h.maps) <= h.maps
    ensures Grew(h, s, allocs) && fresh(allocs) && allocs != h.unknown
    ensures Reads(s.mem, h.mem, s.next, Pointer(Some(b)), Items(xs))
    ensures h.next == s.next + 1 + ItemBlocks(xs)
    decreases xs, 1
  {
    var elems: seq<seq<Val>> := seq(|xs|, _ => []);
    b, allocs := AllocNew(h, s, Array(elems), true);
    elems := StoreItems(h, s, allocs, b, elems, xs);
    ItemsDone(s.mem, h.mem, b, elems, xs);
  }

  method StoreItems(h: Heap, ghost s: Moment, allocs: AllocMap, b: Block, empty: seq<seq<Val>>, xs: seq<Struct>)
    returns (elems: seq<seq<Val>>)
    requires Grew(h, s, allocs) && allocs != h.unknown && s.next == b && h.next == b + 1 && b in h.mem
      && h.mem[b] == Array(empty)
    requires (forall k | 0 <= k < |xs| :: LiveStruct(s.mem, xs[k])) && forall k <- s.mem.Keys :: k < s.next
    requires |empty| == |xs|
    modifies h`mem, h`next, h`owner, h`maps, allocs
    ensures old(h.maps) <= h.maps
    ensures Grew(h, s, allocs) && b in h.mem && h.mem[b] == Array(elems)
    ensures ItemsRead(s.mem, h.mem, b + 1, elems, xs, |xs|)
    ensures h.next == b + 1 + ItemBlocks(xs)
    decreases xs, 0
  {
    elems := empty;
    var i := 0;
    assert xs[..0] == [];
    while i < |xs|
      invariant 0 <= i <= |xs| && old(h.maps) <= h.maps
      invariant Grew(h, s, allocs) && b < h.next && b in h.mem && h.mem[b] == Array(elems)
      invariant ItemsRead(s.mem, h.mem, b + 1, elems, xs, i)
      invariant h.next == b + 1 + ItemBlocks(xs[..i])
    {
      elems := StoreNextItem(h, s, allocs, b, elems, xs, i);
      assert xs[..i + 1][..i] == xs[..i];
      i := i + 1;
    }
    assert xs[..|xs|] == xs;
  }

  /** `x.PassRef()` on a struct that was not passed before. */
  method PassStruct(h: Heap, ghost s: Moment, x: Struct) returns (ref: Block, allocs: AllocMap)
    requires h.Valid() && s == h.Now() && LiveStruct(s.mem, x) && x.ref.None?
    modifies h`mem, h`next, h`owner, h`maps
    ensures old(h.maps) <= h.maps
    ensures Grew(h, s, allocs) && fresh(allocs) && allocs != h.unknown && !allocs.finalizer && ref in allocs.m
      && h.mem[ref].Object?
    ensures ReadsStruct(s.mem, h.mem, s.next, h.mem[ref].vals, x)
    ensures h.next == s.next + Blocks(x)
    decreases x, 0
  {
    ref, allocs := AllocNew(h, s, Object([]), false);
    var vals: seq<Val> := [];
    var i := 0;
    assert x.fields[..0] == [];
    while i < |x.fields|
      invariant 0 <= i == |vals| <= |x.fields| && fresh(allocs) && allocs != h.unknown && !allocs.finalizer
        && old(h.maps) <= h.maps
      invariant Grew(h, s, allocs) && s.next == ref < h.next && ref in h.mem && h.mem[ref] == Object(vals)
      invariant FieldsRead(s.mem, h.mem, ref + 1, vals, x.fields)
      invariant h.next == ref + 1 + FieldBlocks(x.fields[..i])
    {
      vals := StoreNextField(h, s, allocs, ref, vals, x.fields);
      FieldBlocksNext(x.fields, i);
      i := i + 1;
    }
    assert x.fields[..|x.fields|] == x.fields;
    FieldsDone(s.mem, h.mem, ref, vals, x);
    assert ref in Recorded(allocs);
  }

  /** `x.PassValue()`: on a struct that was passed before, what it was passed as; otherwise a new C
      object, recorded only in the map returned, since `x` is a copy that nothing else sees. */
  method PassValue(h: Heap, ghost s: Moment, x: Struct) returns (vals: seq<Val>, allocs: AllocMap?)
    requires h.Valid() && s == h.Now() && LiveStruct(s.mem, x)
    modifies h`mem, h`next, h`owner, h`maps
    ensures old(h.maps) <= h.maps
    ensures Grew(h, s, allocs)
      && (if x.ref.Some? then allocs == null else fresh(allocs) && allocs != h.unknown && !allocs.finalizer)
    ensures ReadsStruct(s.mem, h.mem, s.next, vals, x)
    ensures h.next == s.next + Blocks(x)
    decreases x, 1
  {
    if x.ref.Some? {
      return h.mem[x.ref.value].vals, null;
    }
    var ref;
    ref, allocs := PassStruct(h, s, x);
    vals := h.mem[ref].vals;
  }

  // ---- a wrapper with its own C object ----

  /** Every map made since `s`, other than `allocs`, is empty: freeing it, as its finalizer does,
      frees nothing. */
  lemma OthersDrained(h: Heap, s: Moment, maps: set<AllocMap>, allocs: AllocMap?)
    requires Grew(h, s, allocs) && maps <= h.maps
    requires s.owner.Keys == s.mem.Keys && forall b <- s.owner.Keys :: b < s.next && s.owner[b] in maps
    ensures forall a <- h.maps :: a in maps || a == allocs || a.m == {}
  {
    forall b <- h.owner.Keys ensures h.owner[b] in maps || h.owner[b] == allocs {
      assert b in h.mem;
      assert b in Recorded(allocs) <==> s.next <= b < h.next;
    }
    forall a <- h.maps | a !in maps && a != allocs ensures a.m == {} {
      OwnsOne(h, a);
    }
  }

  lemma OwnsOne(h: Heap, a: AllocMap)
    requires h.Valid() && a in h.maps
    ensures a.m != {} ==> exists b :: b in h.owner.Keys && h.owner[b] == a
  {
    if a.m != {} {
      var b :| b in a.m;
      assert b in h.owner.Keys && h.owner[b] == a;
    }
  }

  /** The growth as a set of blocks. */
  lemma GrowthIs(h: Heap, s: Moment, allocs: AllocMap?)
    requires Grew(h, s, allocs) && forall b <- s.mem.Keys :: b < s.next
    ensures |Recorded(allocs)| == h.next - s.next && Recorded(allocs) !! s.mem.Keys
    ensures h.mem.Keys == s.mem.Keys + Recorded(allocs) && Keeps(s.mem, h.mem, 0)
  {
    RangeSize(Recorded(allocs), s.next, h.next - s.next);
    forall b <- h.mem.Keys ensures b in s.mem || b in Recorded(allocs) {
      assert b in Recorded(allocs) <==> s.next <= b < h.next;
    }
    forall b <- Recorded(allocs) ensures b in h.mem && b !in s.mem {
      assert b in allocs.m;
    }
  }

  /** A set of `n` consecutive blocks has `n` elements. */
  lemma {:induction false} RangeSize(blocks: set<Block>, from: Block, n: nat)
    requires forall b: Block :: b in blocks <==> from <= b < from + n
    ensures |blocks| == n
  {
    if n == 0 {
      assert blocks == {};
    } else {
      RangeSize(blocks - {from + n - 1}, from, n - 1);
    }
  }

  /** A Go variable of a wrapper type, with the map its own C object is recorded in. */
  class Wrapper {
    var x: Struct
    var allocs: AllocMap?

    /** A struct literal, or, when it has a C object already, what a NewRef function makes of it. */
    constructor (x: Struct)
      ensures this.x == x && allocs == null
    {
      this.x := x;
      allocs := null;
    }

    ghost predicate Valid(h: Heap) reads this, h, h.maps {
      && h.Valid() && LiveStruct(h.mem, x)
      && (allocs != null ==> allocs in h.maps && allocs != h.unknown)
      && (x.ref.Some? && allocs != null ==> x.ref.value in allocs.m)
      && (x.ref.None? && allocs != null ==> allocs.m == {})
    }

    /** `PassRef` on the variable: the second time the same object and no map; the first time a new
        object that spells out the whole struct, in exactly `Blocks(x)` new blocks, every one of
        them in the one map that is returned and kept. */
    method PassRef(h: Heap) returns (ref: Block, a: AllocMap?)
      requires Valid(h)
      modifies this, h`mem, h`next, h`owner, h`maps
      ensures Valid(h) && x == old(x).(ref := Some(ref))
      ensures Grew(h, old(h.Now()), a) && h.mem[ref].Object?
      ensures |Recorded(a)| == Blocks(old(x)) && Recorded(a) !! old(h.mem.Keys)
      ensures h.mem.Keys == old(h.mem.Keys) + Recorded(a) && Keeps(old(h.mem), h.mem, 0)
      ensures old(x).ref.Some? ==> a == null && allocs == old(allocs) && old(x).ref == Some(ref)
      ensures old(x).ref.None? ==> a != null && a == allocs && fresh(a)
      ensures ReadsStruct(old(h.mem), h.mem, old(h.next), h.mem[ref].vals, old(x))
      ensures old(h.maps) <= h.maps
      ensures forall m <- h.maps :: m in old(h.maps) || m == a || m.m == {}
    {
      ghost var s, maps := h.Now(), h.maps;
      if x.ref.Some? {
        ref, a := x.ref.value, null;
      } else {
        ref, a := PassStruct(h, s, x);
        x, allocs := x.(ref := Some(ref)), a;
      }
      GrowthIs(h, s, a);
      OthersDrained(h, s, maps, a);
    }

    /** `Free`: every block of the object, each once; again it frees nothing. The variable can be passed
        again exactly when the structs below it that were passed before are still live. */
    method Free(h: Heap)
      requires Valid(h)
      modifies this`x, h`mem, h`owner, h`freed, allocs
      ensures h.Valid() && allocs == old(allocs) && (allocs != null ==> x == old(x).(ref := None) && allocs.m == {})
      ensures h.mem == old(h.mem) - old(Recorded(allocs))
      ensures h.freed == old(h.freed) + old(Recorded(allocs)) && old(h.freed) !! old(Recorded(allocs))
      ensures Valid(h) <==> LiveStruct(old(h.mem) - old(Recorded(allocs)), x)
    {
      if allocs != null {
        h.FreeAll(allocs);
        x := x.(ref := None);
      }
    }
  }

  /** A generated call that takes the wrapper by value. The map it gets is dropped when the call
      returns. What the call leaves allocated is `left`: nothing exactly when the wrapper was passed
      by reference before, and otherwise the whole tree, which no finalizer frees either. */
  method CallByValue(w: Wrapper, h: Heap) returns (vals: seq<Val>, ghost left: set<Block>)
    requires w.Valid(h)
    modifies h`mem, h`next, h`owner, h`maps
    ensures w.Valid(h) && ReadsStruct(old(h.mem), h.mem, old(h.next), vals, w.x)
    ensures h.mem.Keys == old(h.mem.Keys) + left && left !! old(h.mem.Keys) && Keeps(old(h.mem), h.mem, 0)
    ensures |left| == Blocks(w.x) && (left == {} <==> w.x.ref.Some?)
    ensures old(h.maps) <= h.maps
    ensures forall m <- h.maps :: m in old(h.maps) || !m.finalizer || m.m == {}
  {
    ghost var s, maps := h.Now(), h.maps;
    ghost var more;
    vals, more := PassValue(h, s, w.x);
    left := Recorded(more);
    GrowthIs(h, s, more);
    OthersDrained(h, s, maps, more);
    LiveStructKept(s.mem, h.mem, w.x);
  }

  lemma SameMemory(mem: Memory, later: Memory)
    requires later.Keys == mem.Keys && Keeps(mem, later, 0)
    ensures later == mem
  {}

  lemma RemoveNew(mem: Memory, later: Memory, blocks: set<Block>)
    requires later.Keys == mem.Keys + blocks && blocks !! mem.Keys && Keeps(mem, later, 0)
    ensures later - blocks == mem
  {}

  /** Handed by value to a call, after a passing by reference, and freed. */
  method UsePassed(w: Wrapper, h: Heap) returns (vals: seq<Val>)
    requires w.Valid(h) && w.x.ref.Some?
    modifies w`x, w.allocs, h`mem, h`next, h`owner, h`maps, h`freed
    ensures h.Valid() && ReadsStruct(old(h.mem), old(h.mem), old(h.next), vals, old(w.x))
    ensures h.mem == old(h.mem) - old(Recorded(w.allocs))
    ensures h.freed == old(h.freed) + old(Recorded(w.allocs)) && old(h.freed) !! old(Recorded(w.allocs))
  {
    ghost var mem, left := h.mem, {};
    vals, left := CallByValue(w, h);
    SameMemory(mem, h.mem);
    w.Free(h);
  }

  /** Passed by reference, handed by value to a call, and freed: the call sees the whole struct in
      memory `during`, and the C heap is as before. */
  method UseAndFree(w: Wrapper, h: Heap) returns (vals: seq<Val>, ghost during: Memory, ghost blocks: set<Block>)
    requires w.Valid(h) && w.x.ref.None?
    modifies w, h`mem, h`next, h`owner, h`maps, h`freed
    ensures h.Valid() && ReadsStruct(old(h.mem), during, old(h.next), vals, old(w.x))
    ensures h.mem == old(h.mem) && h.freed == old(h.freed) + blocks
    ensures |blocks| == Blocks(old(w.x)) && blocks !! old(h.freed)
  {
    ghost var mem := h.mem;
    var ref, a := w.PassRef(h);
    during, blocks := h.mem, Recorded(a);
    vals := UsePassed(w, h);
    RemoveNew(mem, during, blocks);
  }

  /** The same call with or without a passing by reference around it: the C heap is as before exactly
      when there is one. Otherwise the blocks of the whole tree stay. */
  method GuardedCall(w: Wrapper, h: Heap, guarded: bool) returns (vals: seq<Val>, ghost during: Memory)
    requires w.Valid(h) && w.x.ref.None?
    modifies w, h`mem, h`next, h`owner, h`maps, h`freed
    ensures h.Valid() && ReadsStruct(old(h.mem), during, old(h.next), vals, old(w.x))
    ensures h.mem == old(h.mem) <==> guarded
    ensures !guarded ==> |h.mem.Keys - old(h.mem.Keys)| == Blocks(old(w.x)) && h.freed == old(h.freed)
  {
    if guarded {
      ghost var blocks;
      vals, during, blocks := UseAndFree(w, h);
    } else {
      ghost var mem, left := h.mem, {};
      vals, left := CallByValue(w, h);
      during := h.mem;
      assert h.mem.Keys - mem.Keys == left;
    }
  }
}
