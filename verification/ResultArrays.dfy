/** The arrays in which the C layer collects what Nix reports through callbacks: they double when
    full and hold their own copies of every name and path. */
module ResultArrays {
  import opened Optional
  import opened Numerals

  type StorePath(==, !new)

  /** size_t is 64 bits wide; an allocation larger than PTRDIFF_MAX fails. */
  const SIZES := 0x1_0000_0000_0000_0000
  const PTRDIFF_MAX := 0x7FFF_FFFF_FFFF_FFFF

  datatype Content = Name(name: string) | Path(path: StorePath) | ItemBlock | Header

  /** The allocations of the C layer. */
  class Native {
    var live: map<nat, Content>
    var next: nat
    ghost var freed: set<nat>

    ghost predicate Valid() reads this {
      && (forall h <- live.Keys :: h < next)
      && (forall h <- freed :: h < next && h !in live)
    }

    method Make(content: Content, succeeds: bool) returns (h: Option<nat>)
      requires Valid()
      modifies this`live, this`next
      ensures Valid() && h.Some? == succeeds
      ensures if succeeds then h == Some(old(next)) && live == old(live)[old(next) := content] && next == old(next) + 1
              else live == old(live) && next == old(next)
    {
      if !succeeds {
        return None;
      }
      h := Some(next);
      live := live[next := content];
      next := next + 1;
    }

    /** `realloc` to room for items: a new block in place of `h`, or nothing. */
    method Realloc(h: Option<nat>, succeeds: bool) returns (r: Option<nat>)
      requires Valid() && (h.Some? ==> h.value in live)
      modifies this
      ensures Valid() && r.Some? == succeeds
      ensures succeeds ==> r == Some(old(next)) && live == old(live)[old(next) := ItemBlock] - Just(h)
      ensures !succeeds ==> live == old(live) && freed == old(freed)
      ensures old(next) <= next
    {
      r := Make(ItemBlock, succeeds);
      if succeeds {
        Free(h);
      }
    }

    method Free(h: Option<nat>)
      requires Valid() && (h.Some? ==> h.value in live)
      modifies this`live, this`freed
      ensures Valid()
      ensures live == old(live) - Just(h) && freed == old(freed) + Just(h)
    {
      if h.Some? {
        live := live - {h.value};
        freed := freed + {h.value};
      }
    }
  }

  function Just(h: Option<nat>): set<nat> {
    if h.Some? then {h.value} else {}
  }

  /** An element: the copy of an output name, where there is one, and the clone of a path. */
  datatype Item = Item(name: Option<nat>, path: nat)

  /** What a callback reported. */
  datatype Entry = Entry(name: Option<string>, path: StorePath)

  ghost predicate Holds(live: map<nat, Content>, item: Item, entry: Entry) {
    && item.path in live && live[item.path] == Path(entry.path)
    && item.name.Some? == entry.name.Some?
    && (item.name.Some? ==> item.name.value in live && live[item.name.value] == Name(entry.name.value))
  }

  /** The elements are copies of their own of what was taken. */
  ghost predicate Filled(live: map<nat, Content>, items: seq<Item>, took: seq<Entry>, named: bool) {
    && |items| == |took|
    && (forall i | 0 <= i < |items| :: Holds(live, items[i], took[i]) && took[i].name.Some? == named)
    && (forall i, j | 0 <= i < j < |items| ::
          items[i].path != items[j].path && (named ==> items[i].name != items[j].name))
  }

  /** Allocations other than the copies may come and go. */
  lemma FilledKept(live: map<nat, Content>, later: map<nat, Content>, items: seq<Item>, took: seq<Entry>, named: bool)
    requires Filled(live, items, took, named)
    requires forall h <- live.Keys :: live[h].Name? || live[h].Path? ==> h in later && later[h] == live[h]
    ensures Filled(later, items, took, named)
  {
    forall i | 0 <= i < |items| ensures Holds(later, items[i], took[i]) {
      assert Holds(live, items[i], took[i]);
    }
  }

  /** An element made of fresh copies. */
  lemma FilledMore(live: map<nat, Content>, later: map<nat, Content>, items: seq<Item>, took: seq<Entry>, named: bool,
                   item: Item, entry: Entry)
    requires Filled(live, items, took, named) && Holds(later, item, entry) && entry.name.Some? == named
    requires forall h <- live.Keys :: h in later && later[h] == live[h]
    requires item.path !in live && (item.name.Some? ==> item.name.value !in live)
    ensures Filled(later, items + [item], took + [entry], named)
  {
    FilledKept(live, later, items, took, named);
    forall i | 0 <= i < |items|
      ensures items[i].path != item.path && (named ==> items[i].name != item.name)
    {
      assert Holds(live, items[i], took[i]);
    }
  }

  /** The copies that elements are made of. */
  function Handles(items: seq<Item>): set<nat> {
    if items == [] then {}
    else Handles(items[..|items| - 1]) + Copies(items[|items| - 1])
  }

  function Copies(item: Item): set<nat> {
    {item.path} + Just(item.name)
  }

  lemma {:induction false} NotAHandle(items: seq<Item>, h: nat)
    requires forall k | 0 <= k < |items| :: h !in Copies(items[k])
    ensures h !in Handles(items)
  {
    if items != [] {
      NotAHandle(items[..|items| - 1], h);
    }
  }

  lemma HandlesMore(items: seq<Item>, item: Item)
    ensures Handles(items + [item]) == Handles(items) + Copies(item)
  {
    assert (items + [item])[..|items|] == items;
  }

  /** No two elements share a copy, and all copies are live. */
  lemma CopiesApart(live: map<nat, Content>, items: seq<Item>, took: seq<Entry>, named: bool, i: nat)
    requires Filled(live, items, took, named) && i < |items|
    ensures Copies(items[i]) <= live.Keys && Copies(items[i]) !! Handles(items[..i])
    ensures |Copies(items[i])| == if named then 2 else 1
    ensures items[i].name != Some(items[i].path)
  {
    assert Holds(live, items[i], took[i]);
    forall h <- Copies(items[i]) ensures h !in Handles(items[..i]) {
      forall k | 0 <= k < i ensures h !in Copies(items[..i][k]) {
        assert Holds(live, items[k], took[k]);
      }
      NotAHandle(items[..i], h);
    }
    if named {
      assert Copies(items[i]) == {items[i].path, items[i].name.value} && items[i].path != items[i].name.value;
    } else {
      assert Copies(items[i]) == {items[i].path};
    }
  }

  lemma NextCopies(live: map<nat, Content>, items: seq<Item>, took: seq<Entry>, named: bool, i: nat)
    requires Filled(live, items, took, named) && i < |items|
    ensures Copies(items[i]) <= live.Keys && Copies(items[i]) !! Handles(items[..i])
    ensures items[i].name != Some(items[i].path)
    ensures Handles(items[..i + 1]) == Handles(items[..i]) + Copies(items[i])
  {
    CopiesApart(live, items, took, named, i);
    HandlesMore(items[..i], items[i]);
    assert items[..i + 1] == items[..i] + [items[i]];
  }

  lemma {:induction false} HandlesCount(live: map<nat, Content>, items: seq<Item>, took: seq<Entry>, named: bool)
    requires Filled(live, items, took, named)
    ensures |Handles(items)| == |items| * (if named then 2 else 1)
    ensures forall h <- Handles(items) :: h in live && (live[h].Path? || live[h].Name?)
  {
    if items != [] {
      var n := |items| - 1;
      HandlesCount(live, items[..n], took[..n], named);
      CopiesApart(live, items, took, named, n);
      assert Holds(live, items[n], took[n]);
    }
  }

  /** The header and the block are two allocations. */
  lemma OwnBlocks(live: map<nat, Content>, header: nat, block: Option<nat>)
    requires header in live && live[header] == Header
    requires block.Some? ==> block.value in live && live[block.value] == ItemBlock
    ensures header !in Just(block) && |{header} + Just(block)| == if block.None? then 1 else 2
    ensures forall h <- {header} + Just(block) :: h in live && !live[h].Path? && !live[h].Name?
  {
    assert {header} + Just(block) == if block.None? then {header} else {header, block.value};
  }

  lemma CountOwned(live: map<nat, Content>, own: set<nat>, items: seq<Item>, took: seq<Entry>, named: bool)
    requires Filled(live, items, took, named)
    requires forall h <- own :: h in live && !live[h].Path? && !live[h].Name?
    ensures |own + Handles(items)| == |own| + |items| * (if named then 2 else 1)
    ensures own + Handles(items) <= live.Keys && own !! Handles(items)
  {
    HandlesCount(live, items, took, named);
    assert own !! Handles(items);
    assert |own + Handles(items)| == |own| + |Handles(items)|;
  }

  /** Which of the allocations of one append succeed. */
  datatype Luck = Luck(grow: bool, name: bool, path: bool)

  /** The elements of `items` in a bigger array. */
  method Moved(items: array?<Item>, cap: nat) returns (grown: array<Item>)
    requires items != null ==> items.Length <= cap
    ensures fresh(grown) && grown.Length == cap
    ensures items != null ==> grown[..items.Length] == items[..]
  {
    grown := new Item[cap](_ => Item(None, 0));
    var i := 0;
    while items != null && i < items.Length
      invariant items != null ==> 0 <= i <= items.Length && grown[..i] == items[..i]
    {
      grown[i] := items[i];
      i := i + 1;
    }
  }

  /** What a successful `realloc` of the block leaves. */
  lemma AfterRealloc(live: map<nat, Content>, h: nat, header: nat, block: Option<nat>,
                     items: seq<Item>, took: seq<Entry>, named: bool, later: map<nat, Content>)
    requires Filled(live, items, took, named) && h !in live
    requires header in live && live[header] == Header
    requires block.Some? ==> block.value in live && live[block.value] == ItemBlock
    requires later == live[h := ItemBlock] - Just(block)
    ensures Filled(later, items, took, named)
    ensures h in later && later[h] == ItemBlock && header in later && later[header] == Header
    ensures later - ({header} + Just(Some(h)) + Handles(items)) == live - ({header} + Just(block) + Handles(items))
  {
    HandlesCount(live, items, took, named);
    FilledKept(live, later, items, took, named);
    OthersAfterRealloc(live, header, block, h, Handles(items));
  }

  lemma OthersAfterRealloc(live: map<nat, Content>, header: nat, block: Option<nat>, h: nat, copies: set<nat>)
    requires h !in live && header in live && copies <= live.Keys
    requires header !in Just(block) && copies !! Just(block)
    ensures live[h := ItemBlock] - Just(block) - ({header} + Just(Some(h)) + copies)
      == live - ({header} + Just(block) + copies)
  {}

  function Initial(named: bool): nat {
    if named then 4 else 8
  }

  function NextCap(named: bool, cap: nat): nat {
    if cap == 0 then Initial(named) else 2 * cap
  }

  /** Whether one more element fits, or memory for it is granted. */
  predicate HasRoom(named: bool, len: nat, cap: nat, luck: Luck) {
    len < cap || (luck.grow && Bytes(named, NextCap(named, cap)) <= PTRDIFF_MAX)
  }

  /** The size of `n` elements. */
  function Bytes(named: bool, n: nat): nat {
    if named then 16 * n else 8 * n
  }

  /** Realisation results, whose elements are `named`, or store paths, whose elements are not. */
  class ResultArray {
    const named: bool
    var header: nat
    var block: Option<nat>
    var items: array?<Item>
    var len: nat
    var cap: nat
    var failed: bool
    ghost var took: seq<Entry>
    ghost var doublings: nat
    ghost var copied: nat

    /** The initial size times a power of two. */
    function Doubled(k: nat): nat { if named then 4 * Pow(2, k) else 8 * Pow(2, k) }

    /** The blocks of the array itself are live, and its `cap` is its initial size times a power of two. */
    ghost predicate Sized(native: Native) reads this, items, native {
      && len <= cap && |took| == len && Bytes(named, cap) <= PTRDIFF_MAX
      && (if cap == 0 then items == null && block.None? && copied == 0
          else items != null && items.Length == cap && block.Some? && cap == Doubled(doublings)
               && copied == cap - Initial(named) && copied <= 2 * len)
      && header in native.live && native.live[header] == Header
      && (block.Some? ==> block.value in native.live && native.live[block.value] == ItemBlock)
    }

    function Elements(): seq<Item>
      requires len > 0 ==> items != null && len <= items.Length
      reads this, items
    {
      if len == 0 then [] else items[..len]
    }

    /** Everything the array owns: its header, its block and the copies in it. */
    function Owned(): set<nat>
      requires len > 0 ==> items != null && len <= items.Length
      reads this, items
    {
      {header} + Just(block) + Handles(Elements())
    }

    /** What is live and not the array's. */
    ghost function Others(native: Native): map<nat, Content>
      requires len > 0 ==> items != null && len <= items.Length
      reads this, items, native
    {
      native.live - Owned()
    }

    ghost predicate Valid(native: Native) reads this, items, native {
      native.Valid() && Sized(native) && Filled(native.live, Elements(), took, named)
    }

    /** `calloc` of the array's header. */
    constructor (native: Native, named: bool)
      requires native.Valid()
      modifies native`live, native`next
      ensures Valid(native) && took == [] && !failed && this.named == named && cap == 0 && items == null
      ensures Others(native) == old(native.live) && native.freed == old(native.freed)
    {
      this.named := named;
      block, items, len, cap, failed := None, null, 0, 0, false;
      took, doublings, copied := [], 0, 0;
      new;
      ghost var live := native.live;
      var h := native.Make(Header, true);
      header := h.value;
      assert Handles(Elements()) == {} && Owned() == {header};
      assert native.live - {header} == live;
    }

    function NewCap(): nat
      reads this
    {
      NextCap(named, cap)
    }

    /** Makes room for one more element. The numbers are those of a 64-bit size_t; they never wrap, so
        the test for `new_cap < cap` never succeeds. */
    method Grow(native: Native, succeeds: bool) returns (ok: bool)
      requires Valid(native) && len == cap && !failed
      modifies this, native
      ensures Valid(native) && took == old(took) && header == old(header) && Elements() == old(Elements())
      ensures ok <==> succeeds && Bytes(named, old(NewCap())) <= PTRDIFF_MAX
      ensures failed == !ok
        && (if ok then len < cap == old(NewCap()) else cap == old(cap) && native.live == old(native.live))
      ensures Others(native) == old(Others(native))
      ensures items == old(items) || fresh(items)
    {
      var newCap := if cap == 0 then Initial(named) else cap * 2 % SIZES;
      assert newCap == NewCap();
      if newCap < cap {
        assert false;
      }
      var bytes := (if named then 16 * newCap else 8 * newCap) % SIZES;
      assert bytes == Bytes(named, NewCap());
      if !succeeds || bytes > PTRDIFF_MAX {
        failed := true;
        return false;
      }
      Reallocate(native, newCap);
      return true;
    }

    /** A successful `realloc` to `newCap` elements. */
    method Reallocate(native: Native, newCap: nat)
      requires Valid(native) && len == cap && newCap == NewCap() && Bytes(named, newCap) <= PTRDIFF_MAX
      modifies this, native
      ensures Valid(native) && took == old(took) && header == old(header) && Elements() == old(Elements())
      ensures cap == newCap && len < cap && failed == old(failed)
      ensures Others(native) == old(Others(native)) && fresh(items)
    {
      var h := MoveBlock(native);
      MoveElements(newCap);
      block := Some(h);
    }

    method MoveBlock(native: Native) returns (h: nat)
      requires Valid(native)
      modifies native
      ensures native.Valid() && Filled(native.live, Elements(), took, named)
      ensures h in native.live && native.live[h] == ItemBlock
      ensures header in native.live && native.live[header] == Header
      ensures native.live - ({header} + Just(Some(h)) + Handles(Elements())) == old(Others(native))
    {
      ghost var live := native.live;
      var r := native.Realloc(block, true);
      h := r.value;
      AfterRealloc(live, h, header, block, Elements(), took, named, native.live);
    }

    method MoveElements(newCap: nat)
      requires len == cap < newCap == NewCap()
        && (if cap == 0 then items == null else items != null && items.Length == cap)
      requires cap > 0 ==> cap == Doubled(doublings) && copied == cap - Initial(named)
      modifies this`items, this`cap, this`copied, this`doublings
      ensures cap == newCap && items != null && items.Length == cap && fresh(items)
      ensures cap == Doubled(doublings) && copied == cap - Initial(named) && copied <= 2 * len
      ensures Elements() == old(Elements())
    {
      ghost var was := Elements();
      assert newCap == Doubled(if cap == 0 then 0 else doublings + 1);
      copied := if cap == 0 then 0 else copied + cap;
      doublings := if cap == 0 then 0 else doublings + 1;
      items := Moved(items, newCap);
      cap := newCap;
      assert Elements() == was;
    }

    /** Whether one more element fits. */
    predicate Room(luck: Luck)
      reads this
    {
      HasRoom(named, len, cap, luck)
    }

    /** Stores an element whose copies were just made. */
    method Store(native: Native, item: Item, ghost entry: Entry)
      requires native.Valid() && Sized(native) && len < cap
      requires Filled(native.live, Elements() + [item], took + [entry], named)
      modifies this, items
      ensures Valid(native) && took == old(took) + [entry] && header == old(header)
      ensures failed == old(failed) && cap == old(cap) && items == old(items) && Elements() == old(Elements()) + [item]
      ensures Owned() == old(Owned()) + Copies(item)
    {
      HandlesMore(Elements(), item);
      ghost var was := Elements();
      items[len] := item;
      len := len + 1;
      took := took + [entry];
      assert Elements() == was + [item];
    }

    /** What both appends end with: `live` is what was live before the copies were made. */
    method Take(native: Native, ghost live: map<nat, Content>, item: Item, ghost entry: Entry)
      requires native.Valid() && Sized(native) && len < cap && entry.name.Some? == named
      requires Filled(live, Elements(), took, named) && Holds(native.live, item, entry)
      requires Copies(item) !! live.Keys && native.live.Keys == live.Keys + Copies(item)
      requires forall h <- live.Keys :: native.live[h] == live[h]
      modifies this, items
      ensures Valid(native) && took == old(took) + [entry] && header == old(header)
      ensures failed == old(failed) && cap == old(cap) && items == old(items) && Elements() == old(Elements()) + [item]
      ensures Others(native) == live - old(Owned())
    {
      FilledMore(live, native.live, Elements(), took, named, item, entry);
      Store(native, item, entry);
    }

    /** What both appends begin with. */
    method MakeRoom(native: Native, luck: Luck) returns (ok: bool)
      requires Valid(native)
      modifies this, native
      ensures Valid(native) && took == old(took) && header == old(header) && Elements() == old(Elements())
      ensures ok <==> !old(failed) && old(Room(luck))
      ensures Others(native) == old(Others(native))
      ensures failed == !ok && (ok ==> len < cap == old(if len < cap then cap else NewCap()))
      ensures items == old(items) || fresh(items)
    {
      if failed {
        return false;
      }
      ok := true;
      if len == cap {
        ok := Grow(native, luck.grow);
      }
    }

    /** `go_nix_store_realise_results_append`: takes the entry exactly when nothing has failed before
        and there is room and every copy is made. Otherwise the array has failed, for good, and holds
        what it held. */
    method AppendResult(native: Native, name: string, path: StorePath, luck: Luck) returns (ok: bool)
      requires Valid(native) && named
      modifies this, items, native
      ensures Valid(native) && header == old(header) && failed == (old(failed) || !ok)
      ensures ok <==> !old(failed) && old(Room(luck)) && luck.name && luck.path
      ensures took == if ok then old(took) + [Entry(Some(name), path)] else old(took)
      ensures old(Elements()) <= Elements() && Others(native) == old(Others(native))
      ensures items == old(items) || fresh(items)
      ensures ok ==> cap == old(if len < cap then cap else NewCap())
    {
      var room := MakeRoom(native, luck);
      if !room {
        return false;
      }
      ok := AddResult(native, name, path, luck);
    }

    /** The copying, when there is room. */
    method AddResult(native: Native, name: string, path: StorePath, luck: Luck) returns (ok: bool)
      requires Valid(native) && named && len < cap && !failed
      modifies this, items, native
      ensures Valid(native) && header == old(header) && failed == !ok && cap == old(cap) && items == old(items)
      ensures ok <==> luck.name && luck.path
      ensures took == if ok then old(took) + [Entry(Some(name), path)] else old(took)
      ensures old(Elements()) <= Elements() && Others(native) == old(Others(native))
    {
      ghost var live := native.live;
      var item := CopyEntry(native, name, path, luck);
      if item.None? {
        failed := true;
        return false;
      }
      Take(native, live, item.value, Entry(Some(name), path));
      return true;
    }

    /** `go_nix_store_path_array_append` */
    method AppendPath(native: Native, path: StorePath, luck: Luck) returns (ok: bool)
      requires Valid(native) && !named
      modifies this, items, native
      ensures Valid(native) && header == old(header) && failed == (old(failed) || !ok)
      ensures ok <==> !old(failed) && old(Room(luck)) && luck.path
      ensures took == if ok then old(took) + [Entry(None, path)] else old(took)
      ensures old(Elements()) <= Elements() && Others(native) == old(Others(native))
      ensures items == old(items) || fresh(items)
      ensures ok ==> cap == old(if len < cap then cap else NewCap())
    {
      var room := MakeRoom(native, luck);
      if !room {
        return false;
      }
      ok := AddPath(native, path, luck);
    }

    /** The copying, when there is room. */
    method AddPath(native: Native, path: StorePath, luck: Luck) returns (ok: bool)
      requires Valid(native) && !named && len < cap && !failed
      modifies this, items, native
      ensures Valid(native) && header == old(header) && failed == !ok && cap == old(cap) && items == old(items)
      ensures ok <==> luck.path
      ensures took == if ok then old(took) + [Entry(None, path)] else old(took)
      ensures old(Elements()) <= Elements() && Others(native) == old(Others(native))
    {
      ghost var live := native.live;
      var item := CopyPath(native, path, luck);
      if item.None? {
        failed := true;
        return false;
      }
      Take(native, live, item.value, Entry(None, path));
      return true;
    }

    /** Two or one copies an element, the block if there is one, and the header. */
    lemma OwnedCount(native: Native)
      requires Valid(native)
      ensures |Owned()| == len * (if named then 2 else 1) + (if cap == 0 then 1 else 2)
      ensures Owned() <= native.live.Keys && header !in Just(block) && (Just(block) + {header}) !! Handles(Elements())
    {
      OwnBlocks(native.live, header, block);
      CountOwned(native.live, {header} + Just(block), Elements(), took, named);
    }

    /** `go_nix_store_realise_results_free` and `go_nix_store_path_array_free`: gives back exactly the
        copies of the elements, the block and the header. */
    method FreeAll(native: Native)
      requires Valid(native)
      modifies native
      ensures native.Valid()
      ensures native.live == old(native.live) - Owned() && native.freed == old(native.freed) + Owned()
    {
      OwnedCount(native);
      ghost var live, freed, copies := native.live, native.freed, Handles(Elements());
      FreeCopies(native);
      FreeArray(native, header, block, live, freed, copies);
    }

    method FreeCopies(native: Native)
      requires Valid(native)
      modifies native
      ensures native.Valid()
      ensures native.live == old(native.live) - Handles(Elements())
      ensures native.freed == old(native.freed) + Handles(Elements())
    {
      ghost var es, ts, live, freed := Elements(), took, native.live, native.freed;
      assert es[..0] == [];
      var i := 0;
      while i < len
        invariant 0 <= i <= len && native.Valid()
        invariant native.live == live - Handles(es[..i]) && native.freed == freed + Handles(es[..i])
      {
        NextCopies(live, es, ts, named, i);
        assert items[i] == es[i];
        FreeItem(native, items[i], live, freed, Handles(es[..i]));
        i := i + 1;
      }
      assert es[..len] == es;
    }
  }

  lemma RemoveBoth(live: map<nat, Content>, a: set<nat>, b: set<nat>)
    ensures live - a - b == live - (b + a)
  {}

  /** Frees the block and the header, after the `copies`. */
  method FreeArray(native: Native, header: nat, block: Option<nat>,
                   ghost live: map<nat, Content>, ghost freed: set<nat>, ghost copies: set<nat>)
    requires native.Valid() && native.live == live - copies && native.freed == freed + copies
    requires {header} + Just(block) <= live.Keys && header !in Just(block) && (Just(block) + {header}) !! copies
    modifies native
    ensures native.Valid()
    ensures native.live == live - ({header} + Just(block) + copies)
    ensures native.freed == freed + ({header} + Just(block) + copies)
  {
    native.Free(block);
    native.Free(Some(header));
    RemoveBoth(live, copies, {header} + Just(block));
  }

  /** Both copies of an entry, or none. */
  method CopyEntry(native: Native, name: string, path: StorePath, luck: Luck) returns (item: Option<Item>)
    requires native.Valid()
    modifies native
    ensures native.Valid() && (item.Some? <==> luck.name && luck.path)
    ensures item.None? ==> native.live == old(native.live)
    ensures item.Some? ==>
      && Holds(native.live, item.value, Entry(Some(name), path))
      && Copies(item.value) !! old(native.live).Keys
    ensures item.Some? ==> native.live.Keys == old(native.live).Keys + Copies(item.value)
    ensures forall h <- old(native.live).Keys :: h in native.live && native.live[h] == old(native.live)[h]
  {
    var nameCopy := native.Make(Name(name), luck.name);
    var pathCopy := native.Make(Path(path), luck.path);
    if nameCopy.None? || pathCopy.None? {
      native.Free(nameCopy);
      native.Free(pathCopy);
      assert native.live == old(native.live);
      return None;
    }
    item := Some(Item(nameCopy, pathCopy.value));
  }

  method CopyPath(native: Native, path: StorePath, luck: Luck) returns (item: Option<Item>)
    requires native.Valid()
    modifies native
    ensures native.Valid() && (item.Some? <==> luck.path)
    ensures item.None? ==> native.live == old(native.live)
    ensures item.Some? ==>
      && Holds(native.live, item.value, Entry(None, path))
      && Copies(item.value) !! old(native.live).Keys
    ensures item.Some? ==> native.live.Keys == old(native.live).Keys + Copies(item.value)
    ensures forall h <- old(native.live).Keys :: h in native.live && native.live[h] == old(native.live)[h]
  {
    var pathCopy := native.Make(Path(path), luck.path);
    item := if pathCopy.None? then None else Some(Item(None, pathCopy.value));
  }

  /** Frees an element's copies, after those in `done`. */
  method FreeItem(native: Native, item: Item, ghost live: map<nat, Content>, ghost freed: set<nat>,
                  ghost done: set<nat>)
    requires native.Valid() && native.live == live - done && native.freed == freed + done
    requires Copies(item) <= live.Keys && Copies(item) !! done && item.name != Some(item.path)
    modifies native
    ensures native.Valid()
    ensures native.live == live - (done + Copies(item)) && native.freed == freed + (done + Copies(item))
  {
    native.Free(item.name);
    native.Free(Some(item.path));
    RemoveBoth(live, done, Copies(item));
  }

  // ---- the callbacks of one native call ----

  /** A callback's report, and which allocations its append would be granted. */
  datatype Report = Report(entry: Entry, luck: Luck)

  function Entries(reports: seq<Report>): (es: seq<Entry>)
    ensures |es| == |reports| && forall i | 0 <= i < |reports| :: es[i] == reports[i].entry
  {
    seq(|reports|, i requires 0 <= i < |reports| => reports[i].entry)
  }

  /** The capacity of an array that has taken `n` entries. */
  function CapAt(named: bool, n: nat): nat {
    if n == 0 then 0
    else if CapAt(named, n - 1) > n - 1 then CapAt(named, n - 1)
    else if n == 1 then Initial(named)
    else 2 * (n - 1)
  }

  /** Report `i` gets all the memory it asks for. */
  predicate Granted(named: bool, reports: seq<Report>, i: nat)
    requires i < |reports|
  {
    && (CapAt(named, i) > i || (reports[i].luck.grow && Bytes(named, CapAt(named, i + 1)) <= PTRDIFF_MAX))
    && (named ==> reports[i].luck.name) && reports[i].luck.path
  }

  predicate AllGranted(named: bool, reports: seq<Report>, n: nat)
    requires n <= |reports|
  {
    forall i | 0 <= i < n :: Granted(named, reports, i)
  }

  lemma AllGrantedNext(named: bool, reports: seq<Report>, i: nat)
    requires i < |reports|
    ensures AllGranted(named, reports, i + 1) <==> AllGranted(named, reports, i) && Granted(named, reports, i)
  {}

  /** The callbacks: append to the array that came with the call. */
  method Callback(results: ResultArray, native: Native, report: Report) returns (ok: bool)
    requires results.Valid(native) && report.entry.name.Some? == results.named
    modifies results, results.items, native
    ensures results.Valid(native) && results.failed == (old(results.failed) || !ok)
    ensures ok <==>
      && !old(results.failed) && old(results.Room(report.luck))
      && (results.named ==> report.luck.name) && report.luck.path
    ensures results.took == if ok then old(results.took) + [report.entry] else old(results.took)
    ensures results.Others(native) == old(results.Others(native))
    ensures results.items == old(results.items) || fresh(results.items)
    ensures ok ==> results.cap == old(if results.len < results.cap then results.cap else results.NewCap())
  {
    if results.named {
      ok := results.AppendResult(native, report.entry.name.value, report.entry.path, report.luck);
    } else {
      ok := results.AppendPath(native, report.entry.path, report.luck);
    }
  }

  /** What the first `i` reports have made of an array. */
  predicate Progress(named: bool, reports: seq<Report>, i: nat, failed: bool, took: seq<Entry>, cap: nat)
    requires i <= |reports|
  {
    && (!failed <==> AllGranted(named, reports, i))
    && (!failed ==> took == Entries(reports[..i]) && cap == CapAt(named, i))
  }

  lemma CapAtNext(named: bool, i: nat)
    ensures CapAt(named, i + 1)
      == if i < CapAt(named, i) then CapAt(named, i) else if i == 0 then Initial(named) else 2 * i
    ensures i <= CapAt(named, i)
  {
    if i > 0 {
      CapAtNext(named, i - 1);
    }
  }

  /** One more report: granted exactly when the append succeeds. */
  lemma ProgressNext(named: bool, reports: seq<Report>, i: nat, failed: bool, took: seq<Entry>, cap: nat,
                     ok: bool, took': seq<Entry>, cap': nat)
    requires i < |reports| && Progress(named, reports, i, failed, took, cap)
    requires !failed ==> |took| <= cap
    requires var luck := reports[i].luck;
      ok <==> !failed && HasRoom(named, |took|, cap, luck) && (named ==> luck.name) && luck.path
    requires ok ==> took' == took + [reports[i].entry] && cap' == if |took| < cap then cap else NextCap(named, cap)
    ensures Progress(named, reports, i + 1, failed || !ok, took', cap')
  {
    AllGrantedNext(named, reports, i);
    if !failed {
      assert |took| == i;
      CapAtNext(named, i);
    }
  }

  // ---- the capacities in numbers ----

  /** Room for four results or eight paths at first, doubled as often as needed and no oftener. */
  ghost predicate IsCapacity(named: bool, n: nat, cap: nat) {
    exists k :: 0 <= k && cap == (if named then 4 else 8) * Pow(2, k) && (k > 0 ==> cap < 2 * n)
  }

  lemma {:induction false} CapacityOf(named: bool, n: nat)
    ensures n == 0 ==> CapAt(named, n) == 0
    ensures n > 0 ==> n <= CapAt(named, n) && IsCapacity(named, n, CapAt(named, n))
  {
    if n == 1 {
      assert CapAt(named, 1) == (if named then 4 else 8) * Pow(2, 0);
    } else if n > 1 {
      CapacityOf(named, n - 1);
      var cap := CapAt(named, n - 1);
      var k :| 0 <= k && cap == (if named then 4 else 8) * Pow(2, k) && (k > 0 ==> cap < 2 * (n - 1));
      if cap <= n - 1 {
        assert CapAt(named, n) == 2 * cap && Pow(2, k + 1) == 2 * Pow(2, k);
      }
    }
  }

  /** A report needs more memory exactly when it is the first or finds a full block: 16 bytes for each
      result or 8 for each path, twice as many as there are. */
  lemma GrantedInNumbers(named: bool, reports: seq<Report>, i: nat)
    requires i < |reports|
    ensures var luck, full := reports[i].luck, CapAt(named, i) == i;
      Granted(named, reports, i) <==>
        && (full ==> luck.grow && (if i > 0 && named then 32 * i <= 0x7FFF_FFFF_FFFF_FFFF
                                   else 16 * i <= 0x7FFF_FFFF_FFFF_FFFF))
        && (named ==> luck.name) && luck.path
  {
    CapAtNext(named, i);
  }

  /** Nix calls back once for each report. */
  method RunCallbacks(results: ResultArray, native: Native, reports: seq<Report>)
    requires results.Valid(native) && results.took == [] && results.items == null && results.cap == 0 && !results.failed
    requires forall i | 0 <= i < |reports| :: reports[i].entry.name.Some? == results.named
    modifies results, native
    ensures results.Valid(native) && (results.items == null || fresh(results.items))
    ensures results.Others(native) == old(results.Others(native))
    ensures !results.failed <==> AllGranted(results.named, reports, |reports|)
    ensures !results.failed ==> results.took == Entries(reports)
  {
    var i := 0;
    while i < |reports|
      invariant 0 <= i <= |reports|
      invariant results.Valid(native) && (results.items == null || fresh(results.items))
      invariant results.Others(native) == old(results.Others(native))
      invariant Progress(results.named, reports, i, results.failed, results.took, results.cap)
    {
      NextCallback(results, native, reports, i);
      i := i + 1;
    }
    assert reports[..i] == reports;
  }

  /** One of them. */
  method NextCallback(results: ResultArray, native: Native, reports: seq<Report>, i: nat)
    requires results.Valid(native) && i < |reports| && reports[i].entry.name.Some? == results.named
    requires Progress(results.named, reports, i, results.failed, results.took, results.cap)
    modifies results, results.items, native
    ensures results.Valid(native) && (results.items == old(results.items) || fresh(results.items))
    ensures results.Others(native) == old(results.Others(native))
    ensures Progress(results.named, reports, i + 1, results.failed, results.took, results.cap)
  {
    ghost var failed, took, cap := results.failed, results.took, results.cap;
    var ok := Callback(results, native, reports[i]);
    ProgressNext(results.named, reports, i, failed, took, cap, ok, results.took, results.cap);
  }

  /** The element holds a clone of the path and, where there is one, a copy of the output name. */
  predicate IsCopyOf(live: map<nat, Content>, item: Item, entry: Entry) {
    && item.path in live && live[item.path] == Path(entry.path)
    && match entry.name
       case None => item.name.None?
       case Some(name) => item.name.Some? && item.name.value in live && live[item.name.value] == Name(name)
  }

  lemma CopiesOf(live: map<nat, Content>, items: seq<Item>, took: seq<Entry>, named: bool)
    requires Filled(live, items, took, named)
    ensures forall i | 0 <= i < |items| :: IsCopyOf(live, items[i], took[i])
  {
    forall i | 0 <= i < |items| ensures IsCopyOf(live, items[i], took[i]) {
      assert Holds(live, items[i], took[i]);
    }
  }

  /** The header is allocated, Nix makes `reports` through the callback and ends with or without an
      error. Exactly when nothing fails the caller gets an array of every entry in the order reported;
      otherwise nothing, and then nothing that was allocated on the way is left. */
  method Collect(native: Native, named: bool, header: bool, reports: seq<Report>, err: bool)
    returns (results: ResultArray?)
    requires native.Valid()
    requires forall i | 0 <= i < |reports| :: reports[i].entry.name.Some? == named
    modifies native
    ensures native.Valid()
    ensures results != null <==> header && !err && AllGranted(named, reports, |reports|)
    ensures results == null ==> native.live == old(native.live)
    ensures results != null ==> fresh(results) && results.Valid(native) && results.took == Entries(reports)
    ensures results != null ==> results.Others(native) == old(native.live)
    ensures results != null ==>
      && results.len == |reports| && (results.len > 0 ==> results.items != null && results.len <= results.items.Length)
      && forall i | 0 <= i < |reports| :: IsCopyOf(native.live, results.items[i], reports[i].entry)
  {
    if !header {
      return null;
    }
    results := new ResultArray(native, named);
    RunCallbacks(results, native, reports);
    if err || results.failed {
      results.FreeAll(native);
      results := null;
    } else {
      CopiesOf(native.live, results.Elements(), results.took, named);
    }
  }
}
