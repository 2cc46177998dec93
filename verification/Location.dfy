/** Settable locations inside a Go variable: what a `reflect.Value` obtained from a pointer denotes. */
module Location {
  import opened Values

  /** A Go variable that a pointer leads to. */
  class Var {
    var val: Go

    constructor (val: Go)
      ensures this.val == val
    {
      this.val := val;
    }
  }

  /** `g` has a settable i-th child: an element, a field, or the pointee as child 0. */
  predicate HasChild(g: Go, i: nat) {
    match g
    case GoSlice(_, items) => i < |items|
    case GoArray(items) => i < |items|
    case GoStruct(fields) => i < |fields|
    case GoPointer(_) => i == 0
    case _ => false
  }

  function Child(g: Go, i: nat): Go
    requires HasChild(g, i)
  {
    match g
    case GoSlice(_, items) => items[i]
    case GoArray(items) => items[i]
    case GoStruct(fields) => fields[i]
    case GoPointer(target) => target
  }

  function WithChild(g: Go, i: nat, x: Go): (r: Go)
    requires HasChild(g, i)
    ensures HasChild(r, i) && Child(r, i) == x
  {
    match g
    case GoSlice(isNil, items) => GoSlice(isNil, items[i := x])
    case GoArray(items) => GoArray(items[i := x])
    case GoStruct(fields) => GoStruct(fields[i := x])
    case GoPointer(_) => GoPointer(x)
  }

  /** `loc` leads from `g` to one of its parts, child by child. */
  predicate ValidLoc(g: Go, loc: seq<nat>) {
    loc == [] || (HasChild(g, loc[0]) && ValidLoc(Child(g, loc[0]), loc[1..]))
  }

  function Get(g: Go, loc: seq<nat>): Go
    requires ValidLoc(g, loc)
  {
    if loc == [] then g else Get(Child(g, loc[0]), loc[1..])
  }

  /** `g` with the part at `loc` replaced. */
  function Put(g: Go, loc: seq<nat>, x: Go): Go
    requires ValidLoc(g, loc)
  {
    if loc == [] then x else WithChild(g, loc[0], Put(Child(g, loc[0]), loc[1..], x))
  }

  lemma {:induction false} PutGet(g: Go, loc: seq<nat>)
    requires ValidLoc(g, loc)
    ensures Put(g, loc, Get(g, loc)) == g
  {
    if loc != [] {
      PutGet(Child(g, loc[0]), loc[1..]);
      match g
      case GoSlice(_, items) => assert items[loc[0] := items[loc[0]]] == items;
      case GoArray(items) => assert items[loc[0] := items[loc[0]]] == items;
      case GoStruct(fields) => assert fields[loc[0] := fields[loc[0]]] == fields;
      case GoPointer(_) =>
    }
  }

  lemma {:induction false} GetPut(g: Go, loc: seq<nat>, x: Go)
    requires ValidLoc(g, loc)
    ensures ValidLoc(Put(g, loc, x), loc) && Get(Put(g, loc, x), loc) == x
  {
    if loc != [] {
      GetPut(Child(g, loc[0]), loc[1..], x);
    }
  }

  lemma WithChildTwice(g: Go, i: nat, x: Go, y: Go)
    requires HasChild(g, i)
    ensures WithChild(WithChild(g, i, x), i, y) == WithChild(g, i, y)
  {
    match g
    case GoSlice(_, items) => assert items[i := x][i := y] == items[i := y];
    case GoArray(items) => assert items[i := x][i := y] == items[i := y];
    case GoStruct(fields) => assert fields[i := x][i := y] == fields[i := y];
    case GoPointer(_) =>
  }

  lemma {:induction false} PutPut(g: Go, loc: seq<nat>, x: Go, y: Go)
    requires ValidLoc(g, loc)
    ensures ValidLoc(Put(g, loc, x), loc) && Put(Put(g, loc, x), loc, y) == Put(g, loc, y)
  {
    GetPut(g, loc, x);
    if loc != [] {
      PutPut(Child(g, loc[0]), loc[1..], x, y);
      WithChildTwice(g, loc[0], Put(Child(g, loc[0]), loc[1..], x), Put(Child(g, loc[0]), loc[1..], y));
    }
  }

  /** A child of the part at `loc` is a part too, and writing it rewrites only that child. */
  lemma {:induction false} ChildLoc(g: Go, loc: seq<nat>, i: nat, x: Go)
    requires ValidLoc(g, loc) && HasChild(Get(g, loc), i)
    ensures ValidLoc(g, loc + [i]) && Get(g, loc + [i]) == Child(Get(g, loc), i)
    ensures Put(g, loc + [i], x) == Put(g, loc, WithChild(Get(g, loc), i, x))
  {
    if loc == [] {
      assert loc + [i] == [i] && [i][1..] == [];
    } else {
      assert (loc + [i])[1..] == loc[1..] + [i];
      ChildLoc(Child(g, loc[0]), loc[1..], i, x);
    }
  }

  /** Writing child `i` of a part that was just written. */
  lemma PutChild(g: Go, loc: seq<nat>, part: Go, i: nat, x: Go)
    requires ValidLoc(g, loc) && HasChild(part, i)
    ensures ValidLoc(Put(g, loc, part), loc + [i])
    ensures Get(Put(g, loc, part), loc + [i]) == Child(part, i)
    ensures Put(Put(g, loc, part), loc + [i], x) == Put(g, loc, WithChild(part, i, x))
  {
    GetPut(g, loc, part);
    ChildLoc(Put(g, loc, part), loc, i, x);
    PutPut(g, loc, part, WithChild(part, i, x));
  }

  /** The same for an element of a slice variable. */
  lemma ElementLoc(items: seq<Go>, i: nat, x: Go)
    requires i < |items|
    ensures var g := GoSlice(false, items);
      && ValidLoc(g, [i]) && Get(g, [i]) == items[i]
      && Put(g, [i], x) == GoSlice(false, items[i := x])
  {
    assert [i][1..] == [];
  }
}
