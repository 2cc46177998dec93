/** `eval.Evaluator` and the values it hands out: decoding into Go variables in place, with
    every reference taken on the way tracked. */
module Evaluators {
  import opened Optional
  import opened PathPrinter
  import opened Values
  import opened Decoder
  import opened Location
  import opened TargetFields

  /** A handle that owns one reference to a Nix value; `ptr` is false once it is closed, and `closes`
      counts how often its reference was given back. */
  class Value {
    var nix: Nix
    const owner: Evaluator
    var ptr: bool
    ghost var closes: nat

    constructor (nix: Nix, owner: Evaluator)
      ensures this.nix == nix && this.owner == owner && ptr && closes == 0
    {
      this.nix := nix;
      this.owner := owner;
      this.ptr := true;
      this.closes := 0;
    }
  }

  /** The destination passed to `Unmarshal`. */
  datatype Out = NoValue | NonPointer(t: GoType) | NilPointer(t: GoType) | PointerTo(root: Var, t: GoType)

  /** Why `Unmarshal` returns an error. */
  datatype Failure = Closed | InvalidTarget | InvalidValue | NotDecoded(e: Error<string>)

  function Print(cs: Charset, e: Err): Error<string> {
    match e
    case TypeMismatch(found, t, path) => TypeMismatch(found, t, Render(cs, path))
    case MissingAttr(attr, path) => MissingAttr(attr, Render(cs, path))
    case Unsupported(t, path) => Unsupported(t, Render(cs, path))
    case ApiError(op, path) => ApiError(op, Render(cs, path))
  }

  /** Printing changes nothing about an error but its path. */
  lemma PrintedAsIs(cs: Charset, e: Err)
    ensures var p := Print(cs, e);
      && p.path == Render(cs, e.path)
      && (p.TypeMismatch? <==> e.TypeMismatch?) && (p.MissingAttr? <==> e.MissingAttr?)
      && (p.Unsupported? <==> e.Unsupported?) && (p.ApiError? <==> e.ApiError?)
      && (e.TypeMismatch? ==> p.found == e.found && p.typ == e.typ) && (e.MissingAttr? ==> p.attr == e.attr)
      && (e.Unsupported? ==> p.typ == e.typ) && (e.ApiError? ==> p.op == e.op)
  {}

  /** No release of a reference fails. */
  ghost predicate Releases(env: Env) {
    forall c: Call :: env.fails(c) ==> !c.op.CloseChild?
  }

  class Evaluator {
    /** False once the evaluation state was freed. */
    var state: bool
    /** False once the context it was made with was closed. */
    var context: bool
    /** The open handles, and those whose release Nix refused. */
    ghost var held: set<Value>
    ghost var lost: set<Value>
    /** List and bindings builders not yet freed. */
    ghost var builders: nat

    ghost predicate Valid()
      reads this, held
    {
      forall v | v in held :: v.ptr && v.owner == this
    }

    constructor ()
      ensures Valid() && Open() && held == {} && lost == {} && builders == 0
    {
      state, context, held, lost, builders := true, true, {}, {}, 0;
    }

    /** What every operation checks first. */
    predicate Open()
      reads this
    {
      state && context
    }

    /** What the closing of a client does to its evaluator, and at last to the context. */
    method Shut()
      requires Valid()
      modifies this`state, this`context
      ensures Valid() && !state && !context
    {
      state := false;
      context := false;
    }

    /** A raw call returned a new reference, and it is wrapped. */
    method Wrap(nix: Nix) returns (v: Value)
      requires Valid()
      modifies this`held
      ensures Valid() && fresh(v) && v.nix == nix && v.owner == this && v.ptr && v.closes == 0
      ensures held == old(held) + {v}
    {
      v := new Value(nix, this);
      held := held + {v};
    }

    /** `Value.Close`: the handle is given up even when Nix refuses the release, but kept when the
        context is closed. */
    method Close(v: Value, refused: bool) returns (ok: bool)
      requires Valid() && v.owner == this
      modifies this`held, this`lost, v`ptr, v`closes
      ensures Valid()
      ensures context ==> !v.ptr && held == old(held) - {v}
      ensures context ==> (ok <==> !(old(v.ptr) && refused))
      ensures context ==> lost == if ok then old(lost) else old(lost) + {v}
      ensures context ==> v.closes == old(v.closes) + if old(v.ptr) then 1 else 0
      ensures !context ==> v.ptr == old(v.ptr) && v.closes == old(v.closes) && ok == !v.ptr
      ensures !context ==> held == old(held) && lost == old(lost)
    {
      if !v.ptr {
        return true;
      }
      if !context {
        return false;
      }
      v.ptr := false;
      v.closes := v.closes + 1;
      held := held - {v};
      if refused {
        lost := lost + {v};
      }
      return !refused;
    }

    /** What every decoding method promises about references: none is gained or given up, and
        one can only be lost when Nix refuses to release it. */
    twostate predicate Conserves(env: Env)
      reads this
    {
      && held == old(held)
      && old(lost) <= lost
      && (Releases(env) ==> lost == old(lost))
      && state == old(state) && context == old(context)
    }

    /** `unmarshalValue`: decodes in place exactly as `Decode` says. */
    method UnmarshalValue(env: Env, v: Value, root: Var, loc: seq<nat>, t: GoType, at: seq<nat>, path: seq<Segment>)
      returns (err: Option<Err>)
      requires Valid() && context && v in held
      requires ValidLoc(root.val, loc) && HasType(t, Get(root.val, loc))
      modifies this`held, this`lost, root
      ensures Valid() && Conserves(env)
      ensures var r := Decode(env, v.nix, t, Get(old(root.val), loc), at, path);
        root.val == Put(old(root.val), loc, r.val) && err == r.err
      decreases v.nix, t, 1, 0
    {
      PutGet(root.val, loc);
      if env.fails(Call(at, Force)) {
        return Some(ApiError(Force, path));
      }
      if env.fails(Call(at, TypeOf)) {
        return Some(ApiError(TypeOf, path));
      }
      if v.nix.NixNull? {
        if t.TPointer? {
          root.val := Put(root.val, loc, GoNilPointer);
          return None;
        }
        return Some(TypeMismatch(OfKind(v.nix), t, path));
      }
      match t {
        case TPointer(_) => err := UnmarshalPointer(env, v, root, loc, t, at, path);
        case TStruct(_) => err := UnmarshalStruct(env, v, root, loc, t, at, path);
        case TMap(_, _) => err := UnmarshalMap(env, v, root, loc, t, at, path);
        case TSlice(_) => err := UnmarshalSlice(env, v, root, loc, t, at, path);
        case TArray(_, _) => err := UnmarshalArray(env, v, root, loc, t, at, path);
        case TInterface => err := Some(Unsupported(t, path));
        case TOther => err := Some(Unsupported(t, path));
        case TString => err := UnmarshalString(env, v, root, loc, t, at, path);
        case TBool => err := UnmarshalBool(env, v, root, loc, t, at, path);
        case TInt(_) => err := UnmarshalInt(env, v, root, loc, t, at, path);
        case TUint(_) => err := UnmarshalUint(env, v, root, loc, t, at, path);
        case TFloat(_) => err := UnmarshalFloat(env, v, root, loc, t, at, path);
      }
    }

    /** A nil pointer is first set to a new zero value. */
    method UnmarshalPointer(env: Env, v: Value, root: Var, loc: seq<nat>, t: GoType, at: seq<nat>, path: seq<Segment>)
      returns (err: Option<Err>)
      requires Valid() && context && v in held && t.TPointer?
      requires ValidLoc(root.val, loc) && HasType(t, Get(root.val, loc))
      requires !env.fails(Call(at, Force)) && !env.fails(Call(at, TypeOf)) && !v.nix.NixNull?
      modifies this`held, this`lost, root
      ensures Valid() && Conserves(env)
      ensures var r := Decode(env, v.nix, t, Get(old(root.val), loc), at, path);
        root.val == Put(old(root.val), loc, r.val) && err == r.err
      decreases v.nix, t, 0, 0
    {
      ghost var pointee := Pointee(t.elem, Get(root.val, loc));
      PutGet(root.val, loc);
      if Get(root.val, loc).GoNilPointer? {
        root.val := Put(root.val, loc, GoPointer(Zero(t.elem)));
      }
      ghost var r := Decode(env, v.nix, t.elem, pointee, at + [0], path);
      PutChild(old(root.val), loc, GoPointer(pointee), 0, r.val);
      err := UnmarshalValue(env, v, root, loc + [0], t.elem, at + [0], path);
    }

    method UnmarshalStruct(env: Env, v: Value, root: Var, loc: seq<nat>, t: GoType, at: seq<nat>, path: seq<Segment>)
      returns (err: Option<Err>)
      requires Valid() && context && v in held && t.TStruct?
      requires ValidLoc(root.val, loc) && HasType(t, Get(root.val, loc))
      requires !env.fails(Call(at, Force)) && !env.fails(Call(at, TypeOf)) && !v.nix.NixNull?
      modifies this`held, this`lost, root
      ensures Valid() && Conserves(env)
      ensures var r := Decode(env, v.nix, t, Get(old(root.val), loc), at, path);
        root.val == Put(old(root.val), loc, r.val) && err == r.err
      decreases v.nix, t, 0, 2
    {
      ghost var was := Get(root.val, loc);
      PutGet(root.val, loc);
      if !v.nix.NixAttrs? {
        return Some(TypeMismatch(OfKind(v.nix), t, path));
      }
      ghost var vals := was.fields;
      var i := 0;
      while i < |t.fields|
        invariant 0 <= i <= |t.fields|
        invariant Valid() && Conserves(env)
        invariant HasType(t, GoStruct(vals))
        invariant root.val == Put(old(root.val), loc, GoStruct(vals))
        invariant DecodeFields(env, v.nix, t, vals, i, at, path) == DecodeFields(env, v.nix, t, was.fields, 0, at, path)
      {
        ghost var r := DecodeField(env, v.nix, t, i, vals[i], at, path);
        err := UnmarshalField(env, v, root, loc, t, i, old(root.val), vals, at, path);
        vals := vals[i := r.val];
        if err.Some? {
          return err;
        }
        i := i + 1;
      }
      return None;
    }

    /** The body of the struct loop, for the field whose location is child `i` of `loc`. */
    method UnmarshalField(env: Env, v: Value, root: Var, loc: seq<nat>, t: GoType, i: nat, ghost base: Go,
                          ghost vals: seq<Go>, at: seq<nat>, path: seq<Segment>)
      returns (err: Option<Err>)
      requires Valid() && context && v in held
      requires v.nix.NixAttrs? && t.TStruct? && i < |t.fields| && HasType(t, GoStruct(vals))
      requires ValidLoc(base, loc) && root.val == Put(base, loc, GoStruct(vals))
      modifies this`held, this`lost, root
      ensures Valid() && Conserves(env)
      ensures var r := DecodeField(env, v.nix, t, i, vals[i], at, path);
        root.val == Put(base, loc, GoStruct(vals[i := r.val])) && err == r.err
      decreases v.nix, t, 0, 1
    {
      assert vals[i := vals[i]] == vals;
      var f := t.fields[i];
      if !Active(f) {
        return None;
      }
      if env.fails(Call(at, HasAttr(i))) {
        return Some(ApiError(HasAttr(i), path));
      }
      match Find(v.nix.attrs, f.attr) {
        case None =>
          err := if f.required then Some(MissingAttr(f.attr, path + [Attr(f.attr)])) else None;
        case Some(k) =>
          err := UnmarshalMatched(env, v, root, loc, t, i, k, base, vals, at, path);
      }
    }

    /** A field that attribute `k` matches. */
    method UnmarshalMatched(env: Env, v: Value, root: Var, loc: seq<nat>, t: GoType, i: nat, k: nat, ghost base: Go,
                            ghost vals: seq<Go>, at: seq<nat>, path: seq<Segment>)
      returns (err: Option<Err>)
      requires Valid() && context && v in held
      requires v.nix.NixAttrs? && t.TStruct? && i < |t.fields| && HasType(t, GoStruct(vals))
      requires Active(t.fields[i]) && !env.fails(Call(at, HasAttr(i))) && Find(v.nix.attrs, t.fields[i].attr) == Some(k)
      requires ValidLoc(base, loc) && root.val == Put(base, loc, GoStruct(vals))
      modifies this`held, this`lost, root
      ensures Valid() && Conserves(env)
      ensures var r := DecodeField(env, v.nix, t, i, vals[i], at, path);
        root.val == Put(base, loc, GoStruct(vals[i := r.val])) && err == r.err
      decreases v.nix, t, 0, 0
    {
      assert vals[i := vals[i]] == vals;
      var f := t.fields[i];
      if env.fails(Call(at, GetAttr(i))) {
        return Some(ApiError(GetAttr(i), path));
      }
      var child := Wrap(v.nix.attrs[k].value);
      ghost var r := Decode(env, child.nix, f.typ, vals[i], at + [i], path + [Attr(f.attr)]);
      PutChild(base, loc, GoStruct(vals), i, r.val);
      err := UnmarshalValue(env, child, root, loc + [i], f.typ, at + [i], path + [Attr(f.attr)]);
      var closed := Close(child, env.fails(Call(at, CloseChild(i))));
      if !closed && err.None? {
        err := Some(ApiError(CloseChild(i), path));
      }
    }

    /** The body of the map loop: a fresh element is decoded. */
    method UnmarshalEntry(env: Env, v: Value, elem: GoType, i: nat, at: seq<nat>, path: seq<Segment>)
      returns (err: Option<Err>, g: Go)
      requires Valid() && context && v in held && v.nix.NixAttrs? && i < |v.nix.attrs|
      modifies this`held, this`lost
      ensures Valid() && Conserves(env)
      ensures var r := DecodeEntry(env, v.nix, elem, i, at, path);
        g == r.val && err == r.err
      decreases v.nix, elem, 0, 0
    {
      g := Zero(elem);
      if env.fails(Call(at, AttrName(i))) {
        return Some(ApiError(AttrName(i), path)), g;
      }
      var name := v.nix.attrs[i].name;
      if env.fails(Call(at, AttrByIndex(i))) {
        return Some(ApiError(AttrByIndex(i), path)), g;
      }
      var child := Wrap(v.nix.attrs[i].value);
      err, g := UnmarshalFresh(env, child, g, elem, at + [i], path + [Attr(name)]);
      var closed := Close(child, env.fails(Call(at, CloseChild(i))));
      if !closed && err.None? {
        err := Some(ApiError(CloseChild(i), path));
      }
    }

    /** Decodes into a variable of its own that held `zero`. */
    method UnmarshalFresh(env: Env, v: Value, zero: Go, t: GoType, at: seq<nat>, path: seq<Segment>)
      returns (err: Option<Err>, g: Go)
      requires Valid() && context && v in held && HasType(t, zero)
      modifies this`held, this`lost
      ensures Valid() && Conserves(env)
      ensures var r := Decode(env, v.nix, t, zero, at, path);
        g == r.val && err == r.err
      decreases v.nix, t, 2, 0
    {
      var item := new Var(zero);
      err := UnmarshalValue(env, v, item, [], t, at, path);
      g := item.val;
    }

    method UnmarshalMap(env: Env, v: Value, root: Var, loc: seq<nat>, t: GoType, at: seq<nat>, path: seq<Segment>)
      returns (err: Option<Err>)
      requires Valid() && context && v in held && t.TMap?
      requires ValidLoc(root.val, loc) && HasType(t, Get(root.val, loc))
      requires !env.fails(Call(at, Force)) && !env.fails(Call(at, TypeOf)) && !v.nix.NixNull?
      modifies this`held, this`lost, root
      ensures Valid() && Conserves(env)
      ensures var r := Decode(env, v.nix, t, Get(old(root.val), loc), at, path);
        root.val == Put(old(root.val), loc, r.val) && err == r.err
      decreases v.nix, t, 0, 1
    {
      PutGet(root.val, loc);
      if !v.nix.NixAttrs? {
        return Some(TypeMismatch(OfKind(v.nix), t, path));
      }
      if !t.key.TString? {
        return Some(Unsupported(t, path));
      }
      if env.fails(Call(at, AttrLen)) {
        return Some(ApiError(AttrLen, path));
      }
      var items;
      err, items := UnmarshalEntries(env, v, t.elem, at, path);
      if err.Some? {
        return err;
      }
      root.val := Put(root.val, loc, GoMap(false, items));
      return None;
    }

    /** The loop over the attributes. */
    method UnmarshalEntries(env: Env, v: Value, elem: GoType, at: seq<nat>, path: seq<Segment>)
      returns (err: Option<Err>, items: map<string, Go>)
      requires Valid() && context && v in held && v.nix.NixAttrs?
      modifies this`held, this`lost
      ensures Valid() && Conserves(env)
      ensures (items, err) == DecodeEntries(env, v.nix, elem, map[], 0, at, path)
      decreases v.nix, elem, 0, 1
    {
      var attrs := v.nix.attrs;
      items := map[];
      var i := 0;
      while i < |attrs|
        invariant 0 <= i <= |attrs|
        invariant Valid() && Conserves(env)
        invariant forall k | k in items :: HasType(elem, items[k])
        invariant DecodeEntries(env, v.nix, elem, items, i, at, path)
          == DecodeEntries(env, v.nix, elem, map[], 0, at, path)
      {
        var item: Go;
        err, item := UnmarshalEntry(env, v, elem, i, at, path);
        if err.Some? {
          return err, items;
        }
        items := items[attrs[i].name := item];
        i := i + 1;
      }
      return None, items;
    }

    method UnmarshalSlice(env: Env, v: Value, root: Var, loc: seq<nat>, t: GoType, at: seq<nat>, path: seq<Segment>)
      returns (err: Option<Err>)
      requires Valid() && context && v in held && t.TSlice?
      requires ValidLoc(root.val, loc) && HasType(t, Get(root.val, loc))
      requires !env.fails(Call(at, Force)) && !env.fails(Call(at, TypeOf)) && !v.nix.NixNull?
      modifies this`held, this`lost, root
      ensures Valid() && Conserves(env)
      ensures var r := Decode(env, v.nix, t, Get(old(root.val), loc), at, path);
        root.val == Put(old(root.val), loc, r.val) && err == r.err
      decreases v.nix, t, 0, 2
    {
      PutGet(root.val, loc);
      if !v.nix.NixList? {
        return Some(TypeMismatch(OfKind(v.nix), t, path));
      }
      if env.fails(Call(at, ListLen)) {
        return Some(ApiError(ListLen, path));
      }
      var items := new Var(GoSlice(false, Repeat(Zero(t.elem), |v.nix.items|)));
      err := UnmarshalItems(env, v, items, t.elem, Repeat(Zero(t.elem), |v.nix.items|), at, path);
      if err.Some? {
        return err;
      }
      root.val := Put(root.val, loc, items.val);
      return None;
    }

    /** The loop over the new slice `items`. */
    method UnmarshalItems(env: Env, v: Value, items: Var, elem: GoType, ghost zeros: seq<Go>, at: seq<nat>,
                          path: seq<Segment>)
      returns (err: Option<Err>)
      requires Valid() && context && v in held && v.nix.NixList?
      requires items.val == GoSlice(false, zeros) && |zeros| == |v.nix.items| && AllOfType(elem, zeros)
      modifies this`held, this`lost, items
      ensures Valid() && Conserves(env)
      ensures var (vals, e) := DecodeItems(env, v.nix, elem, zeros, 0, at, path);
        err == e && (err.None? ==> items.val == GoSlice(false, vals))
      decreases v.nix, elem, 0, 2
    {
      ghost var vals := zeros;
      var i := 0;
      while i < |v.nix.items|
        invariant 0 <= i <= |v.nix.items| == |vals|
        invariant Valid() && Conserves(env)
        invariant AllOfType(elem, vals) && items.val == GoSlice(false, vals)
        invariant DecodeItems(env, v.nix, elem, vals, i, at, path) == DecodeItems(env, v.nix, elem, zeros, 0, at, path)
      {
        ghost var g;
        err, g := UnmarshalItem(env, v, items, elem, i, vals, at, path);
        vals := vals[i := g];
        if err.Some? {
          return err;
        }
        i := i + 1;
      }
      return None;
    }

    method UnmarshalItem(env: Env, v: Value, items: Var, elem: GoType, i: nat, ghost vals: seq<Go>, at: seq<nat>,
                         path: seq<Segment>)
      returns (err: Option<Err>, ghost g: Go)
      requires Valid() && context && v in held && v.nix.NixList? && i < |v.nix.items| == |vals|
      requires AllOfType(elem, vals) && items.val == GoSlice(false, vals)
      modifies this`held, this`lost, items
      ensures Valid() && Conserves(env)
      ensures HasType(elem, g) && items.val == GoSlice(false, vals[i := g])
      ensures DecodeItems(env, v.nix, elem, vals, i, at, path)
        == if err.Some? then (vals[i := g], err) else DecodeItems(env, v.nix, elem, vals[i := g], i + 1, at, path)
      decreases v.nix, elem, 0, 1
    {
      ghost var r := DecodeItem(env, v.nix, elem, i, vals[i], at, path);
      ElementLoc(vals, i, r.val);
      g := r.val;
      err := UnmarshalIndex(env, v, items, [i], elem, i, at, path);
    }

    method UnmarshalArray(env: Env, v: Value, root: Var, loc: seq<nat>, t: GoType, at: seq<nat>, path: seq<Segment>)
      returns (err: Option<Err>)
      requires Valid() && context && v in held && t.TArray?
      requires ValidLoc(root.val, loc) && HasType(t, Get(root.val, loc))
      requires !env.fails(Call(at, Force)) && !env.fails(Call(at, TypeOf)) && !v.nix.NixNull?
      modifies this`held, this`lost, root
      ensures Valid() && Conserves(env)
      ensures var r := Decode(env, v.nix, t, Get(old(root.val), loc), at, path);
        root.val == Put(old(root.val), loc, r.val) && err == r.err
      decreases v.nix, t, 0, 2
    {
      ghost var was := Get(root.val, loc);
      PutGet(root.val, loc);
      if !v.nix.NixList? {
        return Some(TypeMismatch(OfKind(v.nix), t, path));
      }
      if env.fails(Call(at, ListLen)) {
        return Some(ApiError(ListLen, path));
      }
      if |v.nix.items| != t.len {
        return Some(TypeMismatch(OfLength(|v.nix.items|), t, path));
      }
      err := UnmarshalElements(env, v, root, loc, t.elem, old(root.val), was.items, at, path);
    }

    /** The loop over the elements, each written in place. */
    method UnmarshalElements(env: Env, v: Value, root: Var, loc: seq<nat>, elem: GoType, ghost base: Go,
                             ghost was: seq<Go>, at: seq<nat>, path: seq<Segment>)
      returns (err: Option<Err>)
      requires Valid() && context && v in held && v.nix.NixList? && |v.nix.items| == |was| && AllOfType(elem, was)
      requires ValidLoc(base, loc) && root.val == Put(base, loc, GoArray(was))
      modifies this`held, this`lost, root
      ensures Valid() && Conserves(env)
      ensures var (vals, e) := DecodeItems(env, v.nix, elem, was, 0, at, path);
        root.val == Put(base, loc, GoArray(vals)) && err == e
      decreases v.nix, elem, 0, 2
    {
      ghost var vals := was;
      var i := 0;
      while i < |v.nix.items|
        invariant 0 <= i <= |v.nix.items| == |vals|
        invariant Valid() && Conserves(env)
        invariant AllOfType(elem, vals) && root.val == Put(base, loc, GoArray(vals))
        invariant DecodeItems(env, v.nix, elem, vals, i, at, path) == DecodeItems(env, v.nix, elem, was, 0, at, path)
      {
        ghost var g;
        err, g := UnmarshalElement(env, v, root, loc, elem, i, base, vals, at, path);
        vals := vals[i := g];
        if err.Some? {
          return err;
        }
        i := i + 1;
      }
      return None;
    }

    method UnmarshalElement(env: Env, v: Value, root: Var, loc: seq<nat>, elem: GoType, i: nat, ghost base: Go,
                            ghost vals: seq<Go>, at: seq<nat>, path: seq<Segment>)
      returns (err: Option<Err>, ghost g: Go)
      requires Valid() && context && v in held && v.nix.NixList? && i < |v.nix.items| == |vals| && AllOfType(elem, vals)
      requires ValidLoc(base, loc) && root.val == Put(base, loc, GoArray(vals))
      modifies this`held, this`lost, root
      ensures Valid() && Conserves(env)
      ensures HasType(elem, g) && root.val == Put(base, loc, GoArray(vals[i := g]))
      ensures DecodeItems(env, v.nix, elem, vals, i, at, path)
        == if err.Some? then (vals[i := g], err) else DecodeItems(env, v.nix, elem, vals[i := g], i + 1, at, path)
      decreases v.nix, elem, 0, 1
    {
      ghost var r := DecodeItem(env, v.nix, elem, i, vals[i], at, path);
      PutChild(base, loc, GoArray(vals), i, r.val);
      g := r.val;
      err := UnmarshalIndex(env, v, root, loc + [i], elem, i, at, path);
    }

    method UnmarshalIndex(env: Env, v: Value, root: Var, loc: seq<nat>, elem: GoType, i: nat, at: seq<nat>,
                          path: seq<Segment>)
      returns (err: Option<Err>)
      requires Valid() && context && v in held && v.nix.NixList? && i < |v.nix.items|
      requires ValidLoc(root.val, loc) && HasType(elem, Get(root.val, loc))
      modifies this`held, this`lost, root
      ensures Valid() && Conserves(env)
      ensures var r := DecodeItem(env, v.nix, elem, i, Get(old(root.val), loc), at, path);
        root.val == Put(old(root.val), loc, r.val) && err == r.err
      decreases v.nix, elem, 0, 0
    {
      PutGet(root.val, loc);
      if env.fails(Call(at, GetIndex(i))) {
        return Some(ApiError(GetIndex(i), path + [Index(i)]));
      }
      var child := Wrap(v.nix.items[i]);
      err := UnmarshalValue(env, child, root, loc, elem, at + [i], path + [Index(i)]);
      var closed := Close(child, env.fails(Call(at, CloseChild(i))));
      if !closed && err.None? {
        err := Some(ApiError(CloseChild(i), path + [Index(i)]));
      }
    }

    method UnmarshalString(env: Env, v: Value, root: Var, loc: seq<nat>, t: GoType, at: seq<nat>, path: seq<Segment>)
      returns (err: Option<Err>)
      requires t.TString? && ValidLoc(root.val, loc) && HasType(t, Get(root.val, loc))
      modifies root
      ensures var r := DecodeScalar(env, v.nix, t, Get(old(root.val), loc), at, path);
        root.val == Put(old(root.val), loc, r.val) && err == r.err
    {
      PutGet(root.val, loc);
      match v.nix
      case NixString(s) =>
        if env.fails(Call(at, Getter)) {
          return Some(ApiError(Getter, path));
        }
        root.val := Put(root.val, loc, GoString(s));
        return None;
      case NixPath(s) =>
        if env.fails(Call(at, Getter)) {
          return Some(ApiError(Getter, path));
        }
        root.val := Put(root.val, loc, GoString(s));
        return None;
      case _ =>
        return Some(TypeMismatch(OfKind(v.nix), t, path));
    }

    method UnmarshalBool(env: Env, v: Value, root: Var, loc: seq<nat>, t: GoType, at: seq<nat>, path: seq<Segment>)
      returns (err: Option<Err>)
      requires t.TBool? && ValidLoc(root.val, loc) && HasType(t, Get(root.val, loc))
      modifies root
      ensures var r := DecodeScalar(env, v.nix, t, Get(old(root.val), loc), at, path);
        root.val == Put(old(root.val), loc, r.val) && err == r.err
    {
      PutGet(root.val, loc);
      if !v.nix.NixBool? {
        return Some(TypeMismatch(OfKind(v.nix), t, path));
      }
      if env.fails(Call(at, Getter)) {
        return Some(ApiError(Getter, path));
      }
      root.val := Put(root.val, loc, GoBool(v.nix.b));
      return None;
    }

    method UnmarshalInt(env: Env, v: Value, root: Var, loc: seq<nat>, t: GoType, at: seq<nat>, path: seq<Segment>)
      returns (err: Option<Err>)
      requires t.TInt? && ValidLoc(root.val, loc) && HasType(t, Get(root.val, loc))
      modifies root
      ensures var r := DecodeScalar(env, v.nix, t, Get(old(root.val), loc), at, path);
        root.val == Put(old(root.val), loc, r.val) && err == r.err
    {
      PutGet(root.val, loc);
      if !v.nix.NixInt? {
        return Some(TypeMismatch(OfKind(v.nix), t, path));
      }
      if env.fails(Call(at, Getter)) {
        return Some(ApiError(Getter, path));
      }
      var got := v.nix.i;
      if OverflowInt(t.bits, got) {
        return Some(TypeMismatch(OfInteger(got), t, path));
      }
      root.val := Put(root.val, loc, GoInt(got));
      return None;
    }

    method UnmarshalUint(env: Env, v: Value, root: Var, loc: seq<nat>, t: GoType, at: seq<nat>, path: seq<Segment>)
      returns (err: Option<Err>)
      requires t.TUint? && ValidLoc(root.val, loc) && HasType(t, Get(root.val, loc))
      modifies root
      ensures var r := DecodeScalar(env, v.nix, t, Get(old(root.val), loc), at, path);
        root.val == Put(old(root.val), loc, r.val) && err == r.err
    {
      PutGet(root.val, loc);
      if !v.nix.NixInt? {
        return Some(TypeMismatch(OfKind(v.nix), t, path));
      }
      if env.fails(Call(at, Getter)) {
        return Some(ApiError(Getter, path));
      }
      var got := v.nix.i;
      if got < 0 || OverflowUint(t.bits, got) {
        return Some(TypeMismatch(OfInteger(got), t, path));
      }
      root.val := Put(root.val, loc, GoUint(got));
      return None;
    }

    method UnmarshalFloat(env: Env, v: Value, root: Var, loc: seq<nat>, t: GoType, at: seq<nat>, path: seq<Segment>)
      returns (err: Option<Err>)
      requires t.TFloat? && ValidLoc(root.val, loc) && HasType(t, Get(root.val, loc))
      modifies root
      ensures var r := DecodeScalar(env, v.nix, t, Get(old(root.val), loc), at, path);
        root.val == Put(old(root.val), loc, r.val) && err == r.err
    {
      PutGet(root.val, loc);
      if !v.nix.NixFloat? {
        return Some(TypeMismatch(OfKind(v.nix), t, path));
      }
      if env.fails(Call(at, Getter)) {
        return Some(ApiError(Getter, path));
      }
      var got := v.nix.f;
      if OverflowFloat(t.bits, got) {
        return Some(TypeMismatch(OfFloat(got), t, path));
      }
      root.val := Put(root.val, loc, StoreFloat(env, t.bits, got));
      return None;
    }

    /** `Unmarshal`: checks its arguments, then decodes into the variable the pointer leads to. */
    method Unmarshal(env: Env, v: Value?, out: Out) returns (err: Option<Failure>)
      requires Valid() && (v != null && v.ptr && v.owner == this ==> v in held)
      requires out.PointerTo? ==> HasType(out.t, out.root.val)
      modifies this`held, this`lost, if out.PointerTo? then {out.root} else {}
      ensures Valid() && Conserves(env)
      ensures !state ==> err == Some(Closed)
      ensures state && v == null ==> err == Some(InvalidTarget)
      ensures state && v != null && !old(v.ptr) ==> err == Some(Closed)
      ensures state && v != null && old(v.ptr) && v.owner != this ==> err == Some(InvalidValue)
      ensures state && v != null && old(v.ptr) && v.owner == this && !out.PointerTo? ==> err == Some(InvalidTarget)
      ensures out.PointerTo? && err.Some? && !err.value.NotDecoded? ==> out.root.val == old(out.root.val)
      ensures out.PointerTo? ==>
        HasType(out.t, out.root.val) && KeepsHidden(out.t, old(out.root.val), out.root.val)
      ensures state && v != null && old(v.ptr) && v.owner == this && out.PointerTo? && !context ==>
        err == Some(NotDecoded(Print(env.cs, ApiError(Force, [])))) && out.root.val == old(out.root.val)
      ensures state && v != null && old(v.ptr) && v.owner == this && out.PointerTo? && context ==>
        var r := Decode(env, v.nix, out.t, old(out.root.val), [], []);
        && out.root.val == r.val
        && err == (match r.err case None => None case Some(e) => Some(NotDecoded(Print(env.cs, e))))
    {
      if out.PointerTo? {
        KeepsSame(out.t, out.root.val);
      }
      if !state {
        return Some(Closed);
      }
      if v == null {
        return Some(InvalidTarget);
      }
      if !v.ptr {
        return Some(Closed);
      }
      if v.owner != this {
        return Some(InvalidValue);
      }
      match out
      case PointerTo(root, t) =>
        if !context {
          return Some(NotDecoded(Print(env.cs, ApiError(Force, []))));
        }
        HiddenFieldsKept(env, v.nix, t, root.val, [], []);
        var e := UnmarshalValue(env, v, root, [], t, [], []);
        return if e.Some? then Some(NotDecoded(Print(env.cs, e.value))) else None;
      case _ =>
        return Some(InvalidTarget);
    }
  }
}
