/** The JSON form of a flake lock graph, at the level of JSON values. */
module LockGraph {
  import opened Optional
  import opened Strings
  import opened JsonText
  import opened JsonGrammar
  import opened JsonContents

  datatype Result<T> = Ok(value: T) | Err

  newtype uint64 = n: int | 0 <= n < 0x1_0000_0000_0000_0000

  /** A direct edge to a node, or, when `follows` is not nil, a path to follow. */
  datatype Input = Input(node: string, follows: Option<seq<string>>)

  type Reference = map<string, Json>

  /** nil maps and slices are None. */
  datatype Node = Node(inputs: Option<map<string, Input>>, original: Option<Reference>, locked: Option<Reference>,
                       flake: bool, parent: Option<seq<string>>)

  datatype Info = Info(version: uint64, root: string, nodes: Option<map<string, Node>>)

  // ---- decoding ----

  /** A string slice; null elements leave the empty string. */
  function DecodeStrings(items: seq<Json>): (r: Result<seq<string>>)
    ensures r.Ok? ==> |r.value| == |items|
  {
    if items == [] then Ok([])
    else
      var rest := DecodeStrings(items[..|items| - 1]);
      match items[|items| - 1]
      case Str(s) => if rest.Ok? then Ok(rest.value + [s]) else Err
      case Null => if rest.Ok? then Ok(rest.value + [""]) else Err
      case Bool(_) => Err
      case Nat(_) => Err
      case OtherNumber(_) => Err
      case Arr(_) => Err
      case Obj(_) => Err
  }

  /** What `LockInput.UnmarshalJSON` makes of a JSON value. */
  function DecodeInput(j: Json): Result<Input> {
    match j
    case Str(s) => Ok(Input(s, None))
    case Arr(items) =>
      var follows := DecodeStrings(items);
      if follows.Ok? then Ok(Input("", Some(follows.value))) else Err
    case Null => Err
    case Bool(_) => Err
    case Nat(_) => Err
    case OtherNumber(_) => Err
    case Obj(_) => Err
  }

  function DecodeInputs(j: Json): Result<Option<map<string, Input>>> {
    if j.Null? then Ok(None)
    else if j.Obj? && forall k <- j.members.Keys :: DecodeInput(j.members[k]).Ok? then
      Ok(Some(map k | k in j.members.Keys :: DecodeInput(j.members[k]).value))
    else Err
  }

  function DecodeReference(j: Json): Result<Option<Reference>> {
    if j.Null? then Ok(None) else if j.Obj? then Ok(Some(j.members)) else Err
  }

  function DecodeParent(j: Json): Result<Option<seq<string>>> {
    if j.Null? then Ok(None)
    else if j.Arr? && DecodeStrings(j.items).Ok? then Ok(Some(DecodeStrings(j.items).value))
    else Err
  }

  /** The flake flag is true unless the document says otherwise. */
  function DecodeFlake(j: Json): Result<bool> {
    if j.Null? then Ok(true) else if j.Bool? then Ok(j.b) else Err
  }

  /** A member of an object; a missing member and null both leave the field as it is. */
  function Member(m: map<string, Json>, name: string): Json {
    if name in m then m[name] else Null
  }

  /** `LockNode.UnmarshalJSON` */
  function DecodeNode(j: Json): Result<Node> {
    if j.Null? then Ok(Node(None, None, None, true, None))
    else if !j.Obj? then Err
    else
      var inputs := DecodeInputs(Member(j.members, "inputs"));
      var original := DecodeReference(Member(j.members, "original"));
      var locked := DecodeReference(Member(j.members, "locked"));
      var flake := DecodeFlake(Member(j.members, "flake"));
      var parent := DecodeParent(Member(j.members, "parent"));
      if inputs.Ok? && original.Ok? && locked.Ok? && flake.Ok? && parent.Ok? then
        Ok(Node(inputs.value, original.value, locked.value, flake.value, parent.value))
      else Err
  }

  function DecodeNodes(j: Json): Result<Option<map<string, Node>>> {
    if j.Null? then Ok(None)
    else if j.Obj? && forall k <- j.members.Keys :: DecodeNode(j.members[k]).Ok? then
      Ok(Some(map k | k in j.members.Keys :: DecodeNode(j.members[k]).value))
    else Err
  }

  function DecodeVersion(j: Json): Result<uint64> {
    if j.Null? then Ok(0)
    else if j.Nat? && j.n < 0x1_0000_0000_0000_0000 then Ok(j.n as uint64)
    else Err
  }

  function DecodeRoot(j: Json): Result<string> {
    if j.Null? then Ok("") else if j.Str? then Ok(j.s) else Err
  }

  /** `json.Unmarshal` into a LockInfo. */
  function DecodeInfo(j: Json): Result<Info> {
    if j.Null? then Ok(Info(0, "", None))
    else if !j.Obj? then Err
    else
      var version := DecodeVersion(Member(j.members, "version"));
      var root := DecodeRoot(Member(j.members, "root"));
      var nodes := DecodeNodes(Member(j.members, "nodes"));
      if version.Ok? && root.Ok? && nodes.Ok? then Ok(Info(version.value, root.value, nodes.value)) else Err
  }

  // ---- encoding ----

  /** What `LockInput.MarshalJSON` writes, as a JSON value and as text. */
  function EncodeInput(i: Input): Json {
    if i.follows.Some? then Arr(Strs(i.follows.value)) else Str(i.node)
  }

  function EncodeText(i: Input): string {
    if i.follows.Some? then WriteArray(i.follows.value) else WriteString(i.node)
  }

  /** `LockInput.UnmarshalJSON` on text: trimmed, then read by its first character. */
  function DecodeText(data: string): Result<Input> {
    match ReadText(TrimSpace(data))
    case None => Err
    case Some(j) => DecodeInput(j)
  }

  function GetOr<T>(o: Option<T>, default: T): T {
    if o.Some? then o.value else default
  }

  /** A member, unless it is omitted. */
  function Omitempty(name: string, empty: bool, j: Json): map<string, Json> {
    if empty then map[] else map[name := j]
  }

  function EncodeInputs(m: map<string, Input>): Json {
    Obj(map k | k in m.Keys :: EncodeInput(m[k]))
  }

  function EncodeNode(n: Node): Json {
    Obj(Omitempty("inputs", n.inputs.None? || n.inputs.value == map[], EncodeInputs(GetOr(n.inputs, map[])))
        + Omitempty("original", n.original.None? || n.original.value == map[], Obj(GetOr(n.original, map[])))
        + Omitempty("locked", n.locked.None? || n.locked.value == map[], Obj(GetOr(n.locked, map[])))
        + map["flake" := Bool(n.flake)]
        + Omitempty("parent", n.parent.None? || n.parent.value == [], Arr(Strs(GetOr(n.parent, [])))))
  }

  function EncodeNodes(nodes: Option<map<string, Node>>): Json {
    match nodes
    case None => Null
    case Some(m) => Obj(Each(EncodeNode, m))
  }

  function Each(encode: Node -> Json, nodes: map<string, Node>): map<string, Json> {
    map k | k in nodes.Keys :: encode(nodes[k])
  }

  function EncodeInfo(g: Info): Json {
    Obj(map["version" := Nat(g.version as nat), "root" := Str(g.root), "nodes" := EncodeNodes(g.nodes)])
  }

  // ---- the round trip ----

  /** What is left of a graph that is written and read back: empty maps and slices become nil. A
      follows edge has no node. */
  function NormalInput(i: Input): Input {
    if i.follows.Some? then Input("", i.follows) else i
  }

  function NormalNode(n: Node): Node {
    Node(
      if n.inputs.None? || n.inputs.value == map[] then None
      else Some(map k | k in n.inputs.value.Keys :: NormalInput(n.inputs.value[k])),
      if n.original == Some(map[]) then None else n.original,
      if n.locked == Some(map[]) then None else n.locked,
      n.flake,
      if n.parent == Some([]) then None else n.parent)
  }

  function Normal(g: Info): Info {
    match g.nodes
    case None => g
    case Some(m) => g.(nodes := Some(map k | k in m.Keys :: NormalNode(m[k])))
  }

  lemma {:induction false} StringsRoundTrip(ss: seq<string>)
    ensures DecodeStrings(Strs(ss)) == Ok(ss)
  {
    if ss != [] {
      var n := |ss| - 1;
      StringsRoundTrip(ss[..n]);
      assert Strs(ss)[..n] == Strs(ss[..n]);
      assert ss == ss[..n] + [ss[n]];
    }
  }

  /** The variant of an input survives, an empty follows path included. */
  lemma InputRoundTrip(i: Input)
    ensures DecodeInput(EncodeInput(i)) == Ok(NormalInput(i))
    ensures i.follows.Some? <==> EncodeInput(i).Arr?
  {
    if i.follows.Some? {
      StringsRoundTrip(i.follows.value);
    }
  }

  /** The text written is a text of the JSON value. */
  lemma TextOfInput(i: Input)
    ensures ReadText(EncodeText(i)) == Some(EncodeInput(i))
  {
    if i.follows.Some? {
      ReadWriteArray(i.follows.value);
    } else {
      ReadWrite(i.node);
    }
  }

  /** Written, with space put around it, and read, an input keeps its variant and contents. */
  lemma TextRoundTrip(i: Input, before: string, after: string)
    requires AllSpace(before) && AllSpace(after)
    ensures DecodeText(before + EncodeText(i) + after) == Ok(NormalInput(i))
  {
    TrimPadded(before, EncodeText(i), after);
    TextOfInput(i);
    InputRoundTrip(i);
  }

  /** Once space around it is trimmed, a text is read exactly when it is a JSON string, as a direct
      edge, or a JSON array of strings and nulls, as a follows edge. In particular an empty text and
      one that begins in any other way are not. */
  lemma TextsAccepted(data: string)
    ensures DecodeText(data).Ok? <==> IsString(TrimSpace(data)) || IsArray(TrimSpace(data))
    ensures DecodeText(data).Ok? ==> (DecodeText(data).value.follows.Some? <==> IsArray(TrimSpace(data)))
    ensures TrimSpace(data) == "" || (TrimSpace(data)[0] != '"' && TrimSpace(data)[0] != '[') ==> DecodeText(data).Err?
  {
    var d := TrimSpace(data);
    if d != "" {
      ReadsExactly(d);
      if ReadText(d).Some? && d[0] == '[' {
        ArrayKinds(d);
        InputsAccepted(ReadText(d).value);
      }
    }
  }

  lemma ArrayKinds(d: string)
    requires d != "" && d[0] == '[' && UnmarshalArray(d).Some?
    ensures forall k | 0 <= k < |UnmarshalArray(d).value| ::
      UnmarshalArray(d).value[k].Str? || UnmarshalArray(d).value[k].Null?
  {
    if ReadElements(d[1..]).Some? {
      ElementKinds(d[1..]);
    }
  }

  lemma InputsRoundTrip(m: map<string, Input>)
    ensures DecodeInputs(EncodeInputs(m)) == Ok(Some(map k | k in m.Keys :: NormalInput(m[k])))
  {
    var members := EncodeInputs(m).members;
    assert members.Keys == m.Keys;
    forall k <- m.Keys ensures DecodeInput(members[k]) == Ok(NormalInput(m[k])) {
      InputRoundTrip(m[k]);
    }
    assert DecodeInputs(Obj(members)).value.value == map k | k in m.Keys :: NormalInput(m[k]);
  }

  lemma NodeRoundTrip(n: Node)
    ensures DecodeNode(EncodeNode(n)) == Ok(NormalNode(n))
  {
    InputsOfNode(n);
    ReferencesOfNode(n);
    ParentOfNode(n);
  }

  lemma InputsOfNode(n: Node)
    ensures DecodeInputs(Member(EncodeNode(n).members, "inputs")) == Ok(NormalNode(n).inputs)
  {
    if n.inputs.Some? {
      InputsRoundTrip(n.inputs.value);
    }
  }

  lemma ReferencesOfNode(n: Node)
    ensures var m := EncodeNode(n).members;
      && DecodeReference(Member(m, "original")) == Ok(NormalNode(n).original)
      && DecodeReference(Member(m, "locked")) == Ok(NormalNode(n).locked)
      && DecodeFlake(Member(m, "flake")) == Ok(n.flake)
  {}

  lemma ParentOfNode(n: Node)
    ensures DecodeParent(Member(EncodeNode(n).members, "parent")) == Ok(NormalNode(n).parent)
  {
    if n.parent.Some? {
      StringsRoundTrip(n.parent.value);
    }
  }

  lemma NodesDecoded(members: map<string, Json>, nodes: map<string, Node>)
    requires members.Keys == nodes.Keys
    requires forall k <- nodes.Keys :: DecodeNode(members[k]) == Ok(nodes[k])
    ensures DecodeNodes(Obj(members)) == Ok(Some(nodes))
  {
    assert DecodeNodes(Obj(members)).value.value == nodes;
  }

  lemma NodesRoundTrip(m: map<string, Node>)
    ensures DecodeNodes(EncodeNodes(Some(m))) == Ok(Some(map k | k in m.Keys :: NormalNode(m[k])))
  {
    var members, nodes := EncodeNodes(Some(m)).members, map k | k in m.Keys :: NormalNode(m[k]);
    forall k <- nodes.Keys ensures DecodeNode(members[k]) == Ok(nodes[k]) {
      NodeRoundTrip(m[k]);
    }
    NodesDecoded(members, nodes);
  }

  /** Reading what was written gives the graph back, up to empty collections. */
  lemma InfoRoundTrip(g: Info)
    ensures DecodeInfo(EncodeInfo(g)) == Ok(Normal(g))
  {
    var members := EncodeInfo(g).members;
    assert Member(members, "version") == Nat(g.version as nat);
    assert Member(members, "root") == Str(g.root);
    assert Member(members, "nodes") == EncodeNodes(g.nodes);
    if g.nodes.Some? {
      NodesRoundTrip(g.nodes.value);
    }
  }

  // ---- what is lost, and what is not ----

  lemma EncodeNormalNode(n: Node)
    ensures EncodeNode(NormalNode(n)) == EncodeNode(n)
  {
    if n.inputs.Some? && n.inputs.value != map[] {
      var m, l := n.inputs.value, NormalNode(n).inputs.value;
      assert l.Keys == m.Keys;
      assert EncodeInputs(l).members == EncodeInputs(m).members;
    }
  }

  /** Writing a graph that was read back writes the same document. */
  lemma EncodeNormal(g: Info)
    ensures EncodeInfo(Normal(g)) == EncodeInfo(g)
  {
    if g.nodes.Some? {
      EncodeNormalNodes(g.nodes.value, Normal(g).nodes.value);
    }
  }

  lemma EncodeNormalNodes(m: map<string, Node>, normal: map<string, Node>)
    requires normal.Keys == m.Keys && forall k <- m.Keys :: normal[k] == NormalNode(m[k])
    ensures Each(EncodeNode, normal) == Each(EncodeNode, m)
  {
    forall k <- m.Keys ensures EncodeNode(normal[k]) == EncodeNode(m[k]) {
      EncodeNormalNode(m[k]);
    }
    SameEach(EncodeNode, m, normal);
  }

  lemma SameEach(encode: Node -> Json, a: map<string, Node>, b: map<string, Node>)
    requires b.Keys == a.Keys && forall k <- a.Keys :: encode(b[k]) == encode(a[k])
    ensures Each(encode, b) == Each(encode, a)
  {}

  /** Two graphs are written alike exactly when they differ only in empty collections. */
  lemma SameDocumentIffSameNormal(g: Info, h: Info)
    ensures EncodeInfo(g) == EncodeInfo(h) <==> Normal(g) == Normal(h)
  {
    InfoRoundTrip(g);
    InfoRoundTrip(h);
    EncodeNormal(g);
    EncodeNormal(h);
  }

  /** Whatever document a graph was read from, writing and reading it again is stable. */
  lemma Reencode(j: Json, g: Info)
    requires DecodeInfo(j) == Ok(g)
    ensures DecodeInfo(EncodeInfo(g)) == Ok(Normal(g))
    ensures DecodeInfo(EncodeInfo(Normal(g))) == Ok(Normal(g)) && EncodeInfo(Normal(g)) == EncodeInfo(g)
  {
    InfoRoundTrip(g);
    EncodeNormal(g);
  }

  /** Every node of a graph that was read is a flake unless its object says false. */
  lemma FlakeDefaultsToTrue(j: Json, g: Info, k: string)
    requires DecodeInfo(j) == Ok(g) && g.nodes.Some? && k in g.nodes.value
    ensures j.Obj? && "nodes" in j.members && j.members["nodes"].Obj? && k in j.members["nodes"].members
    ensures var node := j.members["nodes"].members[k];
      g.nodes.value[k].flake <==> !(node.Obj? && Member(node.members, "flake") == Bool(false))
  {
    var nodes := Member(j.members, "nodes");
    assert DecodeNodes(nodes).Ok? && nodes.Obj?;
    assert DecodeNode(nodes.members[k]) == Ok(g.nodes.value[k]);
  }

  /** Exactly strings, and arrays of strings and nulls, are read as inputs: strings as direct edges,
      arrays, also empty ones, as follows edges. */
  lemma InputsAccepted(j: Json)
    ensures DecodeInput(j).Ok? <==>
      j.Str? || (j.Arr? && forall k | 0 <= k < |j.items| :: j.items[k].Str? || j.items[k].Null?)
    ensures DecodeInput(j).Ok? ==> (DecodeInput(j).value.follows.Some? <==> j.Arr?)
    ensures DecodeInput(j).Ok? ==> DecodeInput(j).value == NormalInput(DecodeInput(j).value)
  {
    if j.Arr? {
      StringsAccepted(j.items);
    }
  }

  lemma {:induction false} StringsAccepted(items: seq<Json>)
    ensures DecodeStrings(items).Ok? <==> forall k | 0 <= k < |items| :: items[k].Str? || items[k].Null?
  {
    if items != [] {
      var n := |items| - 1;
      StringsAccepted(items[..n]);
      assert forall k | 0 <= k < n :: items[..n][k] == items[k];
      assert items[n] == items[|items| - 1];
    }
  }

  // ---- what a document says ----

  /** A member that leaves its field as it is. */
  predicate Missing(m: map<string, Json>, name: string) {
    name !in m || m[name] == Null
  }

  /** A list of strings, where null stands for the empty one. */
  predicate StringsAre(items: seq<Json>, ss: seq<string>) {
    && |ss| == |items|
    && forall k | 0 <= k < |items| :: items[k] == Str(ss[k]) || (items[k] == Null && ss[k] == "")
  }

  /** A string is a direct edge to the node it names, an array a path to follow. */
  predicate InputIs(j: Json, i: Input) {
    || (i.follows.None? && j == Str(i.node))
    || (i.follows.Some? && i.node == "" && j.Arr? && StringsAre(j.items, i.follows.value))
  }

  predicate InputsAre(m: map<string, Json>, inputs: Option<map<string, Input>>) {
    if Missing(m, "inputs") then inputs == None
    else
      && m["inputs"].Obj? && inputs.Some? && inputs.value.Keys == m["inputs"].members.Keys
      && forall k | k in inputs.value :: InputIs(m["inputs"].members[k], inputs.value[k])
  }

  /** The raw attributes of the member called `name`. */
  predicate ReferenceIs(m: map<string, Json>, name: string, reference: Option<Reference>) {
    if Missing(m, name) then reference == None else reference.Some? && m[name] == Obj(reference.value)
  }

  predicate ParentIs(m: map<string, Json>, parent: Option<seq<string>>) {
    if Missing(m, "parent") then parent == None
    else m["parent"].Arr? && parent.Some? && StringsAre(m["parent"].items, parent.value)
  }

  /** An object with these members says that a node is `n`; members of other names say nothing. */
  predicate NodeIs(m: map<string, Json>, n: Node) {
    && InputsAre(m, n.inputs)
    && ReferenceIs(m, "original", n.original)
    && ReferenceIs(m, "locked", n.locked)
    && (if Missing(m, "flake") then n.flake else m["flake"] == Bool(n.flake))
    && ParentIs(m, n.parent)
  }

  lemma {:induction false} StringsRead(items: seq<Json>, ss: seq<string>)
    ensures DecodeStrings(items) == Ok(ss) <==> StringsAre(items, ss)
    decreases items
  {
    if items != [] {
      var n := |items| - 1;
      if |ss| == |items| {
        StringsRead(items[..n], ss[..n]);
        assert ss == ss[..n] + [ss[n]];
        assert StringsAre(items, ss) <==>
          StringsAre(items[..n], ss[..n]) && (items[n] == Str(ss[n]) || (items[n] == Null && ss[n] == ""));
      }
    }
  }

  lemma InputRead(j: Json, i: Input)
    ensures DecodeInput(j) == Ok(i) <==> InputIs(j, i)
  {
    if j.Arr? && i.follows.Some? {
      StringsRead(j.items, i.follows.value);
    }
  }

  lemma InputsRead(m: map<string, Json>, inputs: Option<map<string, Input>>)
    ensures DecodeInputs(Member(m, "inputs")) == Ok(inputs) <==> InputsAre(m, inputs)
  {
    if !Missing(m, "inputs") && m["inputs"].Obj? && inputs.Some? {
      var members := m["inputs"].members;
      forall k | k in members && k in inputs.value
        ensures DecodeInput(members[k]) == Ok(inputs.value[k]) <==> InputIs(members[k], inputs.value[k])
      {
        InputRead(members[k], inputs.value[k]);
      }
      EachRead(members, inputs.value);
    }
  }

  lemma EachRead(members: map<string, Json>, inputs: map<string, Input>)
    ensures DecodeInputs(Obj(members)) == Ok(Some(inputs)) <==>
      members.Keys == inputs.Keys && forall k | k in inputs :: DecodeInput(members[k]) == Ok(inputs[k])
  {
    if members.Keys == inputs.Keys && forall k | k in inputs :: DecodeInput(members[k]) == Ok(inputs[k]) {
      assert inputs == map k | k in members.Keys :: DecodeInput(members[k]).value;
    }
  }

  lemma ParentRead(m: map<string, Json>, parent: Option<seq<string>>)
    ensures DecodeParent(Member(m, "parent")) == Ok(parent) <==> ParentIs(m, parent)
  {
    if !Missing(m, "parent") && m["parent"].Arr? && parent.Some? {
      StringsRead(m["parent"].items, parent.value);
    }
  }

  /** Every document: an object is read as the node it says, and null as a node with nothing but the
      default flag; nothing else is read. */
  lemma NodeRead(j: Json, n: Node)
    ensures DecodeNode(j) == Ok(n) <==>
      (j.Obj? && NodeIs(j.members, n)) || (j.Null? && n == Node(None, None, None, true, None))
  {
    if j.Obj? {
      InputsRead(j.members, n.inputs);
      ParentRead(j.members, n.parent);
      ReferencesRead(j.members, n);
    }
  }

  lemma ReferencesRead(m: map<string, Json>, n: Node)
    ensures DecodeReference(Member(m, "original")) == Ok(n.original) <==> ReferenceIs(m, "original", n.original)
    ensures DecodeReference(Member(m, "locked")) == Ok(n.locked) <==> ReferenceIs(m, "locked", n.locked)
    ensures DecodeFlake(Member(m, "flake")) == Ok(n.flake) <==>
      if Missing(m, "flake") then n.flake else m["flake"] == Bool(n.flake)
  {}

  /** The text, once trimmed, stands for a JSON value that says that an input is `i`. */
  ghost predicate TextIs(data: string, i: Input) {
    exists j :: TextMeans(TrimSpace(data), j) && InputIs(j, i)
  }

  /** Every text is read as the input it says, or not at all. */
  lemma InputTextRead(data: string, i: Input)
    ensures DecodeText(data) == Ok(i) <==> TextIs(data, i)
  {
    var d := TrimSpace(data);
    if DecodeText(data) == Ok(i) {
      var j := ReadText(d).value;
      ReadsContents(d, j);
      InputRead(j, i);
    }
    if TextIs(data, i) {
      var j :| TextMeans(d, j) && InputIs(j, i);
      TextReads(d, j);
      InputRead(j, i);
    }
  }

  /** Strings, and arrays of strings and nulls. */
  predicate AcceptsInput(j: Json) {
    j.Str? || (j.Arr? && forall k | 0 <= k < |j.items| :: j.items[k].Str? || j.items[k].Null?)
  }

  /** The objects that are read as nodes. */
  predicate AcceptsNode(m: map<string, Json>) {
    && (Missing(m, "inputs") ||
          (m["inputs"].Obj? && forall k | k in m["inputs"].members :: AcceptsInput(m["inputs"].members[k])))
    && (Missing(m, "original") || m["original"].Obj?)
    && (Missing(m, "locked") || m["locked"].Obj?)
    && (Missing(m, "flake") || m["flake"].Bool?)
    && (Missing(m, "parent") || (m["parent"].Arr? && AcceptsInput(m["parent"])))
  }

  lemma NodesAccepted(j: Json)
    ensures DecodeNode(j).Ok? <==> j.Null? || (j.Obj? && AcceptsNode(j.members))
  {
    if j.Obj? {
      var m := j.members;
      if !Missing(m, "inputs") && m["inputs"].Obj? {
        forall k | k in m["inputs"].members
          ensures DecodeInput(m["inputs"].members[k]).Ok? <==> AcceptsInput(m["inputs"].members[k])
        {
          InputsAccepted(m["inputs"].members[k]);
        }
      }
      if !Missing(m, "parent") && m["parent"].Arr? {
        StringsAccepted(m["parent"].items);
      }
    }
  }

  /** Members of other names do not matter, nor does null in place of a missing one. */
  lemma OtherMembersIgnored(m: map<string, Json>, n: map<string, Json>)
    requires forall name | name in ["inputs", "original", "locked", "flake", "parent"] ::
      (Missing(m, name) && Missing(n, name)) || (name in m && name in n && m[name] == n[name])
    ensures DecodeNode(Obj(m)) == DecodeNode(Obj(n))
  {
    var names := ["inputs", "original", "locked", "flake", "parent"];
    assert names[0] in names && names[1] in names && names[2] in names && names[3] in names && names[4] in names;
  }

  /** An object with these members says that a graph is `g`. */
  ghost predicate InfoIs(m: map<string, Json>, g: Info) {
    && (if Missing(m, "version") then g.version == 0 else m["version"] == Nat(g.version as nat))
    && (if Missing(m, "root") then g.root == "" else m["root"] == Str(g.root))
    && (if Missing(m, "nodes") then g.nodes == None
        else
          && m["nodes"].Obj? && g.nodes.Some? && g.nodes.value.Keys == m["nodes"].members.Keys
          && forall k | k in g.nodes.value :: NodeMeant(m["nodes"].members[k], g.nodes.value[k]))
  }

  ghost predicate NodeMeant(j: Json, n: Node) {
    (j.Obj? && NodeIs(j.members, n)) || (j.Null? && n == Node(None, None, None, true, None))
  }

  /** Every document is read as the graph it says, or not at all. */
  lemma InfoRead(j: Json, g: Info)
    ensures DecodeInfo(j) == Ok(g) <==> (j.Obj? && InfoIs(j.members, g)) || (j.Null? && g == Info(0, "", None))
  {
    if j.Obj? && !Missing(j.members, "nodes") && j.members["nodes"].Obj? && g.nodes.Some? {
      var members := j.members["nodes"].members;
      forall k | k in members && k in g.nodes.value
        ensures DecodeNode(members[k]) == Ok(g.nodes.value[k]) <==> NodeMeant(members[k], g.nodes.value[k])
      {
        NodeRead(members[k], g.nodes.value[k]);
      }
      EachNodeRead(members, g.nodes.value);
    }
  }

  lemma EachNodeRead(members: map<string, Json>, nodes: map<string, Node>)
    ensures DecodeNodes(Obj(members)) == Ok(Some(nodes)) <==>
      members.Keys == nodes.Keys && forall k | k in nodes :: DecodeNode(members[k]) == Ok(nodes[k])
  {
    if members.Keys == nodes.Keys && forall k | k in nodes :: DecodeNode(members[k]) == Ok(nodes[k]) {
      assert nodes == map k | k in members.Keys :: DecodeNode(members[k]).value;
    }
  }

  // ---- the receivers ----

  /** A LockInput variable: its slice is shared with nobody. */
  class LockInput {
    var node: string
    var follows: array?<string>

    constructor ()
      ensures Value() == Input("", None)
    {
      node, follows := "", null;
    }

    function Value(): Input
      reads this, follows
    {
      Input(node, if follows == null then None else Some(follows[..]))
    }

    method GetNode() returns (target: string, ok: bool)
      ensures ok <==> Value().follows.None?
      ensures target == if ok then Value().node else ""
    {
      if follows != null {
        return "", false;
      }
      return node, true;
    }

    /** A path of the caller's own, empty but not nil for an empty follows edge. */
    method GetFollows() returns (path: array?<string>, ok: bool)
      ensures ok <==> Value().follows.Some?
      ensures if ok then path != null && fresh(path) && Some(path[..]) == Value().follows else path == null
    {
      if follows == null {
        return null, false;
      }
      path := Copied(follows[..]);
      return path, true;
    }

    method MarshalJSON() returns (data: string)
      ensures data == EncodeText(Value())
    {
      if follows != null {
        return WriteArray(follows[..]);
      }
      return WriteString(node);
    }

    /** On an error the receiver is as it was. */
    method UnmarshalJSON(data: string) returns (ok: bool)
      modifies this
      ensures ok == DecodeText(data).Ok?
      ensures Value() == if ok then DecodeText(data).value else old(Value())
      ensures if ok then TextIs(data, Value()) else forall i :: !TextIs(data, i)
      ensures ok && follows != null ==> fresh(follows)
    {
      forall i ensures DecodeText(data) == Ok(i) <==> TextIs(data, i) {
        InputTextRead(data, i);
      }
      var d := TrimSpace(data);
      if d == "" {
        return false;
      }
      match d[0] {
        case '"' =>
          var text := UnmarshalString(d);
          if text.None? {
            return false;
          }
          node, follows := text.value, null;
          return true;
        case '[' =>
          var items := UnmarshalArray(d);
          if items.None? {
            return false;
          }
          ArrayKinds(d);
          StringsAccepted(items.value);
          var path := DecodeStrings(items.value);
          var copy := Copied(path.value);
          node, follows := "", copy;
          return true;
        case _ =>
          return false;
      }
    }
  }

  method Copied(path: seq<string>) returns (copy: array<string>)
    ensures fresh(copy) && copy[..] == path
  {
    copy := new string[|path|](_ => "");
    var i := 0;
    while i < |path|
      invariant 0 <= i <= |path| && copy[..i] == path[..i]
    {
      copy[i] := path[i];
      i := i + 1;
    }
  }

  /** Written, with space put around it, and read into another variable, an input keeps its variant
      and what GetNode and GetFollows say. */
  method ThroughJSON(i: LockInput, j: LockInput, before: string, after: string)
    requires i != j && AllSpace(before) && AllSpace(after)
    modifies j
    ensures j.Value() == NormalInput(i.Value())
  {
    var data := i.MarshalJSON();
    TextRoundTrip(i.Value(), before, after);
    var ok := j.UnmarshalJSON(before + data + after);
  }

  /** A LockNode variable. */
  class LockNode {
    var node: Node

    constructor (node: Node)
      ensures this.node == node
    {
      this.node := node;
    }

    /** Decodes into a node that is a flake from the start, then takes the flag from the document
        where it is given. On an error the receiver is as it was. */
    method UnmarshalJSON(data: Json) returns (ok: bool)
      modifies this
      ensures ok == DecodeNode(data).Ok?
      ensures ok <==> data.Null? || (data.Obj? && AcceptsNode(data.members))
      ensures if ok then NodeMeant(data, node) else node == old(node)
      ensures node == if ok then DecodeNode(data).value else old(node)
    {
      NodesAccepted(data);
      if DecodeNode(data).Ok? {
        NodeRead(data, DecodeNode(data).value);
      }
      var decoded := Node(None, None, None, true, None);
      var flake: Option<bool> := None;
      if data.Obj? {
        var inputs := DecodeInputs(Member(data.members, "inputs"));
        var original := DecodeReference(Member(data.members, "original"));
        var locked := DecodeReference(Member(data.members, "locked"));
        var flag := Member(data.members, "flake");
        var parent := DecodeParent(Member(data.members, "parent"));
        if inputs.Err? || original.Err? || locked.Err? || parent.Err? || !(flag.Null? || flag.Bool?) {
          return false;
        }
        decoded := Node(inputs.value, original.value, locked.value, true, parent.value);
        flake := if flag.Bool? then Some(flag.b) else None;
      } else if !data.Null? {
        return false;
      }
      if flake.Some? {
        decoded := decoded.(flake := flake.value);
      }
      node := decoded;
      return true;
    }
  }
}
