/** The definition builder: `def` validates a definition and builds its node,
    recursively for its children, and `add` attaches one more child to a node. */
module Definition {
  import opened Types
  import opened Text

  /** The method a definition asks for; `GET` when it names none. */
  function VerbOf(spec: Spec): string {
    if spec.verb.Some? then spec.verb.value else "GET"
  }

  /** The key is present and not empty (the source tests it for truthiness). */
  predicate HasKey(p: RawParam) {
    p.key.Some? && p.key.value != ""
  }

  /** An omitted or empty location passes the check; any other must be a known one. */
  predicate LocationOk(p: RawParam) {
    p.location.None? || p.location.value == "" || p.location.value in Locations
  }

  /** One explicit parameter spec: the key check, then the location check, then
      the defaults for whatever the entry omits. */
  function Normalize(p: RawParam): (r: Result<ParamSpec>)
    ensures r.Ok? <==> HasKey(p) && LocationOk(p)
    ensures r.Ok? ==> r.value.key == p.key.value
  {
    if !HasKey(p) then Err(MissingKey(p))
    else if !LocationOk(p) then Err(InvalidLocation(p.location.value))
    else Ok(ParamSpec(
      p.key.value,
      if p.location.Some? then p.location.value else "query",
      if p.required.Some? then p.required.value else false))
  }

  /** `schema.map(...)`: every entry normalised in order, stopping at the first that throws. */
  function NormalizeSchema(raws: seq<RawParam>): Result<seq<ParamSpec>>
    decreases |raws|
  {
    if |raws| == 0 then Ok([])
    else
      var head :- Normalize(raws[0]);
      var tail :- NormalizeSchema(raws[1..]);
      Ok([head] + tail)
  }

  /** The normalised schema has one entry per explicit entry, each normalised on
      its own; on failure the error is that of the first entry that fails. */
  lemma {:induction false} NormalizeSchemaSpec(raws: seq<RawParam>)
    ensures NormalizeSchema(raws).Ok? <==> forall i :: 0 <= i < |raws| ==> Normalize(raws[i]).Ok?
    ensures NormalizeSchema(raws).Ok? ==>
              |NormalizeSchema(raws).value| == |raws|
              && forall i :: 0 <= i < |raws| ==> Normalize(raws[i]) == Ok(NormalizeSchema(raws).value[i])
    ensures NormalizeSchema(raws).Err? ==>
              exists i :: 0 <= i < |raws| && Normalize(raws[i]) == Err(NormalizeSchema(raws).error)
                          && forall j :: 0 <= j < i ==> Normalize(raws[j]).Ok?
    decreases |raws|
  {
    if |raws| > 0 {
      NormalizeSchemaSpec(raws[1..]);
      if Normalize(raws[0]).Ok? && NormalizeSchema(raws[1..]).Err? {
        var i :| 0 <= i < |raws| - 1 && Normalize(raws[1..][i]) == Err(NormalizeSchema(raws[1..]).error)
                 && forall j :: 0 <= j < i ==> Normalize(raws[1..][j]).Ok?;
        assert Normalize(raws[i + 1]) == Err(NormalizeSchema(raws).error);
        assert forall j :: 0 <= j < i + 1 ==> Normalize(raws[j]).Ok? by {
          forall j | 0 <= j < i + 1 ensures Normalize(raws[j]).Ok? {
            if j > 0 { assert raws[j] == raws[1..][j - 1]; }
          }
        }
      }
      if NormalizeSchema(raws).Ok? {
        forall i | 0 <= i < |raws| ensures Normalize(raws[i]) == Ok(NormalizeSchema(raws).value[i]) {
          if i > 0 { assert raws[i] == raws[1..][i - 1]; }
        }
      }
      if forall i :: 0 <= i < |raws| ==> Normalize(raws[i]).Ok? {
        assert forall i :: 0 <= i < |raws| - 1 ==> raws[1..][i] == raws[i + 1];
      }
    }
  }

  /** The schema entries for the placeholders found in a path: required, in the path. */
  function PathSpecs(names: seq<string>): seq<ParamSpec> {
    seq(|names|, i requires 0 <= i < |names| => ParamSpec(names[i], "path", true))
  }

  /** What the path adds to a schema; an absent or empty path adds nothing. */
  function PathSchema(path: Option<string>): seq<ParamSpec> {
    if path.Some? && path.value != "" then PathSpecs(Placeholders(path.value)) else []
  }

  /** The node `def` builds from a definition (the reference definition the
      method Def is proved against). */
  function Build(spec: Spec): Result<Node>
    decreases spec, |spec.resources| + 1
  {
    var verb := VerbOf(spec);
    if verb !in Verbs then Err(InvalidMethod(verb))
    else
      var explicit :- NormalizeSchema(spec.schema);
      BuildChildren(spec, Node(Upper(verb), spec.path, spec.headers, spec.params, explicit + PathSchema(spec.path), map[]), 0)
  }

  /** Attaching the children of `spec` from the `k`-th on, in order. */
  function BuildChildren(spec: Spec, node: Node, k: nat): Result<Node>
    requires k <= |spec.resources|
    decreases spec, |spec.resources| - k
  {
    if k == |spec.resources| then Ok(node)
    else
      var next :- Attach(node, spec.resources[k].0, spec.resources[k].1);
      BuildChildren(spec, next, k + 1)
  }

  /** `add` as a value: the root with the new child under `id`. */
  function Attach(root: Node, id: string, child: Spec): Result<Node>
    decreases child, |child.resources| + 2
  {
    if id in root.resources then Err(DuplicateResource(id))
    else
      var c :- Build(child);
      Ok(root.(resources := root.resources[id := c]))
  }

  /** `def`: build the record, check the method, normalise the explicit
      schema, append the path placeholders, then add each child in turn. */
  method Def(spec: Spec) returns (r: Result<Node>)
    ensures r == Build(spec)
    decreases spec, 1
  {
    var verb := VerbOf(spec);
    var def := Node(Upper(verb), spec.path, spec.headers, spec.params, [], map[]);
    if verb !in Verbs {
      return Err(InvalidMethod(verb));
    }
    var explicit :- NormalizeSchema(spec.schema);
    def := def.(schema := explicit);
    if spec.path.Some? && spec.path.value != "" {
      var pathParams := Placeholders(spec.path.value);
      if |pathParams| > 0 {
        def := def.(schema := def.schema + PathSpecs(pathParams));
      }
    }
    assert def.schema == explicit + PathSchema(spec.path);
    var k := 0;
    while k < |spec.resources|
      invariant k <= |spec.resources|
      invariant BuildChildren(spec, def, k) == Build(spec)
    {
      def :- Add(def, spec.resources[k].0, spec.resources[k].1);
      k := k + 1;
    }
    return Ok(def);
  }

  /** `add`: refuse an id already in use, otherwise build the child and install
      it; nothing else of the root changes. */
  method Add(root: Node, id: string, spec: Spec) returns (r: Result<Node>)
    ensures r == Attach(root, id, spec)
    ensures id in root.resources ==> r == Err(DuplicateResource(id))
    ensures id !in root.resources ==> (r.Ok? <==> Build(spec).Ok?)
    ensures r.Ok? ==> r.value.resources.Keys == root.resources.Keys + {id}
    ensures r.Ok? ==> Ok(r.value.resources[id]) == Build(spec)
    ensures r.Ok? ==> forall k :: k in root.resources ==> r.value.resources[k] == root.resources[k]
    ensures r.Ok? ==> r.value.(resources := root.resources) == root
    decreases spec, 2
  {
    if id in root.resources {
      return Err(DuplicateResource(id));
    }
    var child :- Def(spec);
    return Ok(root.(resources := root.resources[id := child]));
  }

  // ---------------------------------------------------------------- lemmas

  /** The ids of the children of `spec` from the `k`-th on. */
  function IdsFrom(spec: Spec, k: nat): set<string>
    requires k <= |spec.resources|
  {
    set j | k <= j < |spec.resources| :: spec.resources[j].0
  }

  predicate DistinctFrom(spec: Spec, k: nat) {
    forall i, j :: k <= i < j < |spec.resources| ==> spec.resources[i].0 != spec.resources[j].0
  }

  /** Attaching children changes only the children: each id gets the node built
      from its definition, and what was there before stays. */
  lemma {:induction false} BuildChildrenShape(spec: Spec, node: Node, k: nat, n: Node)
    requires k <= |spec.resources|
    requires BuildChildren(spec, node, k) == Ok(n)
    ensures n.(resources := node.resources) == node
    ensures forall key :: key in node.resources ==> key in n.resources && n.resources[key] == node.resources[key]
    ensures forall j :: k <= j < |spec.resources| ==>
              spec.resources[j].0 in n.resources && Build(spec.resources[j].1) == Ok(n.resources[spec.resources[j].0])
    ensures forall key :: key in n.resources ==> key in node.resources || key in IdsFrom(spec, k)
    decreases |spec.resources| - k
  {
    if k < |spec.resources| {
      var id, child := spec.resources[k].0, spec.resources[k].1;
      var c := Build(child).value;
      var next := node.(resources := node.resources[id := c]);
      assert Attach(node, id, child) == Ok(next);
      BuildChildrenShape(spec, next, k + 1, n);
      assert IdsFrom(spec, k) == {id} + IdsFrom(spec, k + 1);
    }
  }

  /** Attaching children succeeds exactly when their ids are new and distinct
      and every child definition builds. */
  lemma {:induction false} BuildChildrenOk(spec: Spec, node: Node, k: nat)
    requires k <= |spec.resources|
    ensures BuildChildren(spec, node, k).Ok? <==>
      && DistinctFrom(spec, k)
      && IdsFrom(spec, k) !! node.resources.Keys
      && ChildrenBuild(spec, k)
    decreases |spec.resources| - k
  {
    if k < |spec.resources| {
      var id, child := spec.resources[k].0, spec.resources[k].1;
      IdsStep(spec, k);
      BuildsStep(spec, k);
      var attached := Attach(node, id, child);
      if attached.Ok? {
        var next := attached.value;
        assert next.resources.Keys == node.resources.Keys + {id};
        BuildChildrenOk(spec, next, k + 1);
      }
    }
  }

  /** Every child definition from the `k`-th on builds. */
  predicate ChildrenBuild(spec: Spec, k: nat) {
    forall j :: k <= j < |spec.resources| ==> Build(spec.resources[j].1).Ok?
  }

  lemma BuildsStep(spec: Spec, k: nat)
    requires k < |spec.resources|
    ensures ChildrenBuild(spec, k) <==> Build(spec.resources[k].1).Ok? && ChildrenBuild(spec, k + 1)
  {
  }

  /** The ids from the `k`-th on are the `k`-th and those after it, and they are
      distinct exactly when the later ones are and the `k`-th is not among them. */
  lemma IdsStep(spec: Spec, k: nat)
    requires k < |spec.resources|
    ensures IdsFrom(spec, k) == {spec.resources[k].0} + IdsFrom(spec, k + 1)
    ensures DistinctFrom(spec, k) <==> DistinctFrom(spec, k + 1) && spec.resources[k].0 !in IdsFrom(spec, k + 1)
  {
    var id := spec.resources[k].0;
    if DistinctFrom(spec, k + 1) && id in IdsFrom(spec, k + 1) {
      var j :| k + 1 <= j < |spec.resources| && spec.resources[j].0 == id;
      assert spec.resources[k].0 == spec.resources[j].0;
    }
  }

  /** A definition is valid when its method and schema entries pass the checks,
      its child ids are distinct and every child is valid. */
  ghost predicate Valid(spec: Spec)
    decreases spec
  {
    && VerbOf(spec) in Verbs
    && (forall i :: 0 <= i < |spec.schema| ==> Normalize(spec.schema[i]).Ok?)
    && DistinctFrom(spec, 0)
    && forall j :: 0 <= j < |spec.resources| ==> Valid(spec.resources[j].1)
  }

  /** `def` succeeds exactly on valid definitions. */
  lemma {:induction false} BuildOkIff(spec: Spec)
    ensures Build(spec).Ok? <==> Valid(spec)
    decreases spec
  {
    forall j | 0 <= j < |spec.resources|
      ensures Build(spec.resources[j].1).Ok? <==> Valid(spec.resources[j].1)
    {
      BuildOkIff(spec.resources[j].1);
    }
    NormalizeSchemaSpec(spec.schema);
    var verb := VerbOf(spec);
    if verb in Verbs && NormalizeSchema(spec.schema).Ok? {
      var explicit := NormalizeSchema(spec.schema).value;
      var node := Node(Upper(verb), spec.path, spec.headers, spec.params, explicit + PathSchema(spec.path), map[]);
      BuildChildrenOk(spec, node, 0);
    }
  }

  /** Upper-casing leaves each of the five verbs as it is. */
  lemma VerbsAreUpper()
    ensures forall v :: v in Verbs ==> Upper(v) == v
  {
    forall v | v in Verbs ensures Upper(v) == v {
      assert forall i :: 0 <= i < |v| ==> !IsLower(v[i]);
      UpperOfUpper(v);
    }
  }

  /** The method check comes first and looks at the method as given: a method
      outside the five verbs fails, and on success the node keeps it unchanged. */
  lemma BuildVerb(spec: Spec)
    ensures VerbOf(spec) !in Verbs ==> Build(spec) == Err(InvalidMethod(VerbOf(spec)))
    ensures Build(spec).Ok? ==> VerbOf(spec) in Verbs && Build(spec).value.verb == VerbOf(spec)
  {
    var verb := VerbOf(spec);
    if Build(spec).Ok? {
      var explicit := NormalizeSchema(spec.schema).value;
      var node := Node(Upper(verb), spec.path, spec.headers, spec.params, explicit + PathSchema(spec.path), map[]);
      BuildChildrenShape(spec, node, 0, Build(spec).value);
      VerbsAreUpper();
    }
  }

  /** The schema of a built node: the normalised explicit entries, then one
      required path entry per placeholder of the path; a bad explicit entry is
      the error when the method passes. */
  lemma BuildSchema(spec: Spec)
    ensures VerbOf(spec) in Verbs && NormalizeSchema(spec.schema).Err? ==> Build(spec) == Err(NormalizeSchema(spec.schema).error)
    ensures Build(spec).Ok? ==> NormalizeSchema(spec.schema).Ok?
    ensures Build(spec).Ok? ==> Build(spec).value.schema == NormalizeSchema(spec.schema).value + PathSchema(spec.path)
  {
    if Build(spec).Ok? {
      var explicit := NormalizeSchema(spec.schema).value;
      var node := Node(Upper(VerbOf(spec)), spec.path, spec.headers, spec.params, explicit + PathSchema(spec.path), map[]);
      BuildChildrenShape(spec, node, 0, Build(spec).value);
    }
  }

  /** The other fields of a built node are those of its definition, and its
      children are exactly the built child definitions, one per id. */
  lemma BuildFields(spec: Spec)
    requires Build(spec).Ok?
    ensures var n := Build(spec).value;
      && n.path == spec.path && n.headers == spec.headers && n.params == spec.params
      && n.resources.Keys == IdsFrom(spec, 0)
      && forall j :: 0 <= j < |spec.resources| ==> Build(spec.resources[j].1) == Ok(n.resources[spec.resources[j].0])
  {
    var explicit := NormalizeSchema(spec.schema).value;
    var node := Node(Upper(VerbOf(spec)), spec.path, spec.headers, spec.params, explicit + PathSchema(spec.path), map[]);
    BuildChildrenShape(spec, node, 0, Build(spec).value);
  }

  /** The defaults of an explicit entry are filled only where it omits them. */
  lemma NormalizeDefaults(p: RawParam)
    requires Normalize(p).Ok?
    ensures Normalize(p).value.location == (if p.location.Some? then p.location.value else "query")
    ensures Normalize(p).value.required == (if p.required.Some? then p.required.value else false)
  {
  }

  /** The key check precedes the location check. */
  lemma NormalizeErrors(p: RawParam)
    ensures !HasKey(p) ==> Normalize(p) == Err(MissingKey(p))
    ensures HasKey(p) && !LocationOk(p) ==> Normalize(p) == Err(InvalidLocation(p.location.value))
  {
  }

  /** The path part of the schema has one required path entry per colon
      followed by an alphanumeric, in the order of the path. */
  lemma PathSchemaEntries(p: string)
    requires p != ""
    ensures |PathSchema(Some(p))| == |TokensFrom(p, 0)|
    ensures forall i :: 0 <= i < |TokensFrom(p, 0)| ==> PathSchema(Some(p))[i] == ParamSpec(TokensFrom(p, 0)[i], "path", true)
  {
    ScanIsTokens(p, 0);
  }
}
