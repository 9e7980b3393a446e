/** The behaviours the repository's own tests describe, checked on the
    definitions they use. */
module Scenarios {
  import opened Types
  import opened Text
  import opened Definition
  import opened Merging
  import opened Resolution
  import opened Invocation

  /** The node `def({})` builds: method GET, no path, nothing else. */
  const DefaultNode: Node := Node("GET", None, map[], map[], [], map[])

  /** `def({})` fills the defaults. */
  lemma DefFillsDefaults()
    ensures Build(EmptySpec) == Ok(DefaultNode)
  {
    assert VerbOf(EmptySpec) == "GET" && "GET" in Verbs;
    VerbsAreUpper();
    assert Upper("GET") == "GET";
    assert NormalizeSchema([]) == Ok([]);
    assert [] + PathSchema(None) == [];
    assert BuildChildren(EmptySpec, DefaultNode, 0) == Ok(DefaultNode);
  }

  /** An unknown method is rejected, and so is a known one in lower case. */
  lemma DefRejectsMethods()
    ensures Build(EmptySpec.(verb := Some("INVALID"))) == Err(InvalidMethod("INVALID"))
    ensures Build(EmptySpec.(verb := Some("get"))) == Err(InvalidMethod("get"))
  {
  }

  /** A placeholder in the path becomes a required path entry. */
  lemma DefPathParameter()
    ensures Build(EmptySpec.(path := Some("/:username"))).Ok?
    ensures Build(EmptySpec.(path := Some("/:username"))).value.schema == [ParamSpec("username", "path", true)]
  {
    var p := "/:username";
    assert Placeholders(p) == ["username"] by {
      assert !StartsToken(p, 0) && StartsToken(p, 1);
      assert RunEnd(p, 2) == |p|;
      assert TokenAt(p, 1) == "username";
    }
    assert Upper("GET") == "GET";
  }

  /** Two child definitions give two default children. */
  lemma DefChildren()
    ensures Build(EmptySpec.(resources := [("users", EmptySpec), ("products", EmptySpec)]))
         == Ok(DefaultNode.(resources := map["users" := DefaultNode, "products" := DefaultNode]))
  {
    var spec := EmptySpec.(resources := [("users", EmptySpec), ("products", EmptySpec)]);
    DefFillsDefaults();
    VerbsAreUpper();
    var one := DefaultNode.(resources := map["users" := DefaultNode]);
    var two := DefaultNode.(resources := map["users" := DefaultNode, "products" := DefaultNode]);
    assert NormalizeSchema([]) == Ok([]);
    assert Attach(one, "products", EmptySpec) == Ok(two);
    assert BuildChildren(spec, two, 2) == Ok(two);
    assert BuildChildren(spec, one, 1) == Ok(two);
    assert Attach(DefaultNode, "users", EmptySpec) == Ok(one);
    assert BuildChildren(spec, DefaultNode, 0) == Ok(two);
  }

  /** A schema entry without a key, and one with an unknown location, are rejected. */
  lemma DefRejectsSchemas()
    ensures Build(EmptySpec.(schema := [RawParam(None, None, None)])) == Err(MissingKey(RawParam(None, None, None)))
    ensures Build(EmptySpec.(schema := [RawParam(Some("test"), Some("invalid"), None)])) == Err(InvalidLocation("invalid"))
  {
  }

  /** `add` on a fresh id installs a default child; on a used id it fails. */
  lemma AddChild()
    ensures Attach(DefaultNode, "users", EmptySpec) == Ok(DefaultNode.(resources := map["users" := DefaultNode]))
    ensures Attach(DefaultNode.(resources := map["users" := DefaultNode]), "users", EmptySpec) == Err(DuplicateResource("users"))
  {
    DefFillsDefaults();
  }

  // ---------------------------------------------------------------- merge

  /** A default node with a path and a schema. */
  function At(path: string, schema: seq<ParamSpec>, resources: map<string, Node>): Node {
    Node("GET", Some(path), map[], map[], schema, resources)
  }

  /** Merging `/api` (one query parameter), `/users` and `/:username` (one
      child `repos`) joins the paths and the schemas and keeps the last
      node's children. */
  lemma MergeChain()
    ensures var chain := [At("/api", [ParamSpec("def_0_test_param", "query", false)], map[]),
                          At("/users", [], map[]),
                          At("/:username", [ParamSpec("username", "path", true)], map["repos" := At("/repos", [], map[])])];
            var merged := Merge(chain);
            && merged.path == Some("/api/users/:username")
            && merged.schema == [ParamSpec("def_0_test_param", "query", false), ParamSpec("username", "path", true)]
            && "repos" in merged.resources && merged.resources["repos"].path == Some("/repos")
  {
    var x := At("/api", [ParamSpec("def_0_test_param", "query", false)], map[]);
    var y := At("/users", [], map[]);
    var z := At("/:username", [ParamSpec("username", "path", true)], map["repos" := At("/repos", [], map[])]);
    MergeTwo(x, y);
    MergeSnoc([x, y], z);
    assert [x, y] + [z] == [x, y, z];
    assert "/api" + "/users" + "/:username" == "/api/users/:username";
  }

  // ---------------------------------------------------------------- with

  /** The tree `/this` > `is` (param test_param) > `a` > `test` of the tests. */
  function ThisIsATest(): Node {
    var test := At("/test", [], map[]);
    var a := At("/a", [], map["test" := test]);
    var isNode := Node("GET", Some("/is"), map[], map["test_param" := "test_param"], [], map["a" := a]);
    At("/this", [], map["is" := isNode])
  }

  /** Splitting a dotted path of three segments. */
  lemma SplitThree(x: string, y: string, z: string)
    requires '.' !in x && '.' !in y && '.' !in z
    ensures Split(x + "." + y + "." + z) == [x, y, z]
  {
    var parts := [x, y, z];
    assert parts[1..] == [y, z] && parts[1..][1..] == [z];
    assert Join([y, z]) == y + "." + z by {
      assert [y, z][1..] == [z];
    }
    assert x + "." + (y + "." + z) == x + "." + y + "." + z;
    SplitJoin(parts);
  }

  lemma SplitIsATest()
    ensures Split("is.a.test") == ["is", "a", "test"]
    ensures Split("is.a.crap") == ["is", "a", "crap"]
  {
    SplitThree("is", "a", "test");
    assert "is" + "." + "a" + "." + "test" == "is.a.test";
    SplitThree("is", "a", "crap");
    assert "is" + "." + "a" + "." + "crap" == "is.a.crap";
  }

  /** The segments `is.a.test` lead through the three children. */
  lemma WalkIsATest()
    ensures var root := ThisIsATest();
            var isNode := root.resources["is"];
            var a := isNode.resources["a"];
            Walk(root, ["is", "a", "test"]) == Ok([isNode, a, a.resources["test"]])
  {
    var root := ThisIsATest();
    var isNode := root.resources["is"];
    var a := isNode.resources["a"];
    var test := a.resources["test"];
    assert Walk(test, []) == Ok([]);
    assert ["test"][1..] == [] && [test] + [] == [test];
    assert Walk(a, ["test"]) == Ok([test]);
    assert ["a", "test"][1..] == ["test"] && [a] + [test] == [a, test];
    assert Walk(isNode, ["a", "test"]) == Ok([a, test]);
    assert ["is", "a", "test"][1..] == ["a", "test"] && [isNode] + [a, test] == [isNode, a, test];
  }

  /** The merge of the chain `/this`, `/is`, `/a`, `/test`. */
  lemma MergeIsATest()
    ensures var root := ThisIsATest();
            var isNode := root.resources["is"];
            var a := isNode.resources["a"];
            Merge([root, isNode, a, a.resources["test"]])
              == Node("GET", Some("/this/is/a/test"), map[], map["test_param" := "test_param"], [], map[])
  {
    var root := ThisIsATest();
    var isNode := root.resources["is"];
    var a := isNode.resources["a"];
    var test := a.resources["test"];
    MergeTwo(root, isNode);
    MergeSnoc([root, isNode], a);
    assert [root, isNode] + [a] == [root, isNode, a];
    MergeSnoc([root, isNode, a], test);
    assert [root, isNode, a] + [test] == [root, isNode, a, test];
    assert "/this" + "/is" + "/a" + "/test" == "/this/is/a/test";
  }

  /** Resolving from the root through a known walk and a known merge. */
  lemma ResolveThrough(root: Node, path: string, params: Dict, chain: seq<Node>, merged: Node)
    requires Walk(root, Split(path)) == Ok(chain)
    requires Merge([root] + chain) == merged
    ensures Resolve(root, path, params, []) == Ok(merged.(params := merged.params + params))
  {
  }

  /** The children `is.a.test` visits, and their merge under the root. */
  function IsATestChain(): seq<Node> {
    var isNode := ThisIsATest().resources["is"];
    var a := isNode.resources["a"];
    [isNode, a, a.resources["test"]]
  }

  const IsATestMerged: Node := Node("GET", Some("/this/is/a/test"), map[], map["test_param" := "test_param"], [], map[])

  lemma IsATestWalk()
    ensures Walk(ThisIsATest(), Split("is.a.test")) == Ok(IsATestChain())
  {
    SplitIsATest();
    WalkIsATest();
  }

  lemma IsATestMerge()
    ensures Merge([ThisIsATest()] + IsATestChain()) == IsATestMerged
  {
    var root := ThisIsATest();
    var chain := IsATestChain();
    MergeIsATest();
    assert [root] + chain == [root, chain[0], chain[1], chain[2]];
  }

  /** `with(def, 'is.a.test', params)` joins the four paths and keeps the
      inherited param, which a caller's param overrides. */
  lemma WithIsATest(params: Dict)
    ensures Resolve(ThisIsATest(), "is.a.test", params, [])
         == Ok(Node("GET", Some("/this/is/a/test"), map[], map["test_param" := "test_param"] + params, [], map[]))
  {
    IsATestWalk();
    IsATestMerge();
    ResolveThrough(ThisIsATest(), "is.a.test", params, IsATestChain(), IsATestMerged);
  }

  /** An empty path and an unknown segment fail, each naming the segment. */
  lemma WithFails()
    ensures Resolve(ThisIsATest(), "", map[], []) == Err(UnknownResource(""))
    ensures Resolve(ThisIsATest(), "is.a.crap", map[], []) == Err(UnknownResource("crap"))
  {
    var root := ThisIsATest();
    SplitIsATest();
    var isNode := root.resources["is"];
    var a := isNode.resources["a"];
    assert Walk(a, ["crap"]) == Err(UnknownResource("crap"));
    assert ["a", "crap"][1..] == ["crap"];
    assert Walk(isNode, ["a", "crap"]) == Err(UnknownResource("crap"));
    assert ["is", "a", "crap"][1..] == ["a", "crap"];
  }

  // ---------------------------------------------------------------- call

  /** `call(def({path: '/:username'}))` without params fails on the username. */
  lemma CallRequiresUsername()
    ensures Invoke(At("/:username", [ParamSpec("username", "path", true)], map[]), map[]) == Err(MissingParameter("username"))
  {
  }
}
