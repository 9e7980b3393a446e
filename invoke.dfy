/** The invocation engine, `call`: check the required parameters, substitute
    path placeholders, drop the consumed params, and hand the request
    descriptor to an adapter. */
module Invocation {
  import opened Types
  import opened Text

  /** The text a missing caller value is substituted as. */
  const UndefinedText: string := "undefined"

  /** The replacement for `:key`: the caller's own value, not the merged one. */
  function ValueText(caller: Dict, key: string): string {
    if key in caller then caller[key] else UndefinedText
  }

  /** `_.omit(resource, ['schema', 'resources'])` with the caller's params merged in. */
  function Initial(node: Node, caller: Dict): Request {
    Request(node.verb, node.path, node.headers, node.params + caller)
  }

  /** One turn of the loop over the schema. */
  function Step(req: Request, spec: ParamSpec, caller: Dict): Result<Request> {
    if spec.required && spec.key !in req.params then Err(MissingParameter(spec.key))
    else if spec.location == "path" then
      if req.path.None? then Err(UndefinedPath(spec.key))
      else Ok(req.(path := Some(ReplaceFirst(req.path.value, ":" + spec.key, ValueText(caller, spec.key))),
                   params := req.params - {spec.key}))
    else Ok(req)
  }

  /** The loop over the schema, entry by entry in order. */
  function Run(req: Request, schema: seq<ParamSpec>, caller: Dict): Result<Request>
    decreases |schema|
  {
    if |schema| == 0 then Ok(req)
    else
      var next :- Step(req, schema[0], caller);
      Run(next, schema[1..], caller)
  }

  /** The descriptor `call` hands to the adapter, or the error it throws. */
  function Invoke(node: Node, caller: Dict): Result<Request> {
    Run(Initial(node, caller), node.schema, caller)
  }

  /** `call`: the adapter is any function of the descriptor; its result, or
      the engine's error, is what the call returns. */
  method Call<R>(node: Node, adapter: Request -> R, params: Dict) returns (r: Result<R>)
    ensures Invoke(node, params).Err? ==> r == Err(Invoke(node, params).error)
    ensures Invoke(node, params).Ok? ==> r == Ok(adapter(Invoke(node, params).value))
  {
    var schema := node.schema;
    var resource := Initial(node, params);
    for i := 0 to |schema|
      invariant Run(resource, schema[i..], params) == Invoke(node, params)
    {
      var spec := schema[i];
      assert schema[i..][1..] == schema[i + 1..];
      if spec.required && spec.key !in resource.params {
        return Err(MissingParameter(spec.key));
      }
      match spec.location {
        case "path" =>
          if resource.path.None? {
            return Err(UndefinedPath(spec.key));
          }
          resource := resource.(path := Some(ReplaceFirst(resource.path.value, ":" + spec.key, ValueText(params, spec.key))));
          resource := resource.(params := resource.params - {spec.key});
        case "query" =>
        case "body" =>
        case _ =>
      }
    }
    return Ok(adapter(resource));
  }

  // ---------------------------------------------------------------- lemmas

  /** The keys consumed by the path entries of a schema. */
  function PathKeys(schema: seq<ParamSpec>): set<string> {
    set i | 0 <= i < |schema| && schema[i].location == "path" :: schema[i].key
  }

  /** Running a schema in two parts is running the first, then the second. */
  lemma {:induction false} RunAppend(req: Request, a: seq<ParamSpec>, b: seq<ParamSpec>, caller: Dict)
    ensures Run(req, a + b, caller) ==
            (if Run(req, a, caller).Err? then Run(req, a, caller) else Run(Run(req, a, caller).value, b, caller))
    decreases |a|
  {
    if |a| == 0 {
      assert a + b == b;
    } else {
      assert (a + b)[1..] == a[1..] + b;
      if Step(req, a[0], caller).Ok? {
        RunAppend(Step(req, a[0], caller).value, a[1..], b, caller);
      }
    }
  }

  /** A successful run keeps method and headers, and its params are the
      starting ones without the keys of the path entries. */
  lemma {:induction false} RunParams(req: Request, schema: seq<ParamSpec>, caller: Dict)
    requires Run(req, schema, caller).Ok?
    ensures Run(req, schema, caller).value.verb == req.verb
    ensures Run(req, schema, caller).value.headers == req.headers
    ensures Run(req, schema, caller).value.params == req.params - PathKeys(schema)
    decreases |schema|
  {
    if |schema| > 0 {
      var next := Step(req, schema[0], caller).value;
      RunParams(next, schema[1..], caller);
      assert PathKeys(schema) == PathKeys(schema[..1]) + PathKeys(schema[1..]) by {
        forall k | k in PathKeys(schema) ensures k in PathKeys(schema[..1]) + PathKeys(schema[1..]) {
          var i :| 0 <= i < |schema| && schema[i].location == "path" && schema[i].key == k;
          if i > 0 { assert schema[1..][i - 1] == schema[i]; }
        }
        forall k | k in PathKeys(schema[1..]) ensures k in PathKeys(schema) {
          var i :| 0 <= i < |schema[1..]| && schema[1..][i].location == "path" && schema[1..][i].key == k;
          assert schema[i + 1] == schema[1..][i];
        }
      }
    }
  }

  /** The descriptor keeps the node's method and headers; its params are the
      node's params under the caller's, less every key a path entry consumed. */
  lemma InvokeParams(node: Node, caller: Dict)
    requires Invoke(node, caller).Ok?
    ensures Invoke(node, caller).value.verb == node.verb
    ensures Invoke(node, caller).value.headers == node.headers
    ensures Invoke(node, caller).value.params == (node.params + caller) - PathKeys(node.schema)
  {
    RunParams(Initial(node, caller), node.schema, caller);
  }

  /** The required check of entry `i` looks at the params left after the path
      entries before it: a key missing there makes the call fail with that key,
      once the entries before it went through. */
  lemma MissingRequired(node: Node, caller: Dict, i: nat)
    requires i < |node.schema|
    requires Run(Initial(node, caller), node.schema[..i], caller).Ok?
    requires node.schema[i].required
    requires node.schema[i].key !in (node.params + caller) - PathKeys(node.schema[..i])
    ensures Invoke(node, caller) == Err(MissingParameter(node.schema[i].key))
  {
    var schema := node.schema;
    var init := Initial(node, caller);
    RunParams(init, schema[..i], caller);
    RunAppend(init, schema[..i], schema[i..], caller);
    assert schema[..i] + schema[i..] == schema;
  }

  /** Conversely, in a successful call every required entry found its key
      among the params left after the path entries before it. */
  lemma RequiredPresent(node: Node, caller: Dict, i: nat)
    requires Invoke(node, caller).Ok?
    requires i < |node.schema| && node.schema[i].required
    ensures node.schema[i].key in (node.params + caller) - PathKeys(node.schema[..i])
  {
    var schema := node.schema;
    var init := Initial(node, caller);
    assert schema[..i] + schema[i..] == schema;
    RunAppend(init, schema[..i], schema[i..], caller);
    RunParams(init, schema[..i], caller);
    var mid := Run(init, schema[..i], caller).value;
    assert Step(mid, schema[i], caller).Ok?;
  }

  /** A path entry reached on a node without a path fails, naming its key. */
  lemma PathlessFails(node: Node, caller: Dict, i: nat)
    requires node.path.None?
    requires i < |node.schema| && node.schema[i].location == "path"
    requires Run(Initial(node, caller), node.schema[..i], caller).Ok?
    requires !node.schema[i].required || node.schema[i].key in (node.params + caller) - PathKeys(node.schema[..i])
    ensures Invoke(node, caller) == Err(UndefinedPath(node.schema[i].key))
  {
    var schema := node.schema;
    var init := Initial(node, caller);
    assert schema[..i] + schema[i..] == schema;
    RunAppend(init, schema[..i], schema[i..], caller);
    RunPathless(init, schema[..i], caller);
    RunParams(init, schema[..i], caller);
  }

  /** A run never gives a path to a request that had none. */
  lemma {:induction false} RunPathless(req: Request, schema: seq<ParamSpec>, caller: Dict)
    requires req.path.None? && Run(req, schema, caller).Ok?
    ensures Run(req, schema, caller).value.path.None?
    decreases |schema|
  {
    if |schema| > 0 {
      RunPathless(Step(req, schema[0], caller).value, schema[1..], caller);
    }
  }

  /** A required key that neither the node nor the caller supplies makes the call fail. */
  lemma {:induction false} AbsentRequiredFails(req: Request, schema: seq<ParamSpec>, caller: Dict, i: nat)
    requires i < |schema| && schema[i].required && schema[i].key !in req.params
    ensures Run(req, schema, caller).Err?
    decreases |schema|
  {
    if i > 0 && Step(req, schema[0], caller).Ok? {
      var next := Step(req, schema[0], caller).value;
      assert next.params.Keys <= req.params.Keys;
      assert schema[1..][i - 1] == schema[i];
      AbsentRequiredFails(next, schema[1..], caller, i - 1);
    }
  }

  lemma InvokeRequired(node: Node, caller: Dict, i: nat)
    requires i < |node.schema| && node.schema[i].required
    requires node.schema[i].key !in node.params && node.schema[i].key !in caller
    ensures Invoke(node, caller).Err?
  {
    AbsentRequiredFails(Initial(node, caller), node.schema, caller, i);
  }

  /** A path entry replaces the first `:key` of the path with the caller's value
      and consumes the key; a later required entry with the same key then fails. */
  lemma PathStep(req: Request, spec: ParamSpec, caller: Dict, at: nat)
    requires spec.location == "path" && req.path.Some?
    requires !spec.required || spec.key in req.params
    requires OccursAt(req.path.value, ":" + spec.key, at)
    requires forall k :: 0 <= k < at ==> !OccursAt(req.path.value, ":" + spec.key, k)
    ensures Step(req, spec, caller).Ok?
    ensures var p := req.path.value;
            Step(req, spec, caller).value.path == Some(p[..at] + ValueText(caller, spec.key) + p[at + |spec.key| + 1..])
    ensures spec.key !in Step(req, spec, caller).value.params
  {
    ReplaceFirstSpec(req.path.value, ":" + spec.key, ValueText(caller, spec.key), at);
  }

  /** Query and body entries change nothing once the required check passed. */
  lemma OtherStep(req: Request, spec: ParamSpec, caller: Dict)
    requires spec.location != "path"
    requires !spec.required || spec.key in req.params
    ensures Step(req, spec, caller) == Ok(req)
  {
  }

  /** The value substituted is the caller's, even when the node supplies the
      key: a key bound only on the node passes the required check but is
      substituted as "undefined". */
  lemma SubstitutesCallerValue(node: Node, caller: Dict, key: string)
    requires node.schema == [ParamSpec(key, "path", true)]
    requires node.path == Some(":" + key)
    requires key in node.params && key !in caller
    ensures Invoke(node, caller).Ok?
    ensures Invoke(node, caller).value.path == Some(UndefinedText)
  {
    var req := Initial(node, caller);
    var p := ":" + key;
    assert p[0..|p|] == p;
    PathStep(req, node.schema[0], caller, 0);
    var next := Step(req, node.schema[0], caller).value;
    assert p[..0] + UndefinedText + p[|p|..] == UndefinedText;
    assert node.schema[1..] == [];
    assert Run(req, node.schema, caller) == Run(next, [], caller);
  }

  /** A placeholder repeated in one path yields two path entries with the same
      key; the first consumes the key, so a later required one always fails,
      and once the entries before it went through, it fails naming the key. */
  lemma RepeatedPlaceholderFails(node: Node, caller: Dict, i: nat, j: nat)
    requires i < j < |node.schema|
    requires node.schema[i].location == "path" && node.schema[j].required
    requires node.schema[i].key == node.schema[j].key
    ensures Invoke(node, caller).Err?
    ensures Run(Initial(node, caller), node.schema[..j], caller).Ok? ==>
              Invoke(node, caller) == Err(MissingParameter(node.schema[j].key))
  {
    var schema := node.schema;
    var init := Initial(node, caller);
    assert schema[..j] + schema[j..] == schema;
    RunAppend(init, schema[..j], schema[j..], caller);
    if Run(init, schema[..j], caller).Ok? {
      assert schema[..j][i] == schema[i];
      assert schema[j].key in PathKeys(schema[..j]);
      MissingRequired(node, caller, j);
    }
  }

  // ---------------------------------------------------------------- the substituted value

  /** As written, the value substituted for `:key` is the caller's, although
      the required check looked at the params merged with the node's: with
      the key bound on the node only (by `with`, say), the check passes and the
      path gets "undefined". */
  lemma BoundValueLost(value: string)
    ensures var node := Node("GET", Some("/:username"), map[], map["username" := value],
                             [ParamSpec("username", "path", true)], map[]);
            Invoke(node, map[]) == Ok(Request("GET", Some("/" + UndefinedText), map[], map[]))
  {
    var p := "/:username";
    var spec := ParamSpec("username", "path", true);
    var req := Request("GET", Some(p), map[], map["username" := value]);
    assert p[1..|p|] == ":" + spec.key;
    assert p[0] != ':';
    PathStep(req, spec, map[], 1);
    assert p[..1] + UndefinedText + p[|p|..] == "/" + UndefinedText;
    assert map["username" := value] - {"username"} == map[];
    var none: Dict := map[];
    assert map["username" := value] + none == map["username" := value];
  }

  /** The step with the value taken from the params the required check
      consulted. */
  function StepBound(req: Request, spec: ParamSpec): Result<Request> {
    if spec.required && spec.key !in req.params then Err(MissingParameter(spec.key))
    else if spec.location == "path" then
      if req.path.None? then Err(UndefinedPath(spec.key))
      else Ok(req.(path := Some(ReplaceFirst(req.path.value, ":" + spec.key, ValueText(req.params, spec.key))),
                   params := req.params - {spec.key}))
    else Ok(req)
  }

  function RunBound(req: Request, schema: seq<ParamSpec>): Result<Request>
    decreases |schema|
  {
    if |schema| == 0 then Ok(req)
    else
      var next :- StepBound(req, schema[0]);
      RunBound(next, schema[1..])
  }

  /** `call` substituting the merged value of each path parameter. */
  function InvokeBound(node: Node, caller: Dict): Result<Request> {
    RunBound(Initial(node, caller), node.schema)
  }

  /** With the value taken from the merged params, a required path entry that
      passes the check substitutes the value the check found, never "undefined". */
  lemma StepBoundUsesChecked(req: Request, spec: ParamSpec, at: nat)
    requires spec.location == "path" && spec.required && spec.key in req.params && req.path.Some?
    requires OccursAt(req.path.value, ":" + spec.key, at)
    requires forall k :: 0 <= k < at ==> !OccursAt(req.path.value, ":" + spec.key, k)
    ensures StepBound(req, spec).Ok?
    ensures var p := req.path.value;
            StepBound(req, spec).value.path == Some(p[..at] + req.params[spec.key] + p[at + |spec.key| + 1..])
  {
    ReplaceFirstSpec(req.path.value, ":" + spec.key, req.params[spec.key], at);
  }

  /** The corrected call on the example above substitutes the bound value. */
  lemma BoundValueKept(value: string)
    ensures var node := Node("GET", Some("/:username"), map[], map["username" := value],
                             [ParamSpec("username", "path", true)], map[]);
            InvokeBound(node, map[]) == Ok(Request("GET", Some("/" + value), map[], map[]))
  {
    var p := "/:username";
    var spec := ParamSpec("username", "path", true);
    var req := Request("GET", Some(p), map[], map["username" := value]);
    assert p[1..|p|] == ":" + spec.key;
    assert p[0] != ':';
    StepBoundUsesChecked(req, spec, 1);
    assert p[..1] + value + p[|p|..] == "/" + value;
    assert map["username" := value] - {"username"} == map[];
    var none: Dict := map[];
    assert map["username" := value] + none == map["username" := value];
  }

  /** Every path entry is required and its key comes from the caller. */
  predicate CallerSuppliesPath(schema: seq<ParamSpec>, caller: Dict) {
    forall i :: 0 <= i < |schema| && schema[i].location == "path" ==> schema[i].required && schema[i].key in caller
  }

  /** The two agree whenever every path entry is required and the caller supplies its key. */
  lemma {:induction false} RunAgree(req: Request, schema: seq<ParamSpec>, caller: Dict)
    requires CallerSuppliesPath(schema, caller)
    requires forall k :: k in caller && k in req.params ==> req.params[k] == caller[k]
    ensures Run(req, schema, caller) == RunBound(req, schema)
    decreases |schema|
  {
    if |schema| > 0 {
      assert Step(req, schema[0], caller) == StepBound(req, schema[0]);
      if Step(req, schema[0], caller).Ok? {
        var next := Step(req, schema[0], caller).value;
        assert CallerSuppliesPath(schema[1..], caller) by {
          forall i | 0 <= i < |schema[1..]| && schema[1..][i].location == "path"
            ensures schema[1..][i].required && schema[1..][i].key in caller
          {
            assert schema[1..][i] == schema[i + 1];
          }
        }
        RunAgree(next, schema[1..], caller);
      }
    }
  }

  lemma InvokeAgree(node: Node, caller: Dict)
    requires CallerSuppliesPath(node.schema, caller)
    ensures Invoke(node, caller) == InvokeBound(node, caller)
  {
    RunAgree(Initial(node, caller), node.schema, caller);
  }
}
