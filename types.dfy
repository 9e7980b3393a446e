/** The records restnest works on: the raw definition a caller passes to `def`,
    the resource node `def` builds, the request descriptor `call` hands to an
    adapter, and the errors the engine throws. */
module Types {

  datatype Option<+T> = None | Some(value: T)

  /** One constructor per message the engine throws; each carries the value the
      message quotes. */
  datatype Error =
    | InvalidMethod(verb: string)            // Invalid method '<verb>'
    | MissingKey(param: RawParam)            // No key defined for parameter schema <param>
    | InvalidLocation(location: string)      // Invalid parameter spec location '<location>'
    | DuplicateResource(id: string)          // Resource with id '<id>' already defined
    | UnknownResource(id: string)            // No resource defined having id '<id>'
    | MissingParameter(key: string)          // Parameter '<key>' must be defined
    | UndefinedPath(key: string)             // a path parameter on a node without a path

  datatype Result<+T> = Ok(value: T) | Err(error: Error) {
    predicate IsFailure() { Err? }

    function PropagateFailure<U>(): Result<U>
      requires Err?
    {
      Err(error)
    }

    function Extract(): T
      requires Ok?
    {
      value
    }
  }

  /** Headers and params: flat maps from a name to its value. */
  type Dict = map<string, string>

  const Verbs: seq<string> := ["HEAD", "GET", "PUT", "POST", "DELETE"]
  const Locations: seq<string> := ["path", "body", "query"]

  /** A parameter spec as written in a definition: every field may be omitted. */
  datatype RawParam = RawParam(key: Option<string>, location: Option<string>, required: Option<bool>)

  /** A parameter spec after `def` has filled in its defaults. */
  datatype ParamSpec = ParamSpec(key: string, location: string, required: bool)

  /** The argument of `def`. An omitted headers, params or schema is the empty
      one (the destructuring defaults of `def`); the child definitions are kept
      in the order in which the object literal enumerates them. */
  datatype Spec = Spec(
    verb: Option<string>,
    path: Option<string>,
    headers: Dict,
    params: Dict,
    schema: seq<RawParam>,
    resources: seq<(string, Spec)>)

  /** A resource node; `verb` is the field the source calls `method`. */
  datatype Node = Node(
    verb: string,
    path: Option<string>,
    headers: Dict,
    params: Dict,
    schema: seq<ParamSpec>,
    resources: map<string, Node>)

  /** What `call` hands to the adapter: a node without its schema and children. */
  datatype Request = Request(verb: string, path: Option<string>, headers: Dict, params: Dict)

  /** The definition with every field omitted, `{}`. */
  const EmptySpec: Spec := Spec(None, None, map[], map[], [], [])
}
