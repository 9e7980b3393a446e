/** The merge engine: a root-to-leaf chain of nodes folded into one effective
    node. Paths and schemas are concatenated, method, headers and params are
    layered with later nodes winning, and only the last node's children are kept. */
module Merging {
  import opened Types

  /** A node's path fragment; an absent path counts as empty. */
  function PathText(n: Node): string {
    if n.path.Some? then n.path.value else ""
  }

  function SchemaOf(n: Node): seq<ParamSpec> { n.schema }
  function HeadersOf(n: Node): Dict { n.headers }
  function ParamsOf(n: Node): Dict { n.params }

  /** What `f` gives for each node of the chain, concatenated left to right. */
  function Concat<T>(chain: seq<Node>, f: Node -> seq<T>): seq<T>
    decreases |chain|
  {
    if |chain| == 0 then [] else Concat(chain[..|chain| - 1], f) + f(chain[|chain| - 1])
  }

  /** The maps `f` gives for each node, layered left to right. */
  function Layer(chain: seq<Node>, f: Node -> Dict): Dict
    decreases |chain|
  {
    if |chain| == 0 then map[] else Layer(chain[..|chain| - 1], f) + f(chain[|chain| - 1])
  }

  /** `merge`. Every node carries a method, so the last one's wins. */
  function Merge(chain: seq<Node>): Node
    requires |chain| > 0
  {
    var last := chain[|chain| - 1];
    Node(
      last.verb,
      Some(Concat(chain, PathText)),
      Layer(chain, HeadersOf),
      Layer(chain, ParamsOf),
      Concat(chain, SchemaOf),
      last.resources)
  }

  /** Concatenation distributes over splitting the chain. */
  lemma {:induction false} ConcatAppend<T>(a: seq<Node>, b: seq<Node>, f: Node -> seq<T>)
    ensures Concat(a + b, f) == Concat(a, f) + Concat(b, f)
    decreases |b|
  {
    if |b| == 0 {
      assert a + b == a;
    } else {
      var b' := b[..|b| - 1];
      assert (a + b)[..|a + b| - 1] == a + b';
      ConcatAppend(a, b', f);
    }
  }

  /** Layering distributes over splitting the chain. */
  lemma {:induction false} LayerAppend(a: seq<Node>, b: seq<Node>, f: Node -> Dict)
    ensures Layer(a + b, f) == Layer(a, f) + Layer(b, f)
    decreases |b|
  {
    if |b| == 0 {
      assert a + b == a;
    } else {
      var b' := b[..|b| - 1];
      var z := f(b[|b| - 1]);
      assert (a + b)[..|a + b| - 1] == a + b';
      assert (a + b)[|a + b| - 1] == b[|b| - 1];
      assert Layer(a + b, f) == Layer(a + b', f) + z;
      LayerAppend(a, b', f);
      UnionAssoc(Layer(a, f), Layer(b', f), z);
    }
  }

  /** Map union is associative. */
  lemma UnionAssoc(x: Dict, y: Dict, z: Dict)
    ensures (x + y) + z == x + (y + z)
  {
  }

  /** A key is in a layered map exactly when some node has it. */
  lemma {:induction false} LayerKeys(chain: seq<Node>, f: Node -> Dict, k: string)
    ensures k in Layer(chain, f) <==> exists i :: 0 <= i < |chain| && k in f(chain[i])
    decreases |chain|
  {
    if |chain| > 0 {
      var init := chain[..|chain| - 1];
      LayerKeys(init, f, k);
      if k in Layer(init, f) {
        var i :| 0 <= i < |init| && k in f(init[i]);
        assert chain[i] == init[i];
      }
      if exists i :: 0 <= i < |chain| && k in f(chain[i]) {
        var i :| 0 <= i < |chain| && k in f(chain[i]);
        if i < |init| { assert init[i] == chain[i]; }
      }
    }
  }

  /** In a layered map a key has the value of the last node that has it:
      later nodes override earlier ones, and a key set only early survives. */
  lemma {:induction false} LayerLastWins(chain: seq<Node>, f: Node -> Dict, k: string, i: nat)
    requires i < |chain| && k in f(chain[i])
    requires forall j :: i < j < |chain| ==> k !in f(chain[j])
    ensures k in Layer(chain, f) && Layer(chain, f)[k] == f(chain[i])[k]
    decreases |chain|
  {
    if i < |chain| - 1 {
      var init := chain[..|chain| - 1];
      assert init[i] == chain[i];
      LayerLastWins(init, f, k, i);
    }
  }

  /** Merging one node changes nothing but turning an absent path into "". */
  lemma MergeOne(n: Node)
    ensures Merge([n]) == n.(path := Some(PathText(n)))
  {
    assert [n][..0] == [];
    assert Concat([n], PathText) == [] + PathText(n) == PathText(n);
    assert Concat([n], SchemaOf) == [] + n.schema == n.schema;
    assert Layer([n], HeadersOf) == map[] + n.headers == n.headers;
    assert Layer([n], ParamsOf) == map[] + n.params == n.params;
  }

  /** Merging two nodes, field by field. */
  lemma MergeTwo(x: Node, y: Node)
    ensures Merge([x, y]) == Node(y.verb, Some(PathText(x) + PathText(y)), x.headers + y.headers,
                                  x.params + y.params, x.schema + y.schema, y.resources)
  {
    MergeOne(x);
    assert [x, y][..1] == [x];
  }

  /** Merging is associative: merging two merged chains gives the merge of the
      whole chain. In particular merging a merged parent with a child, as `info`
      does, equals merging the full root-to-child chain. */
  lemma MergeOfMerges(a: seq<Node>, b: seq<Node>)
    requires |a| > 0 && |b| > 0
    ensures Merge([Merge(a), Merge(b)]) == Merge(a + b)
  {
    MergeTwo(Merge(a), Merge(b));
    ConcatAppend(a, b, PathText);
    ConcatAppend(a, b, SchemaOf);
    LayerAppend(a, b, HeadersOf);
    LayerAppend(a, b, ParamsOf);
    assert (a + b)[|a + b| - 1] == b[|b| - 1];
  }

  /** A merged prefix can stand in for the chain it came from: merging it with
      the rest of the chain is merging the whole chain. */
  lemma MergeFlatten(a: seq<Node>, b: seq<Node>)
    requires |a| > 0
    ensures Merge([Merge(a)] + b) == Merge(a + b)
  {
    MergeOne(Merge(a));
    if |b| == 0 {
      assert a + b == a;
      assert [Merge(a)] + b == [Merge(a)];
    } else {
      MergeOfMerges([Merge(a)], b);
      MergeOfMerges(a, b);
    }
  }

  /** Merging a chain one node longer is merging its merge with that node: the
      new node's method and children, its path fragment and schema appended, and
      its headers and params layered on top. */
  lemma MergeSnoc(a: seq<Node>, z: Node)
    requires |a| > 0
    ensures Merge(a + [z]) == Merge([Merge(a), z])
    ensures Merge(a + [z]) == Node(z.verb, Some(PathText(Merge(a)) + PathText(z)), Merge(a).headers + z.headers,
                                   Merge(a).params + z.params, Merge(a).schema + z.schema, z.resources)
  {
    MergeFlatten(a, [z]);
    MergeTwo(Merge(a), z);
    assert [Merge(a)] + [z] == [Merge(a), z];
  }
}
