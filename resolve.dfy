/** The path resolver, `with`: walk a dotted path through the children of a
    node, collecting the visited nodes after the root, then merge the chain and
    bind the caller's params over the merged ones. */
module Resolution {
  import opened Types
  import opened Text
  import opened Merging

  /** The children visited when following `segs` from `node`; the first segment
      that names no child of the node reached so far is the error. */
  function Walk(node: Node, segs: seq<string>): Result<seq<Node>>
    decreases |segs|
  {
    if |segs| == 0 then Ok([])
    else if segs[0] !in node.resources then Err(UnknownResource(segs[0]))
    else
      var rest :- Walk(node.resources[segs[0]], segs[1..]);
      Ok([node.resources[segs[0]]] + rest)
  }

  /** The node a chain of children ends at; the root when it is empty. */
  function Tip(root: Node, chain: seq<Node>): Node {
    if |chain| == 0 then root else chain[|chain| - 1]
  }

  /** Reference description: `chain[i]` is the child named `segs[i]` of the
      node before it, the first being a child of `root`. */
  ghost predicate IsChain(root: Node, segs: seq<string>, chain: seq<Node>) {
    && |chain| == |segs|
    && forall i :: 0 <= i < |segs| ==>
         segs[i] in Tip(root, chain[..i]).resources && chain[i] == Tip(root, chain[..i]).resources[segs[i]]
  }

  /** `_.merge(merged.params, params)`: the caller's params win. */
  function Bind(n: Node, params: Dict): Node {
    n.(params := n.params + params)
  }

  /** What `with(root, path, params, stack)` returns: the chain is the stack, or
      the root alone when the stack is empty, followed by the visited children. */
  function Resolve(root: Node, path: string, params: Dict, stack: seq<Node>): Result<Node> {
    var chain :- Walk(root, Split(path));
    Ok(Bind(Merge((if |stack| == 0 then [root] else stack) + chain), params))
  }

  /** `with`: split the path, push the root on an empty stack, look up the head
      segment, push the child, and either merge the stack or recurse on the
      child with the remaining segments joined again. */
  method With(root: Node, path: string, params: Dict, stack: seq<Node>) returns (r: Result<Node>)
    ensures r == Resolve(root, path, params, stack)
    decreases |path|
  {
    var parts := Split(path);
    var st := stack;
    if |st| == 0 {
      st := st + [root];
    }
    var head := parts[0];
    if head !in root.resources {
      return Err(UnknownResource(head));
    }
    var resource := root.resources[head];
    st := st + [resource];
    var rest := parts[1..];
    if |rest| == 0 {
      assert Walk(root, parts) == Ok([resource]) by {
        assert Walk(resource, rest) == Ok([]);
        assert [resource] + [] == [resource];
      }
      assert st == (if |stack| == 0 then [root] else stack) + [resource];
      var merged := Merge(st);
      return Ok(Bind(merged, params));
    }
    var tail := Join(rest);
    SplitNoDots(path);
    SplitJoin(rest);
    JoinSplit(path);
    JoinRestShorter(parts);
    r := With(resource, tail, params, st);
    var base := if |stack| == 0 then [root] else stack;
    if Walk(resource, rest).Ok? {
      assert base + ([resource] + Walk(resource, rest).value) == st + Walk(resource, rest).value;
    }
  }

  // ---------------------------------------------------------------- lemmas

  /** The walk succeeds with exactly the chain the reference description gives. */
  lemma {:induction false} WalkIsChain(root: Node, segs: seq<string>, chain: seq<Node>)
    ensures Walk(root, segs) == Ok(chain) <==> IsChain(root, segs, chain)
    decreases |segs|
  {
    if |segs| > 0 && |chain| > 0 && segs[0] in root.resources && chain[0] == root.resources[segs[0]] {
      var child := chain[0];
      WalkIsChain(child, segs[1..], chain[1..]);
      ChainUncons(root, segs, chain);
      assert chain == [chain[0]] + chain[1..];
    } else if |segs| > 0 && |chain| > 0 {
      assert !IsChain(root, segs, chain) by {
        assert Tip(root, chain[..0]) == root;
      }
    }
  }

  /** A chain from the root that starts with the first named child is that
      child followed by a chain from the child, and conversely. */
  lemma ChainUncons(root: Node, segs: seq<string>, chain: seq<Node>)
    requires |segs| > 0 && |chain| > 0 && segs[0] in root.resources && chain[0] == root.resources[segs[0]]
    ensures IsChain(root, segs, chain) <==> IsChain(chain[0], segs[1..], chain[1..])
  {
    var child := chain[0];
    forall i | 0 <= i < |chain| - 1
      ensures Tip(child, chain[1..][..i]) == Tip(root, chain[..i + 1])
    {
      if i > 0 { assert chain[1..][..i][i - 1] == chain[..i + 1][i]; }
    }
    if IsChain(child, segs[1..], chain[1..]) {
      forall i | 0 <= i < |segs|
        ensures segs[i] in Tip(root, chain[..i]).resources && chain[i] == Tip(root, chain[..i]).resources[segs[i]]
      {
        if i > 0 {
          assert segs[i] == segs[1..][i - 1] && chain[i] == chain[1..][i - 1];
        }
      }
    }
    if IsChain(root, segs, chain) {
      forall i | 0 <= i < |segs| - 1
        ensures segs[1..][i] in Tip(child, chain[1..][..i]).resources
             && chain[1..][i] == Tip(child, chain[1..][..i]).resources[segs[1..][i]]
      {
        assert segs[1..][i] == segs[i + 1] && chain[1..][i] == chain[i + 1];
      }
    }
  }

  /** The walk stops at the first segment that names no child of the node
      reached so far, and reports that segment. */
  lemma {:induction false} WalkStops(root: Node, segs: seq<string>, j: nat, chain: seq<Node>)
    requires j < |segs|
    requires IsChain(root, segs[..j], chain)
    requires segs[j] !in Tip(root, chain).resources
    ensures Walk(root, segs) == Err(UnknownResource(segs[j]))
    decreases j
  {
    if j > 0 {
      assert segs[..j][0] == segs[0];
      assert Tip(root, chain[..0]) == root;
      var child := root.resources[segs[0]];
      var tail := chain[1..];
      assert IsChain(child, segs[1..][..j - 1], tail) by {
        assert segs[1..][..j - 1] == segs[..j][1..];
        WalkIsChain(root, segs[..j], chain);
        WalkIsChain(child, segs[..j][1..], tail);
      }
      assert Tip(child, tail) == Tip(root, chain);
      WalkStops(child, segs[1..], j - 1, tail);
    }
  }

  /** Conversely, every failed walk names the first missing segment. */
  lemma {:induction false} WalkFailsAtMissing(root: Node, segs: seq<string>)
    requires Walk(root, segs).Err?
    ensures exists j: nat, chain: seq<Node> :: j < |segs| && IsChain(root, segs[..j], chain)
              && segs[j] !in Tip(root, chain).resources
              && Walk(root, segs).error == UnknownResource(segs[j])
    decreases |segs|
  {
    if segs[0] !in root.resources {
      assert Tip(root, []) == root;
      assert IsChain(root, segs[..0], []);
      assert Walk(root, segs).error == UnknownResource(segs[0]);
    } else {
      var child := root.resources[segs[0]];
      WalkFailsAtMissing(child, segs[1..]);
      var j: nat, tail: seq<Node> :| j < |segs| - 1 && IsChain(child, segs[1..][..j], tail)
                     && segs[1..][j] !in Tip(child, tail).resources
                     && Walk(child, segs[1..]).error == UnknownResource(segs[1..][j]);
      ConsChain(root, segs, j, tail);
      assert segs[j + 1] == segs[1..][j];
      assert Walk(root, segs).error == Walk(child, segs[1..]).error;
    }
  }

  /** A chain below the first child, with that child in front, is a chain from
      the root one segment longer, ending at the same node. */
  lemma ConsChain(root: Node, segs: seq<string>, j: nat, tail: seq<Node>)
    requires j < |segs| - 1 && segs[0] in root.resources
    requires IsChain(root.resources[segs[0]], segs[1..][..j], tail)
    ensures IsChain(root, segs[..j + 1], [root.resources[segs[0]]] + tail)
    ensures Tip(root, [root.resources[segs[0]]] + tail) == Tip(root.resources[segs[0]], tail)
  {
    var child := root.resources[segs[0]];
    var chain := [child] + tail;
    WalkIsChain(child, segs[1..][..j], tail);
    assert segs[..j + 1][1..] == segs[1..][..j];
    assert chain[1..] == tail;
    WalkIsChain(root, segs[..j + 1], chain);
  }

  /** A resolved path is the merge of the root and its chain of children, with
      the caller's params bound over the merged ones. */
  lemma ResolveMerges(root: Node, path: string, params: Dict, chain: seq<Node>)
    requires IsChain(root, Split(path), chain)
    ensures Resolve(root, path, params, []) == Ok(Bind(Merge([root] + chain), params))
  {
    WalkIsChain(root, Split(path), chain);
  }

  /** Resolution fails at the first segment that is not a child, the empty
      segment included: there is no separate error for an empty path. */
  lemma ResolveUnknown(root: Node, path: string, params: Dict, j: nat, chain: seq<Node>)
    requires j < |Split(path)|
    requires IsChain(root, Split(path)[..j], chain)
    requires Split(path)[j] !in Tip(root, chain).resources
    ensures Resolve(root, path, params, []) == Err(UnknownResource(Split(path)[j]))
  {
    WalkStops(root, Split(path), j, chain);
  }

  /** Resolving "" on a node without a child named "" fails naming the empty id. */
  lemma ResolveEmpty(root: Node, params: Dict)
    requires "" !in root.resources
    ensures Resolve(root, "", params, []) == Err(UnknownResource(""))
  {
  }

  /** The bound params: a caller's value wins, any other key keeps its merged value. */
  lemma BindParams(n: Node, params: Dict)
    ensures Bind(n, params).params.Keys == n.params.Keys + params.Keys
    ensures forall k :: k in params ==> Bind(n, params).params[k] == params[k]
    ensures forall k :: k in n.params && k !in params ==> Bind(n, params).params[k] == n.params[k]
    ensures Bind(n, params).(params := n.params) == n
  {
  }
}
