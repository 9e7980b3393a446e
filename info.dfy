/** The catalogue listing, `info`: one entry per node of a tree, the node
    first and then, child by child, the entries of the child merged under it.
    The text of an entry is abstracted to the fields it prints. */
module Listing {
  import opened Types
  import opened Merging
  import opened Resolution

  /** The fields an `info` line prints: method, path (or "N/A"), headers,
      params and schema. */
  datatype Entry = Entry(verb: string, path: string, headers: Dict, params: Dict, schema: seq<ParamSpec>)

  /** `resource.path || 'N/A'`: an absent or empty path prints as "N/A". */
  function Label(path: Option<string>): (r: string)
    ensures r == "N/A" <==> path.None? || path.value == "" || path.value == "N/A"
  {
    if path.Some? && path.value != "" then path.value else "N/A"
  }

  function EntryOf(n: Node): Entry {
    Entry(n.verb, Label(n.path), n.headers, n.params, n.schema)
  }

  // ---------------------------------------------------------------- measure

  /** The largest element of a set of naturals, 0 for the empty set. */
  ghost function Max(s: set<nat>): nat {
    if s == {} then 0 else var x :| x in s; var m := Max(s - {x}); if x < m then m else x
  }

  lemma {:induction false} MaxBounds(s: set<nat>, y: nat)
    requires y in s
    ensures y <= Max(s)
    decreases |s|
  {
    var x :| x in s && Max(s) == (var m := Max(s - {x}); if x < m then m else x);
    if y != x {
      MaxBounds(s - {x}, y);
    }
  }

  /** The height of a tree; it depends on the children only. */
  ghost function Height(n: Node): nat
    decreases n
  {
    1 + Max(set id | id in n.resources :: Height(n.resources[id]))
  }

  /** Merging a node with one of its children gives a node lower than it, so
      `info`'s recursion on that merge ends. */
  lemma HeightChild(n: Node, id: string)
    requires id in n.resources
    ensures Height(Merge([n, n.resources[id]])) < Height(n)
  {
    var c := n.resources[id];
    assert Merge([n, c]).resources == c.resources;
    MaxBounds(set id | id in n.resources :: Height(n.resources[id]), Height(c));
  }

  // ---------------------------------------------------------------- reference

  /** The entries of the tree below `n`, counted with multiplicity. */
  ghost function Entries(n: Node): multiset<Entry>
    decreases Height(n), |n.resources| + 1
  {
    multiset{EntryOf(n)} + ChildEntries(n, n.resources.Keys)
  }

  /** The entries of the children named in `ids`, each merged under `n`. */
  ghost function ChildEntries(n: Node, ids: set<string>): multiset<Entry>
    requires ids <= n.resources.Keys
    decreases Height(n), |ids|
  {
    if ids == {} then multiset{}
    else
      var id :| id in ids;
      HeightChild(n, id);
      Entries(Merge([n, n.resources[id]])) + ChildEntries(n, ids - {id})
  }

  /** Taking out any one child first gives the same entries. */
  lemma {:induction false} ChildEntriesPick(n: Node, ids: set<string>, id: string)
    requires ids <= n.resources.Keys && id in ids
    ensures ChildEntries(n, ids) == Entries(Merge([n, n.resources[id]])) + ChildEntries(n, ids - {id})
    decreases |ids|
  {
    var x :| x in ids && ChildEntries(n, ids) ==
      (HeightChild(n, x); Entries(Merge([n, n.resources[x]])) + ChildEntries(n, ids - {x}));
    if x != id {
      ChildEntriesPick(n, ids - {x}, id);
      ChildEntriesPick(n, ids - {id}, x);
      assert ids - {x} - {id} == ids - {id} - {x};
    }
  }

  // ---------------------------------------------------------------- operation

  /** `info(resource, stack)`: push the node's entry, then recurse on each
      child merged under the node, in the order the children are enumerated
      (any order here). */
  method Info(resource: Node, stack: seq<Entry>) returns (out: seq<Entry>)
    ensures |out| > |stack| && out[..|stack|] == stack
    ensures out[|stack|] == EntryOf(resource)
    ensures multiset(out[|stack|..]) == Entries(resource)
    decreases Height(resource)
  {
    out := stack + [EntryOf(resource)];
    var ids := resource.resources.Keys;
    assert out[|stack|..] == [EntryOf(resource)];
    while ids != {}
      invariant ids <= resource.resources.Keys
      invariant |out| > |stack| && out[..|stack|] == stack && out[|stack|] == EntryOf(resource)
      invariant multiset(out[|stack|..]) + ChildEntries(resource, ids) == Entries(resource)
      decreases |ids|
    {
      var id :| id in ids;
      var child := resource.resources[id];
      HeightChild(resource, id);
      var before := out;
      out := Info(Merge([resource, child]), out);
      Account(resource, stack, before, out, ids, id);
      ids := ids - {id};
    }
  }

  /** One turn of `info`'s loop: the entries pushed for child `id` are those
      the child accounts for, and what was pushed before stays. */
  lemma Account(n: Node, stack: seq<Entry>, before: seq<Entry>, out: seq<Entry>, ids: set<string>, id: string)
    requires ids <= n.resources.Keys && id in ids
    requires |stack| < |before| < |out| && out[..|before|] == before
    requires multiset(before[|stack|..]) + ChildEntries(n, ids) == Entries(n)
    requires multiset(out[|before|..]) == Entries(Merge([n, n.resources[id]]))
    ensures out[..|stack|] == before[..|stack|] && out[|stack|] == before[|stack|]
    ensures multiset(out[|stack|..]) + ChildEntries(n, ids - {id}) == Entries(n)
  {
    Extend(stack, before, out);
    ChildEntriesPick(n, ids, id);
  }

  /** Pushing onto an accumulator keeps what was there. */
  lemma Extend(stack: seq<Entry>, before: seq<Entry>, out: seq<Entry>)
    requires |stack| < |before| < |out| && out[..|before|] == before
    ensures out[..|stack|] == before[..|stack|] && out[|stack|] == before[|stack|]
    ensures multiset(out[|stack|..]) == multiset(before[|stack|..]) + multiset(out[|before|..])
  {
    assert out[|stack|..] == before[|stack|..] + out[|before|..];
  }

  // ---------------------------------------------------------------- lemmas

  /** A child's entries are among its parent's. */
  lemma ChildEntriesIncluded(n: Node, id: string)
    requires id in n.resources
    ensures Entries(Merge([n, n.resources[id]])) <= Entries(n)
  {
    ChildEntriesPick(n, n.resources.Keys, id);
  }

  /** Below a merged node the children are those of the last node merged, so
      the chains below `c` and below `Merge([n, c])` are the same. */
  lemma ChainBelowPair(n: Node, c: Node, segs: seq<string>, chain: seq<Node>)
    ensures IsChain(c, segs, chain) <==> IsChain(Merge([n, c]), segs, chain)
  {
    var m := Merge([n, c]);
    forall i | 0 <= i < |chain|
      ensures Tip(m, chain[..i]).resources == Tip(c, chain[..i]).resources
    {
    }
  }

  /** A chain from the root is its first child followed by a chain from that child. */
  lemma ChainCons(root: Node, segs: seq<string>, chain: seq<Node>)
    requires |segs| > 0 && |chain| > 0
    ensures IsChain(root, segs, chain) <==>
            segs[0] in root.resources && chain[0] == root.resources[segs[0]] && IsChain(chain[0], segs[1..], chain[1..])
  {
    WalkIsChain(root, segs, chain);
    WalkIsChain(chain[0], segs[1..], chain[1..]);
    assert chain == [chain[0]] + chain[1..];
  }

  /** The merge of a chain below a child merged under its parent is the merge
      of the chain from the parent. */
  lemma MergeBelowPair(root: Node, c: Node, rest: seq<Node>)
    ensures Merge([Merge([root, c])] + rest) == Merge([root] + ([c] + rest))
  {
    MergeTwo(root, c);
    MergeFlatten([root, c], rest);
    assert [root, c] + rest == [root] + ([c] + rest);
  }

  /** The root's own entry is that of the merge of the chain of no children. */
  lemma EntryOfRoot(root: Node)
    ensures EntryOf(Merge([root])) == EntryOf(root)
  {
    MergeOne(root);
  }

  /** Every node reachable from the root contributes the entry of the merge of
      the chain that leads to it. */
  lemma {:induction false} EntriesCoverChains(root: Node, segs: seq<string>, chain: seq<Node>)
    requires IsChain(root, segs, chain)
    ensures EntryOf(Merge([root] + chain)) in Entries(root)
    decreases |chain|
  {
    if |chain| == 0 {
      EntryOfRoot(root);
      assert [root] + chain == [root];
    } else {
      var c := chain[0];
      ChainCons(root, segs, chain);
      ChainBelowPair(root, c, segs[1..], chain[1..]);
      EntriesCoverChains(Merge([root, c]), segs[1..], chain[1..]);
      MergeBelowPair(root, c, chain[1..]);
      assert [c] + chain[1..] == chain;
      ChildEntriesIncluded(root, segs[0]);
    }
  }

  /** The entries below a node: that of the node, or one for a chain of children. */
  ghost predicate EntryOfChain(root: Node, e: Entry) {
    exists segs: seq<string>, chain: seq<Node> :: IsChain(root, segs, chain) && e == EntryOf(Merge([root] + chain))
  }

  /** And every entry is that of such a chain: one entry per node of the tree,
      nothing else. */
  lemma {:induction false} EntriesAreChains(root: Node, e: Entry)
    requires e in Entries(root)
    ensures EntryOfChain(root, e)
    decreases Height(root), 2, 0
  {
    if e == EntryOf(root) {
      EntryOfRoot(root);
      assert IsChain(root, [], []);
      assert [root] + [] == [root];
    } else {
      ChildEntriesAreChains(root, root.resources.Keys, e);
    }
  }

  lemma {:induction false} ChildEntriesAreChains(root: Node, ids: set<string>, e: Entry)
    requires ids <= root.resources.Keys && e in ChildEntries(root, ids)
    ensures EntryOfChain(root, e)
    decreases Height(root), 1, |ids|
  {
    var id :| id in ids;
    ChildEntriesPick(root, ids, id);
    if e in ChildEntries(root, ids - {id}) {
      ChildEntriesAreChains(root, ids - {id}, e);
    } else {
      ChildChain(root, id, e);
    }
  }

  /** An entry of a child merged under the root is one of the root's chains. */
  lemma {:induction false} ChildChain(root: Node, id: string, e: Entry)
    requires id in root.resources && e in Entries(Merge([root, root.resources[id]]))
    ensures EntryOfChain(root, e)
    decreases Height(root), 0, 0
  {
    var m := Merge([root, root.resources[id]]);
    HeightChild(root, id);
    EntriesAreChains(m, e);
    var segs: seq<string>, chain: seq<Node> :| IsChain(m, segs, chain) && e == EntryOf(Merge([m] + chain));
    ExtendChain(root, id, segs, chain);
    ChainWitness(root, e, [id] + segs, [root.resources[id]] + chain);
  }

  lemma ChainWitness(root: Node, e: Entry, segs: seq<string>, chain: seq<Node>)
    requires IsChain(root, segs, chain) && e == EntryOf(Merge([root] + chain))
    ensures EntryOfChain(root, e)
  {
  }

  /** A chain below a child merged under the root, prefixed with that child,
      is a chain from the root with the same merge. */
  lemma ExtendChain(root: Node, id: string, segs: seq<string>, chain: seq<Node>)
    requires id in root.resources
    requires IsChain(Merge([root, root.resources[id]]), segs, chain)
    ensures IsChain(root, [id] + segs, [root.resources[id]] + chain)
    ensures Merge([Merge([root, root.resources[id]])] + chain) == Merge([root] + ([root.resources[id]] + chain))
  {
    var c := root.resources[id];
    ChainBelowPair(root, c, segs, chain);
    ChainCons(root, [id] + segs, [c] + chain);
    assert ([id] + segs)[1..] == segs && ([c] + chain)[1..] == chain;
    MergeBelowPair(root, c, chain);
  }
}
