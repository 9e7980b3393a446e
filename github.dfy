/** The GitHub catalogue of the repository, written as the nodes its `def` and
    `add` calls build, and one request resolved and prepared end to end. */
module GitHub {
  import opened Types
  import opened Text
  import opened Merging
  import opened Resolution
  import opened Invocation

  const Scheme: string := "https"
  const Host: string := "//api.github.com"
  const Base: string := Scheme + ":" + Host
  const Accept: Dict := map["Accept" := "application/vnd.github.v3+json"]
  const Paging: seq<ParamSpec> := [ParamSpec("page", "query", false), ParamSpec("per_page", "query", false)]

  function Leaf(path: string): Node {
    Node("GET", Some(path), map[], map[], [], map[])
  }

  function Catalogue(): Node {
    var repoEvents := Leaf("/events");
    var repo := Node("GET", Some("/:repo"), map[], map[], [ParamSpec("repo", "path", true)], map["events" := repoEvents]);
    var owner := Node("GET", Some("/:owner"), map[], map[], [ParamSpec("owner", "path", true)], map["repo" := repo]);
    var repos := Node("GET", Some("/repos"), map[], map[], [], map["owner" := owner]);
    var public := Leaf("/public");
    var received := Node("GET", Some("/received_events"), map[], map[], [], map["public" := public]);
    var user := Node("GET", Some("/:username"), map[], map[], [ParamSpec("username", "path", true)], map["received_events" := received]);
    var users := Node("GET", Some("/users"), map[], map[], [], map["user" := user]);
    Node("GET", Some(Base), Accept, map[], Paging, map["events" := Leaf("/events"), "repos" := repos, "users" := users])
  }

  /** The only colon of `a + ":" + b` is the one between them. */
  lemma OneColon(a: string, b: string)
    requires ':' !in a && ':' !in b
    ensures forall k :: 0 <= k < |a + ":" + b| && (a + ":" + b)[k] == ':' ==> k == |a|
  {
    var s := a + ":" + b;
    forall k | 0 <= k < |s|
      ensures s[k] == ':' ==> k == |a|
    {
      if k < |a| {
        assert s[k] == a[k];
      } else if k > |a| {
        assert s[k] == b[k - |a| - 1];
      }
    }
  }

  /** The scheme's colon is followed by a slash, so the base URL has no
      placeholder. */
  lemma BaseHasNoPlaceholders()
    ensures Placeholders(Base) == []
  {
    assert ':' !in Scheme && ':' !in Host;
    OneColon(Scheme, Host);
    assert Base[|Scheme| + 1] == '/';
    NoColonNoPlaceholders(Base, 0);
  }

  /** When every colon before a `:key` is followed by something other than the
      key's first letter, the first occurrence of `:key` is that one. */
  lemma ReplaceAfter(pre: string, key: string, post: string, rep: string)
    requires |key| > 0
    requires forall k :: 0 <= k < |pre| && pre[k] == ':' ==> k + 1 < |pre| && pre[k + 1] != key[0]
    ensures ReplaceFirst(pre + ":" + key + post, ":" + key, rep) == pre + rep + post
  {
    var s := pre + ":" + key + post;
    var pat := ":" + key;
    assert s[|pre|..|pre| + |pat|] == pat;
    forall k | 0 <= k < |pre|
      ensures !OccursAt(s, pat, k)
    {
      assert s[k] == pre[k];
      if k + 1 < |pre| {
        assert s[k + 1] == pre[k + 1];
      }
    }
    ReplaceFirstSpec(s, pat, rep, |pre|);
    assert s[|pre| + |pat|..] == post;
  }

  /** Colons in `Base + tail`, for a colon-free tail, are all followed by '/'. */
  lemma ColonsOfBase(tail: string)
    requires ':' !in tail
    ensures forall k :: 0 <= k < |Base + tail| && (Base + tail)[k] == ':' ==> k + 1 < |Base + tail| && (Base + tail)[k + 1] == '/'
  {
    assert ':' !in Scheme && ':' !in Host;
    assert ':' !in Host + tail by {
      forall i | 0 <= i < |Host + tail| ensures (Host + tail)[i] != ':' {
        if i < |Host| { assert (Host + tail)[i] == Host[i]; }
        else { assert (Host + tail)[i] == tail[i - |Host|]; }
      }
    }
    OneColon(Scheme, Host + tail);
    assert Base + tail == Scheme + ":" + (Host + tail);
  }

  /** The merged node of `repos.owner.repo.events`. */
  const RepoEventsPath: string := Base + "/repos/" + ":owner" + "/" + ":repo" + "/events"
  const RepoEventsSchema: seq<ParamSpec> := Paging + [ParamSpec("owner", "path", true), ParamSpec("repo", "path", true)]
  const RepoEvents: Node := Node("GET", Some(RepoEventsPath), Accept, map[], RepoEventsSchema, map[])

  lemma SplitRepoEvents()
    ensures Split("repos.owner.repo.events") == ["repos", "owner", "repo", "events"]
  {
    var segs := ["repos", "owner", "repo", "events"];
    assert segs[1..] == ["owner", "repo", "events"] && segs[1..][1..] == ["repo", "events"] && segs[1..][1..][1..] == ["events"];
    assert Join(["events"]) == "events";
    assert Join(["repo", "events"]) == "repo.events";
    assert Join(["owner", "repo", "events"]) == "owner.repo.events";
    assert Join(segs) == "repos.owner.repo.events";
    SplitJoin(segs);
  }

  /** The chain of children the four segments lead through. */
  function RepoEventsChain(): seq<Node> {
    var repos := Catalogue().resources["repos"];
    var owner := repos.resources["owner"];
    var repo := owner.resources["repo"];
    [repos, owner, repo, repo.resources["events"]]
  }

  lemma WalkRepoEvents()
    ensures Walk(Catalogue(), ["repos", "owner", "repo", "events"]) == Ok(RepoEventsChain())
  {
    var root := Catalogue();
    var segs := ["repos", "owner", "repo", "events"];
    var chain := RepoEventsChain();
    assert IsChain(root, segs, chain) by {
      assert chain[..0] == [] && chain[..1] == [chain[0]] && chain[..2] == [chain[0], chain[1]]
          && chain[..3] == [chain[0], chain[1], chain[2]];
    }
    WalkIsChain(root, segs, chain);
  }

  lemma MergeRepoEvents()
    ensures Merge([Catalogue()] + RepoEventsChain()) == RepoEvents
  {
    var root := Catalogue();
    var c := RepoEventsChain();
    MergeTwo(root, c[0]);
    MergeSnoc([root, c[0]], c[1]);
    assert [root, c[0]] + [c[1]] == [root, c[0], c[1]];
    MergeSnoc([root, c[0], c[1]], c[2]);
    assert [root, c[0], c[1]] + [c[2]] == [root, c[0], c[1], c[2]];
    MergeSnoc([root, c[0], c[1], c[2]], c[3]);
    assert [root, c[0], c[1], c[2]] + [c[3]] == [root] + c;
    assert Base + "/repos" + "/:owner" + "/:repo" + "/events" == RepoEventsPath;
    assert Paging + [] + [ParamSpec("owner", "path", true)] + [ParamSpec("repo", "path", true)] + [] == RepoEventsSchema;
    assert Accept + map[] + map[] + map[] + map[] == Accept;
  }

  /** `with(api, 'repos.owner.repo.events')` joins the four paths after the
      base URL and collects the paging and both path entries. */
  lemma ResolveRepoEvents()
    ensures Resolve(Catalogue(), "repos.owner.repo.events", map[], []) == Ok(RepoEvents)
  {
    SplitRepoEvents();
    WalkRepoEvents();
    MergeRepoEvents();
  }

  const Caller: Dict := map["owner" := "plouc", "repo" := "restnest"]
  const OwnerDone: string := Base + "/repos/" + "plouc" + "/"
  const Prepared: string := Base + "/repos/" + "plouc" + "/" + "restnest" + "/events"

  /** A path entry whose placeholder is the first of its kind in the path
      replaces that placeholder and consumes its key. */
  lemma StepAfter(req: Request, spec: ParamSpec, caller: Dict, pre: string, post: string)
    requires spec.location == "path" && |spec.key| > 0
    requires !spec.required || spec.key in req.params
    requires req.path == Some(pre + ":" + spec.key + post)
    requires forall k :: 0 <= k < |pre| && pre[k] == ':' ==> k + 1 < |pre| && pre[k + 1] != spec.key[0]
    ensures Step(req, spec, caller)
         == Ok(req.(path := Some(pre + ValueText(caller, spec.key) + post), params := req.params - {spec.key}))
  {
    ReplaceAfter(pre, spec.key, post, ValueText(caller, spec.key));
  }

  lemma StepOwner()
    ensures Step(Request("GET", Some(RepoEventsPath), Accept, Caller), ParamSpec("owner", "path", true), Caller)
         == Ok(Request("GET", Some(OwnerDone + ":" + "repo" + "/events"), Accept, map["repo" := "restnest"]))
  {
    var pre := Base + "/repos/";
    var post := "/" + ":repo" + "/events";
    ColonsOfBase("/repos/");
    assert RepoEventsPath == pre + ":" + "owner" + post;
    StepAfter(Request("GET", Some(RepoEventsPath), Accept, Caller), ParamSpec("owner", "path", true), Caller, pre, post);
    assert ValueText(Caller, "owner") == "plouc";
    assert pre + "plouc" + post == OwnerDone + ":" + "repo" + "/events";
    assert Caller - {"owner"} == map["repo" := "restnest"];
  }

  lemma StepRepo()
    ensures Step(Request("GET", Some(OwnerDone + ":" + "repo" + "/events"), Accept, map["repo" := "restnest"]),
                 ParamSpec("repo", "path", true), Caller)
         == Ok(Request("GET", Some(Prepared), Accept, map[]))
  {
    ColonsOfBase("/repos/plouc/");
    assert OwnerDone == Base + "/repos/plouc/";
    StepAfter(Request("GET", Some(OwnerDone + ":" + "repo" + "/events"), Accept, map["repo" := "restnest"]),
              ParamSpec("repo", "path", true), Caller, OwnerDone, "/events");
    assert ValueText(Caller, "repo") == "restnest";
    assert OwnerDone + "restnest" + "/events" == Prepared;
    assert map["repo" := "restnest"] - {"repo"} == map[];
  }

  /** Calling it with an owner and a repository fills both placeholders and
      consumes both params; the paging entries change nothing. */
  lemma CallRepoEvents()
    ensures Invoke(RepoEvents, Caller) == Ok(Request("GET", Some(Prepared), Accept, map[]))
  {
    var schema := RepoEventsSchema;
    var r0 := Initial(RepoEvents, Caller);
    assert r0 == Request("GET", Some(RepoEventsPath), Accept, Caller) by {
      assert map[] + Caller == Caller;
    }
    StepOwner();
    StepRepo();
    var r1 := Request("GET", Some(OwnerDone + ":" + "repo" + "/events"), Accept, map["repo" := "restnest"]);
    var r2 := Request("GET", Some(Prepared), Accept, map[]);
    assert schema[2..] == [schema[2], schema[3]] && schema[3..] == [schema[3]] && schema[4..] == [];
    assert Run(r1, schema[3..], Caller) == Ok(r2);
    assert Run(r0, schema[2..], Caller) == Ok(r2);
    assert schema[1..][1..] == schema[2..];
    assert Run(r0, schema, Caller) == Ok(r2);
  }

  /** The corrected call agrees here: the caller supplies both path values. */
  lemma CallRepoEventsBound()
    ensures InvokeBound(RepoEvents, Caller) == Ok(Request("GET", Some(Prepared), Accept, map[]))
  {
    CallRepoEvents();
    assert CallerSuppliesPath(RepoEventsSchema, Caller);
    InvokeAgree(RepoEvents, Caller);
  }
}
