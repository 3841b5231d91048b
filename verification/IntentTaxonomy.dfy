/** The versioned intent taxonomy: construction and validation of the forest, traversal, evolution. */
module IntentTaxonomy {
  import opened Wrappers
  import opened IntentSchema

  const MAX_TAXONOMY_DEPTH: nat := 8

  datatype Status = Experimental | Active | Deprecated | Retired

  datatype IntentNode = Node(id: string, parent: Option<string>, version: string, status: Status, description: string)

  predicate Blank(s: string) {
    forall c | c in s :: c in {' ', '\t', '\n', '\r'}
  }

  datatype ConfigurationError =
    | BlankVersion
    | DuplicateId(id: string)
    | MissingParent(id: string)
    | OwnParent(id: string)
    | CycleAt(id: string)
    | TooDeep(id: string)
    | VersionExists(version: string)
    | AlreadyExists(id: string)
    | CannotReplace(id: string)
    | CannotRetire(id: string)

  // ---------------------------------------------------------------- resolving

  /** The id without its last dotted part. */
  function ImpliedParent(id: string): Option<string>
    decreases |id|
  {
    if id == "" then None
    else if id[|id| - 1] == '.' then Some(id[..|id| - 1])
    else
      ImpliedParent(id[..|id| - 1])
  }

  /** A node is stamped with the version it enters and with its explicit or implied parent. */
  function Resolve(version: string, n: IntentNode): IntentNode {
    n.(version := version,
       parent := if n.parent.Some? && n.parent.value != "" then n.parent else ImpliedParent(n.id))
  }

  /** The parent a dotted id implies: all but its last part, or none for a single part. */
  ghost predicate Implies(id: string, parent: Option<string>) {
    match parent
    case Some(p) => exists part: string :: '.' !in part && id == p + "." + part
    case None => '.' !in id
  }

  lemma {:induction false} ImpliedMeaning(id: string)
    ensures Implies(id, ImpliedParent(id))
    decreases |id|
  {
    if id != "" {
      var n := |id| - 1;
      if id[n] == '.' {
        assert id == id[..n] + "." + "";
      } else {
        ImpliedMeaning(id[..n]);
        if ImpliedParent(id).Some? {
          var p := ImpliedParent(id).value;
          var part: string :| '.' !in part && id[..n] == p + "." + part;
          assert id == p + "." + (part + [id[n]]);
        } else {
          assert id == id[..n] + [id[n]];
        }
      }
    }
  }

  /** An id implies no more than one parent. */
  lemma ImpliedOnce(id: string, p: string, part: string, q: Option<string>)
    requires id == p + "." + part && '.' !in part && Implies(id, q)
    ensures q == Some(p)
  {
    assert id[|p|] == '.';
    match q {
      case None =>
      case Some(other) =>
        var rest: string :| '.' !in rest && id == other + "." + rest;
        NothingBehindLastDot(id, p, part);
        NothingBehindLastDot(id, other, rest);
        assert p == id[..|p|] && other == id[..|other|];
    }
  }

  lemma NothingBehindLastDot(id: string, p: string, part: string)
    requires id == p + "." + part && '.' !in part
    ensures |p| < |id| && id[|p|] == '.' && forall i | |p| < i < |id| :: id[i] != '.'
  {
    forall i | |p| < i < |id| ensures id[i] != '.' {
      assert id[i] == part[i - |p| - 1];
    }
  }

  /** How a node given for a version stands in the taxonomy: unchanged but for version and parent. */
  ghost predicate EntersAs(version: string, given: IntentNode, node: IntentNode) {
    && node == given.(version := version, parent := node.parent)
    && (if given.parent.Some? && given.parent.value != "" then node.parent == given.parent
        else Implies(given.id, node.parent))
  }

  lemma ResolvedEnters(version: string, n: IntentNode)
    ensures EntersAs(version, n, Resolve(version, n))
  {
    ImpliedMeaning(n.id);
  }

  type Nodes = map<string, IntentNode>

  function ResolveAll(version: string, nodes: seq<IntentNode>): Nodes {
    if nodes == [] then map[]
    else
      var last := nodes[|nodes| - 1];
      ResolveAll(version, nodes[..|nodes| - 1])[last.id := Resolve(version, last)]
  }

  predicate DistinctIds(nodes: seq<IntentNode>) {
    forall i, j | 0 <= i < j < |nodes| :: nodes[i].id != nodes[j].id
  }

  lemma {:induction false} ResolveAllKeys(version: string, nodes: seq<IntentNode>)
    ensures forall id :: id in ResolveAll(version, nodes) <==> exists n | n in nodes :: n.id == id
  {
    if nodes != [] {
      var k := |nodes| - 1;
      ResolveAllKeys(version, nodes[..k]);
      assert nodes == nodes[..k] + [nodes[k]];
      assert nodes[k] in nodes;
    }
  }

  // ------------------------------------------------------------ walking upwards

  /** The `k`-th ancestor, the node itself being the 0-th. */
  function Ancestor(nodes: Nodes, id: string, k: nat): Option<string> {
    if k == 0 then Some(id)
    else
      match Ancestor(nodes, id, k - 1)
      case Some(x) => if x in nodes then nodes[x].parent else None
      case None => None
  }

  /** The chain of parents ends after `k` steps. */
  predicate EndsAfter(nodes: Nodes, id: string, k: nat) {
    Ancestor(nodes, id, k).Some? && Ancestor(nodes, id, k + 1).None?
  }

  /** The chain of parents reaches a root within the depth limit. */
  predicate Rooted(nodes: Nodes, id: string) {
    exists k: nat | k <= 8 :: EndsAfter(nodes, id, k)
  }

  predicate ParentExists(nodes: Nodes, id: string) {
    id in nodes && nodes[id].parent.Some? ==> nodes[id].parent.value in nodes
  }

  predicate ParentsExist(nodes: Nodes) {
    forall id {:trigger ParentExists(nodes, id)} | id in nodes :: ParentExists(nodes, id)
  }

  predicate Forest(nodes: Nodes) {
    ParentsExist(nodes) && forall id {:trigger Rooted(nodes, id)} | id in nodes :: Rooted(nodes, id)
  }

  lemma {:induction false} AncestorMonotone(nodes: Nodes, id: string, k: nat, m: nat)
    requires k <= m && Ancestor(nodes, id, m).Some?
    ensures Ancestor(nodes, id, k).Some?
    decreases m
  {
    if k < m {
      AncestorMonotone(nodes, id, k, m - 1);
    }
  }

  lemma {:induction false} AncestorRepeats(nodes: Nodes, id: string, i: nat, j: nat, m: nat)
    requires Ancestor(nodes, id, i) == Ancestor(nodes, id, j)
    ensures Ancestor(nodes, id, i + m) == Ancestor(nodes, id, j + m)
  {
    if m > 0 {
      AncestorRepeats(nodes, id, i, j, m - 1);
    }
  }

  /** A chain that ends never visits a node twice. */
  lemma EndingChainHasNoRepeats(nodes: Nodes, id: string, k: nat, i: nat, j: nat)
    requires EndsAfter(nodes, id, k) && i < j <= k
    ensures Ancestor(nodes, id, i) != Ancestor(nodes, id, j)
  {
    AncestorMonotone(nodes, id, i + (k + 1 - j), k);
    if Ancestor(nodes, id, i) == Ancestor(nodes, id, j) {
      AncestorRepeats(nodes, id, i, j, k + 1 - j);
    }
  }

  lemma {:induction false} AncestorsInNodes(nodes: Nodes, id: string, k: nat)
    requires ParentsExist(nodes) && id in nodes && Ancestor(nodes, id, k).Some?
    ensures Ancestor(nodes, id, k).value in nodes
  {
    if k > 0 {
      AncestorsInNodes(nodes, id, k - 1);
      assert ParentExists(nodes, Ancestor(nodes, id, k - 1).value);
    }
  }

  // ---------------------------------------------------------------- validation

  /** The ids visited after `depth` steps are the ancestors up to there. */
  ghost predicate Visited(nodes: Nodes, id: string, depth: nat, seen: set<string>) {
    && (forall k: nat | k <= depth :: Ancestor(nodes, id, k).Some? && Ancestor(nodes, id, k).value in seen)
    && forall x | x in seen :: exists k: nat | k <= depth :: Ancestor(nodes, id, k) == Some(x)
  }

  lemma VisitedStart(nodes: Nodes, id: string)
    requires id in nodes
    ensures Visited(nodes, id, 0, {id}) && Ancestor(nodes, id, 1) == nodes[id].parent
  {
    assert Ancestor(nodes, id, 0) == Some(id);
  }

  lemma VisitedStep(nodes: Nodes, id: string, depth: nat, seen: set<string>)
    requires Visited(nodes, id, depth, seen) && Ancestor(nodes, id, depth + 1).Some?
    ensures Visited(nodes, id, depth + 1, seen + {Ancestor(nodes, id, depth + 1).value})
  {
    var next := Ancestor(nodes, id, depth + 1).value;
    forall x | x in seen + {next} ensures exists k: nat | k <= depth + 1 :: Ancestor(nodes, id, k) == Some(x) {
      if x in seen {
        var k: nat :| k <= depth && Ancestor(nodes, id, k) == Some(x);
      }
    }
  }

  /** Follow the parents of one node, refusing a repetition and a chain that is too long. */
  method CheckChain(nodes: Nodes, id: string) returns (error: Option<ConfigurationError>)
    requires id in nodes && ParentsExist(nodes)
    ensures error.None? <==> Rooted(nodes, id)
    ensures error.Some? ==> error.value.CycleAt? || error.value == TooDeep(id)
  {
    var seen := {id};
    var current := nodes[id].parent;
    var depth: nat := 0;
    VisitedStart(nodes, id);
    hide Visited, ParentsExist, Rooted;
    while current.Some?
      invariant depth <= MAX_TAXONOMY_DEPTH
      invariant current == Ancestor(nodes, id, depth + 1) && Ancestor(nodes, id, depth).Some?
      invariant Visited(nodes, id, depth, seen)
      decreases MAX_TAXONOMY_DEPTH + 1 - depth
    {
      if current.value in seen {
        SeenNeverEnds(nodes, id, depth, seen);
        return Some(CycleAt(current.value));
      }
      VisitedStep(nodes, id, depth, seen);
      depth := depth + 1;
      if depth > MAX_TAXONOMY_DEPTH {
        TooLongNotRooted(nodes, id);
        return Some(TooDeep(id));
      }
      seen := seen + {current.value};
      current := if current.value in nodes then nodes[current.value].parent else None;
    }
    EndedIsRooted(nodes, id, depth);
    return None;
  }

  lemma EndedIsRooted(nodes: Nodes, id: string, depth: nat)
    requires depth <= MAX_TAXONOMY_DEPTH && Ancestor(nodes, id, depth).Some? && Ancestor(nodes, id, depth + 1).None?
    ensures Rooted(nodes, id)
  {
    assert EndsAfter(nodes, id, depth);
  }

  lemma SeenNeverEnds(nodes: Nodes, id: string, depth: nat, seen: set<string>)
    requires Visited(nodes, id, depth, seen)
    requires Ancestor(nodes, id, depth + 1).Some? && Ancestor(nodes, id, depth + 1).value in seen
    ensures !Rooted(nodes, id)
  {
    var k: nat :| k <= depth && Ancestor(nodes, id, k) == Ancestor(nodes, id, depth + 1);
    RepeatNeverEnds(nodes, id, k, depth + 1);
  }

  lemma RepeatNeverEnds(nodes: Nodes, id: string, i: nat, j: nat)
    requires i < j && Ancestor(nodes, id, i) == Ancestor(nodes, id, j) && Ancestor(nodes, id, j).Some?
    ensures !Rooted(nodes, id)
  {
    forall k: nat | k <= MAX_TAXONOMY_DEPTH ensures !EndsAfter(nodes, id, k) {
      if EndsAfter(nodes, id, k) {
        if j <= k {
          EndingChainHasNoRepeats(nodes, id, k, i, j);
        } else {
          AncestorMonotone(nodes, id, k + 1, j);
        }
      }
    }
  }

  lemma TooLongNotRooted(nodes: Nodes, id: string)
    requires Ancestor(nodes, id, MAX_TAXONOMY_DEPTH + 1).Some?
    ensures !Rooted(nodes, id)
  {
    forall k: nat | k <= MAX_TAXONOMY_DEPTH ensures !EndsAfter(nodes, id, k) {
      AncestorMonotone(nodes, id, k + 1, MAX_TAXONOMY_DEPTH + 1);
    }
  }

  // -------------------------------------------------------------- construction

  /** A validated taxonomy: its nodes, their order, and the direct children of each. */
  datatype Taxonomy = Taxonomy(version: string, nodes: Nodes, order: seq<string>, children: map<string, set<string>>)

  /** `order` lists the ids of the nodes, each once. */
  ghost predicate Lists(order: seq<string>, nodes: Nodes) {
    && (forall id :: id in nodes <==> id in order)
    && Distinct(order)
  }

  ghost predicate Valid(t: Taxonomy) {
    && !Blank(t.version) && Forest(t.nodes)
    && Lists(t.order, t.nodes)
    && (forall id | id in t.nodes :: t.nodes[id].id == id && t.nodes[id] == Resolve(t.version, t.nodes[id]))
    && t.children.Keys == t.nodes.Keys
    && forall id, c | id in t.children :: c in t.children[id] <==> (c in t.nodes && t.nodes[c].parent == Some(id))
  }

  /** What a list of nodes must satisfy to become a taxonomy of this version. */
  predicate Acceptable(version: string, nodes: seq<IntentNode>) {
    !Blank(version) && DistinctIds(nodes) && Forest(ResolveAll(version, nodes))
  }

  /** Resolve the nodes one by one, refusing a repeated id. */
  method ResolveNodes(version: string, nodes: seq<IntentNode>)
    returns (resolved: Result<Nodes, ConfigurationError>, order: seq<string>)
    ensures resolved.Success? <==> DistinctIds(nodes)
    ensures resolved.Success? ==>
      resolved.value == ResolveAll(version, nodes) && Lists(order, resolved.value)
    ensures resolved.Failure? ==> resolved.error.DuplicateId?
  {
    var table: Nodes := map[];
    order := [];
    for i := 0 to |nodes|
      invariant table == ResolveAll(version, nodes[..i])
      invariant DistinctIds(nodes[..i])
      invariant Lists(order, table)
    {
      ResolveAllKeys(version, nodes[..i]);
      assert nodes[..i + 1] == nodes[..i] + [nodes[i]];
      if nodes[i].id in table {
        var n :| n in nodes[..i] && n.id == nodes[i].id;
        return Failure(DuplicateId(nodes[i].id)), order;
      }
      assert nodes[..i + 1][..i] == nodes[..i];
      table := table[nodes[i].id := Resolve(version, nodes[i])];
      order := order + [nodes[i].id];
    }
    assert nodes[..|nodes|] == nodes;
    return Success(table), order;
  }

  method Validate(nodes: Nodes, order: seq<string>) returns (error: Option<ConfigurationError>)
    requires Lists(order, nodes)
    ensures error.None? <==> Forest(nodes)
  {
    hide Rooted;
    for i := 0 to |order|
      invariant forall j | 0 <= j < i && nodes[order[j]].parent.Some? :: nodes[order[j]].parent.value in nodes
      invariant forall j | 0 <= j < i :: nodes[order[j]].parent != Some(order[j])
    {
      var id := order[i];
      assert id in nodes;
      var parent := nodes[id].parent;
      if parent.None? {
        continue;
      }
      if parent.value !in nodes {
        assert !ParentExists(nodes, id);
        return Some(MissingParent(id));
      }
      if parent.value == id {
        OwnParentNotRooted(nodes, id);
        assert !Rooted(nodes, id);
        return Some(OwnParent(id));
      }
    }
    forall id | id in nodes ensures ParentExists(nodes, id) {
      var j :| 0 <= j < |order| && order[j] == id;
    }
    for i := 0 to |order|
      invariant forall j | 0 <= j < i :: Rooted(nodes, order[j])
    {
      assert order[i] in nodes;
      error := CheckChain(nodes, order[i]);
      if error.Some? {
        return;
      }
    }
    forall id | id in nodes ensures Rooted(nodes, id) {
      var j :| 0 <= j < |order| && order[j] == id;
    }
    return None;
  }

  lemma OwnParentNotRooted(nodes: Nodes, id: string)
    requires id in nodes && nodes[id].parent == Some(id)
    ensures !Rooted(nodes, id)
  {
    assert Ancestor(nodes, id, 0) == Some(id);
    assert Ancestor(nodes, id, 1) == Some(id);
    RepeatNeverEnds(nodes, id, 0, 1);
  }

  /** Each id has exactly its children among those listed. */
  ghost predicate Grouped(nodes: Nodes, listed: seq<string>, children: map<string, set<string>>) {
    forall id, c | id in children ::
      c in children[id] <==> (c in listed && c in nodes && nodes[c].parent == Some(id))
  }

  lemma GroupedStep(
      nodes: Nodes, listed: seq<string>, c: string, before: map<string, set<string>>, after: map<string, set<string>>)
    requires Grouped(nodes, listed, before) && c in nodes
    requires nodes[c].parent.None? ==> after == before
    requires var p := nodes[c].parent;
      p.Some? ==> p.value in before && after == before[p.value := before[p.value] + {c}]
    ensures Grouped(nodes, listed + [c], after)
  {
    forall id, x | id in after
      ensures x in after[id] <==> (x in listed + [c] && x in nodes && nodes[x].parent == Some(id))
    {
      assert x in before[id] <==> (x in listed && x in nodes && nodes[x].parent == Some(id));
    }
  }

  lemma GroupedAll(nodes: Nodes, order: seq<string>, children: map<string, set<string>>)
    requires Grouped(nodes, order, children) && Lists(order, nodes)
    ensures forall id, c | id in children ::
      c in children[id] <==> (c in nodes && nodes[c].parent == Some(id))
  {
  }

  /** Group every node under its parent. */
  method GroupChildren(nodes: Nodes, order: seq<string>) returns (children: map<string, set<string>>)
    requires ParentsExist(nodes) && Lists(order, nodes)
    ensures children.Keys == nodes.Keys
    ensures forall id, c | id in children ::
      c in children[id] <==> (c in nodes && nodes[c].parent == Some(id))
  {
    children := map id | id in nodes :: {};
    assert Grouped(nodes, order[..0], children);
    hide Grouped;
    for i := 0 to |order|
      invariant children.Keys == nodes.Keys
      invariant Grouped(nodes, order[..i], children)
    {
      var c := order[i];
      assert c in nodes;
      assert order[..i + 1] == order[..i] + [c];
      ghost var before := children;
      if nodes[c].parent.Some? {
        var p := nodes[c].parent.value;
        assert ParentExists(nodes, c);
        children := children[p := children[p] + {c}];
      }
      GroupedStep(nodes, order[..i], c, before, children);
    }
    assert order[..|order|] == order;
    GroupedAll(nodes, order, children);
  }

  /**
    Construction succeeds if and only if the version is not blank, the ids are distinct, every
    parent exists and every chain of parents reaches a root within eight steps.
   */
  method Build(version: string, nodes: seq<IntentNode>) returns (r: Result<Taxonomy, ConfigurationError>)
    ensures r.Success? <==> Acceptable(version, nodes)
    ensures r.Success? ==>
      Valid(r.value) && r.value.version == version && r.value.nodes == ResolveAll(version, nodes)
    ensures r.Success? ==>
      forall n | n in nodes :: n.id in r.value.nodes && EntersAs(version, n, r.value.nodes[n.id])
  {
    hide Rooted, ResolveAll, DistinctIds, EntersAs;
    if Blank(version) {
      return Failure(BlankVersion);
    }
    var resolved, order := ResolveNodes(version, nodes);
    if resolved.Failure? {
      return Failure(resolved.error);
    }
    var table := resolved.value;
    var error := Validate(table, order);
    if error.Some? {
      return Failure(error.value);
    }
    var children := GroupChildren(table, order);
    ResolvedStamped(version, nodes);
    AllEnter(version, nodes);
    return Success(Taxonomy(version, table, order, children));
  }

  lemma {:induction false} AllEnter(version: string, nodes: seq<IntentNode>)
    requires DistinctIds(nodes)
    ensures forall n | n in nodes ::
      n.id in ResolveAll(version, nodes) && EntersAs(version, n, ResolveAll(version, nodes)[n.id])
  {
    if nodes != [] {
      hide EntersAs, Resolve;
      var k := |nodes| - 1;
      AllEnter(version, nodes[..k]);
      ResolvedEnters(version, nodes[k]);
      assert nodes == nodes[..k] + [nodes[k]];
      forall n | n in nodes[..k] ensures n.id != nodes[k].id {
        var i :| 0 <= i < k && nodes[i] == n;
      }
    }
  }

  lemma {:induction false} ResolvedStamped(version: string, nodes: seq<IntentNode>)
    ensures forall id | id in ResolveAll(version, nodes) ::
      ResolveAll(version, nodes)[id].id == id
      && ResolveAll(version, nodes)[id] == Resolve(version, ResolveAll(version, nodes)[id])
  {
    if nodes != [] {
      ResolvedStamped(version, nodes[..|nodes| - 1]);
    }
  }

  // ----------------------------------------------------------------- traversal

  /** `chain` is the parents of the node, nearest first, as far as it goes. */
  ghost predicate Climbs(nodes: Nodes, id: string, chain: seq<string>) {
    forall i | 0 <= i < |chain| :: Ancestor(nodes, id, i + 1) == Some(chain[i])
  }

  /** The whole chain up to the root, without repetition, within the taxonomy. */
  ghost predicate ChainToRoot(nodes: Nodes, id: string, chain: seq<string>) {
    && Climbs(nodes, id, chain) && EndsAfter(nodes, id, |chain|)
    && (forall i, j | 0 <= i < j < |chain| :: chain[i] != chain[j])
    && id !in chain
    && forall x | x in chain :: x in nodes
  }

  /** The walk is capped at eight steps; in a valid taxonomy the cap never cuts it short. */
  method Ancestors(t: Taxonomy, id: string) returns (r: Option<seq<string>>)
    requires Valid(t)
    ensures r.None? <==> id !in t.nodes
    ensures r.Some? ==> ChainToRoot(t.nodes, id, r.value) && |r.value| <= 8
  {
    if id !in t.nodes {
      return None;
    }
    var chain := Climb(t.nodes, id);
    return Some(chain);
  }

  method Climb(nodes: Nodes, id: string) returns (chain: seq<string>)
    requires Forest(nodes) && id in nodes
    ensures ChainToRoot(nodes, id, chain) && |chain| <= MAX_TAXONOMY_DEPTH
  {
    hide Forest, ChainToRoot;
    chain := [];
    var current := nodes[id].parent;
    while current.Some? && |chain| < MAX_TAXONOMY_DEPTH
      invariant |chain| <= MAX_TAXONOMY_DEPTH
      invariant current == Ancestor(nodes, id, |chain| + 1)
      invariant Climbs(nodes, id, chain)
      decreases MAX_TAXONOMY_DEPTH - |chain|
    {
      chain := chain + [current.value];
      current := if current.value in nodes then nodes[current.value].parent else None;
    }
    WholeChain(nodes, id, chain);
  }

  lemma WholeChain(nodes: Nodes, id: string, chain: seq<string>)
    requires Forest(nodes) && id in nodes && |chain| <= MAX_TAXONOMY_DEPTH && Climbs(nodes, id, chain)
    requires |chain| == MAX_TAXONOMY_DEPTH || Ancestor(nodes, id, |chain| + 1).None?
    ensures ChainToRoot(nodes, id, chain)
  {
    ChainEnds(nodes, id, chain);
    EndedChain(nodes, id, chain);
  }

  lemma EndedChain(nodes: Nodes, id: string, chain: seq<string>)
    requires ParentsExist(nodes) && id in nodes && Climbs(nodes, id, chain) && EndsAfter(nodes, id, |chain|)
    ensures ChainToRoot(nodes, id, chain)
  {
    hide ParentsExist, Climbs, EndsAfter;
    forall i, j | 0 <= i < j < |chain| ensures chain[i] != chain[j] {
      ChainDistinct(nodes, id, chain, i + 1, j + 1);
    }
    forall i | 0 <= i < |chain| ensures chain[i] != id && chain[i] in nodes {
      ChainDistinct(nodes, id, chain, 0, i + 1);
      ChainInNodes(nodes, id, chain, i);
    }
  }

  lemma ChainInNodes(nodes: Nodes, id: string, chain: seq<string>, i: nat)
    requires ParentsExist(nodes) && id in nodes && Climbs(nodes, id, chain) && i < |chain|
    ensures chain[i] in nodes
  {
    assert Ancestor(nodes, id, i + 1) == Some(chain[i]);
    AncestorsInNodes(nodes, id, i + 1);
  }

  lemma ChainEnds(nodes: Nodes, id: string, chain: seq<string>)
    requires Forest(nodes) && id in nodes && |chain| <= MAX_TAXONOMY_DEPTH && Climbs(nodes, id, chain)
    requires |chain| == MAX_TAXONOMY_DEPTH || Ancestor(nodes, id, |chain| + 1).None?
    ensures EndsAfter(nodes, id, |chain|)
  {
    assert Rooted(nodes, id);
    hide Forest, Climbs, Ancestor;
    var k: nat :| k <= MAX_TAXONOMY_DEPTH && EndsAfter(nodes, id, k);
    hide Rooted, EndsAfter;
    ChainLength(nodes, id, chain, k);
  }

  /** A walk that was stopped by the cap or by the end of the chain has seen all of the chain. */
  lemma ChainLength(nodes: Nodes, id: string, chain: seq<string>, k: nat)
    requires |chain| <= MAX_TAXONOMY_DEPTH && Climbs(nodes, id, chain)
    requires |chain| == MAX_TAXONOMY_DEPTH || Ancestor(nodes, id, |chain| + 1).None?
    requires k <= MAX_TAXONOMY_DEPTH && EndsAfter(nodes, id, k)
    ensures k == |chain|
  {
    if |chain| < k {
      AncestorMonotone(nodes, id, |chain| + 1, k);
    } else if k < |chain| {
      assert Ancestor(nodes, id, (|chain| - 1) + 1) == Some(chain[|chain| - 1]);
      AncestorMonotone(nodes, id, k + 1, |chain|);
    }
  }

  lemma ChainDistinct(nodes: Nodes, id: string, chain: seq<string>, i: nat, j: nat)
    requires Climbs(nodes, id, chain) && EndsAfter(nodes, id, |chain|) && i < j <= |chain|
    ensures (if i == 0 then id else chain[i - 1]) != chain[j - 1]
  {
    EndingChainHasNoRepeats(nodes, id, |chain|, i, j);
    assert Ancestor(nodes, id, (j - 1) + 1) == Some(chain[j - 1]);
    assert i > 0 ==> Ancestor(nodes, id, (i - 1) + 1) == Some(chain[i - 1]);
  }

  /** Children and parents are each other's inverse. */
  lemma ChildrenInverse(t: Taxonomy, parent: string, child: string)
    requires Valid(t)
    ensures (parent in t.children && child in t.children[parent])
       <==> (child in t.nodes && t.nodes[child].parent == Some(parent))
  {
    hide Rooted, Blank;
    assert child in t.nodes ==> ParentExists(t.nodes, child);
  }

  // ------------------------------------------------------------------ evolution

  function AddAll(nodes: Nodes, add: seq<IntentNode>): Result<Nodes, ConfigurationError>
    decreases |add|
  {
    if add == [] then Success(nodes)
    else if add[0].id in nodes then Failure(AlreadyExists(add[0].id))
    else AddAll(nodes[add[0].id := add[0]], add[1..])
  }

  function ReplaceAll(nodes: Nodes, replacements: seq<IntentNode>): Result<Nodes, ConfigurationError>
    decreases |replacements|
  {
    if replacements == [] then Success(nodes)
    else if replacements[0].id !in nodes then Failure(CannotReplace(replacements[0].id))
    else ReplaceAll(nodes[replacements[0].id := replacements[0]], replacements[1..])
  }

  function RetireAll(nodes: Nodes, retire: seq<string>): Result<Nodes, ConfigurationError>
    decreases |retire|
  {
    if retire == [] then Success(nodes)
    else if retire[0] !in nodes then Failure(CannotRetire(retire[0]))
    else RetireAll(nodes[retire[0] := nodes[retire[0]].(status := Retired)], retire[1..])
  }

  function Ids(nodes: seq<IntentNode>): set<string> {
    set n | n in nodes :: n.id
  }

  /** Adding takes exactly new ids and disturbs no old node. */
  lemma {:induction false} AddAllMeaning(nodes: Nodes, add: seq<IntentNode>)
    ensures var r := AddAll(nodes, add);
      r.Success? ==>
        && r.value.Keys == nodes.Keys + Ids(add) && nodes.Keys !! Ids(add)
        && (forall id | id in nodes :: r.value[id] == nodes[id])
        && (forall n | n in add :: r.value[n.id] == n) && DistinctIds(add)
    decreases |add|
  {
    if add != [] && add[0].id !in nodes {
      AddAllMeaning(nodes[add[0].id := add[0]], add[1..]);
      assert Ids(add) == {add[0].id} + Ids(add[1..]) by {
        assert forall n :: n in add <==> n == add[0] || n in add[1..];
      }
      forall j | 1 <= j < |add| && AddAll(nodes, add).Success? ensures add[0].id != add[j].id {
        assert add[j] == add[1..][j - 1] && add[j] in add[1..];
      }
      forall i, j | 1 <= i < j < |add| && AddAll(nodes, add).Success? ensures add[i].id != add[j].id {
        assert add[i] == add[1..][i - 1] && add[j] == add[1..][j - 1];
      }
    }
  }

  /** Replacing changes only the named nodes and adds none. */
  lemma {:induction false} ReplaceAllMeaning(nodes: Nodes, replacements: seq<IntentNode>)
    ensures var r := ReplaceAll(nodes, replacements);
      r.Success? ==>
        && r.value.Keys == nodes.Keys
        && (forall id | id in nodes && id !in Ids(replacements) :: r.value[id] == nodes[id])
        && (forall id | id in nodes && nodes[id].id == id :: r.value[id].id == id)
    decreases |replacements|
  {
    if replacements != [] && replacements[0].id in nodes {
      ReplaceAllMeaning(nodes[replacements[0].id := replacements[0]], replacements[1..]);
      assert forall n :: n in replacements <==> n == replacements[0] || n in replacements[1..];
    }
  }

  /** Retiring marks the named nodes and changes nothing else. */
  lemma {:induction false} RetireAllMeaning(nodes: Nodes, retire: seq<string>)
    ensures var r := RetireAll(nodes, retire);
      r.Success? ==>
        && r.value.Keys == nodes.Keys
        && forall id | id in nodes ::
             r.value[id] == if id in retire then nodes[id].(status := Retired) else nodes[id]
    decreases |retire|
  {
    if retire != [] && retire[0] in nodes {
      RetireAllMeaning(nodes[retire[0] := nodes[retire[0]].(status := Retired)], retire[1..]);
    }
  }

  /** The nodes of the next version before they are validated. */
  function Merged(nodes: Nodes, add: seq<IntentNode>, replacements: seq<IntentNode>, retire: seq<string>)
    : Result<Nodes, ConfigurationError>
  {
    match AddAll(nodes, add)
    case Failure(e) => Failure(e)
    case Success(added) =>
      match ReplaceAll(added, replacements)
      case Failure(e) => Failure(e)
      case Success(replaced) => RetireAll(replaced, retire)
  }

  function Restamped(version: string, nodes: Nodes): Nodes {
    map id | id in nodes :: Resolve(version, nodes[id])
  }

  method Merge(t: Taxonomy, add: seq<IntentNode>, replacements: seq<IntentNode>, retire: seq<string>)
    returns (r: Result<Nodes, ConfigurationError>, order: seq<string>)
    ensures r == Merged(t.nodes, add, replacements, retire)
    ensures r.Success? ==> order == t.order + seq(|add|, i requires 0 <= i < |add| => add[i].id)
  {
    var merged := t.nodes;
    order := t.order;
    for i := 0 to |add|
      invariant AddAll(merged, add[i..]) == AddAll(t.nodes, add)
      invariant order == t.order + seq(i, k requires 0 <= k < i => add[k].id)
    {
      assert add[i..][0] == add[i] && add[i..][1..] == add[i + 1..];
      if add[i].id in merged {
        return Failure(AlreadyExists(add[i].id)), order;
      }
      merged := merged[add[i].id := add[i]];
      order := order + [add[i].id];
    }
    assert add[|add|..] == [];
    ghost var added := merged;
    for i := 0 to |replacements|
      invariant ReplaceAll(merged, replacements[i..]) == ReplaceAll(added, replacements)
    {
      assert replacements[i..][0] == replacements[i] && replacements[i..][1..] == replacements[i + 1..];
      if replacements[i].id !in merged {
        return Failure(CannotReplace(replacements[i].id)), order;
      }
      merged := merged[replacements[i].id := replacements[i]];
    }
    assert replacements[|replacements|..] == [];
    ghost var replaced := merged;
    for i := 0 to |retire|
      invariant RetireAll(merged, retire[i..]) == RetireAll(replaced, retire)
    {
      assert retire[i..][0] == retire[i] && retire[i..][1..] == retire[i + 1..];
      if retire[i] !in merged {
        return Failure(CannotRetire(retire[i])), order;
      }
      merged := merged[retire[i] := merged[retire[i]].(status := Retired)];
    }
    assert retire[|retire|..] == [];
    return Success(merged), order;
  }

  lemma {:induction false} ResolveListed(version: string, nodes: Nodes, order: seq<string>)
    requires Distinct(order) && forall id | id in order :: id in nodes && nodes[id].id == id
    ensures var listed := seq(|order|, i requires 0 <= i < |order| => nodes[order[i]]);
      DistinctIds(listed) && ResolveAll(version, listed) == map id | id in order :: Resolve(version, nodes[id])
  {
    if order != [] {
      hide Resolve;
      var n := |order| - 1;
      ResolveListed(version, nodes, order[..n]);
      var listed := seq(|order|, i requires 0 <= i < |order| => nodes[order[i]]);
      assert listed[..n] == seq(n, i requires 0 <= i < n => nodes[order[..n][i]]);
      assert order == order[..n] + [order[n]];
    }
  }

  /** What one step of evolution asks for. */
  datatype Change = Change(add: seq<IntentNode>, replacements: seq<IntentNode>, retire: seq<string>)

  /** The change applies to `t` and `next` is its result, stamped with its own version. */
  ghost predicate Evolves(t: Taxonomy, change: Change, next: Taxonomy) {
    && Valid(t) && Valid(next) && t.version != next.version
    && var merged := Merged(t.nodes, change.add, change.replacements, change.retire);
       merged.Success? && next.nodes == Restamped(next.version, merged.value)
  }

  lemma MergedMeaning(t: Taxonomy, add: seq<IntentNode>, replacements: seq<IntentNode>, retire: seq<string>)
    requires Valid(t)
    ensures var r := Merged(t.nodes, add, replacements, retire);
      r.Success? ==>
        && r.value.Keys == t.nodes.Keys + Ids(add) && t.nodes.Keys !! Ids(add) && DistinctIds(add)
        && (forall id | id in r.value :: r.value[id].id == id)
        && (forall id | id in retire :: id in r.value && r.value[id].status == Retired)
        && forall id | id in t.nodes && id !in Ids(replacements) && id !in retire :: r.value[id] == t.nodes[id]
  {
    hide Forest, AddAll, ReplaceAll, RetireAll;
    AddAllMeaning(t.nodes, add);
    var added := AddAll(t.nodes, add);
    if added.Success? {
      ReplaceAllMeaning(added.value, replacements);
      var replaced := ReplaceAll(added.value, replacements);
      if replaced.Success? {
        RetireAllMeaning(replaced.value, retire);
        RetiredExist(replaced.value, retire);
      }
    }
  }

  lemma {:induction false} RetiredExist(nodes: Nodes, retire: seq<string>)
    ensures RetireAll(nodes, retire).Success? ==> forall id | id in retire :: id in nodes
    decreases |retire|
  {
    if retire != [] && retire[0] in nodes {
      var rest := nodes[retire[0] := nodes[retire[0]].(status := Retired)];
      RetiredExist(rest, retire[1..]);
      assert rest.Keys == nodes.Keys;
      assert forall id | id in retire :: id == retire[0] || id in retire[1..];
    }
  }

  /**
    The next version. It exists if and only if the version is new and not blank, the changes apply,
    and the changed nodes still form a forest; the taxonomy it came from is a value and stays as it is.
   */
  method Evolve(t: Taxonomy, version: string, add: seq<IntentNode>, replacements: seq<IntentNode>, retire: seq<string>)
    returns (r: Result<Taxonomy, ConfigurationError>)
    requires Valid(t)
    ensures version == t.version ==> r == Failure(VersionExists(version))
    ensures version != t.version ==>
      match Merged(t.nodes, add, replacements, retire)
      case Failure(e) => r == Failure(e)
      case Success(merged) =>
        && (r.Success? <==> !Blank(version) && Forest(Restamped(version, merged)))
        && (r.Success? ==> Evolves(t, Change(add, replacements, retire), r.value) && r.value.version == version
                           && r.value.nodes == Restamped(version, merged))
  {
    if version == t.version {
      return Failure(VersionExists(version));
    }
    hide Forest, Merged, Restamped, Blank, Resolve;
    var merged, order := Merge(t, add, replacements, retire);
    if merged.Failure? {
      return Failure(merged.error);
    }
    MergedMeaning(t, add, replacements, retire);
    MergedListed(t, add, merged.value, order);
    r := BuildMerged(version, merged.value, order);
  }

  method BuildMerged(version: string, merged: Nodes, order: seq<string>)
    returns (r: Result<Taxonomy, ConfigurationError>)
    requires Lists(order, merged) && forall id | id in merged :: merged[id].id == id
    ensures r.Success? <==> !Blank(version) && Forest(Restamped(version, merged))
    ensures r.Success? ==>
      && Valid(r.value) && r.value.version == version && r.value.nodes == Restamped(version, merged)
      && r.value.nodes.Keys == merged.Keys
  {
    hide Forest, Blank, Resolve;
    ResolveListed(version, merged, order);
    assert Restamped(version, merged) == map id | id in order :: Resolve(version, merged[id]);
    var nodes := seq(|order|, i requires 0 <= i < |order| => merged[order[i]]);
    r := Build(version, nodes);
  }

  lemma MergedListed(t: Taxonomy, add: seq<IntentNode>, merged: Nodes, order: seq<string>)
    requires Lists(t.order, t.nodes) && merged.Keys == t.nodes.Keys + Ids(add)
    requires order == t.order + seq(|add|, i requires 0 <= i < |add| => add[i].id)
    requires t.nodes.Keys !! Ids(add) && DistinctIds(add)
    ensures Lists(order, merged)
  {
    var ids := seq(|add|, i requires 0 <= i < |add| => add[i].id);
    forall id ensures id in ids <==> id in Ids(add) {
      if id in Ids(add) {
        var i :| 0 <= i < |add| && add[i].id == id;
        assert ids[i] == id;
      }
    }
    forall id ensures id in merged <==> id in order {
      assert id in order <==> id in t.order || id in ids;
    }
    ConcatDistinct(t.order, ids);
  }

  lemma ConcatDistinct(a: seq<string>, b: seq<string>)
    requires Distinct(a) && Distinct(b) && forall x | x in a :: x !in b
    ensures Distinct(a + b)
  {
    forall i, j | 0 <= i < j < |a + b| ensures (a + b)[i] != (a + b)[j] {
      if i < |a| <= j {
        assert a[i] in a && b[j - |a|] in b;
      }
    }
  }

  /** A line of versions, each evolved from the one before it by its own change. */
  ghost predicate Lineage(line: seq<Taxonomy>, changes: seq<Change>) {
    && |line| == |changes| + 1 && Valid(line[0])
    && forall i | 0 <= i < |changes| :: Evolves(line[i], changes[i], line[i + 1])
  }

  predicate Touches(change: Change, id: string) {
    id in Ids(change.replacements) || id in change.retire
  }

  /** One step keeps every id, and a node that is neither replaced nor retired in everything but its version. */
  lemma StepMeaning(t: Taxonomy, change: Change, next: Taxonomy, id: string)
    requires Evolves(t, change, next) && id in t.nodes
    ensures id in next.nodes
    ensures !Touches(change, id) ==> next.nodes[id] == t.nodes[id].(version := next.version)
  {
    MergedMeaning(t, change.add, change.replacements, change.retire);
    hide Merged, Forest, Ids;
    assert t.nodes[id] == Resolve(t.version, t.nodes[id]);
  }

  /** And a node it adds enters as a node given for the new version does, unless it is changed again at once. */
  lemma StepAdds(t: Taxonomy, change: Change, next: Taxonomy, n: IntentNode)
    requires Evolves(t, change, next) && n in change.add && !Touches(change, n.id)
    ensures n.id in next.nodes && EntersAs(next.version, n, next.nodes[n.id])
  {
    hide Forest, Resolve, EntersAs;
    AddAllMeaning(t.nodes, change.add);
    var added := AddAll(t.nodes, change.add).value;
    ReplaceAllMeaning(added, change.replacements);
    RetireAllMeaning(ReplaceAll(added, change.replacements).value, change.retire);
    ResolvedEnters(next.version, n);
  }

  /** A retired node stays, marked as such. */
  lemma StepRetires(t: Taxonomy, change: Change, next: Taxonomy, id: string)
    requires Evolves(t, change, next) && id in change.retire
    ensures id in next.nodes && next.nodes[id].status == Retired
  {
    MergedMeaning(t, change.add, change.replacements, change.retire);
    hide Merged, Forest, Ids;
  }

  /** Along any line of versions, every id that was ever present still resolves. */
  lemma {:induction false} EveryIdStillResolves(line: seq<Taxonomy>, changes: seq<Change>, i: nat, id: string)
    requires Lineage(line, changes) && i < |line| && id in line[i].nodes
    ensures id in line[|line| - 1].nodes
    decreases |line| - i
  {
    hide Evolves;
    if i + 1 < |line| {
      StepMeaning(line[i], changes[i], line[i + 1], id);
      EveryIdStillResolves(line, changes, i + 1, id);
    }
  }

  /** And a node no later change touches is still the same, parent, status and description, under the last version. */
  lemma {:induction false} UntouchedNodesStay(line: seq<Taxonomy>, changes: seq<Change>, i: nat, id: string)
    requires Lineage(line, changes) && i < |line| && id in line[i].nodes
    requires forall j | i <= j < |changes| :: !Touches(changes[j], id)
    ensures var last := line[|line| - 1];
      id in last.nodes && last.nodes[id] == line[i].nodes[id].(version := last.version)
    decreases |line| - i
  {
    hide Evolves, Touches;
    if i + 1 < |line| {
      StepMeaning(line[i], changes[i], line[i + 1], id);
      UntouchedNodesStay(line, changes, i + 1, id);
    } else {
      VersionStamped(line, changes, i, id);
    }
  }

  lemma VersionStamped(line: seq<Taxonomy>, changes: seq<Change>, i: nat, id: string)
    requires Lineage(line, changes) && i < |line| && id in line[i].nodes
    ensures line[i].nodes[id].version == line[i].version
  {
    hide Forest, Merged;
    if i > 0 {
      assert Evolves(line[i - 1], changes[i - 1], line[(i - 1) + 1]);
    }
    assert line[i].nodes[id] == Resolve(line[i].version, line[i].nodes[id]);
  }
}
