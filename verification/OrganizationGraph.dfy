/**
 Conflict discovery on the staged organisation hierarchy: the depth-first cycle
 finder and the breadth-first propagation of unsafe parents.  An edge leads from
 a child to one of its staged parents.
 */
module OrganizationGraph {
  import opened Strings

  type Id = string
  type Graph = map<Id, seq<Id>>

  predicate Edge(g: Graph, child: Id, parent: Id) {
    child in g && parent in g[child]
  }

  ghost predicate Covers(g: Graph, nodes: set<Id>) {
    g.Keys <= nodes && forall child, parent :: Edge(g, child, parent) ==> parent in nodes
  }

  ghost function AllNodes(g: Graph): (nodes: set<Id>)
    ensures Covers(g, nodes)
  {
    g.Keys + (set child, i | child in g && 0 <= i < |g[child]| :: g[child][i])
  }

  ghost predicate Walk(g: Graph, p: seq<Id>) {
    forall i, j :: 0 <= i && j == i + 1 && j < |p| ==> Edge(g, p[i], p[j])
  }

  /** A non-empty walk whose last node leads back to its first. */
  ghost predicate ClosedWalk(g: Graph, c: seq<Id>) {
    && c != []
    && Walk(g, c)
    && Edge(g, c[|c| - 1], c[0])
  }

  ghost predicate OnCycle(g: Graph, n: Id) {
    exists c :: ClosedWalk(g, c) && n in c
  }

  ghost predicate SingleParent(g: Graph) {
    forall child, p, q :: Edge(g, child, p) && Edge(g, child, q) ==> p == q
  }

  /** `state[node]` in the search: absent is 0, `Open` is 1, `Done` is 2. */
  datatype Mark = Open | Done

  /** Node `n` lies on a closed walk all of whose nodes are in `reported`. */
  ghost predicate WitnessedWithin(g: Graph, reported: set<Id>, n: Id) {
    exists c :: ClosedWalk(g, c) && n in c && Elements(c) <= reported
  }

  /** The stack holds exactly the open nodes, once each, and is a walk. */
  ghost predicate StackInvariant(g: Graph, state: map<Id, Mark>, stack: seq<Id>) {
    && (forall i, j :: 0 <= i < j < |stack| ==> stack[i] != stack[j])
    && (forall i :: 0 <= i < |stack| ==> stack[i] in state && state[stack[i]] == Open)
    && (forall x {:trigger x in stack} :: x in state && state[x] == Open ==> x in stack)
    && Walk(g, stack)
  }

  /**
   `rank` orders the finished nodes by the moment they were finished.  A finished
   node that is not reported has only finished parents of smaller rank.
   */
  ghost predicate RankInvariant(g: Graph, state: map<Id, Mark>, cycle: set<Id>, rank: map<Id, nat>) {
    && (forall x :: x in rank <==> x in state && state[x] == Done)
    && (forall x :: x in rank ==> rank[x] < |rank|)
    && (forall x, p :: x in rank && x !in cycle && Edge(g, x, p) ==> p in rank && rank[p] < rank[x])
  }

  ghost predicate CycleInvariant(g: Graph, cycle: set<Id>) {
    forall x {:trigger WitnessedWithin(g, cycle, x)} :: x in cycle ==> WitnessedWithin(g, cycle, x)
  }

  /** The variables that `visit` captures; the Go closure updates them in place. */
  datatype Search = Search(state: map<Id, Mark>, stack: seq<Id>, cycle: set<Id>) {

    ghost predicate Valid(g: Graph, rank: map<Id, nat>) {
      StackInvariant(g, state, stack) && RankInvariant(g, state, cycle, rank) && CycleInvariant(g, cycle)
    }

    function Enter(node: Id): Search {
      Search(state[node := Open], stack + [node], cycle)
    }

    function Leave(node: Id): Search
      requires stack != []
    {
      Search(state[node := Done], stack[..|stack| - 1], cycle)
    }
  }

  /** The stack from a node that the top leads back to is a cycle, and may be reported whole. */
  lemma ReportKeepsInvariant(g: Graph, s: Search, rank: map<Id, nat>, index: nat)
    requires s.Valid(g, rank)
    requires index < |s.stack| && Edge(g, s.stack[|s.stack| - 1], s.stack[index])
    ensures s.(cycle := s.cycle + Elements(s.stack[index..])).Valid(g, rank)
    ensures s.stack[|s.stack| - 1] in Elements(s.stack[index..])
  {
    var stack := s.stack;
    var c := stack[index..];
    var reported := s.cycle + Elements(c);
    assert c[|stack| - 1 - index] == stack[|stack| - 1];
    forall i, j | 0 <= i && j == i + 1 && j < |c|
      ensures Edge(g, c[i], c[j])
    {
      assert Edge(g, stack[index + i], stack[index + j]);
    }
    assert ClosedWalk(g, c);
    forall x | x in reported
      ensures WitnessedWithin(g, reported, x)
    {
      if x in s.cycle {
        assert WitnessedWithin(g, s.cycle, x);
        var w :| ClosedWalk(g, w) && x in w && Elements(w) <= s.cycle;
        assert Elements(w) <= reported;
      } else {
        assert x in c;
      }
    }
  }

  lemma OpenKeepsStack(g: Graph, state: map<Id, Mark>, stack: seq<Id>, node: Id)
    requires StackInvariant(g, state, stack)
    requires node !in state && (stack != [] ==> Edge(g, stack[|stack| - 1], node))
    ensures StackInvariant(g, state[node := Open], stack + [node])
  {
    var grown := stack + [node];
    forall x | x in state && state[x] == Open
      ensures x in grown
    {
      assert x in stack;
    }
    forall i, j | 0 <= i && j == i + 1 && j < |grown|
      ensures Edge(g, grown[i], grown[j])
    {
      if j < |stack| {
        assert Edge(g, stack[i], stack[j]);
      }
    }
  }

  lemma CloseKeepsStack(g: Graph, state: map<Id, Mark>, stack: seq<Id>, node: Id)
    requires StackInvariant(g, state, stack + [node])
    ensures StackInvariant(g, state[node := Done], stack)
    ensures node in state && state[node] == Open
  {
    var grown := stack + [node];
    assert grown[|stack|] == node;
    forall x | x in state && state[x] == Open && x != node
      ensures x in stack
    {
      assert x in grown;
    }
    forall i | 0 <= i < |stack|
      ensures stack[i] in state && state[stack[i]] == Open
    {
      assert grown[i] == stack[i];
    }
    forall i | 0 <= i < |stack|
      ensures stack[i] != node
    {
      assert grown[i] != grown[|stack|];
    }
    forall i, j | 0 <= i < j < |stack|
      ensures stack[i] != stack[j]
    {
      assert grown[i] != grown[j];
    }
    forall i | 0 <= i < |stack| - 1
      ensures Edge(g, stack[i], stack[i + 1])
    {
      assert Edge(g, grown[i], grown[i + 1]);
    }
  }

  lemma OneMore(rank: map<Id, nat>, node: Id, r: nat)
    requires node !in rank
    ensures |rank[node := r]| == |rank| + 1
  {
    var ranked := rank[node := r];
    assert ranked.Keys == rank.Keys + {node};
    assert |ranked| == |ranked.Keys|;
  }

  lemma CloseKeepsRanks(g: Graph, state: map<Id, Mark>, cycle: set<Id>, rank: map<Id, nat>, node: Id)
    requires RankInvariant(g, state, cycle, rank)
    requires node in state && state[node] == Open
    requires node in g ==> Settled(g, node, |g[node]|, cycle, rank.Keys)
    ensures RankInvariant(g, state[node := Done], cycle, rank[node := |rank|])
  {
    var ranked := rank[node := |rank|];
    OneMore(rank, node, |rank|);
    forall x, p | x in ranked && x !in cycle && Edge(g, x, p)
      ensures p in ranked && ranked[p] < ranked[x]
    {
      if x == node {
        var j :| 0 <= j < |g[node]| && g[node][j] == p;
        assert g[node][j] in rank.Keys;
      }
    }
  }

  /** The first `i` parents of `node` are finished, unless `node` is already reported. */
  ghost predicate Settled(g: Graph, node: Id, i: nat, cycle: set<Id>, finished: set<Id>)
    requires node in g && i <= |g[node]|
  {
    node in cycle || forall j :: 0 <= j < i ==> g[node][j] in finished
  }

  lemma SettledGrows(g: Graph, node: Id, i: nat, cycle: set<Id>, cycle': set<Id>, finished: set<Id>, finished': set<Id>)
    requires node in g && i < |g[node]|
    requires Settled(g, node, i, cycle, finished) && cycle <= cycle' && finished <= finished'
    requires g[node][i] in finished' || node in cycle'
    ensures Settled(g, node, i + 1, cycle', finished')
  {
  }

  lemma PrefixElements(s: seq<Id>, i: nat)
    requires i < |s|
    ensures Elements(s[..i + 1]) == Elements(s[..i]) + {s[i]}
  {
    assert s[..i + 1] == s[..i] + [s[i]];
  }

  lemma EnterKeepsInvariant(g: Graph, s: Search, rank: map<Id, nat>, node: Id)
    requires s.Valid(g, rank) && node !in s.state && (s.stack != [] ==> Edge(g, s.stack[|s.stack| - 1], node))
    ensures s.Enter(node).Valid(g, rank)
    ensures node !in Elements(s.stack) && Elements(s.Enter(node).stack) == Elements(s.stack) + {node}
  {
    OpenKeepsStack(g, s.state, s.stack, node);
  }

  lemma LeaveKeepsInvariant(g: Graph, s: Search, rank: map<Id, nat>, node: Id, below: seq<Id>)
    requires s.Valid(g, rank) && s.stack == below + [node]
    requires node in g ==> Settled(g, node, |g[node]|, s.cycle, rank.Keys)
    ensures s.Leave(node).Valid(g, rank[node := |rank|]) && s.Leave(node).stack == below
  {
    CloseKeepsStack(g, s.state, below, node);
    CloseKeepsRanks(g, s.state, s.cycle, rank, node);
    assert s.stack[..|s.stack| - 1] == below;
  }

  lemma SuffixElements(s: seq<Id>, i: nat)
    requires i < |s|
    ensures Elements(s[i..]) == {s[i]} + Elements(s[i + 1..])
  {
    assert s[i..] == [s[i]] + s[i + 1..];
  }

  /** The walk back over the stack when the search meets a node that is still open. */
  method Report(stack: seq<Id>, cycle: set<Id>, node: Id) returns (reported: set<Id>, index: nat)
    requires node in stack
    ensures index < |stack| && stack[index] == node
    ensures reported == cycle + Elements(stack[index..])
  {
    ghost var k :| 0 <= k < |stack| && stack[k] == node;
    reported := cycle;
    var i := |stack| - 1;
    while stack[i] != node
      invariant k <= i < |stack|
      invariant reported == cycle + Elements(stack[i + 1..])
      decreases i
    {
      SuffixElements(stack, i);
      reported := reported + {stack[i]};
      i := i - 1;
    }
    SuffixElements(stack, i);
    reported, index := reported + {stack[i]}, i;
  }

  method Visit(g: Graph, ghost nodes: set<Id>, s: Search, ghost rank: map<Id, nat>, node: Id)
    returns (t: Search, ghost rank': map<Id, nat>)
    requires Covers(g, nodes) && node in nodes
    requires s.Valid(g, rank) && (s.stack != [] ==> Edge(g, s.stack[|s.stack| - 1], node))
    ensures t.Valid(g, rank') && t.stack == s.stack
    ensures s.cycle <= t.cycle && rank.Keys <= rank'.Keys
    ensures node in rank' || (t.stack != [] && t.stack[|t.stack| - 1] in t.cycle)
    decreases nodes - Elements(s.stack), 0
  {
    if node in s.state && s.state[node] == Done {
      return s, rank;
    }
    if node in s.state && s.state[node] == Open {
      var reported, index := Report(s.stack, s.cycle, node);
      ReportKeepsInvariant(g, s, rank, index);
      return s.(cycle := reported), rank;
    }
    EnterKeepsInvariant(g, s, rank, node);
    t := s.Enter(node);
    assert node in nodes - Elements(s.stack);
    t, rank' := VisitParents(g, nodes, t, rank, node);
    LeaveKeepsInvariant(g, t, rank', node, s.stack);
    t, rank' := t.Leave(node), rank'[node := |rank'|];
  }

  /** The loop of `visit` over the parents of the node on top of the stack. */
  method VisitParents(g: Graph, ghost nodes: set<Id>, s: Search, ghost rank: map<Id, nat>, node: Id)
    returns (t: Search, ghost rank': map<Id, nat>)
    requires Covers(g, nodes)
    requires s.Valid(g, rank) && s.stack != [] && s.stack[|s.stack| - 1] == node
    ensures t.Valid(g, rank') && t.stack == s.stack
    ensures s.cycle <= t.cycle && rank.Keys <= rank'.Keys
    ensures node in g ==> Settled(g, node, |g[node]|, t.cycle, rank'.Keys)
    decreases nodes - Elements(s.stack), 2
  {
    t, rank' := s, rank;
    if node in g {
      for i := 0 to |g[node]|
        invariant t.Valid(g, rank') && t.stack == s.stack
        invariant s.cycle <= t.cycle && rank.Keys <= rank'.Keys
        invariant Settled(g, node, i, t.cycle, rank'.Keys)
      {
        t, rank' := VisitParent(g, nodes, t, rank', node, i);
      }
    }
  }

  method VisitParent(g: Graph, ghost nodes: set<Id>, s: Search, ghost rank: map<Id, nat>, node: Id, i: nat)
    returns (t: Search, ghost rank': map<Id, nat>)
    requires Covers(g, nodes) && node in g && i < |g[node]|
    requires s.Valid(g, rank) && s.stack != [] && s.stack[|s.stack| - 1] == node
    requires Settled(g, node, i, s.cycle, rank.Keys)
    ensures t.Valid(g, rank') && t.stack == s.stack
    ensures s.cycle <= t.cycle && rank.Keys <= rank'.Keys
    ensures Settled(g, node, i + 1, t.cycle, rank'.Keys)
    decreases nodes - Elements(s.stack), 1
  {
    assert Edge(g, node, g[node][i]);
    t, rank' := Visit(g, nodes, s, rank, g[node][i]);
    SettledGrows(g, node, i, s.cycle, t.cycle, rank.Keys, rank'.Keys);
  }

  /** A search that has finished every key reports a node of every cycle. */
  lemma FinishedSearchHitsCycle(g: Graph, s: Search, rank: map<Id, nat>, c: seq<Id>)
    requires s.Valid(g, rank) && g.Keys <= rank.Keys && ClosedWalk(g, c)
    ensures exists n :: n in c && n in s.cycle
  {
    if forall n :: n in c ==> n !in s.cycle {
      RanksFall(g, s, rank, c, |c| - 1);
      assert Edge(g, c[|c| - 1], c[0]);
    }
  }

  lemma {:induction false} RanksFall(g: Graph, s: Search, rank: map<Id, nat>, c: seq<Id>, i: nat)
    requires s.Valid(g, rank) && g.Keys <= rank.Keys && ClosedWalk(g, c) && i < |c|
    requires forall n :: n in c ==> n !in s.cycle
    ensures c[i] in rank && c[0] in rank && rank[c[i]] <= rank[c[0]]
  {
    if i == 0 {
      assert |c| == 1 || Edge(g, c[0], c[1]);
    } else {
      RanksFall(g, s, rank, c, i - 1);
      assert Edge(g, c[i - 1], c[i]);
    }
  }

  /** With one parent each, the successor of a shared node is shared. */
  lemma SuccessorStaysInside(g: Graph, w: seq<Id>, x: Id, y: Id)
    requires SingleParent(g) && ClosedWalk(g, w) && x in w && Edge(g, x, y)
    ensures y in w
  {
    var j :| 0 <= j < |w| && w[j] == x;
    if j + 1 < |w| {
      assert Edge(g, w[j], w[j + 1]);
    } else {
      assert Edge(g, w[j], w[0]);
    }
  }

  lemma {:induction false} StretchStaysInside(g: Graph, c: seq<Id>, w: seq<Id>, i: nat, j: nat)
    requires SingleParent(g) && ClosedWalk(g, c) && ClosedWalk(g, w)
    requires i <= j < |c| && c[i] in w
    ensures c[j] in w
    decreases j
  {
    if i < j {
      StretchStaysInside(g, c, w, i, j - 1);
      assert Edge(g, c[j - 1], c[j]);
      SuccessorStaysInside(g, w, c[j - 1], c[j]);
    }
  }

  lemma ReportIsExact(g: Graph, s: Search, rank: map<Id, nat>, n: Id)
    requires s.Valid(g, rank) && g.Keys <= rank.Keys && SingleParent(g) && OnCycle(g, n)
    ensures n in s.cycle
  {
    var c :| ClosedWalk(g, c) && n in c;
    FinishedSearchHitsCycle(g, s, rank, c);
    var m :| m in c && m in s.cycle;
    assert WitnessedWithin(g, s.cycle, m);
    var w :| ClosedWalk(g, w) && m in w && Elements(w) <= s.cycle;
    var i :| 0 <= i < |c| && c[i] == m;
    var j :| 0 <= j < |c| && c[j] == n;
    StretchStaysInside(g, c, w, i, |c| - 1);
    SuccessorStaysInside(g, w, c[|c| - 1], c[0]);
    StretchStaysInside(g, c, w, 0, j);
    assert n in Elements(w);
  }

  /** The outer loop: a visit from every key. */
  method SearchFrom(g: Graph, keys: seq<Id>) returns (s: Search, ghost rank: map<Id, nat>)
    requires Elements(keys) == g.Keys
    ensures s.Valid(g, rank) && g.Keys <= rank.Keys
  {
    ghost var nodes := AllNodes(g);
    s, rank := Search(map[], [], {}), map[];
    for i := 0 to |keys|
      invariant s.Valid(g, rank) && s.stack == []
      invariant Elements(keys[..i]) <= rank.Keys
    {
      assert keys[i] in Elements(keys);
      s, rank := Visit(g, nodes, s, rank, keys[i]);
      PrefixElements(keys, i);
    }
    assert keys[..|keys|] == keys;
  }

  /**
   `directoryOrganizationCycleMembers`: only nodes on a real cycle are reported,
   every cycle has a reported node, and with one parent each the report is exact.
   */
  method CycleMembers(g: Graph) returns (result: seq<Id>)
    ensures Ascending(result)
    ensures forall n :: n in result ==> OnCycle(g, n)
    ensures HitsEveryCycle(g, Elements(result))
    ensures SingleParent(g) ==> forall n :: OnCycle(g, n) ==> n in result
  {
    var listed := ListOf(g.Keys);
    SortDistinct(listed);
    ghost var rank;
    var s;
    s, rank := SearchFrom(g, Sort(listed));
    var members := ListOf(s.cycle);
    SortDistinct(members);
    result := Sort(members);
    assert forall n :: n in result <==> n in Elements(result);
    forall n | n in result
      ensures OnCycle(g, n)
    {
      assert WitnessedWithin(g, s.cycle, n);
    }
    forall c | ClosedWalk(g, c)
      ensures exists n :: n in c && n in Elements(result)
    {
      FinishedSearchHitsCycle(g, s, rank, c);
    }
    if SingleParent(g) {
      forall n | OnCycle(g, n)
        ensures n in result
      {
        ReportIsExact(g, s, rank, n);
      }
    }
  }

  // ---- Propagation to everything below an unsafe organisation ----

  ghost predicate WalkFromTo(g: Graph, w: seq<Id>, n: Id, m: Id) {
    w != [] && Walk(g, w) && w[0] == n && w[|w| - 1] == m
  }

  /** Some chain of parents, possibly empty, leads from `n` up into `seeds`. */
  ghost predicate UpwardInto(g: Graph, n: Id, seeds: set<Id>) {
    exists w, m :: m in seeds && WalkFromTo(g, w, n, m)
  }

  ghost predicate ChildClosed(g: Graph, s: set<Id>) {
    forall child, parent :: Edge(g, child, parent) && parent in s ==> child in s
  }

  lemma WalkStep(g: Graph, child: Id, parent: Id, w: seq<Id>, m: Id)
    requires Edge(g, child, parent) && WalkFromTo(g, w, parent, m)
    ensures WalkFromTo(g, [child] + w, child, m)
  {
    var v := [child] + w;
    forall i, j | 0 <= i && j == i + 1 && j < |v|
      ensures Edge(g, v[i], v[j])
    {
      if i > 0 {
        assert Edge(g, w[i - 1], w[j - 1]);
      }
    }
  }

  lemma {:induction false} ClosedHoldsWalk(g: Graph, s: set<Id>, w: seq<Id>, n: Id, m: Id)
    requires ChildClosed(g, s) && WalkFromTo(g, w, n, m) && m in s
    ensures n in s
    decreases |w|
  {
    if |w| > 1 {
      var v := w[1..];
      forall i, j | 0 <= i && j == i + 1 && j < |v|
        ensures Edge(g, v[i], v[j])
      {
        assert Edge(g, w[i + 1], w[j + 1]);
      }
      ClosedHoldsWalk(g, s, v, w[1], m);
      assert Edge(g, w[0], w[1]);
    }
  }

  lemma HeadElements(s: seq<Id>)
    requires s != []
    ensures Elements(s) == Elements(s[1..]) + {s[0]}
  {
    assert s == [s[0]] + s[1..];
  }

  lemma JoinElements(s: seq<Id>, t: seq<Id>)
    ensures Elements(s + t) == Elements(s) + Elements(t)
  {
  }

  lemma JoinDistinct(s: seq<Id>, t: seq<Id>)
    requires Distinct(s) && Distinct(t) && Elements(s) !! Elements(t)
    ensures Distinct(s + t)
  {
    forall i, j | 0 <= i < |s| && 0 <= j < |t|
      ensures s[i] != t[j]
    {
      assert s[i] in Elements(s) && t[j] in Elements(t);
    }
  }

  /** The `children` map: the same edges, turned round. */
  method ChildrenOf(g: Graph) returns (children: Graph)
    ensures forall child, parent :: Edge(children, parent, child) <==> Edge(g, child, parent)
  {
    children := map[];
    var keys := ListOf(g.Keys);
    for k := 0 to |keys|
      invariant forall child, parent :: Edge(children, parent, child) <==>
                                        child in Elements(keys[..k]) && Edge(g, child, parent)
    {
      assert keys[k] in Elements(keys);
      children := AddChild(g, children, keys[k]);
      PrefixElements(keys, k);
    }
    assert keys[..|keys|] == keys;
  }

  method AddChild(g: Graph, children: Graph, child: Id) returns (grown: Graph)
    requires child in g
    ensures forall c, p :: Edge(grown, p, c) <==> Edge(children, p, c) || (c == child && Edge(g, child, p))
  {
    grown := children;
    for i := 0 to |g[child]|
      invariant forall c, p :: Edge(grown, p, c) <==> Edge(children, p, c) || (c == child && p in g[child][..i])
    {
      var p := g[child][i];
      grown := grown[p := (if p in grown then grown[p] else []) + [child]];
      assert g[child][..i + 1] == g[child][..i] + [p];
    }
    assert g[child][..|g[child]|] == g[child];
  }

  /** One turn of the queue loop: the children of `parent` join `unsafe`, and the new ones the queue. */
  method Spread(children: seq<Id>, unsafe: set<Id>) returns (grown: set<Id>, added: seq<Id>)
    ensures grown == unsafe + Elements(children)
    ensures Elements(added) == grown - unsafe
    ensures Distinct(added)
  {
    grown, added := unsafe, [];
    for i := 0 to |children|
      invariant grown == unsafe + Elements(children[..i])
      invariant Elements(added) == grown - unsafe
      invariant Distinct(added)
    {
      PrefixElements(children, i);
      if children[i] !in grown {
        assert children[i] !in Elements(added);
        JoinElements(added, [children[i]]);
        grown, added := grown + {children[i]}, added + [children[i]];
      }
    }
    assert children[..|children|] == children;
  }

  ghost predicate QueueInvariant(g: Graph, seeds: set<Id>, unsafe: set<Id>, queue: set<Id>) {
    && seeds <= unsafe
    && queue <= unsafe
    && (forall n {:trigger UpwardInto(g, n, seeds)} :: n in unsafe ==> UpwardInto(g, n, seeds))
    && (forall child, parent :: Edge(g, child, parent) && parent in unsafe && parent !in queue ==> child in unsafe)
  }

  lemma TurnKeepsInvariant(g: Graph, seeds: set<Id>, unsafe: set<Id>, queue: set<Id>, parent: Id, found: set<Id>)
    requires QueueInvariant(g, seeds, unsafe, queue + {parent})
    requires forall child :: child in found <==> Edge(g, child, parent)
    ensures QueueInvariant(g, seeds, unsafe + found, queue + (found - unsafe))
  {
    forall child | child in found
      ensures UpwardInto(g, child, seeds)
    {
      assert parent in unsafe && UpwardInto(g, parent, seeds);
      var w, m :| m in seeds && WalkFromTo(g, w, parent, m);
      WalkStep(g, child, parent, w, m);
    }
  }

  /**
   `propagateOrganizationParentConflicts`: the unsafe organisations become exactly
   those with a chain of staged parents into the organisations already in conflict,
   which is the least set closed under children.
   */
  method Propagate(g: Graph, conflicted: seq<Id>) returns (unsafe: set<Id>, propagated: seq<Id>)
    requires Distinct(conflicted)
    ensures forall n :: n in unsafe <==> UpwardInto(g, n, Elements(conflicted))
    ensures ChildClosed(g, unsafe)
    ensures forall s :: Elements(conflicted) <= s && ChildClosed(g, s) ==> unsafe <= s
    ensures Ascending(propagated) && Elements(propagated) == unsafe - Elements(conflicted)
  {
    ghost var seeds := Elements(conflicted);
    var children := ChildrenOf(g);
    var list;
    unsafe, list := Flood(g, children, conflicted);
    propagated := Sort(list);
    SortDistinct(list);
    forall n | UpwardInto(g, n, seeds)
      ensures n in unsafe
    {
      var w, m :| m in seeds && WalkFromTo(g, w, n, m);
      ClosedHoldsWalk(g, unsafe, w, n, m);
    }
    forall s | seeds <= s && ChildClosed(g, s)
      ensures unsafe <= s
    {
      forall n | n in unsafe
        ensures n in s
      {
        assert UpwardInto(g, n, seeds);
        var w, m :| m in seeds && WalkFromTo(g, w, n, m);
        ClosedHoldsWalk(g, s, w, n, m);
      }
    }
  }

  method Flood(g: Graph, children: Graph, conflicted: seq<Id>) returns (unsafe: set<Id>, propagated: seq<Id>)
    requires forall child, parent :: Edge(children, parent, child) <==> Edge(g, child, parent)
    ensures QueueInvariant(g, Elements(conflicted), unsafe, {})
    ensures Elements(propagated) == unsafe - Elements(conflicted)
    ensures Distinct(propagated)
  {
    unsafe := set x | x in conflicted;
    propagated := [];
    var queue := conflicted;
    forall n | n in unsafe
      ensures UpwardInto(g, n, unsafe)
    {
      assert WalkFromTo(g, [n], n, n);
    }
    while queue != []
      invariant QueueInvariant(g, Elements(conflicted), unsafe, Elements(queue))
      invariant Elements(propagated) == unsafe - Elements(conflicted)
      invariant Distinct(propagated)
      decreases g.Keys - unsafe, |queue|
    {
      var parent := queue[0];
      HeadElements(queue);
      queue := queue[1..];
      var found := if parent in children then children[parent] else [];
      assert forall child :: child in Elements(found) <==> Edge(children, parent, child);
      TurnKeepsInvariant(g, Elements(conflicted), unsafe, Elements(queue), parent, Elements(found));
      ghost var before := unsafe;
      var added;
      unsafe, added := Spread(found, unsafe);
      assert added != [] ==> added[0] in Elements(added) && Edge(g, added[0], parent);
      JoinElements(queue, added);
      JoinElements(propagated, added);
      JoinDistinct(propagated, added);
      queue, propagated := queue + added, propagated + added;
    }
    assert Elements(queue) == {};
  }

  // ---- Both together ----

  ghost predicate HitsEveryCycle(g: Graph, s: set<Id>) {
    forall c :: ClosedWalk(g, c) ==> exists n :: n in c && n in s
  }

  lemma {:induction false} BackwardInside(g: Graph, s: set<Id>, c: seq<Id>, i: nat, j: nat)
    requires ChildClosed(g, s) && Walk(g, c) && i <= j < |c| && c[j] in s
    ensures c[i] in s
    decreases j
  {
    if i < j {
      assert Edge(g, c[j - 1], c[j]);
      BackwardInside(g, s, c, i, j - 1);
    }
  }

  /**
   A child-closed set that contains a node of every cycle contains every organisation
   on a cycle and every organisation below one.
   */
  lemma OnOrBelowCycleIsUnsafe(g: Graph, unsafe: set<Id>, n: Id, w: seq<Id>, m: Id)
    requires ChildClosed(g, unsafe) && HitsEveryCycle(g, unsafe)
    requires WalkFromTo(g, w, n, m) && OnCycle(g, m)
    ensures n in unsafe
  {
    var c :| ClosedWalk(g, c) && m in c;
    var r :| r in c && r in unsafe;
    var k :| 0 <= k < |c| && c[k] == r;
    var i :| 0 <= i < |c| && c[i] == m;
    BackwardInside(g, unsafe, c, 0, k);
    assert Edge(g, c[|c| - 1], c[0]);
    BackwardInside(g, unsafe, c, i, |c| - 1);
    ClosedHoldsWalk(g, unsafe, w, n, m);
  }
}
