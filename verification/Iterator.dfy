/** The range iterator: a stack of subtrees still to be looked at, of which those that
    lie outside the range are never pushed. */
module Iterators {
  import opened Bytes
  import opened Iavl
  import opened IavlContents
  import opened Hashing
  import opened Snapshots
  import opened MemTree

  /** A half-open range of keys, unbounded where a bound is missing. */
  datatype Domain = Domain(start: Option<Bytes>, end: Option<Bytes>)

  predicate InDomain(d: Domain, key: Bytes) {
    && (d.start.Some? ==> !Less(key, d.start.value))
    && (d.end.Some? ==> Less(key, d.end.value))
  }

  function Select(d: Domain, s: seq<Entry>): seq<Entry> {
    if s == [] then []
    else (if InDomain(d, s[0].key) then [s[0]] else []) + Select(d, s[1..])
  }

  function Reversed(s: seq<Entry>): seq<Entry> {
    if s == [] then [] else Reversed(s[1..]) + [s[0]]
  }

  /** The leaves of a tree within a domain, in the direction of the iteration. */
  function Visited(d: Domain, ascending: bool, t: Tree): seq<Entry> {
    if ascending then Select(d, Leaves(t)) else Reversed(Select(d, Leaves(t)))
  }

  lemma {:induction false} SelectAppend(d: Domain, a: seq<Entry>, b: seq<Entry>)
    ensures Select(d, a + b) == Select(d, a) + Select(d, b)
    decreases |a|
  {
    if a == [] {
      assert a + b == b;
    } else {
      assert (a + b)[1..] == a[1..] + b;
      SelectAppend(d, a[1..], b);
    }
  }

  lemma {:induction false} SelectNone(d: Domain, s: seq<Entry>)
    requires forall i :: 0 <= i < |s| ==> !InDomain(d, s[i].key)
    ensures Select(d, s) == []
    decreases |s|
  {
    if s != [] { SelectNone(d, s[1..]); }
  }

  lemma {:induction false} ReversedAppend(a: seq<Entry>, b: seq<Entry>)
    ensures Reversed(a + b) == Reversed(b) + Reversed(a)
    decreases |a|
  {
    if a == [] {
      assert a + b == b;
    } else {
      assert (a + b)[1..] == a[1..] + b;
      ReversedAppend(a[1..], b);
    }
  }

  predicate AfterStart(d: Domain, key: Bytes) {
    d.start.None? || Less(d.start.value, key)
  }

  predicate BeforeEnd(d: Domain, key: Bytes) {
    d.end.None? || Less(key, d.end.value)
  }

  /** A subtree on the far side of a bound holds nothing of the domain. */
  lemma {:induction false} Pruned(d: Domain, t: Tree)
    requires t.Branch? && Exact(t) && Ordered(t)
    ensures !AfterStart(d, t.key) ==> Select(d, Leaves(t.left)) == []
    ensures !BeforeEnd(d, t.key) ==> Select(d, Leaves(t.right)) == []
  {
    BranchKeySplits(t);
    if !AfterStart(d, t.key) {
      forall i | 0 <= i < |Leaves(t.left)| ensures !InDomain(d, Leaves(t.left)[i].key) {
        CompareFlips(d.start.value, t.key);
        LeftIsOut(Leaves(t.left)[i].key, t.key, d.start.value);
      }
      SelectNone(d, Leaves(t.left));
    }
    if !BeforeEnd(d, t.key) {
      forall i | 0 <= i < |Leaves(t.right)| ensures !InDomain(d, Leaves(t.right)[i].key) {
        RightIsOut(Leaves(t.right)[i].key, t.key, d.end.value);
      }
      SelectNone(d, Leaves(t.right));
    }
  }

  lemma LeftIsOut(key: Bytes, split: Bytes, start: Bytes)
    requires Less(key, split) && !Less(start, split)
    ensures Less(key, start)
  {
    LessIsTotalOrder();
    hide Less;
    assert Less(split, start) || split == start;
  }

  lemma RightIsOut(key: Bytes, split: Bytes, end: Bytes)
    requires !Less(key, split) && !Less(split, end)
    ensures !Less(key, end)
  {
    LessIsTotalOrder();
    hide Less;
    assert Less(end, split) || split == end;
  }

  lemma {:induction false} SelectExact(d: Domain, s: seq<Entry>, e: Entry)
    ensures e in Select(d, s) <==> e in s && InDomain(d, e.key)
    decreases |s|
  {
    if s != [] {
      SelectExact(d, s[1..], e);
      assert s == [s[0]] + s[1..];
    }
  }

  lemma {:induction false} SelectSorted(d: Domain, s: seq<Entry>)
    requires Sorted(s)
    ensures Sorted(Select(d, s))
    decreases |s|
  {
    if s != [] {
      SelectSorted(d, s[1..]);
      var rest := Select(d, s[1..]);
      forall i | 0 <= i < |rest| ensures Less(s[0].key, rest[i].key) {
        SelectExact(d, s[1..], rest[i]);
        var j :| 0 <= j < |s[1..]| && s[1..][j] == rest[i];
        assert s[j + 1] == rest[i];
      }
    }
  }

  lemma {:induction false} ReversedAt(s: seq<Entry>, i: nat)
    requires i < |s|
    ensures |Reversed(s)| == |s| && Reversed(s)[i] == s[|s| - 1 - i]
    decreases |s|
  {
    if |s| == 1 {
      assert Reversed(s[1..]) == [];
    } else {
      ReversedAt(s[1..], if i < |s| - 1 then i else 0);
    }
  }

  ghost predicate InOrder(s: seq<Entry>, ascending: bool) {
    forall i, j :: 0 <= i < j < |s| ==> if ascending then Less(s[i].key, s[j].key) else Less(s[j].key, s[i].key)
  }

  /** What is visited: the leaves whose keys are in the domain and nothing else, in
      strictly ascending or strictly descending order, hence each once. */
  lemma {:induction false} VisitedExactly(d: Domain, ascending: bool, t: Tree)
    requires Ordered(t)
    ensures forall e :: e in Visited(d, ascending, t) <==> e in Leaves(t) && InDomain(d, e.key)
    ensures InOrder(Visited(d, ascending, t), ascending)
  {
    hide Select, Reversed, Leaves;
    var s := Select(d, Leaves(t));
    OrderedIsSorted(t);
    SelectSorted(d, Leaves(t));
    forall e ensures e in s <==> e in Leaves(t) && InDomain(d, e.key) { SelectExact(d, Leaves(t), e); }
    forall e ensures e in Reversed(s) <==> e in s { ReversedExact(s, e); }
    ReversedDescends(s);
  }

  lemma {:induction false} ReversedExact(s: seq<Entry>, e: Entry)
    ensures e in Reversed(s) <==> e in s
    decreases |s|
  {
    if s != [] {
      ReversedExact(s[1..], e);
      assert s == [s[0]] + s[1..];
    }
  }

  lemma ReversedDescends(s: seq<Entry>)
    requires Sorted(s)
    ensures InOrder(Reversed(s), false)
  {
    hide Less;
    var r := Reversed(s);
    if s != [] {
      ReversedAt(s, 0);
      forall i, j | 0 <= i < j < |r| ensures Less(r[j].key, r[i].key) {
        ReversedAt(s, i);
        ReversedAt(s, j);
      }
    }
  }

  // ------------------------------------------------------------ the stack

  /** What the stack still has to visit, from its top down. */
  ghost function Ahead(d: Domain, ascending: bool, layouts: seq<Layout>): seq<Entry> {
    if layouts == [] then []
    else Visited(d, ascending, Abs(layouts[|layouts| - 1])) + Ahead(d, ascending, layouts[..|layouts| - 1])
  }

  function NodeCount(t: Tree): nat {
    if t.Leaf? then 1 else 1 + NodeCount(t.left) + NodeCount(t.right)
  }

  ghost function Work(layouts: seq<Layout>): nat {
    if layouts == [] then 0 else NodeCount(Abs(layouts[|layouts| - 1])) + Work(layouts[..|layouts| - 1])
  }

  lemma Push(d: Domain, ascending: bool, layouts: seq<Layout>, a: Layout)
    ensures Ahead(d, ascending, layouts + [a]) == Visited(d, ascending, Abs(a)) + Ahead(d, ascending, layouts)
    ensures Work(layouts + [a]) == NodeCount(Abs(a)) + Work(layouts)
  {
    assert (layouts + [a])[..|layouts|] == layouts;
  }

  lemma PushTwo(d: Domain, ascending: bool, layouts: seq<Layout>, a: Layout, b: Layout)
    ensures Ahead(d, ascending, layouts + ([a] + [b]))
         == (Visited(d, ascending, Abs(b)) + Visited(d, ascending, Abs(a))) + Ahead(d, ascending, layouts)
    ensures Work(layouts + ([a] + [b])) == NodeCount(Abs(b)) + NodeCount(Abs(a)) + Work(layouts)
  {
    hide Ahead, Visited, Work, Abs;
    Push(d, ascending, layouts, a);
    Push(d, ascending, layouts + [a], b);
    assert layouts + ([a] + [b]) == layouts + [a] + [b];
  }

  /** The children that are pushed for a branch, last the one to be visited first. */
  ghost function Children(d: Domain, ascending: bool, key: Bytes, l: Layout, r: Layout): seq<Layout> {
    if AfterStart(d, key) && BeforeEnd(d, key) then (if ascending then [r] + [l] else [l] + [r])
    else if AfterStart(d, key) then [l]
    else if BeforeEnd(d, key) then [r]
    else []
  }

  lemma {:induction false} VisitedBranch(d: Domain, ascending: bool, t: Tree)
    requires t.Branch? && Exact(t) && Ordered(t)
    ensures var l, r := Visited(d, ascending, t.left), Visited(d, ascending, t.right);
      && Visited(d, ascending, t) == (if ascending then l + r else r + l)
      && (!AfterStart(d, t.key) ==> Visited(d, ascending, t) == r && l == [])
      && (!BeforeEnd(d, t.key) ==> Visited(d, ascending, t) == l && r == [])
  {
    SelectAppend(d, Leaves(t.left), Leaves(t.right));
    ReversedAppend(Select(d, Leaves(t.left)), Select(d, Leaves(t.right)));
    Pruned(d, t);
  }

  lemma {:induction false} PushChildren(d: Domain, ascending: bool, layouts: seq<Layout>, a: Layout, l: Layout,
                                        r: Layout)
    requires Abs(a).Branch? && Exact(Abs(a)) && Ordered(Abs(a)) && Abs(l) == Abs(a).left && Abs(r) == Abs(a).right
    ensures var next := layouts + Children(d, ascending, Abs(a).key, l, r);
      && Ahead(d, ascending, next) == Visited(d, ascending, Abs(a)) + Ahead(d, ascending, layouts)
      && Work(next) < NodeCount(Abs(a)) + Work(layouts)
  {
    var t := Abs(a);
    VisitedBranch(d, ascending, t);
    hide Visited, AfterStart, BeforeEnd, Less, Ahead, Work, Abs, Exact, Ordered;
    if AfterStart(d, t.key) && BeforeEnd(d, t.key) {
      PushTwo(d, ascending, layouts, if ascending then r else l, if ascending then l else r);
    } else if AfterStart(d, t.key) {
      Push(d, ascending, layouts, l);
    } else if BeforeEnd(d, t.key) {
      Push(d, ascending, layouts, r);
    } else {
      assert layouts + [] == layouts;
    }
  }

  ghost function StackRefs(layouts: seq<Layout>): set<MemNode> {
    set k, r | 0 <= k < |layouts| && r in Refs(layouts[k]) :: r
  }

  ghost predicate StackHolds(layouts: seq<Layout>, stack: seq<Node>, h: Hasher)
    reads StackRefs(layouts)
  {
    && |layouts| == |stack|
    && forall k :: 0 <= k < |stack| ==> stack[k] == Root(layouts[k]) && Good(layouts[k], h) && Ordered(Abs(layouts[k]))
  }

  lemma StackAllocated(layouts: seq<Layout>)
    ensures forall r :: r in StackRefs(layouts) ==> allocated(r)
  {
    forall k | 0 <= k < |layouts| ensures forall r :: r in Refs(layouts[k]) ==> allocated(r) {
      RefsAllocated(layouts[k]);
    }
  }

  /** What there is to know of the node on top of the stack. */
  lemma {:induction false} Top(a: Layout, h: Hasher)
    requires Good(a, h) && Ordered(Abs(a))
    ensures a.OnDisk? ==> View(a.p) != Missing
    ensures Abs(a).Branch? && a.OnDisk? ==> View(a.p).BranchView?
    ensures Inspect(Root(a)) == InfoOf(a) && InfoOf(a).isLeaf == Abs(a).Leaf? && InfoOf(a).key == Abs(a).key
    ensures Abs(a).Leaf? ==> InfoOf(a).value == Abs(a).value
  {
    Seen(a, h);
  }

  lemma {:induction false} Below(a: Layout, h: Hasher) returns (l: Layout, r: Layout)
    requires Good(a, h) && Ordered(Abs(a)) && Abs(a).Branch? && (a.OnDisk? ==> View(a.p).BranchView?)
    ensures Exact(Abs(a)) && Abs(l) == Abs(a).left && Abs(r) == Abs(a).right
    ensures Good(l, h) && Good(r, h) && Ordered(Abs(l)) && Ordered(Abs(r))
    ensures InfoOf(a).left == Root(l) && InfoOf(a).right == Root(r)
  {
    l, r := BranchParts(a, 0, h);
  }

  lemma VisitedLeaf(d: Domain, ascending: bool, t: Tree)
    requires t.Leaf?
    ensures Visited(d, ascending, t) == if InDomain(d, t.key) then [Entry(t.key, t.value, t.version)] else []
  {
    var e := [Entry(t.key, t.value, t.version)];
    assert Leaves(t) == e && Select(d, []) == [] && Reversed([]) == [];
    assert Select(d, e) == if InDomain(d, t.key) then e else [];
    assert Reversed(e) == e;
  }

  /** The test at a leaf, by one comparison with each bound. */
  lemma LeafTest(d: Domain, key: Bytes)
    ensures (AfterStart(d, key) || (d.start.Some? && d.start.value == key)) && BeforeEnd(d, key) <==> InDomain(d, key)
  {
    LessIsTotalOrder();
  }

  function Pushed(stack: seq<Node>, ascending: bool, afterStart: bool, beforeEnd: bool, i: Info): seq<Node> {
    if ascending then
      var s := if beforeEnd then stack + [i.right] else stack;
      if afterStart then s + [i.left] else s
    else
      var s := if afterStart then stack + [i.left] else stack;
      if beforeEnd then s + [i.right] else s
  }

  lemma Popped(stack: seq<Node>, d: Domain, ascending: bool, layouts: seq<Layout>, h: Hasher)
    requires StackHolds(layouts, stack, h) && stack != []
    ensures |layouts| == |stack|
    ensures var n := |stack| - 1;
      && stack[n] == Root(layouts[n]) && Good(layouts[n], h) && Ordered(Abs(layouts[n]))
      && StackHolds(layouts[..n], stack[..n], h)
      && Ahead(d, ascending, layouts) == Visited(d, ascending, Abs(layouts[n])) + Ahead(d, ascending, layouts[..n])
      && Work(layouts) == NodeCount(Abs(layouts[n])) + Work(layouts[..n]) && NodeCount(Abs(layouts[n])) > 0
  {
    hide Good, Ordered, Visited;
  }

  lemma PushedHolds(stack: seq<Node>, d: Domain, ascending: bool, layouts: seq<Layout>, i: Info, l: Layout, r: Layout,
                    h: Hasher)
    requires StackHolds(layouts, stack, h)
    requires i.left == Root(l) && Good(l, h) && Ordered(Abs(l)) && i.right == Root(r) && Good(r, h) && Ordered(Abs(r))
    ensures StackHolds(layouts + Children(d, ascending, i.key, l, r),
      Pushed(stack, ascending, AfterStart(d, i.key), BeforeEnd(d, i.key), i), h)
  {
    hide Good, Ordered, AfterStart, BeforeEnd;
  }

  /** Takes a node off the stack: a leaf may be the next result, a branch puts children
      on the stack. */
  method Turn(stack: seq<Node>, d: Domain, ascending: bool, ghost layouts: seq<Layout>, ghost h: Hasher)
    returns (stack': seq<Node>, found: Option<(Bytes, Bytes)>, ghost layouts': seq<Layout>)
    requires StackHolds(layouts, stack, h) && stack != []
    ensures StackHolds(layouts', stack', h) && Work(layouts') < Work(layouts)
    ensures found.None? ==> Ahead(d, ascending, layouts') == Ahead(d, ascending, layouts)
    ensures found.Some? ==> var ahead := Ahead(d, ascending, layouts);
      ahead != [] && found.value == (ahead[0].key, ahead[0].value) && Ahead(d, ascending, layouts') == ahead[1..]
  {
    hide Good, Inspect, InfoOf, LeftOf, RightOf, View, Refs, Abs, Visited, Less, Ordered, Exact, InDomain,
      StackHolds, Ahead, Work, Pushed, Children;
    var n := |stack| - 1;
    var node := stack[n];
    Popped(stack, d, ascending, layouts, h);
    ghost var a := layouts[n];
    Top(a, h);
    var i := Inspect(node);
    var afterStart := AfterStart(d, i.key);
    var beforeEnd := BeforeEnd(d, i.key);
    stack', layouts' := stack[..n], layouts[..n];
    if i.isLeaf {
      VisitedLeaf(d, ascending, Abs(a));
      LeafTest(d, i.key);
      var startOrAfter := afterStart || (d.start.Some? && d.start.value == i.key);
      if startOrAfter && beforeEnd {
        return stack', Some((i.key, i.value)), layouts';
      }
      return stack', None, layouts';
    }
    ghost var l, r := Below(a, h);
    PushChildren(d, ascending, layouts', a, l, r);
    PushedHolds(stack', d, ascending, layouts', i, l, r, h);
    layouts' := layouts' + Children(d, ascending, i.key, l, r);
    stack' := Pushed(stack', ascending, afterStart, beforeEnd, i);
    return stack', None, layouts';
  }

  lemma Started(d: Domain, ascending: bool, a: Option<Layout>, h: Hasher)
    requires a.Some? ==> Good(a.value, h) && Ordered(Abs(a.value))
    ensures var layouts := if a.None? then [] else [a.value];
      && StackHolds(layouts, if RootOf(a) == Nil then [] else [RootOf(a)], h)
      && Ahead(d, ascending, layouts) == (if a.None? then [] else Visited(d, ascending, Abs(a.value)))
      && forall r :: r in StackRefs(layouts) ==> allocated(r)
  {
    if a.Some? {
      hide Good, Ordered, Visited;
      Push(d, ascending, [], a.value);
      assert [] + [a.value] == [a.value];
      StackAllocated([a.value]);
    }
  }

  class Iterator {
    const domain: Domain
    const ascending: bool
    var key: Bytes
    var value: Bytes
    var valid: bool
    var stack: seq<Node>
    ghost var layouts: seq<Layout>

    ghost predicate Holds(h: Hasher)
      reads this, StackRefs(layouts)
    {
      StackHolds(layouts, stack, h)
    }

    ghost function Rest(): seq<Entry>
      reads this
    {
      Ahead(domain, ascending, layouts)
    }

    /** Stands at the first result, if there is any. */
    constructor (domain: Domain, ascending: bool, root: Node, ghost a: Option<Layout>, ghost h: Hasher)
      requires root == RootOf(a) && (a.Some? ==> Good(a.value, h) && Ordered(Abs(a.value)))
      ensures Holds(h) && this.domain == domain && this.ascending == ascending
      ensures var all := if a.None? then [] else Visited(domain, ascending, Abs(a.value));
        && valid == (all != [])
        && (valid ==> key == all[0].key && value == all[0].value && Rest() == all[1..])
    {
      hide Good, Abs, Visited, Ordered, Refs, Ahead, StackHolds;
      Started(domain, ascending, a, h);
      this.domain, this.ascending, this.valid := domain, ascending, true;
      this.key, this.value := [], [];
      this.stack := if root == Nil then [] else [root];
      this.layouts := if a.None? then [] else [a.value];
      new;
      Next(h);
    }

    method Next(ghost h: Hasher)
      requires Holds(h)
      modifies this
      ensures Holds(h)
      ensures var all := old(Rest());
        if all == [] then !valid && Rest() == []
        else valid == old(valid) && key == all[0].key && value == all[0].value && Rest() == all[1..]
    {
      hide Good, Abs, Visited, Ordered, Refs, Ahead, Work;
      while stack != []
        invariant Holds(h) && Rest() == old(Rest()) && valid == old(valid)
        decreases Work(layouts)
      {
        StackAllocated(layouts);
        var s, found, ls := Turn(stack, domain, ascending, layouts, h);
        StackAllocated(ls);
        stack, layouts := s, ls;
        if found.Some? {
          key, value := found.value.0, found.value.1;
          return;
        }
      }
      NothingAhead(domain, ascending);
      valid := false;
    }
  }

  lemma NothingAhead(d: Domain, ascending: bool)
    ensures Ahead(d, ascending, []) == []
  {
  }

  function Pairs(s: seq<Entry>): (p: seq<(Bytes, Bytes)>)
    ensures |p| == |s| && forall i :: 0 <= i < |s| ==> p[i] == (s[i].key, s[i].value)
  {
    seq(|s|, i requires 0 <= i < |s| => (s[i].key, s[i].value))
  }

  /** A whole iteration yields exactly what is to be visited. */
  method Collect(d: Domain, ascending: bool, root: Node, ghost a: Option<Layout>, ghost h: Hasher)
    returns (out: seq<(Bytes, Bytes)>)
    requires root == RootOf(a) && (a.Some? ==> Good(a.value, h) && Ordered(Abs(a.value)))
    ensures out == Pairs(if a.None? then [] else Visited(d, ascending, Abs(a.value)))
  {
    hide Good, Abs, Visited, Ordered, Refs, Ahead, StackHolds;
    ghost var all := if a.None? then [] else Visited(d, ascending, Abs(a.value));
    var it := new Iterator(d, ascending, root, a, h);
    out := [];
    while it.valid
      invariant fresh(it) && it.Holds(h) && it.domain == d && it.ascending == ascending
      invariant if it.valid then |out| < |all| && out == Pairs(all)[..|out|]
          && (it.key, it.value) == Pairs(all)[|out|] && it.Rest() == all[|out| + 1..]
        else out == Pairs(all)
      decreases if it.valid then |all| - |out| else 0
    {
      out := out + [(it.key, it.value)];
      it.Next(h);
    }
  }
}
