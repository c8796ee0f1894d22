/** Several trees that share nodes, and runs over them. As values the trees of a run are
    independent of each other: a step concerns one of them, or adds a copy. */
module ForestStates {
  import opened Bytes
  import opened Iavl
  import opened IavlContents
  import opened Hashing
  import opened TreeStates

  datatype Step =
    | Write(tree: nat, op: Op)
    | ComputeHash(tree: nat)
    | Save(tree: nat, updateHash: bool)
    | Copy(tree: nat)

  ghost predicate AllSound(states: seq<State>) {
    forall i :: 0 <= i < |states| ==> Sound(states[i])
  }

  /** A copy is taken at a version boundary. */
  predicate Allowed(states: seq<State>, step: Step) {
    step.tree < |states| && (step.Copy? ==> !states[step.tree].dirty)
  }

  /** What a step makes of the tree that it names. */
  function Own(s: State, step: Step): (r: State)
    requires s.root.Some? ==> Exact(s.root.value)
    ensures r.root.Some? ==> Exact(r.root.value)
  {
    match step
    case Write(_, op) => Edited(s, op)
    case ComputeHash(_) => s
    case Save(_, _) => Saved(s)
    case Copy(_) => s
  }

  ghost function Next(states: seq<State>, step: Step): seq<State>
    requires AllSound(states) && Allowed(states, step)
  {
    var i := step.tree;
    var own := states[i := Own(states[i], step)];
    if step.Copy? then own + [states[i]] else own
  }

  /** The hash that a step reports. */
  ghost function Output(states: seq<State>, step: Step, h: Hasher): Option<Hash>
    requires step.tree < |states|
  {
    var s := states[step.tree];
    match step
    case ComputeHash(_) => Some(RootHash(s.root, h))
    case Save(_, updateHash) => if updateHash && s.version != TWO_32 - 1 then Some(RootHash(s.root, h)) else None
    case _ => None
  }

  lemma OwnIsSound(s: State, step: Step)
    requires Sound(s)
    ensures Sound(Own(s, step))
  {
    hide Sound;
    SoundIsExact(s);
    match step
    case Write(_, op) => EditIsSound(s, op);
    case Save(_, _) => SaveIsSound(s);
    case _ =>
  }

  lemma NextIsSound(states: seq<State>, step: Step)
    requires AllSound(states) && Allowed(states, step)
    ensures AllSound(Next(states, step))
  {
    hide Sound, Own;
    OwnIsSound(states[step.tree], step);
  }

  ghost predicate AllAllowed(states: seq<State>, steps: seq<Step>)
    requires AllSound(states)
    decreases |steps|
  {
    steps != [] ==>
      && Allowed(states, steps[0])
      && (NextIsSound(states, steps[0]); AllAllowed(Next(states, steps[0]), steps[1..]))
  }

  ghost function NextAll(states: seq<State>, steps: seq<Step>): (r: seq<State>)
    requires AllSound(states) && AllAllowed(states, steps)
    ensures AllSound(r)
    decreases |steps|
  {
    if steps == [] then states else NextIsSound(states, steps[0]); NextAll(Next(states, steps[0]), steps[1..])
  }

  ghost function Outputs(states: seq<State>, steps: seq<Step>, h: Hasher): seq<Option<Hash>>
    requires AllSound(states) && AllAllowed(states, steps)
    decreases |steps|
  {
    if steps == [] then []
    else NextIsSound(states, steps[0]); [Output(states, steps[0], h)] + Outputs(Next(states, steps[0]), steps[1..], h)
  }

  /** The steps that name a tree, applied to it alone. */
  function OwnAll(s: State, steps: seq<Step>, tree: nat): State
    requires s.root.Some? ==> Exact(s.root.value)
    decreases |steps|
  {
    if steps == [] then s else OwnAll(if steps[0].tree == tree then Own(s, steps[0]) else s, steps[1..], tree)
  }

  /** Isolation: after any run a tree is what its own steps make of it. */
  lemma {:induction false} RunIsOwn(states: seq<State>, steps: seq<Step>, tree: nat)
    requires AllSound(states) && AllAllowed(states, steps) && tree < |states|
    requires states[tree].root.Some? ==> Exact(states[tree].root.value)
    ensures |NextAll(states, steps)| >= |states|
    ensures NextAll(states, steps)[tree] == OwnAll(states[tree], steps, tree)
    decreases |steps|
  {
    hide Sound, Own;
    if steps != [] {
      NextIsSound(states, steps[0]);
      RunIsOwn(Next(states, steps[0]), steps[1..], tree);
    }
  }

  /** And a copy is what its own steps make of the tree as it was when it was copied. */
  lemma CopyIsOwn(states: seq<State>, tree: nat, steps: seq<Step>)
    requires AllSound(states) && tree < |states| && AllAllowed(states, [Copy(tree)] + steps)
    requires states[tree].root.Some? ==> Exact(states[tree].root.value)
    ensures var after := NextAll(states, [Copy(tree)] + steps);
      |after| > |states| && after[|states|] == OwnAll(states[tree], steps, |states|)
  {
    hide Sound;
    var run := [Copy(tree)] + steps;
    NextIsSound(states, Copy(tree));
    assert run[0] == Copy(tree) && run[1..] == steps;
    RunIsOwn(Next(states, Copy(tree)), steps, |states|);
  }
}

/** The same runs over tree objects, which share nodes in memory. */
module Forests {
  import opened Bytes
  import opened IavlContents
  import opened Hashing
  import opened MemTree
  import opened MemHash
  import opened TreeStates
  import opened Trees
  import opened ForestStates

  ghost function Objects(trees: seq<Trees.Tree>): set<Trees.Tree> {
    set t | t in trees
  }

  ghost function AllRefs(trees: seq<Trees.Tree>): set<MemNode>
    reads trees
  {
    set i, x | 0 <= i < |trees| && x in RefsOf(trees[i].layout) :: x
  }

  /** No tree may change a node of another one. */
  ghost predicate Apart(trees: seq<Trees.Tree>)
    reads trees
  {
    forall i, j :: 0 <= i < |trees| && 0 <= j < |trees| && i != j ==>
      trees[i] != trees[j] && OwnedOf(trees[i].layout, trees[i].cowVersion) !! RefsOf(trees[j].layout)
  }

  ghost predicate Represents(trees: seq<Trees.Tree>, states: seq<State>, h: Hasher)
    reads trees, AllRefs(trees)
  {
    && |trees| == |states|
    && forall i :: 0 <= i < |trees| ==> trees[i].Valid(h) && trees[i].Value() == states[i]
  }

  lemma AllAllocated(trees: seq<Trees.Tree>)
    ensures forall i, x :: 0 <= i < |trees| && x in RefsOf(trees[i].layout) ==> allocated(x)
  {
    forall i | 0 <= i < |trees| ensures forall x :: x in RefsOf(trees[i].layout) ==> allocated(x) {
      if trees[i].layout.Some? { RefsAllocated(trees[i].layout.value); }
    }
  }

  method DoWrite(trees: seq<Trees.Tree>, i: nat, op: Op, evicted: set<Bytes>, ghost states: seq<State>, ghost h: Hasher)
    requires Represents(trees, states, h) && Apart(trees) && AllSound(states) && i < |trees|
    modifies trees[i], OwnedOf(trees[i].layout, trees[i].cowVersion)
    ensures Represents(trees, Next(states, Write(i, op)), h) && Apart(trees)
    ensures forall x :: x in AllRefs(trees) ==> x in old(AllRefs(trees)) || fresh(x)
  {
    AllAllocated(trees);
    hide Sound, RefsOf, OwnedOf, Edited, Agrees, GoodTree, BesideTree;
    var t := trees[i];
    match op {
      case SetOp(k, v) => t.Set(k, Some(v), evicted, h);
      case RemoveOp(k) => t.Remove(k, evicted, h);
    }
  }

  // ------------------------------------------------ hashes of shared nodes

  /** The contents of memory nodes at some point in time, as values. */
  datatype Image = Image(cells: map<MemNode, Cell>, hashes: map<MemNode, Option<Hash>>)

  ghost function Taken(refs: set<MemNode>): Image
    reads refs
  {
    Image(map r | r in refs :: r.Fields(), map r | r in refs :: r.hash)
  }

  ghost predicate HoldsIn(a: Layout, cells: map<MemNode, Cell>) {
    && (!a.OnDisk? ==> a.ref in cells && cells[a.ref] == CellOf(a))
    && (a.BranchAt? ==> HoldsIn(a.left, cells) && HoldsIn(a.right, cells))
  }

  lemma {:induction false} HeldThen(a: Layout, cells: map<MemNode, Cell>)
    requires Holds(a) && forall r :: r in Refs(a) ==> r in cells && cells[r] == r.Fields()
    ensures HoldsIn(a, cells)
  {
    if a.BranchAt? {
      HeldThen(a.left, cells);
      HeldThen(a.right, cells);
    }
  }

  lemma {:induction false} HoldsStill(a: Layout, cells: map<MemNode, Cell>)
    requires HoldsIn(a, cells) && forall r :: r in Refs(a) ==> r in cells && cells[r] == r.Fields()
    ensures Holds(a)
  {
    if a.BranchAt? {
      HoldsStill(a.left, cells);
      HoldsStill(a.right, cells);
    }
  }

  /** The layout of a good tree is recorded in an image of its nodes. */
  ghost predicate Recorded(a: Option<Layout>, image: Image, h: Hasher) {
    a.Some? ==> Shape(a.value, h) && HoldsIn(a.value, image.cells) && MemoIn(a.value, image.hashes, h)
  }

  lemma RecordNow(a: Option<Layout>, refs: set<MemNode>, h: Hasher)
    requires GoodTree(a, h) && RefsOf(a) <= refs
    ensures Recorded(a, Taken(refs), h)
  {
    if a.Some? {
      HeldThen(a.value, Taken(refs).cells);
      MemoNow(a.value, Taken(refs).hashes, h);
    }
  }

  /** A tree stays good when nothing changes but hashes of nodes of another good tree. */
  lemma GoodStill(a: Option<Layout>, b: Option<Layout>, image: Image, h: Hasher)
    requires Recorded(a, image, h) && GoodTree(b, h)
    requires forall r :: r in RefsOf(a) ==> r in image.cells && image.cells[r] == r.Fields()
    requires forall r :: r in RefsOf(a) && r !in RefsOf(b) ==> r in image.hashes && image.hashes[r] == r.hash
    ensures GoodTree(a, h)
  {
    if a.Some? {
      HoldsStill(a.value, image.cells);
      if b.Some? {
        MemoShared(a.value, b.value, image.hashes, h);
      } else {
        MemoStill(a.value, image.hashes, h);
      }
    }
  }

  lemma {:induction false} MemoStill(a: Layout, memo: map<MemNode, Option<Hash>>, h: Hasher)
    requires MemoIn(a, memo, h) && forall r :: r in Refs(a) ==> r in memo && memo[r] == r.hash
    ensures Memo(a, h)
  {
    if a.BranchAt? {
      MemoStill(a.left, memo, h);
      MemoStill(a.right, memo, h);
    }
  }

  ghost predicate AllRecorded(trees: seq<Trees.Tree>, image: Image, h: Hasher)
    reads trees
  {
    forall j :: 0 <= j < |trees| ==> Recorded(trees[j].layout, image, h)
  }

  lemma RecordAll(trees: seq<Trees.Tree>, states: seq<State>, h: Hasher)
    requires Represents(trees, states, h)
    ensures AllRecorded(trees, Taken(AllRefs(trees)), h)
  {
    hide Recorded, Taken, GoodTree;
    var refs := AllRefs(trees);
    forall j | 0 <= j < |trees| ensures Recorded(trees[j].layout, Taken(refs), h) {
      assert trees[j].Valid(h) && RefsOf(trees[j].layout) <= refs;
      RecordNow(trees[j].layout, refs, h);
    }
  }

  /** Nothing changed in memory but hashes of nodes of the tree `t`. */
  ghost predicate OnlyHashes(trees: seq<Trees.Tree>, t: Trees.Tree, image: Image)
    reads trees, t, AllRefs(trees)
  {
    && (forall r :: r in AllRefs(trees) ==> r in image.cells && image.cells[r] == r.Fields())
    && (forall r :: r in AllRefs(trees) && r !in RefsOf(t.layout) ==> r in image.hashes && image.hashes[r] == r.hash)
  }

  /** A list of trees is what it should be, apart from the nodes. */
  ghost predicate Described(trees: seq<Trees.Tree>, states: seq<State>)
    reads trees
  {
    && |trees| == |states|
    && forall j :: 0 <= j < |trees| ==>
        && trees[j].root == RootOf(trees[j].layout) && trees[j].Value() == states[j]
        && Sound(states[j]) && Agrees(trees[j].cache, states[j].root)
  }

  ghost predicate AllGood(trees: seq<Trees.Tree>, h: Hasher)
    reads trees, AllRefs(trees)
  {
    forall j :: 0 <= j < |trees| ==> GoodTree(trees[j].layout, h)
  }

  lemma RepresentsInParts(trees: seq<Trees.Tree>, states: seq<State>, h: Hasher)
    ensures Represents(trees, states, h) <==> Described(trees, states) && AllGood(trees, h)
  {
    hide Sound, GoodTree, RefsOf, Agrees;
  }

  lemma AllGoodStill(trees: seq<Trees.Tree>, t: Trees.Tree, image: Image, h: Hasher)
    requires AllRecorded(trees, image, h) && OnlyHashes(trees, t, image) && t.Linked(h)
    ensures AllGood(trees, h)
  {
    hide Recorded, GoodTree, RefsOf;
    forall j | 0 <= j < |trees| ensures GoodTree(trees[j].layout, h) {
      assert forall r :: r in RefsOf(trees[j].layout) ==> r in AllRefs(trees);
      GoodStill(trees[j].layout, t.layout, image, h);
    }
  }

  method DoHash(trees: seq<Trees.Tree>, i: nat, h: Hasher, ghost states: seq<State>) returns (x: Hash)
    requires Represents(trees, states, h) && Apart(trees) && i < |trees|
    modifies RefsOf(trees[i].layout)`hash
    ensures Represents(trees, states, h) && Apart(trees)
    ensures x == RootHash(states[i].root, h)
  {
    hide Sound, RefsOf, OwnedOf, GoodTree, Agrees, Recorded, AllRecorded, AllGood;
    AllAllocated(trees);
    RepresentsInParts(trees, states, h);
    RecordAll(trees, states, h);
    ghost var image := Taken(AllRefs(trees));
    x := HashOne(trees, i, image, h);
    AllGoodStill(trees, trees[i], image, h);
    RepresentsInParts(trees, states, h);
  }

  /** Computes the hash of one tree. */
  method HashOne(trees: seq<Trees.Tree>, i: nat, ghost image: Image, h: Hasher) returns (x: Hash)
    requires i < |trees| && trees[i].Linked(h) && image == Taken(AllRefs(trees))
    modifies RefsOf(trees[i].layout)`hash
    ensures x == RootHash(AbsOf(trees[i].layout), h) && trees[i].Linked(h)
    ensures OnlyHashes(trees, trees[i], image)
  {
    hide GoodTree, RefsOf;
    AllAllocated(trees);
    x := trees[i].RootHash(h);
  }

  /** Saves the version of one tree. */
  method SaveOne(trees: seq<Trees.Tree>, i: nat, updateHash: bool, ghost image: Image, h: Hasher)
    returns (out: Option<Hash>)
    requires i < |trees| && trees[i].Valid(h) && image == Taken(AllRefs(trees))
    modifies trees[i], RefsOf(trees[i].layout)`hash
    ensures trees[i].Valid(h) && trees[i].Value() == Saved(old(trees[i].Value()))
    ensures out == if updateHash && old(trees[i].version) != TWO_32 - 1 then Some(RootHash(AbsOf(trees[i].layout), h))
      else None
    ensures trees[i].cowVersion == old(trees[i].cowVersion) && trees[i].layout == old(trees[i].layout)
    ensures OnlyHashes(trees, trees[i], image)
  {
    hide GoodTree, RefsOf, Sound, Agrees, Saved;
    AllAllocated(trees);
    var ok;
    ok, out := trees[i].SaveVersion(updateHash, h);
  }

  /** So the list is as it should be again, apart from the nodes. */
  method SaveDescribed(trees: seq<Trees.Tree>, i: nat, updateHash: bool, ghost image: Image, h: Hasher,
                       ghost states: seq<State>)
    returns (out: Option<Hash>)
    requires Described(trees, states) && Apart(trees) && i < |trees| && trees[i].Valid(h)
    requires AllRecorded(trees, image, h) && image == Taken(AllRefs(trees))
    modifies trees[i], RefsOf(trees[i].layout)`hash
    ensures AllSound(states) && Described(trees, Next(states, Save(i, updateHash))) && trees[i].Valid(h)
    ensures out == Output(states, Save(i, updateHash), h) && OnlyHashes(trees, trees[i], image)
    ensures Apart(trees) && AllRecorded(trees, image, h) && AllRefs(trees) == old(AllRefs(trees))
  {
    hide Sound, RefsOf, OwnedOf, GoodTree, Agrees, Recorded, OnlyHashes, Saved;
    out := SaveOne(trees, i, updateHash, image, h);
  }

  method DoSave(trees: seq<Trees.Tree>, i: nat, updateHash: bool, h: Hasher, ghost states: seq<State>)
    returns (out: Option<Hash>)
    requires Represents(trees, states, h) && Apart(trees) && AllSound(states) && i < |trees|
    modifies trees[i], RefsOf(trees[i].layout)`hash
    ensures Represents(trees, Next(states, Save(i, updateHash)), h) && Apart(trees)
    ensures out == Output(states, Save(i, updateHash), h) && AllRefs(trees) == old(AllRefs(trees))
  {
    assert |trees| == |states| && trees[i].Valid(h);
    hide Sound, RefsOf, GoodTree, Agrees, AllRecorded, OnlyHashes, AllGood, Represents, Described, AllSound, Next,
         Output, Apart, AllRefs, Taken;
    RepresentsInParts(trees, states, h);
    RecordAll(trees, states, h);
    ghost var image := Taken(AllRefs(trees));
    out := SaveDescribed(trees, i, updateHash, image, h, states);
    AllGoodStill(trees, trees[i], image, h);
    RepresentsInParts(trees, Next(states, Save(i, updateHash)), h);
  }

  method DoCopy(trees: seq<Trees.Tree>, i: nat, caching: bool, ghost states: seq<State>, ghost h: Hasher)
    returns (r: seq<Trees.Tree>)
    requires Represents(trees, states, h) && Apart(trees) && AllSound(states) && i < |trees| && !states[i].dirty
    modifies trees[i]
    ensures Represents(r, Next(states, Copy(i)), h) && Apart(r)
    ensures forall t :: t in r ==> t in trees || fresh(t)
    ensures forall x :: x in AllRefs(r) ==> x in old(AllRefs(trees))
  {
    AllAllocated(trees);
    hide Sound, RefsOf, OwnedOf, GoodTree, Agrees;
    var c := trees[i].Copy(caching, h);
    r := trees + [c];
    assert forall j :: 0 <= j < |r| ==> r[j].layout == old(trees[if j < |trees| then j else i].layout);
  }

  method Do(trees: seq<Trees.Tree>, step: Step, evicted: set<Bytes>, caching: bool, h: Hasher, ghost states: seq<State>)
    returns (r: seq<Trees.Tree>, out: Option<Hash>)
    requires Represents(trees, states, h) && Apart(trees) && AllSound(states) && Allowed(states, step)
    modifies Objects(trees), AllRefs(trees)
    ensures Represents(r, Next(states, step), h) && Apart(r) && out == Output(states, step, h)
    ensures forall t :: t in Objects(r) ==> t in Objects(trees) || fresh(t)
    ensures forall x :: x in AllRefs(r) ==> x in old(AllRefs(trees)) || fresh(x)
  {
    assert |trees| == |states| && RefsOf(trees[step.tree].layout) <= AllRefs(trees);
    assert step.ComputeHash? ==> Next(states, step) == states;
    hide Sound, RefsOf, OwnedOf, Represents, Apart, Next, AllSound, AllRefs;
    match step
    case Write(i, op) =>
      DoWrite(trees, i, op, evicted, states, h);
      return trees, None;
    case ComputeHash(i) =>
      var x := DoHash(trees, i, h, states);
      return trees, Some(x);
    case Save(i, updateHash) =>
      out := DoSave(trees, i, updateHash, h, states);
      return trees, out;
    case Copy(i) =>
      r := DoCopy(trees, i, caching, states, h);
      return r, None;
  }

  /** Any run over trees that share nodes in memory reports the hashes, and leaves the
      trees, that the same run over independent values does. */
  method RunAll(trees: seq<Trees.Tree>, steps: seq<Step>, evicted: nat -> set<Bytes>, caching: bool, h: Hasher,
                ghost states: seq<State>)
    returns (r: seq<Trees.Tree>, outs: seq<Option<Hash>>)
    requires Represents(trees, states, h) && Apart(trees) && AllSound(states) && AllAllowed(states, steps)
    modifies Objects(trees), AllRefs(trees)
    ensures Represents(r, NextAll(states, steps), h) && Apart(r)
    ensures outs == Outputs(states, steps, h)
    decreases |steps|
  {
    if steps == [] {
      return trees, [];
    }
    NextIsSound(states, steps[0]);
    hide Sound, RefsOf, OwnedOf, Represents, Apart, Next, AllSound, AllRefs, Objects, Output;
    var mid, out := Do(trees, steps[0], evicted(|steps|), caching, h, states);
    var rest;
    r, rest := RunAll(mid, steps[1..], evicted, caching, h, Next(states, steps[0]));
    outs := [out] + rest;
  }
}
