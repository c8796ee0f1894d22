/** The three files of a snapshot, byte by byte, and what opening them reads. */
module SnapshotFiles {
  import opened Bytes
  import opened Iavl
  import opened IavlContents
  import opened Hashing
  import opened Snapshots
  import opened SnapshotProps

  const SIZE_NODE := 48
  const SIZE_LEAF := 48

  // ----------------------------------------------------- record encodings

  /** A field value is truncated to the width it is written with. */
  function Field(x: int, n: nat): (b: Bytes)
    ensures |b| == n
  {
    PutLE(if x < 0 then x % Pow256(n) else x, n)
  }

  function EncodeBranch(r: BranchRecord): (b: Bytes)
    ensures |b| == SIZE_NODE
  {
    var i := r.info;
    Field(i.height, 1) + Field(i.preTrees, 1) + [0, 0]
    + Field(i.version, 4) + Field(i.size, 4) + Field(i.keyLeaf, 4) + r.hash
  }

  function DecodeBranch(b: Bytes): BranchRecord
    requires |b| == SIZE_NODE
  {
    BranchRecord(BranchInfo(b[0], b[1], GetLE(b[4..8]), GetLE(b[8..12]), GetLE(b[12..16])), b[16..48])
  }

  predicate BranchFits(r: BranchRecord) {
    && r.info.height < 0x100 && 0 <= r.info.preTrees < 0x100
    && r.info.version < TWO_32 && r.info.size < TWO_32 && 0 <= r.info.keyLeaf < TWO_32
  }

  /** The fixed-offset reads of a branch match the bytes that the writer fills in. */
  lemma DecodeEncodeBranch(r: BranchRecord)
    requires BranchFits(r)
    ensures DecodeBranch(EncodeBranch(r)) == r
  {
    var b, i := EncodeBranch(r), r.info;
    assert b[0] == Field(i.height, 1)[0] && b[1] == Field(i.preTrees, 1)[0];
    assert b[4..8] == PutLE(i.version, 4);
    assert b[8..12] == PutLE(i.size, 4);
    assert b[12..16] == PutLE(i.keyLeaf, 4);
    assert b[16..48] == r.hash;
    Pow256Widths();
    GetPutLE(i.version, 4);
    GetPutLE(i.size, 4);
    GetPutLE(i.keyLeaf, 4);
  }

  datatype LeafFields = LeafFields(version: nat, keyLen: nat, keyOffset: nat, hash: Hash)

  function EncodeLeaf(f: LeafFields): (b: Bytes)
    ensures |b| == SIZE_LEAF
  {
    PutLE(f.version, 4) + PutLE(f.keyLen, 4) + PutLE(f.keyOffset, 8) + f.hash
  }

  function DecodeLeaf(b: Bytes): LeafFields
    requires |b| == SIZE_LEAF
  {
    LeafFields(GetLE(b[0..4]), GetLE(b[4..8]), GetLE(b[8..16]), b[16..48])
  }

  lemma DecodeEncodeLeaf(f: LeafFields)
    requires f.version < TWO_32 && f.keyLen < TWO_32 && f.keyOffset < TWO_64
    ensures DecodeLeaf(EncodeLeaf(f)) == f
  {
    var b := EncodeLeaf(f);
    assert b[0..4] == PutLE(f.version, 4);
    assert b[4..8] == PutLE(f.keyLen, 4);
    assert b[8..16] == PutLE(f.keyOffset, 8);
    assert b[16..48] == f.hash;
    Pow256Widths();
    GetPutLE(f.version, 4);
    GetPutLE(f.keyLen, 4);
    GetPutLE(f.keyOffset, 8);
  }

  function EncodeKeyValue(e: Entry): Bytes {
    PutLE(|e.key|, 4) + e.key + PutLE(|e.value|, 4) + e.value
  }

  // ------------------------------------------------------------ the files

  function NodesFile(rs: seq<BranchRecord>): (b: Bytes)
    ensures |b| == |rs| * SIZE_NODE
  {
    if rs == [] then [] else NodesFile(rs[..|rs| - 1]) + EncodeBranch(rs[|rs| - 1])
  }

  function KvsFile(rs: seq<LeafRecord>): Bytes {
    if rs == [] then [] else KvsFile(rs[..|rs| - 1]) + EncodeKeyValue(rs[|rs| - 1].entry)
  }

  function FieldsOf(rs: seq<LeafRecord>, i: nat): LeafFields
    requires i < |rs|
  {
    LeafFields(rs[i].entry.version, |rs[i].entry.key|, |KvsFile(rs[..i])|, rs[i].hash)
  }

  function LeavesFile(rs: seq<LeafRecord>): (b: Bytes)
    ensures |b| == |rs| * SIZE_LEAF
  {
    if rs == [] then [] else LeavesFile(rs[..|rs| - 1]) + EncodeLeaf(FieldsOf(rs, |rs| - 1))
  }

  // -------------------------------------------------------------- reading

  /** The key at an offset of the kvs file, and the value behind it. */
  function ReadKeyValue(kvs: Bytes, f: LeafFields): Option<LeafRecord> {
    var k := f.keyOffset + 4;
    var v := k + f.keyLen + 4;
    if v <= |kvs| && v + GetLE(kvs[v - 4..v]) <= |kvs| then
      Some(LeafRecord(Entry(kvs[k..k + f.keyLen], kvs[v..v + GetLE(kvs[v - 4..v])], f.version), f.hash))
    else None
  }

  function ReadNodes(nodes: Bytes, n: nat): seq<BranchRecord>
    requires |nodes| == n * SIZE_NODE
    decreases n
  {
    if n == 0 then [] else
      var at := (n - 1) * SIZE_NODE;
      ReadNodes(nodes[..at], n - 1) + [DecodeBranch(nodes[at..])]
  }

  /** All leaves, if every one of them lies within the kvs file. */
  function ReadLeaves(leaves: Bytes, n: nat, kvs: Bytes): Option<seq<LeafRecord>>
    requires |leaves| == n * SIZE_LEAF
    decreases n
  {
    if n == 0 then Some([]) else
      var at := (n - 1) * SIZE_LEAF;
      var init := ReadLeaves(leaves[..at], n - 1, kvs);
      var last := ReadKeyValue(kvs, DecodeLeaf(leaves[at..]));
      if init.None? || last.None? then None else Some(init.value + [last.value])
  }

  datatype OpenError = BadNodesSize | BadLeavesSize | CountMismatch | OutOfBounds
  datatype OpenResult = Opened(snapshot: Snapshot) | Failed(error: OpenError)

  /** The checks made on opening, then the records. Reading a key or value out of the
      bounds of its file is a panic at the time of the read. */
  function Open(nodes: Bytes, leaves: Bytes, kvs: Bytes): OpenResult {
    if |nodes| % SIZE_NODE != 0 then Failed(BadNodesSize)
    else if |leaves| % SIZE_LEAF != 0 then Failed(BadLeavesSize)
    else
      var n, m := |nodes| / SIZE_NODE, |leaves| / SIZE_LEAF;
      if (m > 0 && n + 1 != m) || (m == 0 && n != 0) then Failed(CountMismatch)
      else
        var ls := ReadLeaves(leaves, m, kvs);
        if ls.None? then Failed(OutOfBounds) else Opened(Snapshot(ReadNodes(nodes, n), ls.value))
  }

  // ------------------------------------------------- what was written is read

  predicate LeafFits(r: LeafRecord) {
    r.entry.version < TWO_32 && |r.entry.key| < TWO_32 && |r.entry.value| < TWO_32
  }

  lemma {:induction false} ReadNodesFile(rs: seq<BranchRecord>)
    requires forall i :: 0 <= i < |rs| ==> BranchFits(rs[i])
    ensures ReadNodes(NodesFile(rs), |rs|) == rs
  {
    hide EncodeBranch, DecodeBranch;
    if rs != [] {
      var init, last := rs[..|rs| - 1], rs[|rs| - 1];
      ReadNodesFile(init);
      DecodeEncodeBranch(last);
      AppendSplits(NodesFile(init), EncodeBranch(last));
    }
  }

  lemma AppendSplits(a: Bytes, b: Bytes)
    ensures (a + b)[..|a|] == a && (a + b)[|a|..] == b
  {
  }

  /** Whatever is written to the kvs file before and after a pair, it is read back. */
  lemma ReadKeyValueBack(before: Bytes, e: Entry, after: Bytes, hash: Hash)
    requires |e.value| < TWO_32
    ensures ReadKeyValue(before + (EncodeKeyValue(e) + after), LeafFields(e.version, |e.key|, |before|, hash))
         == Some(LeafRecord(e, hash))
  {
    var kvs := before + (EncodeKeyValue(e) + after);
    var k := |before| + 4;
    var v := k + |e.key| + 4;
    KeyValueInPlace(before, e, after);
    Pow256Widths();
    GetPutLE(|e.value|, 4);
    hide PutLE, GetLE;
  }

  lemma KeyValueInPlace(before: Bytes, e: Entry, after: Bytes)
    ensures var kvs := before + (EncodeKeyValue(e) + after);
      var k := |before| + 4;
      var v := k + |e.key| + 4;
      && kvs[k..k + |e.key|] == e.key
      && kvs[v - 4..v] == PutLE(|e.value|, 4)
      && v + |e.value| <= |kvs| && kvs[v..v + |e.value|] == e.value
  {
    hide PutLE;
    var a, b := PutLE(|e.key|, 4), PutLE(|e.value|, 4);
    var kvs := before + (EncodeKeyValue(e) + after);
    assert kvs == (before + a) + (e.key + b + e.value + after);
    assert kvs == (before + a + e.key) + (b + e.value + after);
    assert kvs == (before + a + e.key + b) + (e.value + after);
    AppendSplits(before + a, e.key + b + e.value + after);
    AppendSplits(before + a + e.key, b + e.value + after);
    AppendSplits(before + a + e.key + b, e.value + after);
  }

  lemma {:induction false} ReadLeavesFile(rs: seq<LeafRecord>, after: Bytes)
    requires forall i :: 0 <= i < |rs| ==> LeafFits(rs[i])
    requires |KvsFile(rs)| < TWO_64
    ensures ReadLeaves(LeavesFile(rs), |rs|, KvsFile(rs) + after) == Some(rs)
  {
    hide EncodeLeaf, DecodeLeaf, ReadKeyValue, EncodeKeyValue;
    if rs != [] {
      var init, last := rs[..|rs| - 1], rs[|rs| - 1];
      var kv := EncodeKeyValue(last.entry);
      AppendAssociates(KvsFile(init), kv, after);
      ReadLeavesFile(init, kv + after);
      ReadKeyValueBack(KvsFile(init), last.entry, after, last.hash);
      var f := LeafFields(last.entry.version, |last.entry.key|, |KvsFile(init)|, last.hash);
      assert FieldsOf(rs, |rs| - 1) == f;
      DecodeEncodeLeaf(f);
      AppendSplits(LeavesFile(init), EncodeLeaf(f));
      assert LeavesFile(rs) == LeavesFile(init) + EncodeLeaf(f);
      assert init + [last] == rs;
    }
  }

  lemma WholeRecords(n: nat)
    ensures n * 48 % 48 == 0 && n * 48 / 48 == n
  {
  }

  ghost predicate SnapshotFits(s: Snapshot) {
    && (forall i :: 0 <= i < |s.nodes| ==> BranchFits(s.nodes[i]))
    && (forall i :: 0 <= i < |s.leaves| ==> LeafFits(s.leaves[i]))
    && |KvsFile(s.leaves)| < TWO_64
  }

  /** Opening the files of a snapshot gives the snapshot. */
  lemma OpenReadsBack(s: Snapshot)
    requires SnapshotFits(s)
    requires if |s.leaves| == 0 then |s.nodes| == 0 else |s.nodes| + 1 == |s.leaves|
    ensures Open(NodesFile(s.nodes), LeavesFile(s.leaves), KvsFile(s.leaves)) == Opened(s)
  {
    hide KvsFile, ReadNodes, ReadLeaves, NodesFile, LeavesFile;
    ReadNodesFile(s.nodes);
    ReadLeavesFile(s.leaves, []);
    assert KvsFile(s.leaves) + [] == KvsFile(s.leaves);
    WholeRecords(|s.nodes|);
    WholeRecords(|s.leaves|);
  }

  // -------------------------------------------------- which trees fit

  /** Versions and lengths fit their 32-bit fields. */
  predicate FieldsFit(t: Tree) {
    && t.version < TWO_32
    && match t
       case Leaf(k, v, _) => |k| < TWO_32 && |v| < TWO_32
       case Branch(_, _, _, _, l, r) => FieldsFit(l) && FieldsFit(r)
  }

  lemma {:induction false} LeafRecordsFit(t: Tree, h: Hasher)
    requires FieldsFit(t)
    ensures forall i :: 0 <= i < |LeafRecords(t, h)| ==> LeafFits(LeafRecords(t, h)[i])
  {
    if t.Branch? {
      LeafRecordsFit(t.left, h);
      LeafRecordsFit(t.right, h);
    }
  }

  /** With at most 255 levels of pending trees and fewer than 2^32 leaves, every field
      of every branch record fits. */
  lemma {:induction false} BranchRecordsFit(t: Tree, m: nat, b: nat, h: Hasher)
    requires Exact(t) && FieldsFit(t)
    requires b <= m && m + t.Size() < TWO_32 && m - b + t.Height() < 0x100
    ensures forall i :: 0 <= i < |BranchRecords(t, m, b, h)| ==> BranchFits(BranchRecords(t, m, b, h)[i])
  {
    if t.Branch? {
      ExactSizes(t.left);
      ExactSizes(t.right);
      BranchRecordsFit(t.left, m, b, h);
      BranchRecordsFit(t.right, m + t.left.Size(), b + t.left.Size() - 1, h);
    }
  }

  /** Writing a tree to files and opening them: every node is found again, by reading
      bytes, at the place that the index arithmetic gives. */
  lemma {:induction false} FilesRoundTrip(t: Tree, h: Hasher)
    requires WellFormed(t) && t.Size() < TWO_32
    requires FieldsFit(t) && |KvsFile(LeafRecords(t, h))| < TWO_64
    ensures var s := Emit(EmptySnapshot, t, h);
      && Open(NodesFile(s.nodes), LeavesFile(s.leaves), KvsFile(s.leaves)) == Opened(s)
      && RootNode(s).Some? && Stores(RootNode(s).value, t, 0, h)
  {
    hide Emit, LeafRecords, BranchRecords, Open, NodesFile, LeavesFile, KvsFile, FieldsFit, Exact, Balanced, Ordered,
         Stores, RootNode,
      BranchFits, LeafFits;
    SnapshotRoundTrip(t, h);
    HeightAtMost45(t);
    ExactSizes(t);
    EmitAppends(EmptySnapshot, t, h);
    RecordCounts(t, 0, 0, h);
    LeafRecordsFit(t, h);
    BranchRecordsFit(t, 0, 0, h);
    var s := Emit(EmptySnapshot, t, h);
    assert s.nodes == BranchRecords(t, 0, 0, h) && s.leaves == LeafRecords(t, h);
    OpenReadsBack(s);
  }
}
