/** The external sorter: items are gathered into chunks, each chunk is sorted and saved to a
    file in the background, and the files are merged. */
module ExtSorts {
  import opened Bytes
  import opened ChangeSets
  import opened Deltas
  import opened Merges

  // ------------------------------------------------------------ chunk files

  function EncodePlain(items: seq<Bytes>): Bytes {
    if items == [] then [] else PutUvarint(|items[0]|) + items[0] + EncodePlain(items[1..])
  }

  /** Without delta coding a file may end only between items. */
  function DecodePlain(b: Bytes): Option<seq<Bytes>>
    decreases |b|
  {
    if b == [] then Some([])
    else
      match ReadSized(b)
      case Eof => None
      case Bad => None
      case Got(item, rest) =>
        var r := DecodePlain(rest);
        if r.None? then None else Some([item] + r.value)
  }

  lemma {:induction false} DecodePlainBack(items: seq<Bytes>)
    requires forall i :: 0 <= i < |items| ==> |items[i]| < TWO_64
    ensures DecodePlain(EncodePlain(items)) == Some(items)
    decreases |items|
  {
    hide PutUvarint, ReadSized;
    if items != [] {
      ReadSizedBack(items[0], EncodePlain(items[1..]));
      DecodePlainBack(items[1..]);
      assert [items[0]] + items[1..] == items;
    }
  }

  function LoadItems(delta: bool, file: Bytes): Option<seq<Bytes>> {
    if delta then DecodeItems([], file) else DecodePlain(file)
  }

  method SaveDelta(items: seq<Bytes>) returns (file: Bytes)
    ensures file == EncodeItems([], items)
  {
    hide EncodeItem, EncodeItems;
    file := [];
    var encoder := new DeltaEncoder();
    assert items[0..] == items;
    for i := 0 to |items|
      invariant file + EncodeItems(encoder.last, items[i..]) == EncodeItems([], items)
    {
      DeltaStep(file, encoder.last, items[i..]);
      assert items[i..][1..] == items[i + 1..];
      file := encoder.Write(file, items[i]);
    }
    DeltaEnd(file, encoder.last, items[|items|..]);
  }

  lemma DeltaStep(file: Bytes, last: Bytes, items: seq<Bytes>)
    requires items != []
    ensures file + EncodeItems(last, items) == (file + EncodeItem(last, items[0])) + EncodeItems(items[0], items[1..])
  {
    hide EncodeItem;
  }

  lemma DeltaEnd(file: Bytes, last: Bytes, items: seq<Bytes>)
    requires items == []
    ensures file + EncodeItems(last, items) == file
  {
  }

  method SavePlain(items: seq<Bytes>) returns (file: Bytes)
    ensures file == EncodePlain(items)
  {
    hide PutUvarint, EncodePlain;
    file := [];
    assert items[0..] == items;
    for i := 0 to |items|
      invariant file + EncodePlain(items[i..]) == EncodePlain(items)
    {
      PlainStep(file, items[i..]);
      assert items[i..][1..] == items[i + 1..];
      file := file + PutUvarint(|items[i]|);
      file := file + items[i];
    }
    PlainEnd(file, items[|items|..]);
  }

  lemma PlainStep(file: Bytes, items: seq<Bytes>)
    requires items != []
    ensures file + EncodePlain(items) == ((file + PutUvarint(|items[0]|)) + items[0]) + EncodePlain(items[1..])
  {
    hide PutUvarint;
  }

  lemma PlainEnd(file: Bytes, items: seq<Bytes>)
    requires items == []
    ensures file + EncodePlain(items) == file
  {
  }

  /** What is saved is loaded again. */
  method SaveItems(delta: bool, items: seq<Bytes>) returns (file: Bytes)
    requires forall i :: 0 <= i < |items| ==> |items[i]| < TWO_64
    ensures LoadItems(delta, file) == Some(items)
  {
    hide EncodeItems, DecodeItems, EncodePlain, DecodePlain;
    DecodeItemsBack([], items);
    DecodePlainBack(items);
    if delta {
      file := SaveDelta(items);
    } else {
      file := SavePlain(items);
    }
  }

  // ---------------------------------------------------------------- sorting

  function Insert(less: Lesser, s: seq<Bytes>, x: Bytes): (r: seq<Bytes>)
    ensures multiset(r) == multiset(s) + multiset{x}
  {
    if s == [] || less(x, s[0]) then [x] + s
    else assert s == [s[0]] + s[1..]; [s[0]] + Insert(less, s[1..], x)
  }

  /** A sort of a chunk in memory. */
  function SortChunk(less: Lesser, s: seq<Bytes>): (r: seq<Bytes>)
    ensures multiset(r) == multiset(s)
  {
    if s == [] then [] else assert s == [s[0]] + s[1..]; Insert(less, SortChunk(less, s[1..]), s[0])
  }

  lemma {:induction false} InsertAscends(less: Lesser, s: seq<Bytes>, x: Bytes)
    requires WeakOrder(less) && Ascending(less, s)
    ensures Ascending(less, Insert(less, s, x))
    decreases |s|
  {
    hide WeakOrder, Le;
    if s == [] {
      return;
    }
    LessIsLe(less, x, s[0]);
    if less(x, s[0]) {
      forall i | 0 <= i < |s| ensures Le(less, x, s[i]) {
        if i > 0 { LeTrans(less, x, s[0], s[i]); }
      }
    } else {
      var r := Insert(less, s[1..], x);
      InsertAscends(less, s[1..], x);
      forall i | 0 <= i < |r| ensures Le(less, s[0], r[i]) {
        assert r[i] in multiset(r);
        assert r[i] in s[1..] || r[i] == x;
        if r[i] in s[1..] {
          var j :| 0 <= j < |s[1..]| && s[1..][j] == r[i];
          assert s[j + 1] == r[i];
        }
      }
    }
  }

  lemma {:induction false} SortChunkAscends(less: Lesser, s: seq<Bytes>)
    requires WeakOrder(less)
    ensures Ascending(less, SortChunk(less, s))
    decreases |s|
  {
    hide WeakOrder, Le, Insert;
    if s != [] {
      SortChunkAscends(less, s[1..]);
      InsertAscends(less, SortChunk(less, s[1..]), s[0]);
    }
  }

  // --------------------------------------------------------------- the sorter

  ghost predicate Short(items: seq<Bytes>) {
    forall i :: 0 <= i < |items| ==> |items[i]| < TWO_32
  }

  /** The items of all chunk files. */
  function FileItems(delta: bool, files: seq<Bytes>): multiset<Bytes> {
    if files == [] then multiset{}
    else
      var last := LoadItems(delta, files[|files| - 1]);
      FileItems(delta, files[..|files| - 1]) + (if last.None? then multiset{} else multiset(last.value))
  }

  ghost predicate FilesSorted(delta: bool, less: Lesser, files: seq<Bytes>) {
    forall i :: 0 <= i < |files| ==>
      LoadItems(delta, files[i]).Some? && Ascending(less, LoadItems(delta, files[i]).value)
  }

  /** The size of a chunk, as the sorter reckons it: four bytes more for every item. */
  function Weight(items: seq<Bytes>): (n: nat)
    ensures n > 0 <==> items != []
  {
    if items == [] then 0 else Weight(items[..|items| - 1]) + |items[|items| - 1]| + 4
  }

  /** A chunk being sorted and saved, with the number of the file created for it. */
  datatype Task = Task(number: nat, chunk: seq<Bytes>)

  function Chunks(tasks: seq<Task>): (r: seq<seq<Bytes>>)
    ensures |r| == |tasks| && forall i :: 0 <= i < |tasks| ==> r[i] == tasks[i].chunk
  {
    seq(|tasks|, i requires 0 <= i < |tasks| => tasks[i].chunk)
  }

  /** What the disk will do: whether the n-th file can be created, and whether it can be written. */
  datatype Storage = Storage(creates: nat -> bool, writes: nat -> bool)

  ghost predicate AllShort(tasks: seq<Task>) {
    forall i :: 0 <= i < |tasks| ==> Short(tasks[i].chunk)
  }

  ghost predicate SomeBroken(tasks: set<nat>, disk: Storage) {
    exists n :: n in tasks && !disk.writes(n)
  }

  /** All items: of the chunk in the making, of the tasks, of the files, and those lost. */
  ghost function Held(chunk: seq<Bytes>, tasks: seq<Task>, saved: multiset<Bytes>,
                      lost: multiset<Bytes>): multiset<Bytes> {
    (multiset(chunk) + Total(Chunks(tasks))) + (saved + lost)
  }

  class ExtSorter {
    const delta: bool
    const maxChunkSize: int
    const less: Lesser
    const disk: Storage
    var chunk: seq<Bytes>
    var chunkSize: nat
    // the number of files asked for
    var attempts: nat
    // chunks being sorted and saved in the background
    var running: seq<Task>
    var files: seq<Bytes>
    var failures: nat
    ghost var fed: multiset<Bytes>
    // the items of chunks that could not be written
    ghost var lost: multiset<Bytes>
    // the tasks that have ended
    ghost var ended: set<nat>

    ghost predicate Valid()
      reads this
    {
      && WeakOrder(less) && FilesSorted(delta, less, files)
      && Short(chunk) && AllShort(running)
      && chunkSize == Weight(chunk)
      && fed == Held(chunk, running, FileItems(delta, files), lost)
      && (failures == 0 ==> lost == multiset{})
      && (failures > 0 <==> SomeBroken(ended, disk))
    }

    /** The tasks that were started. */
    ghost function Tasks(): set<nat>
      reads this
    {
      ended + Numbers(running)
    }

    constructor (delta: bool, maxChunkSize: int, less: Lesser, disk: Storage)
      requires WeakOrder(less)
      ensures Valid() && fed == multiset{} && chunk == [] && attempts == 0 && Tasks() == {}
      ensures this.less == less && this.disk == disk && this.maxChunkSize == maxChunkSize
    {
      this.delta, this.maxChunkSize, this.less, this.disk := delta, maxChunkSize, less, disk;
      chunk, chunkSize, attempts, running, files, failures := [], 0, 0, [], [], 0;
      fed, lost, ended := multiset{}, multiset{}, {};
    }

    /** Refused for an item whose length does not fit in 32 bits. If no file can be created for a
        full chunk that is an error too, and the chunk stays. */
    method Feed(item: Bytes) returns (ok: bool)
      requires Valid()
      modifies this
      ensures Valid()
      ensures |item| >= TWO_32 ==> !ok && unchanged(this)
      ensures |item| < TWO_32 ==>
        && fed == old(fed) + multiset{item}
        && var now := old(chunk) + [item]; var full := Weight(now) >= maxChunkSize;
          && ok == (full ==> disk.creates(old(attempts)))
          && chunk == (if full && ok then [] else now)
          && attempts == (if full then old(attempts) + 1 else old(attempts))
          && Tasks() == (if full && ok then old(Tasks()) + {old(attempts)} else old(Tasks()))
    {
      hide Weight, Valid, Tasks;
      if |item| >= TWO_32 {
        return false;
      }
      Gather(item);
      if chunkSize >= maxChunkSize {
        ok := SortChunkAndRotate();
        return;
      }
      return true;
    }

    method Gather(item: Bytes)
      requires Valid() && |item| < TWO_32
      modifies this
      ensures Valid() && fed == old(fed) + multiset{item} && chunk == old(chunk) + [item]
      ensures chunkSize == Weight(chunk) && attempts == old(attempts) && Tasks() == old(Tasks())
    {
      hide WeakOrder, FilesSorted, FileItems, Held, Weight, Short, Numbers, AllShort, SomeBroken;
      OneMore(chunk, item);
      HeldMore(chunk, item, running, FileItems(delta, files), lost);
      chunkSize := chunkSize + |item| + 4;
      chunk := chunk + [item];
      fed := fed + multiset{item};
    }

    /** These items were fed, and every chunk they filled was passed on. */
    ghost predicate HasFed(items: seq<Bytes>)
      reads this
    {
      && Valid() && fed == multiset(items)
      && Filling(items, maxChunkSize) == (chunk, attempts)
      && Started(Tasks(), attempts) && AllCreated(disk, attempts)
    }

    method FeedNext(item: Bytes, ghost items: seq<Bytes>) returns (ok: bool)
      requires HasFed(items) && |item| < TWO_32
      modifies this
      ensures Valid() && (ok ==> HasFed(items + [item]))
      ensures !ok ==> !AllCreated(disk, Filling(items + [item], maxChunkSize).1)
    {
      hide Weight, Filling, Valid, Tasks, Started, AllCreated;
      FillingStep(items, item, maxChunkSize);
      NextStarted(Tasks(), attempts);
      NextCreated(disk, attempts);
      ok := Feed(item);
    }

    /** The chunk goes to a task of its own, if a file can be created for it. */
    method SortChunkAndRotate() returns (ok: bool)
      requires Valid()
      modifies this
      ensures Valid() && fed == old(fed) && attempts == old(attempts) + 1 && ok == disk.creates(old(attempts))
      ensures chunk == (if ok then [] else old(chunk))
      ensures Tasks() == (if ok then old(Tasks()) + {old(attempts)} else old(Tasks()))
    {
      hide WeakOrder, FilesSorted, FileItems, Held, Numbers, AllShort, Short, SomeBroken, Weight;
      var number := attempts;
      attempts := attempts + 1;
      if !disk.creates(number) {
        return false;
      }
      RotatedItems(running, Task(number, chunk), FileItems(delta, files), lost);
      MoreNumbers(running, Task(number, chunk));
      running := running + [Task(number, chunk)];
      chunk, chunkSize := [], 0;
      EmptyChunk();
      return true;
    }

    /** One of the background tasks ends, in any order: its file is there, or the failure is
        noted. */
    method ChunkDone(i: nat)
      requires Valid() && i < |running|
      modifies this
      ensures Valid() && fed == old(fed) && chunk == old(chunk) && attempts == old(attempts)
      ensures running == old(running)[..i] + old(running)[i + 1..] && Tasks() == old(Tasks())
      ensures disk.writes(old(running)[i].number) ==> failures == old(failures) && |files| == |old(files)| + 1
      ensures !disk.writes(old(running)[i].number) ==> failures == old(failures) + 1 && files == old(files)
    {
      hide WeakOrder, FilesSorted, FileItems, SortChunk, LoadItems, Held, Numbers, AllShort, Weight, SomeBroken;
      var task := running[i];
      FewerNumbers(running, i);
      OneEnded(ended, task.number, disk);
      ghost var was, saved := running, FileItems(delta, files);
      running, ended := running[..i] + running[i + 1..], ended + {task.number};
      if !disk.writes(task.number) {
        TaskFails(chunk, was, i, saved, lost);
        failures, lost := failures + 1, lost + multiset(task.chunk);
        return;
      }
      var sorted := SortChunk(less, task.chunk);
      SortChunkAscends(less, task.chunk);
      StillShort(task.chunk, sorted);
      var file := SaveItems(delta, sorted);
      FilesAppend(delta, less, files, file);
      TaskSaves(chunk, was, i, saved, lost);
      files := files + [file];
    }

    /** Waits for the background tasks and merges the chunk files. Fails if and only if no file can
        be created for the last chunk, or one of the files could not be written. */
    method Finalize() returns (m: MultiWayMerge?)
      requires Valid()
      modifies this
      ensures var last := old(chunk) != [];
        && (m == null <==>
            || (last && !disk.creates(old(attempts)))
            || SomeBroken(old(Tasks()) + (if last then {old(attempts)} else {}), disk))
      ensures m != null ==> fresh(m) && m.Valid() && m.less == less && AllItems(m.entries) == old(fed)
    {
      hide WeakOrder, FilesSorted, FileItems, LoadItems, Held, AllItems, AllShort, SomeBroken;
      assert chunkSize > 0 <==> chunk != [];
      hide Weight;
      assert Tasks() + {} == Tasks();
      if chunkSize > 0 {
        var created := SortChunkAndRotate();
        if !created {
          return null;
        }
      }
      ghost var all := Tasks();
      while running != []
        invariant Valid() && fed == old(fed) && chunk == [] && Tasks() == all
        decreases |running|
      {
        var i :| 0 <= i < |running|;
        ChunkDone(i);
      }
      assert ended == all;
      if failures > 0 {
        return null;
      }
      NothingHeld(FileItems(delta, files));
      var streams := LoadStreams(delta, less, files);
      m := new MultiWayMerge(streams, less);
    }
  }

  ghost function Numbers(tasks: seq<Task>): set<nat> {
    set i | 0 <= i < |tasks| :: tasks[i].number
  }

  lemma OneEnded(tasks: set<nat>, n: nat, disk: Storage)
    ensures SomeBroken(tasks + {n}, disk) <==> SomeBroken(tasks, disk) || !disk.writes(n)
  {
    if !disk.writes(n) { assert n in tasks + {n}; }
    if SomeBroken(tasks, disk) {
      var k :| k in tasks && !disk.writes(k);
      assert k in tasks + {n};
    }
  }

  lemma MoreNumbers(tasks: seq<Task>, t: Task)
    requires AllShort(tasks) && Short(t.chunk)
    ensures Numbers(tasks + [t]) == Numbers(tasks) + {t.number} && AllShort(tasks + [t])
  {
    hide Short;
    var more := tasks + [t];
    assert forall i :: 0 <= i < |tasks| ==> more[i] == tasks[i];
    assert more[|tasks|] == t;
  }

  lemma FewerNumbers(tasks: seq<Task>, i: nat)
    requires i < |tasks| && AllShort(tasks)
    ensures Numbers(tasks[..i] + tasks[i + 1..]) + {tasks[i].number} == Numbers(tasks)
    ensures AllShort(tasks[..i] + tasks[i + 1..]) && Short(tasks[i].chunk)
  {
    hide Short;
    var fewer := tasks[..i] + tasks[i + 1..];
    forall j | 0 <= j < |tasks| && j != i ensures tasks[j].number in Numbers(fewer) {
      assert fewer[if j < i then j else j - 1] == tasks[j];
    }
  }

  lemma FewerItems(tasks: seq<Task>, i: nat)
    requires i < |tasks|
    ensures Total(Chunks(tasks[..i] + tasks[i + 1..])) + multiset(tasks[i].chunk) == Total(Chunks(tasks))
  {
    hide Total;
    TotalRemove(Chunks(tasks), i);
    assert Chunks(tasks[..i] + tasks[i + 1..]) == Chunks(tasks)[..i] + Chunks(tasks)[i + 1..];
  }

  lemma TaskFails(chunk: seq<Bytes>, tasks: seq<Task>, i: nat, saved: multiset<Bytes>, lost: multiset<Bytes>)
    requires i < |tasks|
    ensures Held(chunk, tasks[..i] + tasks[i + 1..], saved, lost + multiset(tasks[i].chunk))
      == Held(chunk, tasks, saved, lost)
  {
    hide Total, Chunks;
    FewerItems(tasks, i);
  }

  lemma TaskSaves(chunk: seq<Bytes>, tasks: seq<Task>, i: nat, saved: multiset<Bytes>, lost: multiset<Bytes>)
    requires i < |tasks|
    ensures Held(chunk, tasks[..i] + tasks[i + 1..], saved + multiset(tasks[i].chunk), lost)
      == Held(chunk, tasks, saved, lost)
  {
    hide Total, Chunks;
    FewerItems(tasks, i);
  }

  lemma HeldMore(chunk: seq<Bytes>, item: Bytes, tasks: seq<Task>, saved: multiset<Bytes>, lost: multiset<Bytes>)
    ensures Held(chunk + [item], tasks, saved, lost) == Held(chunk, tasks, saved, lost) + multiset{item}
  {
    hide Total, Chunks;
  }

  lemma NothingHeld(saved: multiset<Bytes>)
    ensures Held([], [], saved, multiset{}) == saved
  {
  }

  lemma RotatedItems(tasks: seq<Task>, t: Task, saved: multiset<Bytes>, lost: multiset<Bytes>)
    ensures Held(t.chunk, tasks, saved, lost) == Held([], tasks + [t], saved, lost)
  {
    hide Total;
    TotalAppend(Chunks(tasks), t.chunk);
    assert Chunks(tasks + [t]) == Chunks(tasks) + [t.chunk];
  }

  lemma OneMore(items: seq<Bytes>, item: Bytes)
    requires Short(items) && |item| < TWO_32
    ensures Short(items + [item]) && Weight(items + [item]) == Weight(items) + |item| + 4
    ensures multiset(items + [item]) == multiset(items) + multiset{item}
  {
    assert (items + [item])[..|items|] == items;
  }

  lemma EmptyChunk()
    ensures Short([]) && Weight([]) == 0
  {
  }

  /** The stream of a chunk file, read to its end. */
  method LoadFile(delta: bool, file: Bytes) returns (r: Option<seq<Bytes>>)
    ensures r == LoadItems(delta, file)
  {
    if delta {
      r := LoadDelta(file);
    } else {
      r := LoadPlain(file);
    }
  }

  method LoadDelta(file: Bytes) returns (r: Option<seq<Bytes>>)
    ensures r == DecodeItems([], file)
  {
    hide DecodeItem;
    var decoder := new DeltaDecoder();
    var items, rest: Bytes := [], file;
    PrefixedNothing(DecodeItems([], file));
    while true
      invariant fresh(decoder) && DecodeItems([], file) == Prefixed(items, DecodeItems(decoder.last, rest))
      decreases |rest|
    {
      ghost var last := decoder.last;
      var item := decoder.Read(rest);
      if item.None? || item.value.Bad? {
        return None;
      }
      if item.value.Eof? {
        assert items + [] == items;
        return Some(items);
      }
      var next := item.value;
      PrefixedStep(items, next.value, DecodeItems(next.value, next.rest));
      items, rest := items + [next.value], next.rest;
    }
  }

  method LoadPlain(file: Bytes) returns (r: Option<seq<Bytes>>)
    ensures r == DecodePlain(file)
  {
    hide ReadSized;
    var items, rest: Bytes := [], file;
    PrefixedNothing(DecodePlain(file));
    while rest != []
      invariant DecodePlain(file) == Prefixed(items, DecodePlain(rest))
      decreases |rest|
    {
      var item := ReadSized(rest);
      if !item.Got? {
        return None;
      }
      PrefixedStep(items, item.value, DecodePlain(item.rest));
      items, rest := items + [item.value], item.rest;
    }
    assert items + [] == items;
    return Some(items);
  }

  function Prefixed(items: seq<Bytes>, r: Option<seq<Bytes>>): Option<seq<Bytes>> {
    if r.None? then None else Some(items + r.value)
  }

  lemma PrefixedNothing(r: Option<seq<Bytes>>)
    ensures Prefixed([], r) == r
  {
    if r.Some? { assert [] + r.value == r.value; }
  }

  lemma PrefixedStep(items: seq<Bytes>, x: Bytes, r: Option<seq<Bytes>>)
    ensures Prefixed(items, if r.None? then None else Some([x] + r.value)) == Prefixed(items + [x], r)
  {
    if r.Some? { assert items + ([x] + r.value) == (items + [x]) + r.value; }
  }

  method LoadStreams(delta: bool, ghost less: Lesser, files: seq<Bytes>) returns (streams: seq<seq<Bytes>>)
    requires FilesSorted(delta, less, files)
    ensures Total(streams) == FileItems(delta, files) && forall i :: 0 <= i < |streams| ==> Ascending(less, streams[i])
  {
    hide LoadItems, Ascending, Total, FileItems, FilesSorted;
    NoFiles(delta, files);
    streams := [];
    for i := 0 to |files|
      invariant |streams| == i && Total(streams) == FileItems(delta, files[..i])
      invariant forall j :: 0 <= j < i ==> Ascending(less, streams[j])
    {
      NextFile(delta, less, files, i);
      var s := LoadFile(delta, files[i]);
      TotalAppend(streams, s.value);
      streams := streams + [s.value];
    }
    assert files[..|files|] == files;
  }

  /** The chunk in the making after some items were fed, and the number of full ones before. */
  function Filling(items: seq<Bytes>, maxChunkSize: int): (r: (seq<Bytes>, nat)) {
    if items == [] then ([], 0)
    else
      var (chunk, full) := Filling(items[..|items| - 1], maxChunkSize);
      var now := chunk + [items[|items| - 1]];
      if Weight(now) >= maxChunkSize then ([], full + 1) else (now, full)
  }

  /** The number of chunks that some items make. */
  function ChunkCount(items: seq<Bytes>, maxChunkSize: int): nat {
    var (chunk, full) := Filling(items, maxChunkSize);
    if chunk == [] then full else full + 1
  }

  lemma FillingStep(items: seq<Bytes>, item: Bytes, maxChunkSize: int)
    ensures var (chunk, full) := Filling(items, maxChunkSize);
      var now := chunk + [item];
      Filling(items + [item], maxChunkSize) == if Weight(now) >= maxChunkSize then ([], full + 1) else (now, full)
  {
    hide Weight;
    assert (items + [item])[..|items|] == items;
  }

  lemma {:induction false} CountGrows(items: seq<Bytes>, i: nat, maxChunkSize: int)
    requires i <= |items|
    ensures Filling(items[..i], maxChunkSize).1 <= Filling(items, maxChunkSize).1
    decreases |items| - i
  {
    hide Weight, Filling;
    if i < |items| {
      assert items[..i + 1] == items[..i] + [items[i]];
      FillingStep(items[..i], items[i], maxChunkSize);
      CountGrows(items, i + 1, maxChunkSize);
    } else {
      assert items[..i] == items;
    }
  }

  lemma NoFiles(delta: bool, files: seq<Bytes>)
    ensures FileItems(delta, files[..0]) == Total([])
  {
  }

  lemma NextFile(delta: bool, less: Lesser, files: seq<Bytes>, i: nat)
    requires FilesSorted(delta, less, files) && i < |files|
    ensures var r := LoadItems(delta, files[i]);
      && r.Some? && Ascending(less, r.value)
      && FileItems(delta, files[..i + 1]) == FileItems(delta, files[..i]) + multiset(r.value)
  {
    hide LoadItems, Ascending;
    assert files[..i + 1][..i] == files[..i];
  }

  ghost predicate AllCreated(disk: Storage, count: nat) {
    forall n :: 0 <= n < count ==> disk.creates(n)
  }

  ghost predicate AllWritten(disk: Storage, count: nat) {
    forall n :: 0 <= n < count ==> disk.writes(n)
  }

  /** The tasks are numbered from 0 on. */
  ghost predicate Started(tasks: set<nat>, count: nat) {
    forall n :: 0 <= n ==> (n in tasks <==> n < count)
  }

  lemma NextCreated(disk: Storage, count: nat)
    ensures AllCreated(disk, count + 1) <==> AllCreated(disk, count) && disk.creates(count)
  {
  }

  lemma FewerCreated(disk: Storage, few: nat, many: nat)
    requires few <= many && AllCreated(disk, many)
    ensures AllCreated(disk, few)
  {
  }

  lemma NextStarted(tasks: set<nat>, count: nat)
    requires Started(tasks, count)
    ensures Started(tasks + {count}, count + 1)
  {
  }

  lemma StartedIsAll(tasks: set<nat>, count: nat, disk: Storage)
    requires Started(tasks, count)
    ensures SomeBroken(tasks, disk) <==> !AllWritten(disk, count)
  {
  }

  /** Feeds items to a new sorter, until one is refused. */
  method FeedAll(sorter: ExtSorter, items: seq<Bytes>) returns (ok: bool)
    requires sorter.HasFed([]) && Short(items)
    modifies sorter
    ensures sorter.Valid() && (ok ==> sorter.HasFed(items))
    ensures ok <==> AllCreated(sorter.disk, Filling(items, sorter.maxChunkSize).1)
  {
    hide Filling, AllCreated, ExtSorter.Valid;
    for i := 0 to |items|
      invariant sorter.HasFed(items[..i])
    {
      assert items[..i + 1] == items[..i] + [items[i]];
      CountGrows(items, i + 1, sorter.maxChunkSize);
      ok := sorter.FeedNext(items[i], items[..i]);
      if !ok {
        ghost var few, many := Filling(items[..i + 1], sorter.maxChunkSize).1, Filling(items, sorter.maxChunkSize).1;
        if AllCreated(sorter.disk, many) { FewerCreated(sorter.disk, few, many); }
        return;
      }
    }
    assert items[..|items|] == items;
    return true;
  }

  /** Feeding items and draining the merge gives a sorted permutation of them, whatever the
      chunk size and the order in which chunks are finished; or it fails, if and only if the file
      of one of the chunks could not be created or written. */
  method SortAll(items: seq<Bytes>, delta: bool, maxChunkSize: int, less: Lesser, disk: Storage)
    returns (ok: bool, out: seq<Bytes>)
    requires WeakOrder(less) && Short(items)
    ensures var count := ChunkCount(items, maxChunkSize); ok <==> AllCreated(disk, count) && AllWritten(disk, count)
    ensures ok ==> Ascending(less, out) && multiset(out) == multiset(items)
  {
    hide WeakOrder, FilesSorted, FileItems, Total, AllItems, Ascending, EntriesSorted, Heap, Loaded, Weight, Filling;
    hide ExtSorter.Valid, ExtSorter.Tasks, Short, Started, SomeBroken, AllCreated, AllWritten;
    var sorter := new ExtSorter(delta, maxChunkSize, less, disk);
    NothingFed(maxChunkSize, disk);
    var fed := FeedAll(sorter, items);
    ghost var (chunk, full) := Filling(items, maxChunkSize);
    NextCreated(disk, full);
    if !fed {
      return false, [];
    }
    NextStarted(sorter.Tasks(), full);
    StartedIsAll(sorter.Tasks(), full, disk);
    StartedIsAll(sorter.Tasks() + {full}, full + 1, disk);
    assert sorter.Tasks() + {} == sorter.Tasks();
    var m := sorter.Finalize();
    if m == null {
      return false, [];
    }
    out := Drain(m);
    return true, out;
  }

  lemma NothingFed(maxChunkSize: int, disk: Storage)
    ensures Filling([], maxChunkSize) == ([], 0) && Started({}, 0) && AllCreated(disk, 0)
  {
  }

  lemma TotalAppend(streams: seq<seq<Bytes>>, s: seq<Bytes>)
    ensures Total(streams + [s]) == Total(streams) + multiset(s)
  {
    assert (streams + [s])[..|streams|] == streams;
  }

  lemma {:induction false} TotalRemove(streams: seq<seq<Bytes>>, i: nat)
    requires i < |streams|
    ensures Total(streams[..i] + streams[i + 1..]) + multiset(streams[i]) == Total(streams)
    decreases |streams|
  {
    hide Total;
    var k := |streams| - 1;
    var init, last := streams[..k], streams[k];
    assert streams == init + [last];
    TotalAppend(init, last);
    if i == k {
      assert streams[..i] + streams[i + 1..] == init;
      return;
    }
    var rest := init[..i] + init[i + 1..];
    TotalRemove(init, i);
    TotalAppend(rest, last);
    assert streams[..i] + streams[i + 1..] == rest + [last];
    assert (Total(rest) + multiset(last)) + multiset(streams[i])
      == (Total(rest) + multiset(streams[i])) + multiset(last);
  }

  lemma StillShort(a: seq<Bytes>, b: seq<Bytes>)
    requires Short(a) && multiset(a) == multiset(b)
    ensures Short(b) && forall i :: 0 <= i < |b| ==> |b[i]| < TWO_64
  {
    forall i | 0 <= i < |b| ensures |b[i]| < TWO_32 {
      assert b[i] in multiset(b);
      assert b[i] in a;
    }
  }

  lemma FilesAppend(delta: bool, less: Lesser, files: seq<Bytes>, file: Bytes)
    requires FilesSorted(delta, less, files) && LoadItems(delta, file).Some?
      && Ascending(less, LoadItems(delta, file).value)
    ensures FilesSorted(delta, less, files + [file])
    ensures FileItems(delta, files + [file]) == FileItems(delta, files) + multiset(LoadItems(delta, file).value)
  {
    hide LoadItems, Ascending;
    assert (files + [file])[..|files|] == files;
  }
}
