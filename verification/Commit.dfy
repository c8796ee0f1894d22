/** Commits and the writer of the write-ahead log, as steps of two threads that meet in a
    channel. The committing thread holds the lock from the start of a commit, or of a wait,
    to its end; the writer never takes it. */
module CommitProtocol {

  /** A log entry on its way, with the index it is to be written at. */
  datatype Queued<E> = Queued(index: nat, entry: E)

  /** Where the thread that holds the lock is: past the check for a latched error; past the
      version bump, with an entry to hand over; or waiting for the writer to quit. */
  datatype Phase<E> = Idle | Checked(entry: E) | Sending(item: Queued<E>) | Waiting

  datatype Channel = NoChannel | Open | Closed

  /** A writer that failed has latched its error before it quits. */
  datatype Writer = NoWriter | Running | Dying

  /** Versions are counted from the first log entry on: `bumped` are the entries of all
      versions saved in memory, `log` those in the log, `queue` those in the channel, and
      `batch` those that the writer took from it. */
  datatype Commits<E> = Commits(
    async: bool, bumped: seq<E>, log: seq<E>, phase: Phase<E>, latched: bool,
    channel: Channel, writer: Writer, queue: seq<Queued<E>>, batch: seq<Queued<E>>)

  datatype Action<E> =
    | BeginCommit(entry: E)
    | SaveFails
    | Save
    | Send
    | SendFails
    | WriteSync
    | WriteSyncFails(written: nat)
    | BeginWait
    | EndWait
    | Receive(count: nat)
    | WriteBatch
    | WriteBatchFails(written: nat)
    | WriterQuits

  /** Entries at indices that the log already has are skipped. */
  function Fresh<E>(items: seq<Queued<E>>, last: nat): seq<Queued<E>> {
    if items == [] then []
    else (if items[0].index <= last then [] else [items[0]]) + Fresh(items[1..], last)
  }

  /** The log takes a batch only if its indices continue those of the log. */
  predicate Continues<E>(items: seq<Queued<E>>, last: nat) {
    forall i :: 0 <= i < |items| ==> items[i].index == last + 1 + i
  }

  function Entries<E>(items: seq<Queued<E>>): (r: seq<E>)
    ensures |r| == |items| && forall i :: 0 <= i < |items| ==> r[i] == items[i].entry
  {
    seq(|items|, i requires 0 <= i < |items| => items[i].entry)
  }

  /** What the log accepts of a batch. */
  function Accepted<E>(items: seq<Queued<E>>, last: nat): seq<Queued<E>> {
    var news := Fresh(items, last);
    if Continues(news, last) then news else []
  }

  predicate Refused<E>(items: seq<Queued<E>>, last: nat) {
    !Continues(Fresh(items, last), last)
  }

  predicate Enabled<E(==)>(s: Commits<E>, a: Action<E>) {
    match a
    case BeginCommit(_) => s.phase == Idle
    case SaveFails => s.phase.Checked?
    case Save => s.phase.Checked?
    // a buffered channel may take an entry even after its writer has quit
    case Send => s.phase.Sending? && s.async && s.channel == Open
    case SendFails => s.phase.Sending? && s.async && s.writer == NoWriter
    case WriteSync => s.phase.Sending? && !s.async && !Refused([s.phase.item], |s.log|)
    case WriteSyncFails(n) => s.phase.Sending? && !s.async && n <= |Accepted([s.phase.item], |s.log|)|
    case BeginWait => s.phase == Idle
    case EndWait => s.phase == Waiting && s.writer == NoWriter
    case Receive(n) => s.writer == Running && s.batch == [] && 0 < n <= |s.queue|
    case WriteBatch => s.writer == Running && s.batch != [] && !Refused(s.batch, |s.log|)
    case WriteBatchFails(n) => s.writer == Running && s.batch != [] && n <= |Accepted(s.batch, |s.log|)|
    case WriterQuits =>
      s.writer == Dying || (s.writer == Running && s.batch == [] && s.queue == [] && s.channel == Closed)
  }

  /** A write that fails may have written a first part of the batch. */
  function Next<E(==)>(s: Commits<E>, a: Action<E>): Commits<E> {
    if !Enabled(s, a) then s
    else match a
      case BeginCommit(e) => if s.latched then s else s.(phase := Checked(e))
      case SaveFails => s.(phase := Idle)
      case Save =>
        var item := Queued(|s.bumped| + 1, s.phase.entry);
        var t := s.(bumped := s.bumped + [item.entry], phase := Sending(item));
        if s.async && s.channel == NoChannel then t.(channel := Open, writer := Running, queue := [], batch := [])
          else t
      case Send => s.(queue := s.queue + [s.phase.item], phase := Idle)
      case SendFails => s.(latched := true, phase := Idle)
      case WriteSync => s.(log := s.log + Entries(Accepted([s.phase.item], |s.log|)), phase := Idle)
      case WriteSyncFails(n) =>
        s.(log := s.log + Entries(Accepted([s.phase.item], |s.log|)[..n]), phase := Idle, latched := true)
      case BeginWait => if s.channel == NoChannel then s else s.(phase := Waiting, channel := Closed)
      case EndWait => s.(phase := Idle, channel := NoChannel, queue := [], batch := [])
      case Receive(n) => s.(batch := s.queue[..n], queue := s.queue[n..])
      case WriteBatch => s.(log := s.log + Entries(Accepted(s.batch, |s.log|)), batch := [])
      case WriteBatchFails(n) =>
        s.(log := s.log + Entries(Accepted(s.batch, |s.log|)[..n]), batch := [], latched := true, writer := Dying)
      case WriterQuits => s.(writer := NoWriter)
  }

  function NextAll<E(==)>(s: Commits<E>, run: seq<Action<E>>): Commits<E>
    decreases |run|
  {
    if run == [] then s else NextAll(Next(s, run[0]), run[1..])
  }

  // ---------------------------------------------------------- the invariant

  /** All entries between the version bump and the log, oldest first. */
  function InFlight<E>(s: Commits<E>): seq<Queued<E>> {
    s.batch + s.queue + (if s.phase.Sending? then [s.phase.item] else [])
  }

  /** Which states of channel, writer and phase go together. */
  ghost predicate Consistent<E>(s: Commits<E>) {
    && (!s.async ==> s.channel == NoChannel && s.writer == NoWriter)
    && (!s.async && s.latched ==> s.phase == Idle)
    && (s.channel == Closed <==> s.phase == Waiting)
    && (s.channel == NoChannel ==> s.writer == NoWriter && s.queue == [] && s.batch == [])
    && (s.phase.Sending? && s.async ==> s.channel == Open)
    && (s.phase.Checked? && s.latched ==> s.channel == Open)
    && (s.latched ==> s.writer != Running)
    && (!s.latched ==> s.writer != Dying)
    && (!s.latched && s.channel == Open ==> s.writer == Running)
    && (!s.latched && s.writer == NoWriter ==> s.queue == [] && s.batch == [])
    && (s.batch != [] ==> s.writer == Running)
  }

  /** Nothing is lost on the way, unless an error was latched; and the log is a part of the
      history in any case. */
  ghost predicate Lossless<E>(s: Commits<E>) {
    && |s.log| <= |s.bumped| && s.log == s.bumped[..|s.log|]
    && (!s.latched ==> Continues(InFlight(s), |s.log|) && s.log + Entries(InFlight(s)) == s.bumped)
  }

  ghost predicate Inv<E>(s: Commits<E>) {
    Consistent(s) && Lossless(s)
  }

  /** A database whose log is in step with the version it has loaded. */
  function Loaded<E>(log: seq<E>, async: bool): Commits<E> {
    Commits(async, log, log, Idle, false, NoChannel, NoWriter, [], [])
  }

  lemma LoadedIsSound<E>(log: seq<E>, async: bool)
    ensures Inv(Loaded(log, async))
  {
  }

  lemma StepIsConsistent<E>(s: Commits<E>, a: Action<E>)
    requires Consistent(s)
    ensures Consistent(Next(s, a))
  {
    hide Refused, Accepted, Entries;
  }

  // --------------------------------------- entries on their way to the log

  lemma {:induction false} AllFresh<E>(items: seq<Queued<E>>, last: nat, from: nat)
    requires last <= from && Continues(items, from)
    ensures Fresh(items, last) == items
    decreases |items|
  {
    if items != [] {
      assert items[0].index == from + 1;
      forall i | 0 <= i < |items[1..]| ensures items[1..][i].index == from + 2 + i {
        assert items[1..][i] == items[i + 1];
      }
      AllFresh(items[1..], last, from + 1);
    }
  }

  lemma ContinuesParts<E>(a: seq<Queued<E>>, b: seq<Queued<E>>, last: nat)
    ensures Continues(a + b, last) <==> Continues(a, last) && Continues(b, last + |a|)
  {
    if Continues(a + b, last) {
      forall i | 0 <= i < |a| ensures a[i].index == last + 1 + i { assert (a + b)[i] == a[i]; }
      forall i | 0 <= i < |b| ensures b[i].index == last + |a| + 1 + i { assert (a + b)[|a| + i] == b[i]; }
    }
  }

  lemma EntriesParts<E>(a: seq<Queued<E>>, b: seq<Queued<E>>)
    ensures Entries(a + b) == Entries(a) + Entries(b)
  {
  }

  /** Writing the first `n` entries in flight, of those written in one go. */
  lemma Written<E>(log: seq<E>, bumped: seq<E>, items: seq<Queued<E>>, rest: seq<Queued<E>>, n: nat)
    requires Continues(items + rest, |log|) && log + Entries(items + rest) == bumped && n <= |items|
    ensures Accepted(items, |log|) == items && !Refused(items, |log|)
    ensures var l := log + Entries(items[..n]);
      && l == bumped[..|l|]
      && (n == |items| ==> Continues(rest, |l|) && l + Entries(rest) == bumped)
  {
    hide Continues, Fresh, Entries;
    ContinuesParts(items, rest, |log|);
    AllFresh(items, |log|, |log|);
    EntriesParts(items, rest);
    assert items == items[..n] + items[n..];
    EntriesParts(items[..n], items[n..]);
    assert n == |items| ==> items[..n] == items;
    assert bumped == log + Entries(items[..n]) + (Entries(items[n..]) + Entries(rest));
  }

  lemma SaveIsLossless<E>(s: Commits<E>)
    requires Inv(s) && s.phase.Checked?
    ensures Lossless(Next(s, Save))
  {
    var t := Next(s, Save);
    var item := Queued(|s.bumped| + 1, s.phase.entry);
    assert s.log == t.bumped[..|s.log|];
    if !s.latched {
      assert InFlight(t) == InFlight(s) + [item];
      ContinuesParts(InFlight(s), [item], |s.log|);
      EntriesParts(InFlight(s), [item]);
      assert Entries([item]) == [item.entry];
    }
  }

  lemma SendIsLossless<E>(s: Commits<E>)
    requires Inv(s) && Enabled(s, Send)
    ensures Lossless(Next(s, Send))
  {
    var t := Next(s, Send);
    assert InFlight(t) == InFlight(s);
  }

  lemma ReceiveIsLossless<E>(s: Commits<E>, n: nat)
    requires Inv(s) && Enabled(s, Receive(n))
    ensures Lossless(Next(s, Receive(n)))
  {
    assert InFlight(Next(s, Receive(n))) == InFlight(s);
  }

  lemma WriteIsLossless<E>(s: Commits<E>, a: Action<E>, n: nat)
    requires Inv(s) && Enabled(s, a)
    requires (a == WriteBatch && n == |s.batch|) || a == WriteBatchFails(n)
    ensures Lossless(Next(s, a))
  {
    hide Refused, Continues, Accepted;
    var rest := s.queue + (if s.phase.Sending? then [s.phase.item] else []);
    assert InFlight(s) == s.batch + rest;
    WrittenAll(s.log, s.bumped, s.batch, rest);
    Written(s.log, s.bumped, s.batch, rest, n);
    if a == WriteBatch {
      assert s.batch[..n] == s.batch;
      assert InFlight(Next(s, a)) == rest;
    }
  }

  lemma WrittenAll<E>(log: seq<E>, bumped: seq<E>, items: seq<Queued<E>>, rest: seq<Queued<E>>)
    requires Continues(items + rest, |log|) && log + Entries(items + rest) == bumped
    ensures Accepted(items, |log|) == items
  {
    Written(log, bumped, items, rest, 0);
  }

  lemma WriteSyncIsLossless<E>(s: Commits<E>, a: Action<E>, n: nat)
    requires Inv(s) && Enabled(s, a)
    requires (a == WriteSync && n == 1) || a == WriteSyncFails(n)
    ensures Lossless(Next(s, a))
  {
    hide Refused, Continues, Accepted;
    var items := [s.phase.item];
    assert InFlight(s) == items + [];
    WrittenAll(s.log, s.bumped, items, []);
    Written(s.log, s.bumped, items, [], n);
    assert items[..1] == items;
    assert a == WriteSync ==> InFlight(Next(s, a)) == [];
  }

  lemma EndWaitIsLossless<E>(s: Commits<E>)
    requires Inv(s) && Enabled(s, EndWait)
    ensures Lossless(Next(s, EndWait))
    ensures !s.latched ==> s.log == s.bumped
  {
    assert !s.latched ==> InFlight(s) == [] && InFlight(Next(s, EndWait)) == [];
  }

  /** Every step of either thread keeps the log a gap-free first part of the history. */
  lemma StepKeepsInv<E>(s: Commits<E>, a: Action<E>)
    requires Inv(s)
    ensures Inv(Next(s, a))
  {
    StepIsConsistent(s, a);
    if Enabled(s, a) {
      hide Continues, Refused, Accepted, Consistent, Entries, Enabled;
      match a
      case Save => SaveIsLossless(s);
      case Send => SendIsLossless(s);
      case WriteSync => WriteSyncIsLossless(s, a, 1);
      case WriteSyncFails(n) => WriteSyncIsLossless(s, a, n);
      case EndWait => EndWaitIsLossless(s);
      case Receive(n) => ReceiveIsLossless(s, n);
      case WriteBatch => WriteIsLossless(s, a, |s.batch|);
      case WriteBatchFails(n) => WriteIsLossless(s, a, n);
      case _ => FlightUnchanged(s, a);
    }
  }

  lemma FlightUnchanged<E>(s: Commits<E>, a: Action<E>)
    requires Inv(s) && Enabled(s, a)
    requires a.BeginCommit? || a.SaveFails? || a.SendFails? || a.BeginWait? || a.WriterQuits?
    ensures Lossless(Next(s, a))
  {
    assert !a.SendFails? ==> InFlight(Next(s, a)) == InFlight(s);
  }

  // ------------------------------------------------------------- whole runs

  lemma {:induction false} RunKeepsInv<E>(s: Commits<E>, run: seq<Action<E>>)
    requires Inv(s)
    ensures Inv(NextAll(s, run))
    decreases |run|
  {
    if run != [] {
      hide Inv, Next;
      StepKeepsInv(s, run[0]);
      RunKeepsInv(Next(s, run[0]), run[1..]);
    }
  }

  /** In every interleaving, from a log in step with the version loaded, the log is a
      gap-free first part, in order, of the entries of all versions saved. */
  lemma LogIsPrefix<E>(log: seq<E>, async: bool, run: seq<Action<E>>)
    ensures var s := NextAll(Loaded(log, async), run);
      |s.log| <= |s.bumped| && s.log == s.bumped[..|s.log|]
  {
    hide NextAll;
    LoadedIsSound(log, async);
    RunKeepsInv(Loaded(log, async), run);
  }

  /** The log only grows, so that seen from outside the writer appends further entries of
      the history, any number at a time. */
  lemma LogOnlyGrows<E>(s: Commits<E>, a: Action<E>)
    requires Inv(s)
    ensures var t := Next(s, a);
      |s.log| <= |t.log| <= |t.bumped| && t.log[..|s.log|] == s.log && t.log == t.bumped[..|t.log|]
  {
    StepKeepsInv(s, a);
    hide Refused, Accepted, Entries, Consistent, Continues;
  }

  /** A wait that ends without an error leaves nothing unwritten, and so does one that ends
      at once because there is no channel. */
  lemma WaitLeavesNothing<E>(log: seq<E>, async: bool, run: seq<Action<E>>)
    ensures var s := NextAll(Loaded(log, async), run);
      !s.latched && (Enabled(s, EndWait) || (Enabled(s, BeginWait) && s.channel == NoChannel)) ==> s.log == s.bumped
  {
    hide NextAll;
    LoadedIsSound(log, async);
    RunKeepsInv(Loaded(log, async), run);
    var s := NextAll(Loaded(log, async), run);
    if Enabled(s, EndWait) { EndWaitIsLossless(s); }
    if Enabled(s, BeginWait) && s.channel == NoChannel { assert InFlight(s) == []; }
  }

  // ------------------------------------------------------- a log that is behind

  /** A load can give a version that the log has not reached. */
  function Behind<E>(log: seq<E>, bumped: seq<E>, async: bool): Commits<E> {
    Commits(async, bumped, log, Idle, false, NoChannel, NoWriter, [], [])
  }

  /** The next entry fits the log if and only if the log has reached the version. */
  lemma NextFits<E>(version: nat, last: nat, e: E)
    requires last <= version
    ensures Refused([Queued(version + 1, e)], last) <==> last < version
  {
    var items := [Queued(version + 1, e)];
    assert items[1..] == [];
    assert Fresh(items, last) == items;
  }

  ghost predicate Gapped<E>(s: Commits<E>) {
    |s.log| < |s.bumped| && forall i :: 0 <= i < |InFlight(s)| ==> InFlight(s)[i].index > |s.log| + 1
  }

  lemma {:induction false} NothingFits<E>(items: seq<Queued<E>>, last: nat)
    requires forall i :: 0 <= i < |items| ==> items[i].index > last + 1
    ensures Accepted(items, last) == []
    ensures Fresh(items, last) == items
    decreases |items|
  {
    if items != [] { NothingFits(items[1..], last); }
  }

  lemma GapStep<E>(s: Commits<E>, a: Action<E>)
    requires Gapped(s)
    ensures Gapped(Next(s, a)) && Next(s, a).log == s.log
  {
    hide Accepted, Refused, Continues;
    assert forall i :: 0 <= i < |s.batch| ==> s.batch[i] == InFlight(s)[i];
    NothingFits(s.batch, |s.log|);
    if s.phase.Sending? {
      assert InFlight(s)[|InFlight(s)| - 1] == s.phase.item;
      NothingFits([s.phase.item], |s.log|);
    }
    GapInFlight(s, a);
  }

  lemma GapInFlight<E>(s: Commits<E>, a: Action<E>)
    requires Gapped(s)
    requires Accepted(s.batch, |s.log|) == [] && (s.phase.Sending? ==> Accepted([s.phase.item], |s.log|) == [])
    ensures forall x :: x in InFlight(Next(s, a)) ==> x in InFlight(s) || x.index > |s.log| + 1
    ensures Next(s, a).log == s.log && |Next(s, a).bumped| >= |s.bumped|
  {
    hide Accepted, Refused, Continues;
  }

  /** Once nothing in flight fits a log that is behind, the log stays as it is. */
  lemma {:induction false} GapStays<E>(s: Commits<E>, run: seq<Action<E>>)
    requires Gapped(s)
    ensures NextAll(s, run).log == s.log
    decreases |run|
  {
    hide Next, Gapped;
    if run != [] {
      GapStep(s, run[0]);
      GapStays(Next(s, run[0]), run[1..]);
    }
  }

  /** A database loaded ahead of its log never writes to it. */
  lemma BehindIsStuck<E>(log: seq<E>, bumped: seq<E>, async: bool, run: seq<Action<E>>)
    requires |log| < |bumped|
    ensures NextAll(Behind(log, bumped, async), run).log == log
  {
    GapStays(Behind(log, bumped, async), run);
  }

  /** After an error is latched no version is saved any more, except by a commit that had
      passed the check before. */
  lemma {:induction false} LatchStopsVersions<E>(s: Commits<E>, run: seq<Action<E>>)
    requires s.latched
    ensures var t := NextAll(s, run);
      && t.latched && |t.bumped| <= |s.bumped| + (if s.phase.Checked? then 1 else 0)
      && (!s.phase.Checked? ==> t.bumped == s.bumped && !t.phase.Checked?)
    decreases |run|
  {
    if run != [] {
      LatchedStep(s, run[0]);
      hide Next;
      LatchStopsVersions(Next(s, run[0]), run[1..]);
    }
  }

  lemma LatchedStep<E>(s: Commits<E>, a: Action<E>)
    requires s.latched
    ensures var t := Next(s, a);
      && t.latched
      && (!s.phase.Checked? ==> t.bumped == s.bumped && !t.phase.Checked?)
      && (s.phase.Checked? ==> if t.phase.Checked? then t.bumped == s.bumped else |t.bumped| <= |s.bumped| + 1)
  {
    hide Refused, Accepted, Entries;
  }
}
