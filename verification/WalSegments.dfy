/** The choice of segments among the files of a log directory. A truncation writes the segment
    it cuts under a name with a suffix, removes the segments it makes void, and renames the new
    one; wherever it stops, the log before it or the log after it is found. */
module WalSegments {
  import opened Bytes
  import opened Wal
  import opened ReadOnlyLog

  /** By the ending of its name a file is a segment, one cut at its front, or one cut at its back. */
  datatype Kind = Plain | Start | End

  /** Other names, and directories, are strays. */
  datatype DirEntry = Stray | SegmentFile(index: nat, kind: Kind, file: Bytes)

  /** The segments found so far, and whether a cut was seen at a front and at a back. */
  datatype Gathered = Gathered(segments: seq<Segment>, start: bool, end: bool)

  function Step(f: Gathered, e: DirEntry): Gathered {
    if e.Stray? || e.index == 0 then f
    else
      var seg, n := Segment(e.index, e.file), |f.segments|;
      match e.kind
      case Plain => if f.end then f else f.(segments := f.segments + [seg])
      case Start => Gathered([seg], true, f.end)
      case End =>
        if f.end then f
        else
          var kept := if n > 0 && f.segments[n - 1].index == e.index then f.segments[..n - 1] else f.segments;
          Gathered(kept + [seg], f.start, true)
  }

  function Scan(f: Gathered, listing: seq<DirEntry>): Gathered
    decreases |listing|
  {
    if listing == [] then f else Scan(Step(f, listing[0]), listing[1..])
  }

  /** The segments of a directory; nothing if it was cut at both ends. */
  function Chosen(listing: seq<DirEntry>): Option<seq<Segment>> {
    var f := Scan(Gathered([], false, false), listing);
    if f.start && f.end then None else Some(f.segments)
  }

  method ListSegments(listing: seq<DirEntry>) returns (r: Option<seq<Segment>>)
    ensures r == Chosen(listing)
  {
    var segments: seq<Segment>, hasStart, hasEnd := [], false, false;
    for i := 0 to |listing|
      invariant Scan(Gathered([], false, false), listing) == Scan(Gathered(segments, hasStart, hasEnd), listing[i..])
    {
      var e := listing[i];
      assert listing[i..][0] == e && listing[i..][1..] == listing[i + 1..];
      if e.Stray? || e.index == 0 {
        continue;
      }
      var seg := Segment(e.index, e.file);
      match e.kind {
        case Plain =>
          if !hasEnd {
            segments := segments + [seg];
          }
        case Start =>
          hasStart := true;
          segments := [seg];
        case End =>
          if hasEnd {
            continue;
          }
          hasEnd := true;
          var n := |segments|;
          if n > 0 && segments[n - 1].index == e.index {
            segments := segments[..n - 1];
          }
          segments := segments + [seg];
      }
    }
    if hasStart && hasEnd {
      return None;
    }
    return Some(segments);
  }

  // ----------------------------------------------------------- listings

  lemma {:induction false} ScanAppend(f: Gathered, a: seq<DirEntry>, b: seq<DirEntry>)
    ensures Scan(f, a + b) == Scan(Scan(f, a), b)
    decreases |a|
  {
    hide Step;
    if a == [] {
      assert a + b == b;
    } else {
      assert (a + b)[0] == a[0] && (a + b)[1..] == a[1..] + b;
      ScanAppend(Step(f, a[0]), a[1..], b);
    }
  }

  lemma ScanOne(f: Gathered, e: DirEntry)
    ensures Scan(f, [e]) == Step(f, e)
  {
    hide Step;
    assert [e][1..] == [];
  }

  /** The flags tell which cuts are there. */
  lemma {:induction false} ScanFlags(f: Gathered, listing: seq<DirEntry>)
    ensures Scan(f, listing).start <==> f.start || Has(listing, Start)
    ensures Scan(f, listing).end <==> f.end || Has(listing, End)
    decreases |listing|
  {
    if listing != [] {
      ScanFlags(Step(f, listing[0]), listing[1..]);
      assert forall k :: Has(listing, k) <==> Has([listing[0]], k) || Has(listing[1..], k) by {
        forall k ensures Has(listing, k) <==> Has([listing[0]], k) || Has(listing[1..], k) { HasSplit(listing, k); }
      }
    }
  }

  ghost predicate Has(listing: seq<DirEntry>, kind: Kind) {
    exists i :: 0 <= i < |listing| && IsKind(listing[i], kind)
  }

  predicate IsKind(e: DirEntry, kind: Kind) {
    e.SegmentFile? && e.index > 0 && e.kind == kind
  }

  lemma HasSplit(listing: seq<DirEntry>, kind: Kind)
    requires listing != []
    ensures Has(listing, kind) <==> Has([listing[0]], kind) || Has(listing[1..], kind)
  {
    hide IsKind;
    var one, rest := [listing[0]], listing[1..];
    assert one[0] == listing[0] && forall i :: 0 <= i < |rest| ==> rest[i] == listing[i + 1];
    if Has(listing, kind) {
      var i :| 0 <= i < |listing| && IsKind(listing[i], kind);
      if i > 0 { assert rest[i - 1] == listing[i]; }
    }
  }

  /** A directory is refused if and only if there are cuts at both ends. */
  lemma RefusedIff(listing: seq<DirEntry>)
    ensures Chosen(listing).None? <==> Has(listing, Start) && Has(listing, End)
  {
    hide Scan, Has;
    ScanFlags(Gathered([], false, false), listing);
  }

  /** Those of the segments that are still there, from a position on, in order. Strays do not
      matter, and are left out here. */
  function Remaining(segments: seq<Segment>, removed: set<nat>, from: nat): seq<DirEntry>
    decreases |segments| - from
  {
    if from >= |segments| then []
    else
      var rest := Remaining(segments, removed, from + 1);
      if from in removed then rest else [SegmentFile(segments[from].index, Plain, segments[from].file)] + rest
  }

  ghost predicate Positive(segments: seq<Segment>) {
    forall i :: 0 <= i < |segments| ==> segments[i].index > 0
  }

  /** After a cut at the back nothing is added any more. */
  lemma {:induction false} ScanAfterEnd(f: Gathered, segments: seq<Segment>, removed: set<nat>, from: nat)
    requires f.end
    ensures Scan(f, Remaining(segments, removed, from)) == f
    decreases |segments| - from
  {
    if from < |segments| {
      var all, rest := Remaining(segments, removed, from), Remaining(segments, removed, from + 1);
      ScanAfterEnd(f, segments, removed, from + 1);
      if from !in removed { assert all[1..] == rest; }
    }
  }

  lemma PlainStep(f: Gathered, seg: Segment)
    requires !f.end && seg.index > 0
    ensures Step(f, SegmentFile(seg.index, Plain, seg.file)) == f.(segments := f.segments + [seg])
  {
  }

  lemma ScanFirst(f: Gathered, segments: seq<Segment>, from: nat)
    requires !f.end && from < |segments| && segments[from].index > 0
    ensures Scan(f, Remaining(segments, {}, from))
         == Scan(f.(segments := f.segments + [segments[from]]), Remaining(segments, {}, from + 1))
  {
    hide Step;
    PlainStep(f, segments[from]);
    assert Remaining(segments, {}, from)[1..] == Remaining(segments, {}, from + 1);
  }

  /** Otherwise segments are added in order. */
  lemma {:induction false} ScanAll(f: Gathered, segments: seq<Segment>, from: nat)
    requires !f.end && from <= |segments| && Positive(segments)
    ensures Scan(f, Remaining(segments, {}, from)) == f.(segments := f.segments + segments[from..])
    decreases |segments| - from
  {
    if from == |segments| {
      assert f.segments + segments[from..] == f.segments;
    } else {
      hide Scan, Remaining;
      ScanFirst(f, segments, from);
      ScanAll(f.(segments := f.segments + [segments[from]]), segments, from + 1);
      assert f.segments + segments[from..] == (f.segments + [segments[from]]) + segments[from + 1..];
    }
  }

  lemma {:induction false} ScanSome(f: Gathered, segments: seq<Segment>, removed: set<nat>, from: nat)
    requires !f.end
    ensures var g := Scan(f, Remaining(segments, removed, from)); !g.end && g.start == f.start
    decreases |segments| - from
  {
    if from < |segments| {
      var all, rest := Remaining(segments, removed, from), Remaining(segments, removed, from + 1);
      if from in removed {
        ScanSome(f, segments, removed, from + 1);
      } else {
        assert all[1..] == rest;
        ScanSome(Step(f, all[0]), segments, removed, from + 1);
      }
    }
  }

  // ------------------------------------------------------------ truncations

  /** Where a truncation stopped: before the new segment had its name with the suffix; with some of
      the void segments removed; or after the last rename. */
  datatype Stage = Before | During(removed: set<nat>) | After

  /** The front is cut: `cut` replaces the segments up to `j`. */
  function FrontListing(segments: seq<Segment>, j: nat, cut: Segment, stage: Stage): seq<DirEntry>
    requires j < |segments|
  {
    match stage
    case Before => Remaining(segments, {}, 0)
    case During(removed) =>
      Remaining(segments[..j + 1], removed, 0)
        + ([SegmentFile(cut.index, Start, cut.file)] + Remaining(segments, {}, j + 1))
    case After => Remaining([cut] + segments[j + 1..], {}, 0)
  }

  /** The back is cut: `cut` replaces the segments from `j` on, under the index of the first of them. */
  function BackListing(segments: seq<Segment>, j: nat, cut: Segment, stage: Stage): seq<DirEntry>
    requires j < |segments|
  {
    match stage
    case Before => Remaining(segments, {}, 0)
    case During(removed) =>
      var own := SegmentFile(segments[j].index, Plain, segments[j].file);
      Remaining(segments[..j], {}, 0)
        + ((if j in removed then [] else [own]) + [SegmentFile(cut.index, End, cut.file)])
        + Remaining(segments, removed, j + 1)
    case After => Remaining(segments[..j] + [cut], {}, 0)
  }

  /** Whatever was removed, the segments chosen are those before the cut, or those after it. */
  lemma FrontIsChosen(segments: seq<Segment>, j: nat, cut: Segment, stage: Stage)
    requires j < |segments| && Positive(segments) && cut.index > 0
    ensures Chosen(FrontListing(segments, j, cut, stage))
         == Some(if stage.Before? then segments else [cut] + segments[j + 1..])
  {
    hide Scan, Remaining, Step;
    var f := Gathered([], false, false);
    var after := [cut] + segments[j + 1..];
    match stage
    case Before =>
      ScanAll(f, segments, 0);
      assert f.segments + segments[0..] == segments;
    case After =>
      ScanAll(f, after, 0);
      assert f.segments + after[0..] == after;
    case During(removed) =>
      var left, rest := Remaining(segments[..j + 1], removed, 0), Remaining(segments, {}, j + 1);
      var e := SegmentFile(cut.index, Start, cut.file);
      ScanAppend(f, left, [e] + rest);
      ScanSome(f, segments[..j + 1], removed, 0);
      var g := Scan(f, left);
      ScanAppend(g, [e], rest);
      ScanOne(g, e);
      StartStep(g, e, cut);
      ScanAll(Gathered([cut], true, false), segments, j + 1);
  }

  lemma StartStep(f: Gathered, e: DirEntry, cut: Segment)
    requires !f.end && cut.index > 0 && e == SegmentFile(cut.index, Start, cut.file)
    ensures Step(f, e) == Gathered([cut], true, false)
  {
  }

  lemma BackIsChosen(segments: seq<Segment>, j: nat, cut: Segment, stage: Stage)
    requires j < |segments| && Positive(segments) && cut.index == segments[j].index
    requires forall i :: 0 <= i < j ==> segments[i].index < segments[j].index
    ensures Chosen(BackListing(segments, j, cut, stage))
      == Some(if stage.Before? then segments else segments[..j] + [cut])
  {
    hide Scan, Remaining;
    var f := Gathered([], false, false);
    var left, after := segments[..j], segments[..j] + [cut];
    match stage
    case Before =>
      ScanAll(f, segments, 0);
      assert f.segments + segments[0..] == segments;
    case After =>
      ScanAll(f, after, 0);
      assert f.segments + after[0..] == after;
    case During(removed) =>
      var mid := (if j in removed then [] else [SegmentFile(segments[j].index, Plain, segments[j].file)])
        + [SegmentFile(cut.index, End, cut.file)];
      var rest := Remaining(segments, removed, j + 1);
      ScanAppend(f, Remaining(left, {}, 0) + mid, rest);
      ScanAppend(f, Remaining(left, {}, 0), mid);
      ScanAll(f, left, 0);
      assert f.segments + left[0..] == left;
      EndStep(left, segments[j], cut, j in removed);
      ScanAfterEnd(Gathered(after, false, true), segments, removed, j + 1);
  }

  lemma EndStep(left: seq<Segment>, own: Segment, cut: Segment, removed: bool)
    requires own.index > 0 && cut.index == own.index && forall i :: 0 <= i < |left| ==> left[i].index < own.index
    ensures var e, p := SegmentFile(cut.index, End, cut.file), SegmentFile(own.index, Plain, own.file);
      Scan(Gathered(left, false, false), (if removed then [] else [p]) + [e]) == Gathered(left + [cut], false, true)
  {
    var e, p := SegmentFile(cut.index, End, cut.file), SegmentFile(own.index, Plain, own.file);
    var f := Gathered(left, false, false);
    hide Scan;
    if removed {
      assert [] + [e] == [e];
      ScanOne(f, e);
    } else {
      ScanAppend(f, [p], [e]);
      ScanOne(f, p);
      var g := Gathered(left + [own], false, false);
      ScanOne(g, e);
      assert (left + [own])[..|left|] == left;
    }
  }

  // ---------------------------------------------------------- the log found

  lemma {:induction false} ConcatJoin(a: seq<seq<Bytes>>, b: seq<seq<Bytes>>)
    ensures Concat(a + b) == Concat(a) + Concat(b)
    decreases |b|
  {
    if b == [] {
      assert a + b == a;
    } else {
      var k := |b| - 1;
      assert (a + b)[..|a| + k] == a + b[..k] && (a + b)[|a| + k] == b[k];
      ConcatJoin(a, b[..k]);
    }
  }

  lemma ConcatOne(part: seq<Bytes>)
    ensures Concat([part]) == part
  {
    assert [part][..0] == [];
  }

  /** The parts left when the front is cut within part `j`. */
  function FrontParts(parts: seq<seq<Bytes>>, j: nat, offset: nat): seq<seq<Bytes>>
    requires j < |parts| && offset <= |parts[j]|
  {
    [parts[j][offset..]] + parts[j + 1..]
  }

  function BackParts(parts: seq<seq<Bytes>>, j: nat, offset: nat): seq<seq<Bytes>>
    requires j < |parts| && offset <= |parts[j]|
  {
    parts[..j] + [parts[j][..offset]]
  }

  /** Together they are the log without what was cut off. */
  lemma PartsAreCut(parts: seq<seq<Bytes>>, j: nat, offset: nat)
    requires j < |parts| && offset <= |parts[j]|
    ensures var n := |Concat(parts[..j])| + offset;
      && n <= |Concat(parts)|
      && Concat(FrontParts(parts, j, offset)) == Concat(parts)[n..]
      && Concat(BackParts(parts, j, offset)) == Concat(parts)[..n]
  {
    hide Concat;
    var left, part, right := parts[..j], parts[j], parts[j + 1..];
    assert parts == left + ([part] + right);
    ConcatJoin(left, [part] + right);
    ConcatJoin([part], right);
    ConcatOne(part);
    ConcatJoin([part[offset..]], right);
    ConcatOne(part[offset..]);
    ConcatJoin(left, [part[..offset]]);
    ConcatOne(part[..offset]);
    var a, b, c := Concat(left), part, Concat(right);
    assert Concat(parts) == a + b + c;
    assert (a + b + c)[|a| + offset..] == b[offset..] + c;
    assert (a + b + c)[..|a| + offset] == a + b[..offset];
  }

  /** The length of the log up to a part, before and after the front is cut. */
  lemma FrontLengths(parts: seq<seq<Bytes>>, j: nat, offset: nat, k: nat)
    requires j < |parts| && offset <= |parts[j]| && j < k <= |parts|
    ensures |Concat(parts[..k])| == |Concat(parts[..j])| + offset + |Concat(FrontParts(parts, j, offset)[..k - j])|
  {
    hide Concat;
    var cut := parts[..k];
    assert cut[..j] == parts[..j] && FrontParts(parts, j, offset)[..k - j] == FrontParts(cut, j, offset);
    PartsAreCut(cut, j, offset);
  }

  /** The cut segment holds the entries of part `j` from an offset on. */
  ghost predicate IsCut(cut: Segment, part: seq<Bytes>, index: nat) {
    cut.index == index && Entries(cut.file) == (part, |cut.file|)
  }

  lemma FrontHolds(segments: seq<Segment>, parts: seq<seq<Bytes>>, first: nat, j: nat, offset: nat, cut: Segment)
    requires Holds(segments, parts, first) && j < |parts| && offset <= |parts[j]|
    requires IsCut(cut, parts[j][offset..], segments[j].index + offset)
    ensures Holds([cut] + segments[j + 1..], FrontParts(parts, j, offset), cut.index)
  {
    hide Concat, Entries;
    var now, left := [cut] + segments[j + 1..], FrontParts(parts, j, offset);
    forall k | 0 <= k < |left| ensures now[k].index == cut.index + |Concat(left[..k])| {
      if k == 0 {
        ConcatOfNothing(left);
      } else {
        assert now[k] == segments[j + k];
        FrontLengths(parts, j, offset, j + k);
      }
    }
  }

  lemma BackHolds(segments: seq<Segment>, parts: seq<seq<Bytes>>, first: nat, j: nat, offset: nat, cut: Segment)
    requires Holds(segments, parts, first) && j < |parts| && offset <= |parts[j]|
    requires IsCut(cut, parts[j][..offset], segments[j].index)
    ensures Holds(segments[..j] + [cut], BackParts(parts, j, offset), first)
  {
    hide Concat, Entries;
    var left := BackParts(parts, j, offset);
    assert forall k :: 0 <= k <= j ==> left[..k] == parts[..k];
  }

  lemma HoldsPositive(segments: seq<Segment>, parts: seq<seq<Bytes>>, first: nat)
    requires Holds(segments, parts, first) && first >= 1
    ensures Positive(segments)
  {
    hide Concat, Entries;
  }

  lemma HoldsAscends(segments: seq<Segment>, parts: seq<seq<Bytes>>, first: nat, j: nat)
    requires Holds(segments, parts, first) && j < |parts| && forall k :: 0 <= k < j ==> parts[k] != []
    ensures forall i :: 0 <= i < j ==> segments[i].index < segments[j].index
  {
    hide Concat, Entries;
    forall i | 0 <= i < j ensures segments[i].index < segments[j].index {
      ConcatStep(parts, i);
      ConcatPrefix(parts[..j], i + 1);
      assert parts[..j][..i + 1] == parts[..i + 1];
    }
  }

  /** A truncation of the front that stopped anywhere: the segments chosen hold the whole log, or
      all of it from the new first index on. */
  lemma FrontStopsAnywhere(segments: seq<Segment>, parts: seq<seq<Bytes>>, first: nat, j: nat, offset: nat,
                           cut: Segment, stage: Stage) returns (found: seq<Segment>, left: seq<seq<Bytes>>)
    requires Holds(segments, parts, first) && first >= 1 && j < |parts| && offset <= |parts[j]|
    requires IsCut(cut, parts[j][offset..], segments[j].index + offset)
    ensures Chosen(FrontListing(segments, j, cut, stage)) == Some(found)
    ensures Holds(found, left, if stage.Before? then first else cut.index)
    ensures 0 <= cut.index - first <= |Concat(parts)|
    ensures Concat(left) == if stage.Before? then Concat(parts) else Concat(parts)[cut.index - first..]
  {
    hide Concat, Entries, Chosen, FrontListing, FrontParts;
    HoldsPositive(segments, parts, first);
    FrontIsChosen(segments, j, cut, stage);
    FrontHolds(segments, parts, first, j, offset, cut);
    PartsAreCut(parts, j, offset);
    if stage.Before? {
      found, left := segments, parts;
    } else {
      found, left := [cut] + segments[j + 1..], FrontParts(parts, j, offset);
    }
  }

  /** The same for the back; only the last segment can be without an entry. */
  lemma BackStopsAnywhere(segments: seq<Segment>, parts: seq<seq<Bytes>>, first: nat, j: nat, offset: nat,
                          cut: Segment, stage: Stage) returns (found: seq<Segment>, left: seq<seq<Bytes>>)
    requires Holds(segments, parts, first) && first >= 1 && j < |parts| && offset <= |parts[j]|
    requires forall k :: 0 <= k < j ==> parts[k] != []
    requires IsCut(cut, parts[j][..offset], segments[j].index)
    ensures Chosen(BackListing(segments, j, cut, stage)) == Some(found) && Holds(found, left, first)
    ensures 0 <= cut.index + offset - first <= |Concat(parts)|
    ensures Concat(left) == if stage.Before? then Concat(parts) else Concat(parts)[..cut.index + offset - first]
  {
    hide Concat, Entries, Chosen, BackListing, BackParts;
    HoldsPositive(segments, parts, first);
    HoldsAscends(segments, parts, first, j);
    BackIsChosen(segments, j, cut, stage);
    BackHolds(segments, parts, first, j, offset, cut);
    PartsAreCut(parts, j, offset);
    if stage.Before? {
      found, left := segments, parts;
    } else {
      found, left := segments[..j] + [cut], BackParts(parts, j, offset);
    }
  }
}
