/** The size-rotated log file and its numbered backups. The file system is a map from
    names to contents, and its operations succeed. */
module RotatingLog {
  import opened ByteStrings

  datatype Name = Live | Backup(number: nat)

  type Files = map<Name, Bytes>

  /** The file renamed to backup i. */
  function Before(i: nat): Name
    requires i > 0
  {
    if i == 1 then Live else Backup(i - 1)
  }

  // ------------------------------------------------------------- what is written

  function Flat(chunks: seq<Bytes>): Bytes {
    if chunks == [] then [] else Flat(chunks[..|chunks| - 1]) + chunks[|chunks| - 1]
  }

  function Join(segments: seq<seq<Bytes>>): seq<Bytes> {
    if segments == [] then [] else Join(segments[..|segments| - 1]) + segments[|segments| - 1]
  }

  /** The writes of a whole run, one segment a file: a write that would take its file
      past the limit starts the next. */
  function Segments(maxSize: int, writes: seq<Bytes>): (segments: seq<seq<Bytes>>)
    ensures segments != []
  {
    if writes == [] then [[]]
    else
      var p := writes[|writes| - 1];
      var before := Segments(maxSize, writes[..|writes| - 1]);
      var last := before[|before| - 1];
      if |Flat(last)| + |p| > maxSize then before + [[p]]
      else before[..|before| - 1] + [last + [p]]
  }

  /** Nothing written is left out of the segments, and nothing reordered. */
  lemma {:induction false} SegmentsJoin(maxSize: int, writes: seq<Bytes>)
    ensures Join(Segments(maxSize, writes)) == writes
  {
    if writes == [] {
      assert Join([[]]) == [];
    } else {
      var p, rest := writes[|writes| - 1], writes[..|writes| - 1];
      SegmentsJoin(maxSize, rest);
      var before, now := Segments(maxSize, rest), Segments(maxSize, writes);
      assert now[..|now| - 1] == before || now[..|now| - 1] == before[..|before| - 1];
      assert writes == rest + [p];
    }
  }

  /** A segment is within the limit, unless it is one write. */
  lemma {:induction false} SegmentsFit(maxSize: int, writes: seq<Bytes>, i: nat)
    requires i < |Segments(maxSize, writes)|
    ensures var segment := Segments(maxSize, writes)[i]; |Flat(segment)| <= maxSize || |segment| <= 1
  {
    if writes != [] {
      var p, rest := writes[|writes| - 1], writes[..|writes| - 1];
      var before := Segments(maxSize, rest);
      var last := before[|before| - 1];
      if i < |before| - 1 || |Flat(last)| + |p| > maxSize {
        if i < |before| {
          SegmentsFit(maxSize, rest, i);
        }
      } else {
        assert (last + [p])[..|last|] == last;
      }
    }
  }

  /** No segment is closed early: its successor's first write would not have fitted. */
  lemma {:induction false} SegmentsAreFull(maxSize: int, writes: seq<Bytes>, i: nat)
    requires 0 < i < |Segments(maxSize, writes)|
    ensures var segments := Segments(maxSize, writes);
            segments[i] != [] && |Flat(segments[i - 1])| + |segments[i][0]| > maxSize
  {
    if writes != [] {
      var rest := writes[..|writes| - 1];
      if i < |Segments(maxSize, rest)| {
        SegmentsAreFull(maxSize, rest, i);
      }
    }
  }

  // ------------------------------------------------------------------- the files

  /** How many backups exist once there are n segments. */
  function Backups(maxBak: int, n: nat): nat {
    if maxBak <= 0 || n == 0 then 0 else if n - 1 <= maxBak then n - 1 else maxBak
  }

  /** Backup i holds the segment i places before the last; 0 stands for the live file. */
  predicate HoldsAt(files: Files, segments: seq<seq<Bytes>>, i: nat)
    requires i < |segments|
  {
    var name := if i == 0 then Live else Backup(i);
    name in files && files[name] == Flat(segments[|segments| - 1 - i])
  }

  /** The directory after a run: the live file holds the last segment, the backups those
      before it, and nothing older than maxBak segments is left. */
  predicate Holds(files: Files, maxBak: int, segments: seq<seq<Bytes>>) {
    && segments != []
    && (forall i: nat :: i <= Backups(maxBak, |segments|) ==> HoldsAt(files, segments, i))
    && (forall name :: name in files && name.Backup? ==> 1 <= name.number <= Backups(maxBak, |segments|))
  }

  /** The content of the files from the oldest backup to the live file. */
  function Retained(files: Files, i: nat): Bytes {
    if i == 0 then (if Live in files then files[Live] else [])
    else (if Backup(i) in files then files[Backup(i)] else []) + Retained(files, i - 1)
  }

  lemma {:induction false} JoinTail(segments: seq<seq<Bytes>>, k: nat)
    requires k <= |segments|
    ensures Join(segments) == Join(segments[..k]) + Join(segments[k..])
    decreases |segments| - k
  {
    if k == |segments| {
      assert segments[..k] == segments && Join(segments[k..]) == [];
    } else {
      var n := |segments| - 1;
      JoinTail(segments[..n], k);
      assert segments[..n][..k] == segments[..k] && segments[k..][..n - k] == segments[..n][k..];
      ConcatAssociative(Join(segments[..k]), Join(segments[..n][k..]), segments[n]);
    }
  }

  lemma {:induction false} FlatConcat(a: seq<Bytes>, b: seq<Bytes>)
    ensures Flat(a + b) == Flat(a) + Flat(b)
  {
    if b == [] {
      assert a + b == a;
    } else {
      var n := |b| - 1;
      FlatConcat(a, b[..n]);
      assert (a + b)[..|a| + n] == a + b[..n];
      ConcatAssociative(Flat(a), Flat(b[..n]), b[n]);
    }
  }

  lemma {:induction false} RetainedUnfolds(files: Files, segments: seq<seq<Bytes>>, i: nat, from: nat)
    requires from + i == |segments| - 1 && HoldsAt(files, segments, i)
    ensures Retained(files, i) == Flat(segments[from]) + if i == 0 then [] else Retained(files, i - 1)
  {
  }

  /** The files from backup i to the live one hold the segments from the matching place on. */
  lemma {:induction false} RetainedIsTail(files: Files, maxBak: int, segments: seq<seq<Bytes>>, i: nat, from: nat)
    requires Holds(files, maxBak, segments) && i <= Backups(maxBak, |segments|)
    requires from + i == |segments| - 1
    ensures Retained(files, i) == Flat(Join(segments[from..]))
    decreases i
  {
    assert HoldsAt(files, segments, i);
    RetainedUnfolds(files, segments, i, from);
    JoinHead(segments, from);
    FlatConcat(segments[from], Join(segments[from + 1..]));
    if i == 0 {
      assert segments[from + 1..] == [];
    } else {
      RetainedIsTail(files, maxBak, segments, i - 1, from + 1);
    }
  }

  lemma {:induction false} JoinHead(segments: seq<seq<Bytes>>, k: nat)
    requires k < |segments|
    ensures Join(segments[k..]) == segments[k] + Join(segments[k + 1..])
  {
    var tail := segments[k..];
    JoinTail(tail, 1);
    assert tail[1..] == segments[k + 1..] && tail[..1][..0] == [];
    assert Join(tail[..1]) == Join([]) + segments[k] == segments[k];
  }

  lemma {:induction false} KeptIsSuffix(files: Files, maxBak: int, segments: seq<seq<Bytes>>)
    requires Holds(files, maxBak, segments)
    ensures var kept := Backups(maxBak, |segments|);
            exists cut :: 0 <= cut <= |Join(segments)| && Retained(files, kept) == Flat(Join(segments)[cut..])
  {
    var kept := Backups(maxBak, |segments|);
    var from := |segments| - 1 - kept;
    RetainedIsTail(files, maxBak, segments, kept, from);
    JoinTail(segments, from);
    var cut := |Join(segments[..from])|;
    assert Join(segments)[cut..] == Join(segments[from..]);
  }

  /** The files in order are the end of what was written, cut between two writes; each
      file holds whole writes, and stays within the limit unless it holds just one. */
  lemma {:induction false} RetentionIsSuffix(files: Files, maxSize: int, maxBak: int, writes: seq<Bytes>)
    requires Holds(files, maxBak, Segments(maxSize, writes))
    ensures var kept := Backups(maxBak, |Segments(maxSize, writes)|);
            exists cut :: 0 <= cut <= |writes| && Retained(files, kept) == Flat(writes[cut..])
    ensures forall name :: name in files ==> IsWholeWrites(files[name], maxSize, writes)
  {
    var segments := Segments(maxSize, writes);
    SegmentsJoin(maxSize, writes);
    KeptIsSuffix(files, maxBak, segments);
    forall name | name in files
      ensures IsWholeWrites(files[name], maxSize, writes)
    {
      var i: nat := if name == Live then 0 else name.number;
      assert HoldsAt(files, segments, i);
      SegmentIsWholeWrites(maxSize, writes, |segments| - 1 - i);
    }
  }

  /** A file's content: a stretch of consecutive writes, within the limit or just one. */
  ghost predicate IsWholeWrites(content: Bytes, maxSize: int, writes: seq<Bytes>) {
    exists a, b :: 0 <= a <= b <= |writes| && content == Flat(writes[a..b]) && (|content| <= maxSize || b - a <= 1)
  }

  lemma {:induction false} SegmentIsStretch(segments: seq<seq<Bytes>>, i: nat)
    requires i < |segments|
    ensures var a := |Join(segments[..i])|;
            a + |segments[i]| <= |Join(segments)| && Join(segments)[a..a + |segments[i]|] == segments[i]
  {
    JoinTail(segments, i);
    JoinHead(segments, i);
  }

  lemma {:induction false} SegmentIsWholeWrites(maxSize: int, writes: seq<Bytes>, i: nat)
    requires i < |Segments(maxSize, writes)|
    ensures IsWholeWrites(Flat(Segments(maxSize, writes)[i]), maxSize, writes)
  {
    var segments := Segments(maxSize, writes);
    SegmentsJoin(maxSize, writes);
    SegmentsFit(maxSize, writes, i);
    SegmentIsStretch(segments, i);
    var a := |Join(segments[..i])|;
    assert writes[a..a + |segments[i]|] == segments[i];
  }

  // ------------------------------------------------------------------ the object

  class RotatingFile {
    const maxSize: int
    const maxBak: int
    var files: Files
    var size: int
    ghost var writes: seq<Bytes>

    /** The directory and the size counter are those of the writes so far. */
    ghost predicate Valid()
      reads this
    {
      var segments := Segments(maxSize, writes);
      Holds(files, maxBak, segments) && size == |Flat(segments[|segments| - 1])|
    }

    constructor (maxSize: int, maxBak: int)
      ensures Valid() && writes == [] && this.maxSize == maxSize && this.maxBak == maxBak
    {
      this.maxSize, this.maxBak := maxSize, maxBak;
      files, size, writes := map[Live := []], 0, [];
    }

    method Write(p: Bytes)
      requires Valid()
      modifies this
      ensures Valid() && writes == old(writes) + [p]
    {
      ghost var segments := Segments(maxSize, writes);
      assert writes == (writes + [p])[..|writes|];
      if size + |p| > maxSize {
        Rotate();
        RotationHolds(old(files), files, maxBak, segments);
        segments := segments + [[]];
      }
      AppendHolds(files, maxBak, segments, p);
      GrownSegments(maxSize, writes, p, segments);
      FlatGrows(segments[|segments| - 1], p);
      files := files[Live := files[Live] + p];
      size := size + |p|;
      writes := writes + [p];
    }

    /** Every backup moves up one number, the live file becomes backup 1, and an empty
        live file takes its place. */
    method Rotate()
      modifies this`files, this`size
      ensures Rotated(old(files), files, maxBak) && size == 0
    {
      var i := maxBak;
      while i > 0
        invariant i <= maxBak || (maxBak <= 0 && i == maxBak)
        invariant maxBak > 0 ==> i >= 0
        invariant ShiftedTo(old(files), files, i, maxBak)
        decreases i
      {
        ghost var before := files;
        var prev := if i == 1 then Live else Backup(i - 1);
        files := files - {Backup(i)};
        if prev in files {
          files := (files - {prev})[Backup(i) := files[prev]];
        }
        OneMoreShifted(old(files), before, files, i, maxBak);
        i := i - 1;
      }
      files := files[Live := []];
      size := 0;
    }
  }

  lemma {:induction false} FlatGrows(chunks: seq<Bytes>, p: Bytes)
    ensures Flat(chunks + [p]) == Flat(chunks) + p
  {
    assert (chunks + [p])[..|chunks|] == chunks;
  }

  lemma {:induction false} SegmentsStep(maxSize: int, writes: seq<Bytes>, p: Bytes, before: seq<seq<Bytes>>)
    requires before == Segments(maxSize, writes)
    ensures var last := before[|before| - 1];
            Segments(maxSize, writes + [p]) ==
              if |Flat(last)| + |p| > maxSize then before + [[p]] else before[..|before| - 1] + [last + [p]]
  {
    assert (writes + [p])[..|writes|] == writes;
  }

  lemma {:induction false} LastReplaced(segments: seq<seq<Bytes>>, last: seq<Bytes>)
    requires segments != []
    ensures segments[|segments| - 1 := last] == segments[..|segments| - 1] + [last]
  {
  }

  lemma {:induction false} GrownSegments(maxSize: int, writes: seq<Bytes>, p: Bytes, segments: seq<seq<Bytes>>)
    requires var before := Segments(maxSize, writes);
             segments == if |Flat(before[|before| - 1])| + |p| > maxSize then before + [[]] else before
    ensures var n := |segments| - 1;
            Segments(maxSize, writes + [p]) == segments[n := segments[n] + [p]]
  {
    var before, n := Segments(maxSize, writes), |segments| - 1;
    SegmentsStep(maxSize, writes, p, before);
    LastReplaced(segments, segments[n] + [p]);
    if |Flat(before[|before| - 1])| + |p| > maxSize {
      assert segments[..n] == before && segments[n] + [p] == [p];
    }
  }

  /** The names the rotation loop has not reached when it stands at i. */
  predicate Untouched(name: Name, i: int, maxBak: int) {
    match name
    case Live => i > 0 || maxBak <= 0
    case Backup(j) => j > maxBak || j == 0 || j < i || (j == i && i == maxBak)
  }

  /** The rotation loop at i: every backup above it has taken over the file before it. */
  ghost predicate ShiftedTo(start: Files, files: Files, i: int, maxBak: int) {
    && (forall j: nat :: i < j <= maxBak && j > 0 ==>
          (Backup(j) in files <==> Before(j) in start)
          && (Backup(j) in files ==> files[Backup(j)] == start[Before(j)]))
    && (forall name :: Untouched(name, i, maxBak) ==>
          (name in files <==> name in start) && (name in files ==> files[name] == start[name]))
    && (0 < i < maxBak ==> Backup(i) !in files)
  }

  lemma {:induction false} OneMoreShifted(start: Files, files: Files, after: Files, i: int, maxBak: int)
    requires 0 < i <= maxBak && ShiftedTo(start, files, i, maxBak)
    requires var prev := if i == 1 then Live else Backup(i - 1);
             var cleared := files - {Backup(i)};
             after == if prev in cleared then (cleared - {prev})[Backup(i) := cleared[prev]] else cleared
    ensures ShiftedTo(start, after, i - 1, maxBak)
  {
    assert Before(i) == if i == 1 then Live else Backup(i - 1);
    assert Untouched(Before(i), i, maxBak);
  }

  predicate Rotated(before: Files, after: Files, maxBak: int) {
    && Live in after && after[Live] == []
    && (forall j: nat :: 1 <= j <= maxBak ==>
          (Backup(j) in after <==> Before(j) in before)
          && (Backup(j) in after ==> after[Backup(j)] == before[Before(j)]))
    && (forall name :: name in after && name.Backup? && !(1 <= name.number <= maxBak) ==> name in before)
  }

  /** The file i of a rotated directory holds what the file before it held. */
  lemma {:induction false} RotatedFileHolds(before: Files, after: Files, maxBak: int, segments: seq<seq<Bytes>>, i: nat)
    requires Holds(before, maxBak, segments) && Rotated(before, after, maxBak)
    requires i <= Backups(maxBak, |segments| + 1)
    ensures HoldsAt(after, segments + [[]], i)
  {
    var n, now := |segments|, segments + [[]];
    if i > 0 {
      assert HoldsAt(before, segments, i - 1);
      assert Before(i) == if i - 1 == 0 then Live else Backup(i - 1);
      assert now[n - i] == segments[n - 1 - (i - 1)];
    }
  }

  lemma {:induction false} RotatedNameFits(before: Files, after: Files, maxBak: int, segments: seq<seq<Bytes>>,
                                           name: Name)
    requires Holds(before, maxBak, segments) && Rotated(before, after, maxBak)
    requires name in after && name.Backup?
    ensures 1 <= name.number <= Backups(maxBak, |segments| + 1)
  {
    if 1 < name.number <= maxBak {
      assert Before(name.number) in before;
    }
  }

  lemma {:induction false} RotationHolds(before: Files, after: Files, maxBak: int, segments: seq<seq<Bytes>>)
    requires Holds(before, maxBak, segments) && Rotated(before, after, maxBak)
    ensures Holds(after, maxBak, segments + [[]])
  {
    forall i: nat | i <= Backups(maxBak, |segments| + 1)
      ensures HoldsAt(after, segments + [[]], i)
    {
      RotatedFileHolds(before, after, maxBak, segments, i);
    }
    forall name | name in after && name.Backup?
      ensures 1 <= name.number <= Backups(maxBak, |segments| + 1)
    {
      RotatedNameFits(before, after, maxBak, segments, name);
    }
  }

  /** The live file's content is replaced along with the last segment. */
  lemma {:induction false} ReplaceLive(files: Files, maxBak: int, segments: seq<seq<Bytes>>, now: seq<seq<Bytes>>,
                                       live: Bytes)
    requires Holds(files, maxBak, segments)
    requires |now| == |segments| && live == Flat(now[|now| - 1])
    requires forall k :: 0 <= k < |now| - 1 ==> now[k] == segments[k]
    ensures Holds(files[Live := live], maxBak, now)
  {
    var after := files[Live := live];
    forall i: nat | i <= Backups(maxBak, |now|)
      ensures HoldsAt(after, now, i)
    {
      assert HoldsAt(files, segments, i);
      if i > 0 {
        assert now[|now| - 1 - i] == segments[|now| - 1 - i];
      }
    }
  }

  /** Appending to the live file appends to the last segment. */
  lemma {:induction false} AppendHolds(files: Files, maxBak: int, segments: seq<seq<Bytes>>, p: Bytes)
    requires Holds(files, maxBak, segments)
    ensures Live in files
    ensures Holds(files[Live := files[Live] + p], maxBak, segments[|segments| - 1 := segments[|segments| - 1] + [p]])
  {
    assert HoldsAt(files, segments, 0);
    FlatGrows(segments[|segments| - 1], p);
    ReplaceLive(files, maxBak, segments, segments[|segments| - 1 := segments[|segments| - 1] + [p]], files[Live] + p);
  }
}
