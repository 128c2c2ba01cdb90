/** Reading the audit file: the byte-level binary search for a start time, and the
    filtered scan it saves from reading the whole file. */
module AuditSearch {
  import opened ByteStrings

  datatype AuditEntry = AuditEntry(time: Option<int>, action: string, clientCN: string, serial: string, mapping: string)

  /** json.Unmarshal and time.Parse of a line: an entry whose time may not parse. */
  type Decoder = Bytes -> Option<AuditEntry>

  /** Empty strings and absent times do not filter. */
  datatype Filter = Filter(since: Option<int>, until: Option<int>, limit: int, offset: int,
                           action: string, clientCN: string, serial: string, mapping: string)

  const NEWLINE: Byte := 10

  /** The scanner's buffer: a line this long stops the scan with an error. */
  const MAX_LINE: int := 1024 * 1024

  // ----------------------------------------------------------------------- lines

  /** The first newline at or after p, or the end of the file. */
  function LineEnd(f: Bytes, p: nat): (end: nat)
    requires p <= |f|
    ensures p <= end <= |f| && (end < |f| ==> f[end] == NEWLINE)
    ensures forall i :: p <= i < end ==> f[i] != NEWLINE
    decreases |f| - p
  {
    if p == |f| || f[p] == NEWLINE then p else LineEnd(f, p + 1)
  }

  predicate LineStart(f: Bytes, p: nat) {
    p == 0 || (p <= |f| && f[p - 1] == NEWLINE)
  }

  function Line(f: Bytes, p: nat): Bytes
    requires p <= |f|
  {
    f[p..LineEnd(f, p)]
  }

  /** The lines from p on, as far as the first that is too long for the scanner. */
  function Lines(f: Bytes, p: nat): seq<Bytes>
    decreases |f| - p
  {
    if p >= |f| || |Line(f, p)| >= MAX_LINE then [] else [Line(f, p)] + Lines(f, LineEnd(f, p) + 1)
  }

  /** Where reading lines from p ends: past the file's end, or at a line too long. */
  function LinesEnd(f: Bytes, p: nat): (end: nat)
    ensures end < |f| ==> (end == p || LineStart(f, end)) && |Line(f, end)| >= MAX_LINE
    decreases |f| - p
  {
    if p >= |f| || |Line(f, p)| >= MAX_LINE then p else LinesEnd(f, LineEnd(f, p) + 1)
  }

  /** A line goes up to the next byte 10 or the end of the file. Reading stops at one of a
      mebibyte or more. */
  lemma {:induction false} LineLimit(f: Bytes, p: nat)
    requires p < |f|
    ensures Lines(f, p) == [] <==> |Line(f, p)| >= 1_048_576
    ensures LinesEnd(f, p) == p <==> |Line(f, p)| >= 1_048_576
    ensures 10 !in Line(f, p) && (p + |Line(f, p)| == |f| || f[p + |Line(f, p)|] == 10)
  {
  }

  predicate IsSpace(b: Byte) { b == 32 || 9 <= b <= 13 }

  function TrimLeft(s: Bytes): Bytes {
    if s != [] && IsSpace(s[0]) then TrimLeft(s[1..]) else s
  }

  function TrimRight(s: Bytes): Bytes {
    if s != [] && IsSpace(s[|s| - 1]) then TrimRight(s[..|s| - 1]) else s
  }

  function TrimSpace(s: Bytes): Bytes { TrimRight(TrimLeft(s)) }

  // ------------------------------------------------------------------- filtering

  /** All filters but paging. */
  predicate Accepts(filter: Filter, e: AuditEntry) {
    && (filter.action != "" ==> e.action == filter.action)
    && e.time.Some?
    && (filter.since.Some? ==> e.time.value >= filter.since.value)
    && (filter.until.Some? ==> e.time.value <= filter.until.value)
    && (filter.clientCN != "" ==> e.clientCN == filter.clientCN)
    && (filter.serial != "" ==> e.serial == filter.serial)
    && (filter.mapping != "" ==> e.mapping == filter.mapping)
  }

  /** The entry a line passes on to paging, if any: blank, malformed, undated and
      filtered lines pass on none. */
  function Examine(decode: Decoder, filter: Filter, line: Bytes): Option<AuditEntry> {
    var text := TrimSpace(line);
    if text == [] then None
    else
      match decode(text)
      case None => None
      case Some(e) => if Accepts(filter, e) then Some(e) else None
  }

  /** What is trimmed off either end is white space, and what is left begins and ends with
      none. */
  lemma {:induction false} TrimmedExactly(s: Bytes) returns (i: nat, j: nat)
    ensures i <= j <= |s| && TrimSpace(s) == s[i..j]
    ensures forall k :: (0 <= k < i || j <= k < |s|) ==> s[k] in {9, 10, 11, 12, 13, 32}
    ensures i < j ==> s[i] !in {9, 10, 11, 12, 13, 32} && s[j - 1] !in {9, 10, 11, 12, 13, 32}
  {
    i := TrimmedLeft(s);
    j := TrimmedRight(s[i..]);
    assert forall k :: 0 <= k < |s| - i ==> s[i..][k] == s[i + k];
    assert s[i..][..j] == s[i..i + j];
    j := i + j;
  }

  lemma {:induction false} TrimmedLeft(s: Bytes) returns (i: nat)
    ensures i <= |s| && TrimLeft(s) == s[i..]
    ensures forall k :: 0 <= k < i ==> s[k] in {9, 10, 11, 12, 13, 32}
    ensures i < |s| ==> s[i] !in {9, 10, 11, 12, 13, 32}
    decreases |s|
  {
    i := 0;
    if s != [] && IsSpace(s[0]) {
      i := TrimmedLeft(s[1..]);
      assert forall k :: 0 <= k < |s| - 1 ==> s[1..][k] == s[k + 1];
      assert s[1..][i..] == s[i + 1..];
      i := i + 1;
    }
  }

  lemma {:induction false} TrimmedRight(s: Bytes) returns (j: nat)
    ensures j <= |s| && TrimRight(s) == s[..j]
    ensures forall k :: j <= k < |s| ==> s[k] in {9, 10, 11, 12, 13, 32}
    ensures j > 0 ==> s[j - 1] !in {9, 10, 11, 12, 13, 32}
    decreases |s|
  {
    j := |s|;
    if s != [] && IsSpace(s[|s| - 1]) {
      j := TrimmedRight(s[..|s| - 1]);
      assert s[..|s| - 1][..j] == s[..j];
    }
  }

  /** A line passes its entry on exactly when its text decodes to one with a readable time
      that is neither before since nor after until, and that has the action, the client,
      the serial and the mapping asked for, where any is. */
  lemma {:induction false} PassedOnExactly(decode: Decoder, filter: Filter, line: Bytes, e: AuditEntry)
    ensures ExaminerOf(decode, filter)(line) == Some(e) <==>
            && TrimSpace(line) != [] && decode(TrimSpace(line)) == Some(e)
            && e.time.Some?
            && (filter.since.None? || filter.since.value <= e.time.value)
            && (filter.until.None? || e.time.value <= filter.until.value)
            && filter.action in {"", e.action} && filter.clientCN in {"", e.clientCN}
            && filter.serial in {"", e.serial} && filter.mapping in {"", e.mapping}
  {
  }

  type Examiner = Bytes -> Option<AuditEntry>

  function ExaminerOf(decode: Decoder, filter: Filter): Examiner {
    line => Examine(decode, filter, line)
  }

  /** The entries that lines pass on, in order. */
  function Matching(examine: Examiner, lines: seq<Bytes>): seq<AuditEntry> {
    if lines == [] then []
    else
      var before := Matching(examine, lines[..|lines| - 1]);
      match examine(lines[|lines| - 1]) case None => before case Some(e) => before + [e]
  }

  /** Every entry passed on is some line's, and every line's is. */
  lemma {:induction false} MatchedExactly(examine: Examiner, lines: seq<Bytes>, e: AuditEntry)
    ensures e in Matching(examine, lines) <==> exists k :: 0 <= k < |lines| && examine(lines[k]) == Some(e)
    decreases |lines|
  {
    if lines != [] {
      var n := |lines| - 1;
      MatchedExactly(examine, lines[..n], e);
      assert lines[n] == lines[|lines| - 1];
    }
  }

  /** Offset entries left out, then at most limit of the rest; only positive values count. */
  function Page(filter: Filter, entries: seq<AuditEntry>): seq<AuditEntry> {
    var skip := if filter.offset <= 0 then 0 else if filter.offset < |entries| then filter.offset else |entries|;
    var rest := entries[skip..];
    if filter.limit > 0 && |rest| >= filter.limit then rest[..filter.limit] else rest
  }

  // ------------------------------------------------------------------- the reader

  method ReadLine(f: Bytes, pos: nat) returns (end: nat)
    requires pos <= |f|
    ensures end == LineEnd(f, pos)
  {
    end := pos;
    while end < |f| && f[end] != NEWLINE
      invariant pos <= end <= |f| && LineEnd(f, pos) == LineEnd(f, end)
      decreases |f| - end
    {
      end := end + 1;
    }
  }

  /** The lines seen so far and those from pos on are the lines from start on. */
  ghost predicate ReadUpTo(f: Bytes, start: nat, pos: nat, seen: seq<Bytes>) {
    && (pos == start || StartOrPastEnd(f, pos))
    && seen + Lines(f, pos) == Lines(f, start)
    && LinesEnd(f, pos) == LinesEnd(f, start)
  }

  lemma {:induction false} LineRead(f: Bytes, start: nat, pos: nat, seen: seq<Bytes>)
    requires pos < |f| && |Line(f, pos)| < MAX_LINE && ReadUpTo(f, start, pos, seen)
    ensures ReadUpTo(f, start, LineEnd(f, pos) + 1, seen + [Line(f, pos)])
  {
    ConcatAssociative(seen, [Line(f, pos)], Lines(f, LineEnd(f, pos) + 1));
  }

  /** Nothing more is read at the end of the file, or at a line too long. */
  lemma {:induction false} ReadingEnds(f: Bytes, start: nat, pos: nat, seen: seq<Bytes>)
    requires ReadUpTo(f, start, pos, seen) && (pos >= |f| || |Line(f, pos)| >= MAX_LINE)
    ensures seen == Lines(f, start) && LinesEnd(f, start) == pos
  {
    assert seen + [] == seen;
  }

  /** The loop's variables after some lines. */
  datatype Cursor = Cursor(entries: seq<AuditEntry>, skip: int)

  predicate Full(filter: Filter, c: Cursor) {
    filter.limit > 0 && |c.entries| >= filter.limit
  }

  function Advance(filter: Filter, c: Cursor, found: Option<AuditEntry>): Cursor {
    if Full(filter, c) || found.None? then c
    else if c.skip > 0 then c.(skip := c.skip - 1)
    else c.(entries := c.entries + [found.value])
  }

  function Scan(examine: Examiner, filter: Filter, lines: seq<Bytes>): Cursor {
    if lines == [] then Cursor([], filter.offset)
    else Advance(filter, Scan(examine, filter, lines[..|lines| - 1]), examine(lines[|lines| - 1]))
  }

  lemma {:induction false} ScanGrows(examine: Examiner, filter: Filter, lines: seq<Bytes>, line: Bytes)
    ensures Scan(examine, filter, lines + [line]) == Advance(filter, Scan(examine, filter, lines), examine(line))
  {
    assert (lines + [line])[..|lines|] == lines;
  }

  /** A full page does not change any more. */
  lemma {:induction false} FullScanStands(examine: Examiner, filter: Filter, seen: seq<Bytes>, rest: seq<Bytes>)
    requires Full(filter, Scan(examine, filter, seen))
    ensures Scan(examine, filter, seen + rest) == Scan(examine, filter, seen)
  {
    if rest == [] {
      assert seen + rest == seen;
    } else {
      var n := |rest| - 1;
      FullScanStands(examine, filter, seen, rest[..n]);
      assert seen + rest == (seen + rest[..n]) + [rest[n]];
      ScanGrows(examine, filter, seen + rest[..n], rest[n]);
    }
  }

  /** The cursor is what paging the matches says. */
  predicate IsPageOf(filter: Filter, c: Cursor, matched: seq<AuditEntry>) {
    c.entries == Page(filter, matched) && (!Full(filter, c) ==> c.skip == PendingSkip(filter, |matched|))
  }

  function Joined(matched: seq<AuditEntry>, found: Option<AuditEntry>): seq<AuditEntry> {
    if found.Some? then matched + [found.value] else matched
  }

  lemma {:induction false} MatchingGrows(examine: Examiner, lines: seq<Bytes>, line: Bytes)
    ensures Matching(examine, lines + [line]) == Joined(Matching(examine, lines), examine(line))
  {
    assert (lines + [line])[..|lines|] == lines;
  }

  /** One more examined line keeps it so. */
  lemma {:induction false} AdvanceIsPage(filter: Filter, c: Cursor, matched: seq<AuditEntry>, found: Option<AuditEntry>)
    requires IsPageOf(filter, c, matched)
    ensures IsPageOf(filter, Advance(filter, c, found), Joined(matched, found))
  {
    if found.Some? {
      if Full(filter, c) {
        PageIsFull(filter, matched, [found.value]);
      } else {
        PageGrows(filter, matched, found.value);
      }
    }
  }

  lemma {:induction false} ScanStep(examine: Examiner, filter: Filter, before: seq<Bytes>, last: Bytes)
    requires IsPageOf(filter, Scan(examine, filter, before), Matching(examine, before))
    ensures IsPageOf(filter, Scan(examine, filter, before + [last]), Matching(examine, before + [last]))
  {
    AdvanceIsPage(filter, Scan(examine, filter, before), Matching(examine, before), examine(last));
    ScanGrows(examine, filter, before, last);
    MatchingGrows(examine, before, last);
  }

  lemma {:induction false} NothingScanned(examine: Examiner, filter: Filter)
    ensures IsPageOf(filter, Scan(examine, filter, []), Matching(examine, []))
  {
  }

  /** Scanning is paging over the entries that the lines pass on. */
  lemma {:induction false} ScanIsPage(examine: Examiner, filter: Filter, lines: seq<Bytes>)
    ensures IsPageOf(filter, Scan(examine, filter, lines), Matching(examine, lines))
    decreases |lines|
  {
    if lines == [] {
      NothingScanned(examine, filter);
    } else {
      var n := |lines| - 1;
      assert lines == lines[..n] + [lines[n]];
      ScanIsPage(examine, filter, lines[..n]);
      ScanStep(examine, filter, lines[..n], lines[n]);
    }
  }

  lemma {:induction false} OneMoreScanned(examine: Examiner, filter: Filter, seen: seq<Bytes>, raw: Bytes,
                                          entries: seq<AuditEntry>, skip: int)
    requires Cursor(entries, skip) == Scan(examine, filter, seen) && !Full(filter, Cursor(entries, skip))
    ensures Scan(examine, filter, seen + [raw]) ==
            if examine(raw).None? then Cursor(entries, skip)
            else if skip > 0 then Cursor(entries, skip - 1)
            else Cursor(entries + [examine(raw).value], skip)
  {
    ScanGrows(examine, filter, seen, raw);
  }

  /** The forward scan from an offset, line by line. */
  method ScanFrom(examine: Examiner, f: Bytes, start: nat, filter: Filter)
    returns (entries: seq<AuditEntry>, tooLong: bool)
    ensures entries == Scan(examine, filter, Lines(f, start)).entries
    ensures tooLong <==> LinesEnd(f, start) < |f| && !Full(filter, Scan(examine, filter, Lines(f, start)))
  {
    var pos, skip := start, filter.offset;
    entries, tooLong := [], false;
    ghost var seen: seq<Bytes> := [];
    while pos < |f|
      invariant ReadUpTo(f, start, pos, seen)
      invariant Cursor(entries, skip) == Scan(examine, filter, seen)
      invariant !Full(filter, Cursor(entries, skip))
      decreases |f| - pos
    {
      var end := ReadLine(f, pos);
      var raw := f[pos..end];
      if |raw| >= MAX_LINE {
        ReadingEnds(f, start, pos, seen);
        return entries, true;
      }
      LineRead(f, start, pos, seen);
      var examined := examine(raw);
      pos := end + 1;
      OneMoreScanned(examine, filter, seen, raw, entries, skip);
      seen := seen + [raw];
      if examined.None? {
        continue;
      }
      if skip > 0 {
        skip := skip - 1;
        continue;
      }
      entries := entries + [examined.value];
      if filter.limit > 0 && |entries| >= filter.limit {
        FullScanStands(examine, filter, seen, Lines(f, pos));
        return entries, false;
      }
    }
    ReadingEnds(f, start, pos, seen);
  }

  /** What it returns is the page of the entries matching from there. */
  method ReadFrom(examine: Examiner, f: Bytes, start: nat, filter: Filter)
    returns (entries: seq<AuditEntry>, tooLong: bool)
    ensures entries == Page(filter, Matching(examine, Lines(f, start)))
    ensures tooLong <==> LinesEnd(f, start) < |f| && !Full(filter, Scan(examine, filter, Lines(f, start)))
  {
    entries, tooLong := ScanFrom(examine, f, start, filter);
    ScanIsPage(examine, filter, Lines(f, start));
  }

  function PendingSkip(filter: Filter, matched: nat): int {
    if filter.offset <= 0 then filter.offset else if matched < filter.offset then filter.offset - matched else 0
  }

  lemma {:induction false} MatchingConcat(examine: Examiner, a: seq<Bytes>, b: seq<Bytes>)
    ensures Matching(examine, a + b) == Matching(examine, a) + Matching(examine, b)
  {
    if b == [] {
      assert a + b == a;
    } else {
      var n := |b| - 1;
      MatchingConcat(examine, a, b[..n]);
      assert (a + b)[..|a| + n] == a + b[..n];
    }
  }

  /** One more match moves the skip or the page by one. */
  lemma {:induction false} PageGrows(filter: Filter, entries: seq<AuditEntry>, e: AuditEntry)
    requires filter.limit > 0 ==> |Page(filter, entries)| < filter.limit
    ensures Page(filter, entries + [e]) ==
              if PendingSkip(filter, |entries|) > 0 then [] else Page(filter, entries) + [e]
    ensures PendingSkip(filter, |entries|) > 0 ==> Page(filter, entries) == []
  {
  }

  /** A full page does not change. */
  lemma {:induction false} PageIsFull(filter: Filter, entries: seq<AuditEntry>, more: seq<AuditEntry>)
    requires filter.limit > 0 && |Page(filter, entries)| >= filter.limit
    ensures Page(filter, entries + more) == Page(filter, entries)
  {
  }

  // ------------------------------------------------------------------- the search

  /** The instant of the entry that starts at p. */
  function TimeAt(decode: Decoder, f: Bytes, p: nat): Option<int>
    requires p <= |f|
  {
    match decode(Line(f, p)) case None => None case Some(e) => e.time
  }

  /** A line as the logger writes it: not blank at either end, short enough for the
      scanner, and with a readable entry and time. */
  predicate Readable(decode: Decoder, line: Bytes, time: Option<int>) {
    line != [] && !IsSpace(line[0]) && !IsSpace(line[|line| - 1]) && |line| < MAX_LINE && time.Some?
  }

  /** Every line is readable, and their times do not decrease. */
  ghost predicate WellFormed(decode: Decoder, f: Bytes) {
    && (forall p: nat :: LineStart(f, p) && p < |f| ==> Readable(decode, Line(f, p), TimeAt(decode, f, p)))
    && (forall p: nat, q: nat :: LineStart(f, p) && LineStart(f, q) && p <= q < |f| ==> NotLater(decode, f, p, q))
  }

  predicate NotLater(decode: Decoder, f: Bytes, p: nat, q: nat)
    requires p <= |f| && q <= |f|
  {
    var t, u := TimeAt(decode, f, p), TimeAt(decode, f, q);
    t.Some? && u.Some? && t.value <= u.value
  }

  /** All entries that start before offset are earlier than target. */
  ghost predicate EarlierBefore(decode: Decoder, f: Bytes, offset: int, target: int) {
    forall p: nat :: LineStart(f, p) && p < offset && p < |f| ==>
      TimeAt(decode, f, p).Some? && TimeAt(decode, f, p).value < target
  }

  /** All entries that start behind the line end at or after hi are no earlier than target. */
  ghost predicate NotEarlierBehind(decode: Decoder, f: Bytes, hi: nat, target: int)
    requires hi <= |f|
  {
    forall p: nat :: LineStart(f, p) && LineEnd(f, hi) < p < |f| ==>
      TimeAt(decode, f, p).Some? && TimeAt(decode, f, p).value >= target
  }

  predicate StartOrPastEnd(f: Bytes, offset: nat) {
    LineStart(f, offset) || offset > |f|
  }

  /** The first loop of a round: past the next newline, or to the end. */
  method SkipToLineStart(f: Bytes, probe: nat) returns (mid: nat)
    requires probe <= |f|
    ensures probe <= mid <= |f| && (mid < |f| ==> LineStart(f, mid))
    ensures mid == if LineEnd(f, probe) < |f| then LineEnd(f, probe) + 1 else |f|
  {
    mid := probe;
    while mid < |f|
      invariant probe <= mid <= |f| && LineEnd(f, probe) == LineEnd(f, mid)
      decreases |f| - mid
    {
      if f[mid] == NEWLINE {
        mid := mid + 1;
        break;
      }
      mid := mid + 1;
    }
  }

  /** The second: the line's bytes, one read at a time. */
  method CollectLine(f: Bytes, at: nat) returns (lineBuf: Bytes, mid: nat)
    requires at <= |f|
    ensures lineBuf == Line(f, at) && mid == LineEnd(f, at)
  {
    lineBuf, mid := [], at;
    while mid < |f|
      invariant at <= mid <= |f| && lineBuf == f[at..mid]
      invariant LineEnd(f, at) == LineEnd(f, mid)
      decreases |f| - mid
    {
      if f[mid] == NEWLINE {
        break;
      }
      lineBuf := lineBuf + [f[mid]];
      mid := mid + 1;
    }
  }

  /** On a well-formed file lo is 0, a line start or past the end, with only earlier entries
      before it, and behind hi there is no earlier one. */
  ghost predicate Narrowed(decode: Decoder, f: Bytes, lo: nat, hi: nat, target: int) {
    && hi <= |f|
    && (WellFormed(decode, f) ==>
          StartOrPastEnd(f, lo) && EarlierBefore(decode, f, lo, target) && NotEarlierBehind(decode, f, hi, target))
  }

  /** Behind an early entry, everything before the next line is early too. */
  lemma {:induction false} EarlierUpTo(decode: Decoder, f: Bytes, at: nat, target: int)
    requires at < |f| && LineStart(f, at)
    requires WellFormed(decode, f) ==> TimeAt(decode, f, at) != None && TimeAt(decode, f, at).value < target
    ensures WellFormed(decode, f) ==>
              EarlierBefore(decode, f, LineEnd(f, at) + 1, target) && StartOrPastEnd(f, LineEnd(f, at) + 1)
  {
    if WellFormed(decode, f) {
      forall p: nat | LineStart(f, p) && p < LineEnd(f, at) + 1 && p < |f|
        ensures TimeAt(decode, f, p).Some? && TimeAt(decode, f, p).value < target
      {
        assert p <= at;
        assert NotLater(decode, f, p, at);
      }
    }
  }

  /** Behind a line that is not early no line is. */
  lemma {:induction false} LaterFrom(decode: Decoder, f: Bytes, hi: nat, at: nat, target: int)
    requires hi <= |f| && at == LineEnd(f, hi) + 1 && at < |f| && LineStart(f, at)
    requires WellFormed(decode, f) && TimeAt(decode, f, at) != None && TimeAt(decode, f, at).value >= target
    ensures NotEarlierBehind(decode, f, hi, target)
  {
    forall p: nat | LineStart(f, p) && LineEnd(f, hi) < p < |f|
      ensures TimeAt(decode, f, p).Some? && TimeAt(decode, f, p).value >= target
    {
      assert NotLater(decode, f, at, p);
    }
  }

  lemma {:induction false} BehindTheOffset(decode: Decoder, f: Bytes, lo: nat, hi: nat, target: int)
    requires WellFormed(decode, f) && hi <= lo && Narrowed(decode, f, lo, hi, target)
    ensures forall p: nat :: LineStart(f, p) && lo < p < |f| ==> TimeAt(decode, f, p).value >= target
  {
    forall p: nat | LineStart(f, p) && lo < p < |f|
      ensures LineEnd(f, hi) < p
    {
      assert f[p - 1] == NEWLINE;
    }
  }

  /** Where no line starts behind a probe, none is early behind it. */
  lemma {:induction false} NoLineNarrows(decode: Decoder, f: Bytes, lo: nat, hi: nat, probe: nat, target: int)
    requires Narrowed(decode, f, lo, hi, target) && probe <= |f| && LineEnd(f, probe) + 1 >= |f|
    ensures Narrowed(decode, f, lo, probe, target)
  {
  }

  /** The line read in a round narrows the search from the one side or the other. */
  lemma {:induction false} LineNarrows(decode: Decoder, f: Bytes, lo: nat, hi: nat, probe: nat, at: nat, target: int)
    requires Narrowed(decode, f, lo, hi, target) && probe <= |f|
    requires at == LineEnd(f, probe) + 1 && at < |f| && WellFormed(decode, f)
    ensures LineStart(f, at) && Readable(decode, Line(f, at), TimeAt(decode, f, at))
    ensures TimeAt(decode, f, at).value < target ==> Narrowed(decode, f, LineEnd(f, at) + 1, hi, target)
    ensures TimeAt(decode, f, at).value >= target ==> Narrowed(decode, f, lo, probe, target)
  {
    assert LineStart(f, at);
    if TimeAt(decode, f, at).value < target {
      EarlierUpTo(decode, f, at, target);
    } else {
      LaterFrom(decode, f, probe, at, target);
    }
  }

  /** One round: probe the middle, read the line behind it, and move lo or hi. */
  method SearchRound(decode: Decoder, f: Bytes, lo: nat, hi: nat, target: int) returns (low: nat, high: nat)
    requires lo < hi && Narrowed(decode, f, lo, hi, target)
    ensures Narrowed(decode, f, low, high, target)
    ensures (low == lo && high < hi) || (low > lo && high == hi)
  {
    low, high := lo, hi;
    var mid := SkipToLineStart(f, (lo + hi) / 2);
    if mid >= |f| {
      NoLineNarrows(decode, f, lo, hi, (lo + hi) / 2, target);
      high := (lo + hi) / 2;
      return;
    }
    ghost var at := mid;
    var lineBuf;
    lineBuf, mid := CollectLine(f, mid);
    if WellFormed(decode, f) {
      LineNarrows(decode, f, lo, hi, (lo + hi) / 2, at, target);
    }
    if |lineBuf| == 0 {
      low := (lo + hi) / 2 + 1;
      return;
    }
    var signed := decode(lineBuf);
    if signed.None? {
      low := mid + 1;
      return;
    }
    if signed.value.time.None? {
      low := mid + 1;
      return;
    }
    if signed.value.time.value < target {
      low := mid + 1;
    } else {
      high := (lo + hi) / 2;
    }
  }

  /** lo may pass hi, but hi - lo falls with every round. On a well-formed file the offset is
      at most one line early. */
  method FindStartOffsetByTime(decode: Decoder, f: Bytes, target: int) returns (offset: nat)
    ensures WellFormed(decode, f) ==> StartOrPastEnd(f, offset) && EarlierBefore(decode, f, offset, target)
    ensures WellFormed(decode, f) ==>
              forall p: nat :: LineStart(f, p) && offset < p < |f| ==> TimeAt(decode, f, p).value >= target
  {
    var lo: nat, hi: nat := 0, |f|;
    while lo < hi
      invariant Narrowed(decode, f, lo, hi, target)
      decreases hi - lo
    {
      lo, hi := SearchRound(decode, f, lo, hi, target);
    }
    offset := lo;
    if WellFormed(decode, f) {
      BehindTheOffset(decode, f, lo, hi, target);
    }
  }

  // --------------------------------------------------------- search against full scan

  lemma {:induction false} ReadableIsTrimmed(s: Bytes)
    requires s != [] && !IsSpace(s[0]) && !IsSpace(s[|s| - 1])
    ensures TrimSpace(s) == s
  {
  }

  /** An entry before the start time passes nothing on. */
  lemma {:induction false} EarlyLineIsDropped(decode: Decoder, f: Bytes, filter: Filter, p: nat)
    requires WellFormed(decode, f) && LineStart(f, p) && p < |f| && filter.since.Some?
    requires TimeAt(decode, f, p) != None && TimeAt(decode, f, p).value < filter.since.value
    ensures Examine(decode, filter, Line(f, p)) == None && |Line(f, p)| < MAX_LINE
  {
    assert Readable(decode, Line(f, p), TimeAt(decode, f, p));
    ReadableIsTrimmed(Line(f, p));
  }

  lemma {:induction false} NextStart(f: Bytes, p: nat, offset: nat)
    requires p < offset && p < |f| && StartOrPastEnd(f, offset)
    ensures StartOrPastEnd(f, LineEnd(f, p) + 1) && LineEnd(f, p) + 1 <= offset
  {
  }

  lemma {:induction false} DroppedLine(examine: Examiner, line: Bytes, rest: seq<Bytes>)
    requires examine(line) == None
    ensures Matching(examine, [line] + rest) == Matching(examine, rest)
  {
    MatchingConcat(examine, [line], rest);
    assert [line][..0] == [] && Matching(examine, []) == [];
    assert Matching(examine, [line]) == [];
  }

  /** A stretch of lines that pass nothing on may be left out. */
  lemma {:induction false} SilentLines(examine: Examiner, f: Bytes, p: nat, offset: nat)
    requires StartOrPastEnd(f, p) && StartOrPastEnd(f, offset) && p <= offset
    requires forall q: nat :: LineStart(f, q) && q < offset && q < |f| ==> IsSilent(examine, Line(f, q))
    ensures Matching(examine, Lines(f, p)) == Matching(examine, Lines(f, offset))
    decreases offset - p
  {
    if p < offset && p < |f| {
      NextStart(f, p, offset);
      SilentLines(examine, f, LineEnd(f, p) + 1, offset);
      assert IsSilent(examine, Line(f, p));
      DroppedLine(examine, Line(f, p), Lines(f, LineEnd(f, p) + 1));
    }
  }

  predicate IsSilent(examine: Examiner, line: Bytes) {
    examine(line) == None && |line| < MAX_LINE
  }

  /** Lines before a safe offset select nothing. */
  lemma {:induction false} SkippingIsSafe(decode: Decoder, f: Bytes, filter: Filter, p: nat, offset: nat)
    requires WellFormed(decode, f) && filter.since.Some?
    requires StartOrPastEnd(f, p) && StartOrPastEnd(f, offset) && p <= offset
    requires EarlierBefore(decode, f, offset, filter.since.value)
    ensures var examine := ExaminerOf(decode, filter);
            Matching(examine, Lines(f, p)) == Matching(examine, Lines(f, offset))
  {
    var examine := ExaminerOf(decode, filter);
    forall q: nat | LineStart(f, q) && q < offset && q < |f| ensures IsSilent(examine, Line(f, q)) {
      EarlyLineIsDropped(decode, f, filter, q);
    }
    SilentLines(examine, f, p, offset);
  }

  /** What is returned passes the filter. */
  lemma {:induction false} ReturnedPasses(decode: Decoder, filter: Filter, lines: seq<Bytes>, e: AuditEntry)
    requires e in Page(filter, Matching(ExaminerOf(decode, filter), lines))
    ensures Accepts(filter, e)
  {
    PageIsPart(filter, Matching(ExaminerOf(decode, filter), lines), e);
    MatchedExactly(ExaminerOf(decode, filter), lines, e);
    var k :| 0 <= k < |lines| && ExaminerOf(decode, filter)(lines[k]) == Some(e);
    PassedOnExactly(decode, filter, lines[k], e);
  }

  lemma {:induction false} PageIsPart(filter: Filter, entries: seq<AuditEntry>, e: AuditEntry)
    requires e in Page(filter, entries)
    ensures e in entries
  {
  }

  /** A well-formed file has no line that stops the scan. */
  lemma {:induction false} WellFormedIsReadThrough(decode: Decoder, f: Bytes, p: nat)
    requires WellFormed(decode, f) && StartOrPastEnd(f, p)
    ensures LinesEnd(f, p) >= |f|
    decreases |f| - p
  {
    if p < |f| {
      assert Readable(decode, Line(f, p), TimeAt(decode, f, p));
      WellFormedIsReadThrough(decode, f, LineEnd(f, p) + 1);
    }
  }

  /** ReadAuditEntries, ascending: the search chooses where to start, and the result is
      that of reading the file from its first byte, paging included. */
  method ReadAuditEntries(decode: Decoder, f: Bytes, filter: Filter) returns (entries: seq<AuditEntry>, tooLong: bool)
    ensures WellFormed(decode, f) ==> entries == Page(filter, Matching(ExaminerOf(decode, filter), Lines(f, 0)))
    ensures WellFormed(decode, f) ==> !tooLong
    ensures forall e :: e in entries ==> Accepts(filter, e)
  {
    var startOffset: nat := 0;
    if filter.since.Some? {
      startOffset := FindStartOffsetByTime(decode, f, filter.since.value);
      if WellFormed(decode, f) {
        SkippingIsSafe(decode, f, filter, 0, startOffset);
      }
    }
    if WellFormed(decode, f) {
      WellFormedIsReadThrough(decode, f, startOffset);
    }
    entries, tooLong := ReadFrom(ExaminerOf(decode, filter), f, startOffset, filter);
    forall e | e in entries ensures Accepts(filter, e) {
      ReturnedPasses(decode, filter, Lines(f, startOffset), e);
    }
  }
}
