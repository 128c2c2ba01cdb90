/** The chunk-by-chunk matcher against the meaning of its patterns. On ASCII names taking
    every chunk as early as it matches is right, unless a class holds a slash among other
    characters. On names with longer characters it is not: a star stops between bytes. */
module GlobMatching {
  import opened ByteStrings
  import opened Coverage
  import opened Utf8

  // ------------------------------------------------------- what a pattern consists of

  type Ranges = seq<(Rune, Rune)>

  datatype Class = Class(negated: bool, ranges: Ranges)

  datatype Element = Exactly(c: char) | NotSlash | OneOf(k: Class)

  predicate InRanges(ranges: Ranges, r: Rune) {
    exists i :: 0 <= i < |ranges| && ranges[i].0 <= r <= ranges[i].1
  }

  predicate Holds(k: Class, r: Rune) {
    InRanges(k.ranges, r) != k.negated
  }

  /** The element takes the beginning of a name: a literal one byte, any other a whole
      character. */
  predicate Takes(e: Element, s: string)
    requires s != ""
  {
    match e
    case Exactly(d) => s[0] == d
    case NotSlash => s[0] != '/'
    case OneOf(k) => Holds(k, Decode(s).0)
  }

  function Taking(e: Element, s: string): (n: nat)
    requires s != ""
    ensures 1 <= n <= |s|
  {
    if e.Exactly? then 1 else Decode(s).1
  }

  type Parsed = Option<(Ranges, string)>

  type Escaped = Option<(Rune, string)>

  /** A range from its low end, and its high end if a dash follows. */
  function RangeFrom(low: Escaped, high: Escaped): (res: Option<((Rune, Rune), string)>)
    requires low.Some? ==> low.value.1 != ""
  {
    match low
    case None => None
    case Some((lo, c)) =>
      if c[0] == '-' then
        match high
        case None => None
        case Some((hi, d)) => Some(((lo, hi), d))
      else Some(((lo, lo), c))
  }

  /** The high end behind a dash. */
  function HighEnd(low: Escaped): (high: Escaped)
    ensures low.Some? && high.Some? ==> 0 < |high.value.1| < |low.value.1|
  {
    if low.Some? && low.value.1 != "" then GetEsc(low.value.1[1..]) else None
  }

  /** One range of a class, and what follows. */
  function ReadRange(chunk: string): (res: Option<((Rune, Rune), string)>)
    ensures res.Some? ==> 0 < |res.value.1| < |chunk|
  {
    RangeFrom(GetEsc(chunk), HighEnd(GetEsc(chunk)))
  }

  function WithRange(range: (Rune, Rune), rest: Parsed): Parsed {
    match rest
    case None => None
    case Some((ranges, tail)) => Some(([range] + ranges, tail))
  }

  /** The ranges of a class up to its bracket, and what follows. */
  function ParseClass(chunk: string, first: bool): (res: Parsed)
    ensures res.Some? ==> |res.value.1| < |chunk|
    decreases |chunk|
  {
    if chunk != "" && chunk[0] == ']' && !first then Some(([], chunk[1..]))
    else
      match ReadRange(chunk)
      case None => None
      case Some((range, rest)) => WithRange(range, ParseClass(rest, false))
  }

  /** The first element of a pattern that does not begin with a star, and what follows; a
      malformed pattern has none. */
  function Head(p: string): (res: Option<(Element, string)>)
    requires p != "" && p[0] != '*'
    ensures res.Some? ==> |res.value.1| < |p|
  {
    if p[0] == '[' then
      var negated := |p| > 1 && p[1] == '^';
      match ParseClass(if negated then p[2..] else p[1..], true)
      case None => None
      case Some((ranges, rest)) => Some((OneOf(Class(negated, ranges)), rest))
    else if p[0] == '?' then Some((NotSlash, p[1..]))
    else if p[0] == '\\' then if |p| == 1 then None else Some((Exactly(p[1]), p[2..]))
    else Some((Exactly(p[0]), p[1..]))
  }

  /** What a pattern means: its elements take a byte or a character each, a star any number
      of characters but no slash. */
  predicate Glob(p: string, s: string)
    decreases |p| + |s|
  {
    if p == "" then s == ""
    else if p[0] == '*' then Glob(p[1..], s) || (s != "" && s[0] != '/' && Glob(p, s[Decode(s).1..]))
    else
      match Head(p)
      case None => false
      case Some((e, rest)) => s != "" && Takes(e, s) && Glob(rest, s[Taking(e, s)..])
  }

  const SLASH: Rune := '/' as int

  /** The class holds the slash and another ASCII character. */
  ghost predicate Mixed(k: Class) {
    Holds(k, SLASH) && exists r :: 0 <= r < 0x80 && r != SLASH && Holds(k, r)
  }

  ghost predicate MixedElement(e: Element) {
    e.OneOf? && Mixed(e.k)
  }

  /** Well-formed, and no class, plain or negated, is mixed. */
  ghost predicate Clean(p: string)
    decreases |p|
  {
    if p == "" then true
    else if p[0] == '*' then Clean(p[1..])
    else Head(p).Some? && !MixedElement(Head(p).value.0) && Clean(Head(p).value.1)
  }

  predicate SlashFree(s: string) {
    '/' !in s
  }

  // --------------------------------------------------------- reading the same class

  lemma {:induction false} MatchClassIsParsed(chunk: string, r: Rune, first: bool, matched: bool)
    ensures MatchClass(chunk, r, first, matched) ==
            match ParseClass(chunk, first)
            case None => None
            case Some((ranges, rest)) => Some((matched || InRanges(ranges, r), rest))
    decreases |chunk|
  {
    if !(chunk != "" && chunk[0] == ']' && !first) && ReadRange(chunk).Some? {
      var (range, rest) := ReadRange(chunk).value;
      MatchClassIsParsed(rest, r, false, matched || range.0 <= r <= range.1);
      if ParseClass(rest, false).Some? {
        OneMoreRange(range, ParseClass(rest, false), r);
      }
    }
  }

  lemma {:induction false} OneMoreRange(range: (Rune, Rune), rest: Parsed, r: Rune)
    requires rest.Some?
    ensures InRanges(WithRange(range, rest).value.0, r) <==> range.0 <= r <= range.1 || InRanges(rest.value.0, r)
  {
    var ranges := [range] + rest.value.0;
    if range.0 <= r <= range.1 {
      assert ranges[0].0 <= r <= ranges[0].1;
    }
    if InRanges(rest.value.0, r) {
      var i :| 0 <= i < |rest.value.0| && rest.value.0[i].0 <= r <= rest.value.0[i].1;
      assert ranges[i + 1] == rest.value.0[i];
    }
  }

  /** One element of a chunk takes its beginning of the name. */
  lemma {:induction false} ChunkStep(chunk: string, s: string)
    requires chunk != "" && chunk[0] != '*' && Head(chunk).Some?
    ensures var (e, rest) := Head(chunk).value;
            MatchChunk(chunk, s) == if s != "" && Takes(e, s) then MatchChunk(rest, s[Taking(e, s)..]) else None
  {
    if s != "" && chunk[0] == '[' {
      var negated := |chunk| > 1 && chunk[1] == '^';
      MatchClassIsParsed(if negated then chunk[2..] else chunk[1..], Decode(s).0, true, false);
    }
  }

  // ------------------------------------------------ an element reads no further ahead

  /** Where a class's character begins: behind its backslash, if it has one. */
  function EscStart(c: string): nat {
    if c != "" && c[0] == '\\' then 1 else 0
  }

  /** How many bytes of text an escaped character of a class is. */
  function EscWidth(c: string): nat {
    var k := EscStart(c);
    if k < |c| then k + Decode(c[k..]).1 else k
  }

  lemma {:induction false} EscParts(chunk: string)
    requires GetEsc(chunk).Some?
    ensures var k, w := EscStart(chunk), EscWidth(chunk);
            && k < w < |chunk| && BeginsWell(chunk[k..])
            && GetEsc(chunk) == Some((Decode(chunk[k..]).0, chunk[w..]))
            && chunk[0] != '-' && chunk[0] != ']'
  {
  }

  /** Dropping characters of the first of two texts leaves the second alone. */
  lemma {:induction false} DropWithin(u: string, v: string, k: nat)
    requires k <= |u|
    ensures (u + v)[k..] == u[k..] + v
    ensures k < |u| ==> (u + v)[k] == u[k]
  {
  }

  lemma {:induction false} DropTwice(s: string, a: nat, b: nat)
    requires a + b <= |s|
    ensures s[a..][b..] == s[a + b..]
  {
  }

  /** What follows a character of a class is the end of the text it was read from. */
  lemma {:induction false} EscTail(c: string) returns (k: nat)
    requires GetEsc(c).Some?
    ensures 0 < k < |c| && GetEsc(c).value.1 == c[k..]
  {
    EscParts(c);
    k := EscWidth(c);
  }

  lemma {:induction false} EscReadsNoFurther(u: string, v: string, w: string) returns (k: nat)
    requires GetEsc(u + v).Some? && |GetEsc(u + v).value.1| > |v|
    ensures 0 < k < |u| && GetEsc(u + v).value.1 == u[k..] + v
    ensures GetEsc(u + w) == Some((GetEsc(u + v).value.0, u[k..] + w))
  {
    EscParts(u + v);
    k := EscWidth(u + v);
    var start := EscStart(u + v);
    DropWithin(u, v, 0);
    DropWithin(u, w, 0);
    DropWithin(u, v, start);
    DropWithin(u, w, start);
    DropWithin(u, v, k);
    DropWithin(u, w, k);
    SameBeginning(u[start..], v, w, k - start);
    DropTwice(u, start, k - start);
    DropWithin(u[start..], w, k - start);
  }

  lemma {:induction false} SameBeginning(u: string, v: string, w: string, n: nat)
    requires 0 < n < |u| && BeginsWell(u + v) && Decode(u + v).1 == n
    ensures BeginsWell(u + w) && Decode(u + w) == Decode(u + v)
  {
    assert (u + v)[..n] == u[..n] == (u + w)[..n];
    DecodeReadsNoFurther(u + v, u + w);
  }

  lemma {:induction false} RangeReadsNoFurther(u: string, v: string, w: string) returns (n: nat)
    requires ReadRange(u + v).Some? && |ReadRange(u + v).value.1| > |v|
    ensures 0 < n < |u| && ReadRange(u + v).value.1 == u[n..] + v
    ensures ReadRange(u + w) == Some((ReadRange(u + v).value.0, u[n..] + w))
  {
    n := EscReadsNoFurther(u, v, w);
    DropWithin(u[n..], v, 0);
    DropWithin(u[n..], w, 0);
    if u[n] == '-' {
      DropWithin(u[n..], v, 1);
      DropWithin(u[n..], w, 1);
      DropTwice(u, n, 1);
      var m := EscReadsNoFurther(u[n + 1..], v, w);
      DropTwice(u, n + 1, m);
      n := n + 1 + m;
    }
  }

  lemma {:induction false} ClassReadsNoFurther(u: string, v: string, w: string, first: bool)
    requires ParseClass(u + v, first).Some? && ParseClass(u + v, first).value.1 == v
    ensures ParseClass(u + w, first) == Some((ParseClass(u + v, first).value.0, w))
    decreases |u|
  {
    var c := u + v;
    if c[0] == ']' && !first {
      assert |u| == 1 && (u + w)[0] == u[0] == c[0] && (u + w)[1..] == w;
    } else {
      var n := RangeReadsNoFurther(u, v, w);
      ClassReadsNoFurther(u[n..], v, w, false);
      assert (u + w)[0] == c[0];
    }
  }

  lemma {:induction false} RangeTail(c: string) returns (n: nat)
    requires ReadRange(c).Some?
    ensures 0 < n < |c| && ReadRange(c).value.1 == c[n..]
  {
    n := EscTail(c);
    if c[n] == '-' {
      DropTwice(c, n, 1);
      var m := EscTail(c[n + 1..]);
      DropTwice(c, n + 1, m);
      n := n + 1 + m;
    }
  }

  /** What follows a class is the end of the text it was read from. */
  lemma {:induction false} ClassTail(chunk: string, first: bool)
    requires ParseClass(chunk, first).Some?
    ensures var rest := ParseClass(chunk, first).value.1; rest == chunk[|chunk| - |rest|..]
    decreases |chunk|
  {
    if !(chunk[0] == ']' && !first) {
      var n := RangeTail(chunk);
      ClassTail(ReadRange(chunk).value.1, false);
    }
  }

  /** The text of a pattern's first element. */
  function HeadText(p: string): string
    requires p != "" && p[0] != '*' && Head(p).Some?
  {
    p[..|p| - |Head(p).value.1|]
  }

  lemma {:induction false} HeadParts(p: string)
    requires p != "" && p[0] != '*' && Head(p).Some?
    ensures HeadText(p) != "" && p == HeadText(p) + Head(p).value.1
  {
    if p[0] == '[' {
      var negated := |p| > 1 && p[1] == '^';
      ClassTail(if negated then p[2..] else p[1..], true);
    }
  }

  lemma {:induction false} HeadReadsNoFurther(u: string, v: string, w: string)
    requires u != "" && u[0] != '*' && Head(u + v).Some? && Head(u + v).value.1 == v
    ensures Head(u + w) == Some((Head(u + v).value.0, w))
  {
    var p := u + v;
    assert p[0] == u[0] == (u + w)[0];
    if u[0] == '[' {
      ClassTextReadsNoFurther(u, v, w);
    } else if u[0] == '\\' {
      assert |u| == 2 && p[1] == u[1] == (u + w)[1] && (u + w)[2..] == w;
    } else {
      assert |u| == 1 && (u + w)[1..] == w;
    }
  }

  lemma {:induction false} ClassTextReadsNoFurther(u: string, v: string, w: string)
    requires u != "" && u[0] == '[' && Head(u + v).Some? && Head(u + v).value.1 == v
    ensures Head(u + w) == Some((Head(u + v).value.0, w))
  {
    var p := u + v;
    assert |u| > 1;
    assert p[1] == u[1] == (u + w)[1];
    if u[1] == '^' {
      assert p[2..] == u[2..] + v && (u + w)[2..] == u[2..] + w;
      ClassReadsNoFurther(u[2..], v, w, true);
    } else {
      assert p[1..] == u[1..] + v && (u + w)[1..] == u[1..] + w;
      ClassReadsNoFurther(u[1..], v, w, true);
    }
  }

  // -------------------------------------------------------- where a chunk ends

  lemma {:induction false} ScanShift(p: string, i: nat, inRange: bool)
    requires i <= |p|
    ensures ScanEnd(p, i, inRange) == i + ScanEnd(p[i..], 0, inRange)
    decreases |p| - i
  {
    if i < |p| && !(p[i] == '*' && !inRange) {
      var next := if p[i] == '\\' && i + 1 < |p| then i + 2 else i + 1;
      var now := if p[i] == '[' then true else if p[i] == ']' then false else inRange;
      ScanShift(p, next, now);
      ScanShift(p[i..], next - i, now);
      assert p[i..][next - i..] == p[next..];
    }
  }

  /** Inside a class nothing but brackets and backslashes steers the scan. */
  lemma {:induction false} ScanPassesBytes(c: string, i: nat, n: nat)
    requires i <= n <= |c| && forall k :: i <= k < n ==> c[k] as int >= 0x80
    ensures ScanEnd(c, i, true) == ScanEnd(c, n, true)
    decreases n - i
  {
    if i < n {
      ScanPassesBytes(c, i + 1, n);
    }
  }

  lemma {:induction false} ScanPassesEsc(c: string)
    requires GetEsc(c).Some?
    ensures var rest := GetEsc(c).value.1; ScanEnd(c, 0, true) == |c| - |rest| + ScanEnd(rest, 0, true)
  {
    EscParts(c);
    var k, w := EscStart(c), EscWidth(c);
    ScanShift(c, w, true);
    assert forall j :: k <= j < w ==> c[j] == c[k..][j - k];
    assert c[k] == c[k..][0];
    ScanPassesBytes(c, k + 1, w);
  }

  lemma {:induction false} ScanPassesDash(d: string)
    requires d != "" && d[0] == '-'
    ensures ScanEnd(d, 0, true) == 1 + ScanEnd(d[1..], 0, true)
  {
    ScanShift(d, 1, true);
  }

  lemma {:induction false} ScanPassesRange(c: string)
    requires ReadRange(c).Some?
    ensures var rest := ReadRange(c).value.1; ScanEnd(c, 0, true) == |c| - |rest| + ScanEnd(rest, 0, true)
  {
    ScanPassesEsc(c);
    var d := GetEsc(c).value.1;
    if d[0] == '-' {
      ScanPassesDash(d);
      ScanPassesEsc(d[1..]);
    }
  }

  /** The scan leaves a class where its parser does. */
  lemma {:induction false} ScanPassesClass(c: string, first: bool)
    requires ParseClass(c, first).Some?
    ensures var rest := ParseClass(c, first).value.1; ScanEnd(c, 0, true) == |c| - |rest| + ScanEnd(rest, 0, false)
    decreases |c|
  {
    if c[0] == ']' && !first {
      ScanShift(c, 1, false);
    } else {
      ScanPassesRange(c);
      ScanPassesClass(ReadRange(c).value.1, false);
    }
  }

  lemma {:induction false} ScanPassesHead(p: string)
    requires p != "" && p[0] != '*' && Head(p).Some?
    ensures var rest := Head(p).value.1; ScanEnd(p, 0, false) == |p| - |rest| + ScanEnd(rest, 0, false)
  {
    if p[0] == '[' {
      ScanShift(p, 1, true);
      if |p| > 1 && p[1] == '^' {
        ScanShift(p[1..], 1, true);
        assert p[1..][1..] == p[2..];
        ScanPassesClass(p[2..], true);
      } else {
        ScanPassesClass(p[1..], true);
      }
    } else if p[0] == '\\' {
      ScanShift(p, 2, false);
    } else {
      ScanShift(p, 1, false);
    }
  }

  // -------------------------------------------------------------------- chunks

  ghost predicate IsChunk(p: string)
    decreases |p|
  {
    p != "" ==> p[0] != '*' && Head(p).Some? && !MixedElement(Head(p).value.0) && IsChunk(Head(p).value.1)
  }

  /** How many characters a chunk takes. */
  function Width(p: string): nat
    decreases |p|
  {
    if p == "" || p[0] == '*' || Head(p).None? then 0 else 1 + Width(Head(p).value.1)
  }

  /** In an ASCII name every element takes one byte, and what is left is ASCII. */
  lemma {:induction false} AsciiStep(s: string)
    requires s != "" && Ascii(s)
    ensures Decode(s) == (s[0] as int, 1) && Ascii(s[1..])
    ensures forall e: Element :: Taking(e, s) == 1
  {
  }

  /** A chunk grows by the element before it. */
  lemma {:induction false} ChunkGrows(p: string, end: nat)
    requires p != "" && p[0] != '*' && Head(p).Some? && !MixedElement(Head(p).value.0)
    requires end <= |Head(p).value.1| && IsChunk(Head(p).value.1[..end])
    ensures var n := |HeadText(p)| + end;
            n <= |p| && IsChunk(p[..n]) && p[n..] == Head(p).value.1[end..]
  {
    var u, rest := HeadText(p), Head(p).value.1;
    HeadParts(p);
    HeadReadsNoFurther(u, rest, rest[..end]);
    assert p[..|u| + end] == u + rest[..end];
    ChunkFrom(p[..|u| + end], Head(p).value.0, rest[..end]);
  }

  lemma {:induction false} ChunkFrom(p: string, e: Element, rest: string)
    requires p != "" && p[0] != '*' && Head(p) == Some((e, rest)) && !MixedElement(e) && IsChunk(rest)
    ensures IsChunk(p)
  {
  }

  /** A clean pattern is cut into a chunk and, if anything is left, a star. */
  lemma {:induction false} CleanIsCut(p: string)
    requires Clean(p)
    ensures var end := ScanEnd(p, 0, false);
            IsChunk(p[..end]) && Clean(p[end..]) && (p[end..] != "" ==> p[end..][0] == '*')
    decreases |p|
  {
    if p != "" && p[0] != '*' {
      ScanPassesHead(p);
      CleanIsCut(Head(p).value.1);
      ChunkGrows(p, ScanEnd(Head(p).value.1, 0, false));
    } else {
      assert p[0..] == p && p[..0] == "";
    }
  }

  lemma {:induction false} DropStarsKeepsClean(p: string)
    requires Clean(p)
    ensures Clean(DropStars(p))
    decreases |p|
  {
    if p != "" && p[0] == '*' {
      DropStarsKeepsClean(p[1..]);
    }
  }

  lemma {:induction false} ChunkLength(chunk: string, s: string)
    requires IsChunk(chunk) && Ascii(s)
    ensures MatchChunk(chunk, s).Some? ==> Width(chunk) <= |s| && MatchChunk(chunk, s).value == s[Width(chunk)..]
    decreases |chunk|
  {
    if chunk != "" {
      ChunkStep(chunk, s);
      if s != "" {
        AsciiStep(s);
        ChunkLength(Head(chunk).value.1, s[1..]);
        if Width(chunk) <= |s| {
          assert s[1..][Width(chunk) - 1..] == s[Width(chunk)..];
        }
      }
    }
  }

  /** What follows a chunk does not change its first element. */
  lemma {:induction false} HeadOfChunk(chunk: string, rest: string)
    requires chunk != "" && chunk[0] != '*' && Head(chunk).Some?
    ensures chunk + rest != "" && (chunk + rest)[0] == chunk[0]
    ensures Head(chunk + rest) == Some((Head(chunk).value.0, Head(chunk).value.1 + rest))
  {
    var u, tail := HeadText(chunk), Head(chunk).value.1;
    HeadParts(chunk);
    HeadReadsNoFurther(u, tail, tail + rest);
    assert chunk + rest == u + (tail + rest) by {
      ConcatAssociative(u, tail, rest);
    }
  }

  lemma {:induction false} GlobChunk(chunk: string, rest: string, s: string)
    requires IsChunk(chunk)
    ensures Glob(chunk + rest, s) <==> MatchChunk(chunk, s).Some? && Glob(rest, MatchChunk(chunk, s).value)
    decreases |chunk|
  {
    if chunk == "" {
      assert chunk + rest == rest;
    } else {
      HeadOfChunk(chunk, rest);
      ChunkStep(chunk, s);
      if s != "" {
        GlobChunk(Head(chunk).value.1, rest, s[Taking(Head(chunk).value.0, s)..]);
      }
    }
  }

  /** Of an element that is not mixed: what takes a character that is not a slash takes no
      slash. */
  lemma {:induction false} NotBoth(e: Element, s: string, t: string)
    requires !MixedElement(e) && s != "" && t != "" && Ascii(s) && Ascii(t)
    requires Takes(e, s) && Takes(e, t) && s[0] != '/'
    ensures t[0] != '/'
  {
    AsciiStep(s);
    AsciiStep(t);
    if e.OneOf? {
      assert Holds(e.k, s[0] as int) && Holds(e.k, t[0] as int);
    }
  }

  lemma {:induction false} HeadAtTwoPlaces(chunk: string, s: string, j: nat)
    requires IsChunk(chunk) && chunk != "" && Ascii(s) && MatchChunk(chunk, s).Some?
    requires 0 < j <= |s| && s[0] != '/' && MatchChunk(chunk, s[j..]).Some?
    ensures j < |s| && s[j] != '/' && s[1..][j..] == s[j..][1..]
    ensures MatchChunk(Head(chunk).value.1, s[1..]).Some? && MatchChunk(Head(chunk).value.1, s[j..][1..]).Some?
  {
    ChunkStep(chunk, s);
    ChunkStep(chunk, s[j..]);
    AsciiStep(s);
    AsciiStep(s[j..]);
    NotBoth(Head(chunk).value.0, s, s[j..]);
  }

  lemma {:induction false} OneMoreSlashFree(s: string, n: nat)
    requires n < |s|
    ensures SlashFree(s[..n + 1]) <==> s[0] != '/' && SlashFree(s[1..][..n])
    ensures SlashFree(s[..n + 1]) <==> SlashFree(s[..n]) && s[n] != '/'
  {
    assert s[..n + 1] == [s[0]] + s[1..][..n] && s[..n + 1] == s[..n] + [s[n]];
  }

  /** Two places of a chunk before the first slash: they are one place, or there is no
      slash in either. */
  lemma {:induction false} ChunkAtTwoPlaces(chunk: string, s: string, j: nat)
    requires IsChunk(chunk) && Ascii(s) && MatchChunk(chunk, s).Some?
    requires 0 < j <= |s| && SlashFree(s[..j]) && MatchChunk(chunk, s[j..]).Some?
    ensures Width(chunk) + j <= |s| && SlashFree(s[..Width(chunk) + j])
    decreases |chunk|
  {
    if chunk != "" {
      OneMoreSlashFree(s, j - 1);
      HeadAtTwoPlaces(chunk, s, j);
      OneMoreSlashFree(s, j);
      ChunkAtTwoPlaces(Head(chunk).value.1, s[1..], j);
      OneMoreSlashFree(s, Width(chunk) - 1 + j);
    }
  }

  // ---------------------------------------------------------------------- stars

  /** tail after a star: at the beginning, or past characters that are not slashes. */
  predicate StarThen(tail: string, s: string)
    decreases |s|
  {
    Glob(tail, s) || (s != "" && s[0] != '/' && StarThen(tail, s[Decode(s).1..]))
  }

  lemma {:induction false} StarsCollapse(p: string, s: string)
    requires p != "" && p[0] == '*'
    ensures Glob(p, s) <==> StarThen(DropStars(p), s)
    decreases |p| + |s|
  {
    if p[1..] != "" && p[1..][0] == '*' {
      StarsCollapse(p[1..], s);
    }
    if s != "" {
      StarsCollapse(p, s[Decode(s).1..]);
    }
  }

  lemma {:induction false} StarThenAt(tail: string, s: string) returns (j: nat)
    requires StarThen(tail, s) && Ascii(s)
    ensures j <= |s| && SlashFree(s[..j]) && Glob(tail, s[j..])
    decreases |s|
  {
    if Glob(tail, s) {
      j := 0;
      assert s[0..] == s;
    } else {
      AsciiStep(s);
      var k := StarThenAt(tail, s[1..]);
      j := k + 1;
      assert s[..j] == [s[0]] + s[1..][..k];
      assert s[j..] == s[1..][k..];
    }
  }

  /** A star absorbs what is not a slash. */
  lemma {:induction false} StarAbsorbs(p: string, s: string, d: nat)
    requires p != "" && p[0] == '*' && Ascii(s)
    requires d <= |s| && SlashFree(s[..d]) && Glob(p, s[d..])
    ensures Glob(p, s)
    decreases d
  {
    if d == 0 {
      assert s[0..] == s;
    } else {
      AsciiStep(s);
      assert s[0] == s[..d][0];
      assert s[1..][..d - 1] == s[..d][1..] && s[1..][d - 1..] == s[d..];
      StarAbsorbs(p, s[1..], d - 1);
    }
  }

  lemma {:induction false} StarAlone(s: string)
    requires Ascii(s)
    ensures StarThen("", s) <==> SlashFree(s)
    decreases |s|
  {
    if s != "" {
      AsciiStep(s);
      StarAlone(s[1..]);
      assert s == [s[0]] + s[1..];
    }
  }

  // --------------------------------------------------------------------- greed

  /** The place is taken: the chunk matches, to the end if it is the last. */
  predicate Taken(t: Option<string>, rest: string) {
    t.Some? && (t.value == "" || rest != "")
  }

  /** If the chunk can be taken at once, a later place is never needed. */
  lemma {:induction false} EarliestSuffices(chunk: string, rest: string, name: string)
    requires IsChunk(chunk) && (rest != "" ==> rest[0] == '*') && Ascii(name)
    requires Taken(MatchChunk(chunk, name), rest) && StarThen(chunk + rest, name)
    ensures Glob(rest, MatchChunk(chunk, name).value)
  {
    var j := StarThenAt(chunk + rest, name);
    GlobChunk(chunk, rest, name[j..]);
    ChunkLength(chunk, name);
    ChunkLength(chunk, name[j..]);
    var n := Width(chunk);
    assert name[j..][n..] == name[n + j..];
    if j == 0 {
      assert name[0..] == name;
    } else if rest != "" {
      ChunkAtTwoPlaces(chunk, name, j);
      assert name[n..][..j] == name[..n + j][n..];
      assert name[n..][j..] == name[n + j..];
      StarAbsorbs(rest, name[n..], j);
    }
  }

  lemma {:induction false} GreedIsRight(chunk: string, rest: string, name: string)
    requires IsChunk(chunk) && (rest != "" ==> rest[0] == '*') && Ascii(name)
    ensures StarThen(chunk + rest, name) <==>
            if Taken(MatchChunk(chunk, name), rest) then Glob(rest, MatchChunk(chunk, name).value)
            else SkipMatch(chunk, name, rest == "").Some? && Glob(rest, SkipMatch(chunk, name, rest == "").value)
    decreases |name|
  {
    GlobChunk(chunk, rest, name);
    if Taken(MatchChunk(chunk, name), rest) {
      if StarThen(chunk + rest, name) {
        EarliestSuffices(chunk, rest, name);
      }
    } else if name != "" && name[0] != '/' {
      AsciiStep(name);
      GreedIsRight(chunk, rest, name[1..]);
    }
  }

  lemma {:induction false} RestIsAscii(chunk: string, name: string, last: bool)
    requires IsChunk(chunk) && Ascii(name)
    ensures MatchChunk(chunk, name).Some? ==> Ascii(MatchChunk(chunk, name).value)
    ensures SkipMatch(chunk, name, last).Some? ==> Ascii(SkipMatch(chunk, name, last).value)
    decreases |name|
  {
    ChunkLength(chunk, name);
    if name != "" {
      RestIsAscii(chunk, name[1..], last);
    }
  }

  /** The matcher decides exactly what its patterns mean, for every ASCII name and every
      well-formed pattern without a mixed class. */
  lemma {:induction false} MatchIsGlob(p: string, name: string)
    requires Clean(p) && Ascii(name)
    ensures Match(p, name) <==> Glob(p, name)
    decreases |p|
  {
    if p != "" {
      var tail := DropStars(p);
      var end := ScanEnd(tail, 0, false);
      var chunk, rest := tail[..end], tail[end..];
      DropStarsKeepsClean(p);
      CleanIsCut(tail);
      ScanAdvances(tail);
      assert tail == chunk + rest;
      var t := MatchChunk(chunk, name);
      GlobChunk(chunk, rest, name);
      RestIsAscii(chunk, name, rest == "");
      if p[0] == '*' {
        StarsCollapse(p, name);
        StarAlone(name);
        if chunk != "" {
          GreedIsRight(chunk, rest, name);
          if Taken(t, rest) {
            MatchIsGlob(rest, t.value);
          } else if SkipMatch(chunk, name, rest == "").Some? {
            MatchIsGlob(rest, SkipMatch(chunk, name, rest == "").value);
          }
        }
      } else if Taken(t, rest) {
        MatchIsGlob(rest, t.value);
      }
    }
  }

  /** So a capability is covered by an ancestor exactly when it is the ancestor, matches
      its pattern, continues its prefix up to ":*", or lies on a path below it. */
  lemma {:induction false} CoveredExactly(leaf: string, ancestor: string)
    requires Clean(ancestor) && Ascii(leaf)
    ensures Covered(leaf, ancestor) <==>
            || leaf == ancestor || ancestor == "*" || Glob(ancestor, leaf)
            || (|ancestor| >= 2 && ancestor[|ancestor| - 2..] == ":*" && ancestor[..|ancestor| - 1] <= leaf)
            || ('*' !in ancestor && ancestor + ":" <= leaf)
  {
    MatchIsGlob(ancestor, leaf);
  }

  /** Patterns without brackets and escapes are clean. */
  lemma {:induction false} PlainIsClean(p: string)
    requires NoBrackets(p)
    ensures Clean(p)
    decreases |p|
  {
    if p != "" {
      assert p[0] != '[' && p[0] != '\\';
      PlainIsClean(p[1..]);
    }
  }

  // -------------------------------------------------------------- mixed classes

  /** The text of one class, from bracket to bracket. */
  predicate IsClassText(text: string) {
    text != "" && text[0] == '[' && Head(text).Some? && Head(text).value.1 == ""
  }

  lemma {:induction false} StarX(name: string)
    ensures name == "x" ==> Match("*x", name) && Glob("*x", name)
    ensures name == "/x" ==> !Match("*x", name)
  {
    assert "*x"[1..] == "x" && "x"[1..] == "" && "/x"[1..] == "x";
    PlainIsClean("*x");
    if name == "x" || name == "/x" {
      MatchIsGlob("*x", name);
    }
  }

  lemma {:induction false} ClassThen(text: string, rest: string)
    requires IsClassText(text)
    ensures text + rest != "" && (text + rest)[0] == '['
    ensures Head(text + rest) == Some((Head(text).value.0, rest))
    ensures ScanEnd(text + rest, 0, false) == |text| + ScanEnd(rest, 0, false)
  {
    assert text + "" == text;
    HeadReadsNoFurther(text, "", rest);
    ScanPassesHead(text + rest);
  }

  /** For every mixed class greed is wrong: behind a star and two such classes there is a
      name that the pattern means and the matcher refuses. */
  lemma {:induction false} GreedMissesWithMixedClass(text: string, c: char)
    requires IsClassText(text) && (c as int) < 0x80 && c != '/'
    requires var k := Head(text).value.0.k; Holds(k, c as int) && Holds(k, SLASH)
    ensures Glob("*" + (text + (text + "*x")), [c] + "//x") && !Match("*" + (text + (text + "*x")), [c] + "//x")
  {
    TwiceMeans(text, c);
    TwiceRefused(text, c);
  }

  lemma {:induction false} TwiceMeans(text: string, c: char)
    requires IsClassText(text) && (c as int) < 0x80 && c != '/' && Holds(Head(text).value.0.k, SLASH)
    ensures Glob("*" + (text + (text + "*x")), [c] + "//x")
  {
    var tail, name := text + (text + "*x"), [c] + "//x";
    ClassThen(text, text + "*x");
    ClassThen(text, "*x");
    assert ("*" + tail)[0] == '*' && ("*" + tail)[1..] == tail;
    assert name[1..] == "//x" && "//x"[1..] == "/x" && "/x"[1..] == "x";
    StarX("x");
    assert Glob(text + "*x", "/x") && Glob(tail, "//x") && Glob("*" + tail, "//x");
  }

  lemma {:induction false} TwiceCut(text: string)
    requires IsClassText(text)
    ensures var tail := text + (text + "*x");
            && ScanEnd(tail, 0, false) == 2 * |text|
            && tail[..2 * |text|] == text + (text + "") && tail[2 * |text|..] == "*x"
  {
    ClassThen(text, text + "*x");
    ClassThen(text, "*x");
  }

  lemma {:induction false} TwiceTakes(text: string, c: char)
    requires IsClassText(text) && (c as int) < 0x80
    requires var k := Head(text).value.0.k; Holds(k, c as int) && Holds(k, SLASH)
    ensures MatchChunk(text + (text + ""), [c] + "//x") == Some("/x")
  {
    var name := [c] + "//x";
    ClassThen(text, text + "");
    ClassThen(text, "");
    assert name[1..] == "//x" && "//x"[1..] == "/x";
    ChunkStep(text + (text + ""), name);
    ChunkStep(text + "", "//x");
  }

  lemma {:induction false} TwiceRefused(text: string, c: char)
    requires IsClassText(text) && (c as int) < 0x80
    requires var k := Head(text).value.0.k; Holds(k, c as int) && Holds(k, SLASH)
    ensures !Match("*" + (text + (text + "*x")), [c] + "//x")
  {
    var tail := text + (text + "*x");
    var p := "*" + tail;
    TwiceCut(text);
    TwiceTakes(text, c);
    assert p[0] == '*' && p[1..] == tail && tail[0] == '[' && DropStars(p) == tail;
    StarX("/x");
  }

  /** A negated class is mixed exactly when it names neither the slash nor some other ASCII
      character. */
  lemma {:induction false} NegatedClassIsMixed(ranges: Ranges)
    ensures Mixed(Class(true, ranges)) <==>
            !InRanges(ranges, SLASH) && exists r :: 0 <= r < 0x80 && r != SLASH && !InRanges(ranges, r)
  {
    var k := Class(true, ranges);
    assert forall r :: Holds(k, r) <==> !InRanges(ranges, r);
  }

  /** "[^b]" is such a class. */
  lemma {:induction false} NegatedLetterIsMixed()
    ensures IsClassText("[^b]") && Mixed(Head("[^b]").value.0.k)
  {
    var p := "[^b]";
    assert p[2..] == "b]" && "b]"[1..] == "]" && "]"[1..] == "";
    assert GetEsc("b]") == Some(('b' as int, "]"));
    assert ParseClass("b]", true) == Some(([('b' as int, 'b' as int)] + [], ""));
    assert p[0] == '[' && p[1] == '^' && [('b' as int, 'b' as int)] + [] == [('b' as int, 'b' as int)];
    var k := Class(true, [('b' as int, 'b' as int)]);
    assert Head(p) == Some((OneOf(k), ""));
    assert Holds(k, SLASH) && Holds(k, 'a' as int);
  }

  // --------------------------------------------------- characters of several bytes

  /** Text as a pattern of its own, every byte escaped. */
  function Literally(s: string): (p: string)
    ensures s != "" ==> p != "" && p[0] == '\\'
  {
    if s == "" then "" else ['\\', s[0]] + Literally(s[1..])
  }

  lemma {:induction false} LiteralHead(s: string)
    requires s != ""
    ensures Head(Literally(s)) == Some((Exactly(s[0]), Literally(s[1..])))
  {
    assert Literally(s)[2..] == Literally(s[1..]);
  }

  lemma {:induction false} LiteralIsChunk(s: string)
    ensures IsChunk(Literally(s))
    decreases |s|
  {
    if s != "" {
      LiteralHead(s);
      LiteralIsChunk(s[1..]);
    }
  }

  lemma {:induction false} LiteralMatches(s: string, name: string)
    ensures MatchChunk(Literally(s), name) == if s <= name then Some(name[|s|..]) else None
    decreases |s|
  {
    if s == "" {
      assert name[0..] == name;
    } else {
      LiteralHead(s);
      ChunkStep(Literally(s), name);
      if name != "" {
        LiteralMatches(s[1..], name[1..]);
        if s[0] == name[0] && s[1..] <= name[1..] {
          assert s == [s[0]] + s[1..] && name == [name[0]] + name[1..];
          assert name[1..][|s| - 1..] == name[|s|..];
        }
      }
    }
  }

  lemma {:induction false} ChunkThenMatches(chunk: string, rest: string, s: string)
    requires IsChunk(chunk)
    ensures MatchChunk(chunk + rest, s) ==
            if MatchChunk(chunk, s).Some? then MatchChunk(rest, MatchChunk(chunk, s).value) else None
    decreases |chunk|
  {
    if chunk == "" {
      assert chunk + rest == rest;
    } else {
      HeadOfChunk(chunk, rest);
      ChunkStep(chunk, s);
      ChunkStep(chunk + rest, s);
      if s != "" {
        ChunkThenMatches(Head(chunk).value.1, rest, s[Taking(Head(chunk).value.0, s)..]);
      }
    }
  }

  lemma {:induction false} ChunkThen(chunk: string, rest: string)
    requires IsChunk(chunk)
    ensures ScanEnd(chunk + rest, 0, false) == |chunk| + ScanEnd(rest, 0, false)
    ensures Clean(rest) ==> Clean(chunk + rest)
    decreases |chunk|
  {
    if chunk == "" {
      assert chunk + rest == rest;
    } else {
      HeadOfChunk(chunk, rest);
      ScanPassesHead(chunk + rest);
      ChunkThen(Head(chunk).value.1, rest);
    }
  }

  lemma {:induction false} CleanChunk(chunk: string)
    requires IsChunk(chunk)
    ensures Clean(chunk)
    decreases |chunk|
  {
    if chunk != "" {
      CleanChunk(Head(chunk).value.1);
    }
  }

  lemma {:induction false} ChunksJoin(a: string, b: string)
    requires IsChunk(a) && IsChunk(b)
    ensures IsChunk(a + b)
    decreases |a|
  {
    if a == "" {
      assert a + b == b;
    } else {
      HeadOfChunk(a, b);
      ChunksJoin(Head(a).value.1, b);
      ChunkFrom(a + b, Head(a).value.0, Head(a).value.1 + b);
    }
  }

  lemma {:induction false} ChunkTakes(chunk: string, s: string)
    requires IsChunk(chunk) && MatchChunk(chunk, s).Some?
    ensures |MatchChunk(chunk, s).value| <= |s|
    ensures chunk != "" ==> |MatchChunk(chunk, s).value| < |s|
    decreases |chunk|
  {
    if chunk != "" {
      ChunkStep(chunk, s);
      ChunkTakes(Head(chunk).value.1, s[Taking(Head(chunk).value.0, s)..]);
    }
  }

  /** A literal beginning is matched off by itself. */
  lemma {:induction false} LiteralThenStar(u: string, q: string, s: string)
    requires q != "" && q[0] == '*'
    ensures Match(Literally(u) + q, u + s) <==> Match(q, s)
    ensures Glob(Literally(u) + q, u + s) <==> Glob(q, s)
    ensures Clean(q) ==> Clean(Literally(u) + q)
  {
    var chunk := Literally(u);
    var p := chunk + q;
    LiteralIsChunk(u);
    LiteralMatches(u, u + s);
    assert (u + s)[|u|..] == s;
    GlobChunk(chunk, q, u + s);
    ChunkThen(chunk, q);
    if u == "" {
      assert p == q && u + s == s;
    } else {
      assert p[..|chunk|] == chunk && p[|chunk|..] == q;
    }
  }

  lemma {:induction false} SkipFinds(chunk: string, name: string, i: nat)
    requires i < |name| && SlashFree(name[..i + 1]) && MatchChunk(chunk, name[i + 1..]) == Some("")
    ensures SkipMatch(chunk, name, true) == Some("")
    decreases i
  {
    OneMoreSlashFree(name, i);
    if i > 0 {
      assert name[1..][i..] == name[i + 1..];
      SkipFinds(chunk, name[1..], i - 1);
    }
  }

  /** A star and a chunk that comes to the name's end from some place are matched. */
  lemma {:induction false} StarReachesEnd(chunk: string, name: string, i: nat)
    requires IsChunk(chunk) && chunk != ""
    requires i < |name| && SlashFree(name[..i + 1]) && MatchChunk(chunk, name[i + 1..]) == Some("")
    ensures Match("*" + chunk, name)
  {
    var p := "*" + chunk;
    assert p[1..] == chunk && DropStars(p) == chunk && chunk + "" == chunk;
    ChunkThen(chunk, "");
    assert chunk[..|chunk|] == chunk && chunk[|chunk|..] == "";
    SkipFinds(chunk, name, i);
  }

  /** An element and a text do not fit into as many bytes as the text has. */
  lemma {:induction false} NoRoom(tail: string, v: string, s: string)
    requires IsChunk(tail)
    requires MatchChunk(tail, s).Some? ==> |MatchChunk(tail, s).value| < |v|
    ensures !Glob(tail + Literally(v), s)
  {
    LiteralIsChunk(v);
    GlobChunk(tail, Literally(v), s);
    if MatchChunk(tail, s).Some? {
      var t := MatchChunk(tail, s).value;
      LiteralMatches(v, t);
      assert Literally(v) + "" == Literally(v);
      GlobChunk(Literally(v), "", t);
    }
  }

  lemma {:induction false} NoRoomLater(tail: string, v: string, s: string)
    requires IsChunk(tail) && tail != "" && |s| <= |v|
    ensures !StarThen(tail + Literally(v), s)
    decreases |s|
  {
    if MatchChunk(tail, s).Some? {
      ChunkTakes(tail, s);
    }
    NoRoom(tail, v, s);
    if s != "" {
      NoRoomLater(tail, v, s[Decode(s).1..]);
    }
  }

  /** A chunk that takes the character as a whole with something of the text behind it, or
      not at all, but takes its last bytes alone. */
  ghost predicate TakesTheEnd(tail: string, c: string, i: nat, v: string) {
    && IsChunk(tail) && tail != ""
    && IsMultiByte(c) && i + 1 < |c|
    && (MatchChunk(tail, c + v).Some? ==> |MatchChunk(tail, c + v).value| < |v|)
    && MatchChunk(tail, (c + v)[i + 1..]) == Some(v)
  }

  lemma {:induction false} WholeIsRead(c: string, v: string)
    requires IsMultiByte(c)
    ensures c + v != "" && Decode(c + v) == Decode(c) && (c + v)[|c|..] == v && SlashFree(c)
  {
    assert (c + v)[..|c|] == c[..|c|];
    DecodeReadsNoFurther(c, c + v);
  }

  lemma {:induction false} BehindStarMisled(tail: string, c: string, i: nat, v: string)
    requires TakesTheEnd(tail, c, i, v)
    ensures var p := "*" + (tail + Literally(v)); Clean(p) && Match(p, c + v) && !Glob(p, c + v)
  {
    var chunk := tail + Literally(v);
    var p := "*" + chunk;
    assert p[1..] == chunk;
    LiteralIsChunk(v);
    ChunksJoin(tail, Literally(v));
    CleanChunk(chunk);
    ChunkThenMatches(tail, Literally(v), (c + v)[i + 1..]);
    LiteralMatches(v, v);
    assert v[|v|..] == "";
    WholeIsRead(c, v);
    assert SlashFree((c + v)[..i + 1]) by { assert (c + v)[..i + 1] == c[..i + 1]; }
    StarReachesEnd(chunk, c + v, i);
    StarsCollapse(p, c + v);
    NoRoom(tail, v, c + v);
    NoRoomLater(tail, v, v);
  }

  /** The class of everything but the slash and one character. */
  function AllBut(c: string): string {
    "[^/" + c + "]"
  }

  lemma {:induction false} AllButIsClass(c: string)
    requires IsMultiByte(c)
    ensures IsClassText(AllBut(c))
    ensures Head(AllBut(c)).value.0 == OneOf(Class(true, [(SLASH, SLASH), (Decode(c).0, Decode(c).0)]))
  {
    var r, p := Decode(c).0, AllBut(c);
    var body, rest := "/" + (c + "]"), c + "]";
    assert p[0] == '[' && p[1] == '^' && p[2..] == body;
    assert body[1..] == rest && GetEsc(body) == Some((SLASH, rest));
    assert rest[..|c|] == c[..|c|];
    DecodeReadsNoFurther(c, rest);
    assert rest[|c|..] == "]" && GetEsc(rest) == Some((r, "]"));
    assert "]"[1..] == "";
    assert ParseClass(rest, false) == Some(([(r, r)] + [], ""));
    assert [(r, r)] + [] == [(r, r)] && [(SLASH, SLASH)] + [(r, r)] == [(SLASH, SLASH), (r, r)];
  }

  /** The class that excludes a character does not take it, but takes its last byte. */
  lemma {:induction false} ClassTakesTheEnd(c: string, v: string)
    requires IsMultiByte(c) && Decode(c).0 != RUNE_ERROR
    ensures TakesTheEnd(AllBut(c), c, |c| - 2, v)
  {
    var tail, r, last := AllBut(c), Decode(c).0, (c + v)[|c| - 1..];
    var k := Class(true, [(SLASH, SLASH), (r, r)]);
    AllButIsClass(c);
    assert k.ranges[0] == (SLASH, SLASH) && k.ranges[1] == (r, r);
    assert !Holds(k, SLASH) && !Holds(k, r) && Holds(k, RUNE_ERROR);
    WholeIsRead(c, v);
    InsideIsInvalid(c, |c| - 1, last);
    ChunkStep(tail, c + v);
    ChunkStep(tail, last);
    assert last[1..] == v;
  }

  lemma {:induction false} TwoMarks(s: string)
    ensures MatchChunk("??", s) ==
            if s == "" || s[0] == '/' then None
            else var t := s[Decode(s).1..]; if t == "" || t[0] == '/' then None else Some(t[Decode(t).1..])
  {
    assert "??"[1..] == "?" && "?"[1..] == "";
  }

  /** Two question marks take the last two bytes of three. */
  lemma {:induction false} MarksTakeTheEnd(c: string, v: string)
    requires IsMultiByte(c) && |c| > 2
    ensures TakesTheEnd("??", c, |c| - 3, v)
  {
    var two, one := (c + v)[|c| - 2..], (c + v)[|c| - 1..];
    MarksAreChunk();
    TwoMarks(c + v);
    TwoMarks(two);
    WholeIsRead(c, v);
    InsideIsInvalid(c, |c| - 2, two);
    InsideIsInvalid(c, |c| - 1, one);
    assert two[1..] == one && one[1..] == v;
  }

  lemma {:induction false} MarksAreChunk()
    ensures IsChunk("??")
  {
    assert "??"[1..] == "?" && "?"[1..] == "";
  }

  /** Wherever a name has a character of several bytes, some clean pattern matches the name
      and does not mean it. */
  lemma {:induction false} LongCharacterMisleads(u: string, c: string, v: string) returns (p: string)
    requires IsMultiByte(c)
    ensures Clean(p) && Match(p, u + (c + v)) && !Glob(p, u + (c + v))
  {
    var tail, i;
    if Decode(c).0 != RUNE_ERROR {
      tail, i := AllBut(c), |c| - 2;
      ClassTakesTheEnd(c, v);
    } else {
      tail, i := "??", |c| - 3;
      MarksTakeTheEnd(c, v);
    }
    BehindStarMisled(tail, c, i, v);
    p := Literally(u) + ("*" + (tail + Literally(v)));
    LiteralThenStar(u, "*" + (tail + Literally(v)), c + v);
  }

  /** So of the names in valid UTF-8 the matcher is right, for every clean pattern, exactly
      about those in ASCII. */
  lemma {:induction false} RightExactlyAboutAscii(name: string)
    requires ValidUtf8(name)
    ensures Ascii(name) <==> forall p :: Clean(p) ==> (Match(p, name) <==> Glob(p, name))
  {
    if Ascii(name) {
      forall p | Clean(p) ensures Match(p, name) <==> Glob(p, name) {
        MatchIsGlob(p, name);
      }
    } else {
      var i, n := FindMultiByte(name);
      var u, c, v := name[..i], name[i..i + n], name[i + n..];
      assert name == u + (c + v);
      var p := LongCharacterMisleads(u, c, v);
    }
  }

  /** "*??" matches every single character of three or four bytes. */
  lemma {:induction false} MarksCountBytes(c: string)
    requires IsMultiByte(c) && |c| > 2
    ensures Clean("*??") && Match("*??", c) && !Glob("*??", c)
  {
    MarksTakeTheEnd(c, "");
    BehindStarMisled("??", c, |c| - 3, "");
    assert "*" + ("??" + Literally("")) == "*??" && c + "" == c;
  }
}
