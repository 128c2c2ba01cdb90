/** Which capability covers which: path patterns with Go's filepath.Match, trailing ":*"
    prefixes, and plain path prefixes. Ids and patterns are strings of bytes; "?" and
    classes read whole characters of them. */
module Coverage {
  import opened ByteStrings
  import opened Utf8

  // ------------------------------------------------------------- filepath.Match

  /** Where the chunk that starts at i ends: at a star outside brackets, or the end. */
  function ScanEnd(p: string, i: nat, inRange: bool): (end: nat)
    requires i <= |p|
    ensures i <= end <= |p|
    decreases |p| - i
  {
    if i == |p| then i
    else if p[i] == '\\' then ScanEnd(p, if i + 1 < |p| then i + 2 else i + 1, inRange)
    else if p[i] == '[' then ScanEnd(p, i + 1, true)
    else if p[i] == ']' then ScanEnd(p, i + 1, false)
    else if p[i] == '*' && !inRange then i
    else ScanEnd(p, i + 1, inRange)
  }

  function DropStars(p: string): (rest: string)
    ensures |rest| <= |p| && (rest != "" ==> rest[0] != '*')
    ensures |rest| < |p| <==> p != "" && p[0] == '*'
  {
    if p != "" && p[0] == '*' then DropStars(p[1..]) else p
  }

  /** One possibly escaped character of a class, and what follows it. */
  function GetEsc(chunk: string): (r: Option<(Rune, string)>)
    ensures r.Some? ==> 0 < |r.value.1| < |chunk|
  {
    if chunk == "" || chunk[0] == '-' || chunk[0] == ']' then None
    else
      var c := if chunk[0] == '\\' then chunk[1..] else chunk;
      if c == "" || !BeginsWell(c) then None
      else
        var (r, n) := Decode(c);
        if |c| == n then None else Some((r, c[n..]))
  }

  /** What stands for a character of a class: its encoding, behind a backslash or else not
      beginning with a dash, a bracket that closes or a backslash; and something must follow. */
  predicate StandsFor(chunk: string, r: Rune, rest: string) {
    && IsCharacter(r) && rest != ""
    && (chunk == "\\" + (Encode(r) + rest) || (chunk == Encode(r) + rest && Encode(r)[0] !in {'-', ']', '\\'}))
  }

  lemma {:induction false} ReadStandsFor(c: string, r: Rune, rest: string)
    requires c != "" && BeginsWell(c) && Decode(c).0 == r && c[Decode(c).1..] == rest
    ensures IsCharacter(r) && c == Encode(r) + rest && Encode(r)[0] == c[0]
  {
    ReadIsEncoded(c);
    assert c == c[..Decode(c).1] + c[Decode(c).1..];
  }

  lemma {:induction false} StandsForIsRead(chunk: string, r: Rune, rest: string)
    requires StandsFor(chunk, r, rest)
    ensures GetEsc(chunk) == Some((r, rest))
  {
    var c := Encode(r) + rest;
    if chunk != c {
      assert chunk[0] == '\\' && chunk[1..] == c;
    }
    EncodedIsRead(r, c);
    assert c[0] == Encode(r)[0] && c[|Encode(r)|..] == rest;
  }

  lemma {:induction false} EscExactly(chunk: string, r: Rune, rest: string)
    ensures GetEsc(chunk) == Some((r, rest)) <==> StandsFor(chunk, r, rest)
  {
    if GetEsc(chunk) == Some((r, rest)) {
      if chunk[0] == '\\' {
        ReadStandsFor(chunk[1..], r, rest);
        assert chunk == "\\" + chunk[1..];
      } else {
        ReadStandsFor(chunk, r, rest);
      }
    }
    if StandsFor(chunk, r, rest) {
      StandsForIsRead(chunk, r, rest);
    }
  }

  /** The ranges of a class: whether one holds r, and what follows the bracket. */
  function MatchClass(chunk: string, r: Rune, first: bool, matched: bool): (res: Option<(bool, string)>)
    ensures res.Some? ==> |res.value.1| < |chunk|
    decreases |chunk|
  {
    if chunk != "" && chunk[0] == ']' && !first then Some((matched, chunk[1..]))
    else
      match GetEsc(chunk)
      case None => None
      case Some((lo, c)) =>
        if c[0] == '-' then
          match GetEsc(c[1..])
          case None => None
          case Some((hi, d)) => MatchClass(d, r, false, matched || lo <= r <= hi)
        else MatchClass(c, r, false, matched || r == lo)
  }

  /** The rest of s after a chunk without stars; None if it does not match, or is
      malformed. */
  function MatchChunk(chunk: string, s: string): Option<string>
    decreases |chunk|
  {
    if chunk == "" then Some(s)
    else if s == "" then None
    else if chunk[0] == '[' then
      var negated := |chunk| > 1 && chunk[1] == '^';
      var (r, n) := Decode(s);
      match MatchClass(if negated then chunk[2..] else chunk[1..], r, true, false)
      case None => None
      case Some((matched, rest)) => if matched == negated then None else MatchChunk(rest, s[n..])
    else if chunk[0] == '?' then if s[0] == '/' then None else MatchChunk(chunk[1..], s[Decode(s).1..])
    else if chunk[0] == '\\' then
      if |chunk| == 1 || chunk[1] != s[0] then None else MatchChunk(chunk[2..], s[1..])
    else if chunk[0] != s[0] then None
    else MatchChunk(chunk[1..], s[1..])
  }

  /** A star before the chunk: skips one byte or more, never a slash, to the first
      place where the chunk matches (for the last chunk, to the end of the name). */
  function SkipMatch(chunk: string, name: string, last: bool): Option<string> {
    if name == "" || name[0] == '/' then None
    else
      var t := MatchChunk(chunk, name[1..]);
      if t.Some? && !(last && t.value != "") then t else SkipMatch(chunk, name[1..], last)
  }

  /** A well-formed pattern matches chunk by chunk, each as early as it can. */
  function Match(pattern: string, name: string): bool
    decreases |pattern|
  {
    if pattern == "" then name == ""
    else
      var star := pattern[0] == '*';
      var tail := DropStars(pattern);
      var end := ScanEnd(tail, 0, false);
      var chunk, rest := tail[..end], tail[end..];
      if star && chunk == "" then '/' !in name
      else
        ScanAdvances(tail);
        var t := MatchChunk(chunk, name);
        if t.Some? && (t.value == "" || rest != "") then Match(rest, t.value)
        else if star then
          match SkipMatch(chunk, name, rest == "")
          case None => false
          case Some(u) => Match(rest, u)
        else false
  }

  lemma {:induction false} ScanAdvances(p: string)
    requires p != "" ==> p[0] != '*'
    ensures p != "" ==> ScanEnd(p, 0, false) > 0
  {
  }

  // -------------------------------------------------------------------- coverage

  function MatchCapability(id: string, pattern: string): bool {
    if id == pattern then true
    else if pattern == "*" then true
    else if Match(pattern, id) then true
    else if EndsInStar(pattern) then pattern[..|pattern| - 1] <= id
    else false
  }

  predicate EndsInStar(p: string) {
    |p| >= 2 && p[|p| - 1] == '*' && p[|p| - 2] == ':'
  }

  /** leaf is the ancestor, matches it, or lies on a path below it. */
  function Covered(leaf: string, ancestor: string): bool {
    MatchCapability(leaf, ancestor) || ('*' !in ancestor && ancestor + ":" <= leaf)
  }

  // --------------------------------------------------------------- plain patterns

  predicate IsMeta(c: char) { c == '*' || c == '?' || c == '[' || c == '\\' }

  predicate Literal(p: string) {
    forall i :: 0 <= i < |p| ==> !IsMeta(p[i])
  }

  /** A literal, "*", or a literal followed by ":*". */
  predicate Simple(p: string) {
    Literal(p) || p == "*" || (EndsInStar(p) && Literal(p[..|p| - 2]))
  }

  lemma {:induction false} ScanPassesLiteral(p: string, i: nat, k: nat)
    requires i <= k <= |p| && Literal(p[..k])
    ensures ScanEnd(p, i, false) >= k
    decreases k - i
  {
    if i < k {
      assert p[..k][i] == p[i];
      ScanPassesLiteral(p, i + 1, k);
    }
  }

  /** A chunk's literal beginning is matched character by character. */
  lemma {:induction false} LiteralChunk(l: string, chunk: string, s: string)
    requires Literal(l) && l <= chunk
    ensures MatchChunk(chunk, s).Some? ==> l <= s
    ensures l == chunk ==> MatchChunk(chunk, s) == if l <= s then Some(s[|l|..]) else None
    decreases |l|
  {
    if l != "" && s != "" && chunk[0] == s[0] {
      assert !IsMeta(l[0]);
      LiteralChunk(l[1..], chunk[1..], s[1..]);
      if |l| <= |s| {
        assert s[1..][|l| - 1..] == s[|l|..];
      }
      assert l == [l[0]] + l[1..] && s == [s[0]] + s[1..];
    } else if l != "" {
      assert !IsMeta(l[0]) && l[0] == chunk[0];
    }
  }

  /** Whatever follows, a pattern's literal beginning is a beginning of what it matches. */
  lemma {:induction false} LiteralPrefix(l: string, pattern: string, name: string)
    requires Literal(l) && l != "" && l <= pattern && Match(pattern, name)
    ensures l <= name
  {
    assert !IsMeta(l[0]) && DropStars(pattern) == pattern;
    assert pattern[..|l|] == l;
    ScanPassesLiteral(pattern, 0, |l|);
    var chunk := pattern[..ScanEnd(pattern, 0, false)];
    assert l <= chunk;
    LiteralChunk(l, chunk, name);
  }

  /** What a simple ancestor other than "*" requires of a leaf's beginning. */
  function Stem(a: string): string {
    if EndsInStar(a) then a[..|a| - 1] else a + ":"
  }

  lemma {:induction false} StemIsLiteral(a: string)
    requires Simple(a) && a != "*"
    ensures Stem(a) != "" && Literal(Stem(a))
  {
    if EndsInStar(a) && '*' in a {
      var stem := Stem(a);
      forall i | 0 <= i < |stem|
        ensures !IsMeta(stem[i])
      {
        if i < |a| - 2 {
          assert stem[i] == a[..|a| - 2][i];
        }
      }
    }
  }

  /** Under a simple ancestor lies the ancestor itself and what begins with its stem. */
  lemma {:induction false} SimpleCoverage(leaf: string, a: string)
    requires Simple(a) && a != "*"
    ensures Covered(leaf, a) <==> leaf == a || Stem(a) <= leaf
  {
    StemIsLiteral(a);
    if EndsInStar(a) {
      assert a[|a| - 1] == '*';
      assert Stem(a) <= a;
      if Match(a, leaf) {
        LiteralPrefix(Stem(a), a, leaf);
      }
    } else {
      assert Literal(a);
      if Match(a, leaf) {
        LiteralMatches(a, leaf);
      }
    }
  }

  lemma {:induction false} LiteralMatches(p: string, name: string)
    requires Literal(p)
    ensures Match(p, name) <==> name == p
  {
    if p != "" {
      assert !IsMeta(p[0]) && DropStars(p) == p && p[..|p|] == p;
      ScanPassesLiteral(p, 0, |p|);
      LiteralChunk(p, p, name);
      assert p[|p|..] == "";
    }
  }

  /** Below a simple ancestor coverage is transitive, whatever lies between. */
  lemma {:induction false} SimpleIsTransitive(a: string, b: string, c: string)
    requires Simple(a) && Covered(b, a) && Covered(c, b)
    ensures Covered(c, a)
  {
    if a != "*" && b != a {
      SimpleCoverage(b, a);
      SimpleCoverage(c, a);
      StemIsLiteral(a);
      var l := Stem(a);
      assert !IsMeta(l[0]);
      if Match(b, c) {
        LiteralPrefix(l, b, c);
      } else if EndsInStar(b) && b[..|b| - 1] <= c {
        assert |l| == |b| ==> l == b;
        assert l <= b[..|b| - 1];
      }
    }
  }

  // ------------------------------------------------- patterns that are not simple

  /** Neither classes nor escapes: only stars and question marks are special. */
  predicate NoBrackets(p: string) {
    '[' !in p && '\\' !in p
  }

  /** An id that the pattern matches: stars dropped, question marks filled in. */
  function Instance(p: string): string {
    if p == "" then ""
    else if p[0] == '*' then Instance(p[1..])
    else [if p[0] == '?' then 'x' else p[0]] + Instance(p[1..])
  }

  lemma {:induction false} InstanceIsLiteral(p: string)
    requires NoBrackets(p)
    ensures Literal(Instance(p))
  {
    if p != "" {
      InstanceIsLiteral(p[1..]);
    }
  }

  lemma {:induction false} InstanceConcat(a: string, b: string)
    ensures Instance(a + b) == Instance(a) + Instance(b)
    decreases |a|
  {
    if a == "" {
      assert a + b == b;
    } else {
      InstanceConcat(a[1..], b);
      FirstOfBoth(a, b);
      if a[0] != '*' {
        ConcatAssociative([if a[0] == '?' then 'x' else a[0]], Instance(a[1..]), Instance(b));
      }
    }
  }

  lemma {:induction false} FirstOfBoth(a: string, b: string)
    requires a != ""
    ensures a + b != "" && (a + b)[0] == a[0] && (a + b)[1..] == a[1..] + b
  {
  }

  lemma {:induction false} ChunkMatchesInstance(chunk: string, t: string)
    requires NoBrackets(chunk) && '*' !in chunk
    ensures MatchChunk(chunk, Instance(chunk) + t) == Some(t)
  {
    if chunk == "" {
      assert Instance(chunk) + t == t;
    } else {
      ChunkMatchesInstance(chunk[1..], t);
      assert (Instance(chunk) + t)[1..] == Instance(chunk[1..]) + t;
    }
  }

  lemma {:induction false} ScanStopsAtStar(p: string, i: nat)
    requires NoBrackets(p) && i <= |p|
    ensures var end := ScanEnd(p, i, false);
            (forall k :: i <= k < end ==> p[k] != '*') && (end < |p| ==> p[end] == '*')
    decreases |p| - i
  {
    if i < |p| && p[i] != '*' {
      assert p[i] != '[' && p[i] != '\\';
      ScanStopsAtStar(p, i + 1);
    }
  }

  lemma {:induction false} DropStarsKeepsInstance(p: string)
    ensures Instance(DropStars(p)) == Instance(p)
    ensures NoBrackets(p) ==> NoBrackets(DropStars(p))
  {
    if p != "" && p[0] == '*' {
      DropStarsKeepsInstance(p[1..]);
    }
  }

  lemma {:induction false} PatternMatchesInstance(p: string)
    requires NoBrackets(p)
    ensures Match(p, Instance(p))
    decreases |p|
  {
    if p != "" {
      var tail := DropStars(p);
      var end := ScanEnd(tail, 0, false);
      var chunk, rest := tail[..end], tail[end..];
      DropStarsKeepsInstance(p);
      ScanStopsAtStar(tail, 0);
      assert tail == chunk + rest;
      InstanceConcat(chunk, rest);
      ChunkMatchesInstance(chunk, Instance(rest));
      ScanAdvances(tail);
      if p[0] != '*' || chunk != "" {
        PatternMatchesInstance(rest);
      }
    }
  }

  function Slashes(s: string): nat {
    if s == "" then 0 else (if s[0] == '/' then 1 else 0) + Slashes(s[1..])
  }

  lemma {:induction false} SlashesSkipped(s: string, i: nat, n: nat)
    requires i <= n <= |s| && forall k :: i <= k < n ==> s[k] != '/'
    ensures Slashes(s[i..]) == Slashes(s[n..])
    decreases n - i
  {
    if i < n {
      assert s[i..][0] == s[i] && s[i..][1..] == s[i + 1..];
      SlashesSkipped(s, i + 1, n);
    }
  }

  /** One character has at most one slash. */
  lemma {:induction false} CharacterBoundsSlashes(s: string)
    requires s != ""
    ensures Slashes(s) <= 1 + Slashes(s[Decode(s).1..])
  {
    var n := Decode(s).1;
    if s[0] as int >= 0x80 {
      SlashesSkipped(s, 0, n);
      assert s[0..] == s;
    }
  }

  lemma {:induction false} ChunkBoundsSlashes(chunk: string, s: string)
    ensures MatchChunk(chunk, s).Some? ==> Slashes(s) <= |chunk| + Slashes(MatchChunk(chunk, s).value)
    decreases |chunk|
  {
    if chunk != "" && s != "" {
      CharacterBoundsSlashes(s);
      if chunk[0] == '[' {
        var negated := |chunk| > 1 && chunk[1] == '^';
        var m := MatchClass(if negated then chunk[2..] else chunk[1..], Decode(s).0, true, false);
        if m.Some? {
          ChunkBoundsSlashes(m.value.1, s[Decode(s).1..]);
        }
      } else if chunk[0] == '\\' {
        if |chunk| > 1 {
          ChunkBoundsSlashes(chunk[2..], s[1..]);
        }
      } else if chunk[0] == '?' {
        ChunkBoundsSlashes(chunk[1..], s[Decode(s).1..]);
      } else {
        ChunkBoundsSlashes(chunk[1..], s[1..]);
      }
    }
  }

  lemma {:induction false} SkipBoundsSlashes(chunk: string, name: string, last: bool)
    ensures var t := SkipMatch(chunk, name, last);
            t.Some? ==> Slashes(name) <= |chunk| + Slashes(t.value)
    decreases |name|
  {
    if name != "" && name[0] != '/' {
      ChunkBoundsSlashes(chunk, name[1..]);
      SkipBoundsSlashes(chunk, name[1..], last);
    }
  }

  lemma {:induction false} NoSlashes(s: string)
    requires '/' !in s
    ensures Slashes(s) == 0
  {
    if s != "" {
      NoSlashes(s[1..]);
    }
  }

  /** Stars never match a slash, so a name has at most as many as its pattern is long. */
  lemma {:induction false} MatchBoundsSlashes(pattern: string, name: string)
    requires Match(pattern, name)
    ensures Slashes(name) <= |pattern|
    decreases |pattern|
  {
    if pattern != "" {
      var tail := DropStars(pattern);
      var end := ScanEnd(tail, 0, false);
      var chunk, rest := tail[..end], tail[end..];
      if pattern[0] == '*' && chunk == "" {
        NoSlashes(name);
      } else {
        ScanAdvances(tail);
        ChunkBoundsSlashes(chunk, name);
        var t := MatchChunk(chunk, name);
        if t.Some? && (t.value == "" || rest != "") {
          MatchBoundsSlashes(rest, t.value);
        } else {
          SkipBoundsSlashes(chunk, name, rest == "");
          MatchBoundsSlashes(rest, SkipMatch(chunk, name, rest == "").value);
        }
      }
    }
  }

  lemma {:induction false} ManySlashes(n: nat)
    ensures Slashes(seq(n, _ => '/')) == n
  {
    if n > 0 {
      assert seq(n, _ => '/')[1..] == seq(n - 1, _ => '/');
      ManySlashes(n - 1);
    }
  }

  lemma {:induction false} SlashesConcat(a: string, b: string)
    ensures Slashes(a + b) == Slashes(a) + Slashes(b)
  {
    if a == "" {
      assert a + b == b;
    } else {
      SlashesConcat(a[1..], b);
      assert (a + b)[1..] == a[1..] + b;
    }
  }

  /** A leaf below the instance that the pattern itself does not cover. */
  function Stray(p: string): string {
    Instance(p) + ":" + seq(if '*' in p then |p| + 1 else 0, _ => '/')
  }

  lemma {:induction false} StrayIsBelowInstance(p: string)
    requires NoBrackets(p)
    ensures Covered(Instance(p), p) && Covered(Stray(p), Instance(p))
  {
    PatternMatchesInstance(p);
    InstanceIsLiteral(p);
    assert '*' !in Instance(p);
    assert Instance(p) + ":" <= Stray(p);
  }

  lemma {:induction false} StrayHasNoMeta(p: string)
    requires NoBrackets(p)
    ensures Literal(Stray(p))
  {
    InstanceIsLiteral(p);
  }

  lemma {:induction false} InstanceKeepsLength(p: string)
    requires '*' !in p
    ensures |Instance(p)| == |p|
  {
    if p != "" {
      InstanceKeepsLength(p[1..]);
    }
  }

  /** A name with a character to spare is not matched by a pattern without stars. */
  lemma {:induction false} StarlessMatchIsExact(p: string, t: string)
    requires NoBrackets(p) && '*' !in p && p != "" && t != ""
    ensures !Match(p, Instance(p) + t)
  {
    assert DropStars(p) == p;
    ScanStopsAtStar(p, 0);
    assert ScanEnd(p, 0, false) == |p| && p[..|p|] == p && p[|p|..] == "";
    ChunkMatchesInstance(p, t);
  }

  lemma {:induction false} LiteralBeginning(l: string, s: string)
    requires Literal(s) && l <= s
    ensures Literal(l)
  {
    forall i | 0 <= i < |l|
      ensures !IsMeta(l[i])
    {
      assert l[i] == s[i];
    }
  }

  lemma {:induction false} StrayIsNotCovered(p: string)
    requires NoBrackets(p) && !Simple(p)
    ensures !Covered(Stray(p), p)
  {
    StrayHasNoMeta(p);
    var c := Stray(p);
    assert !Literal(p);
    if '*' in p {
      var n := |p| + 1;
      ManySlashes(n);
      SlashesConcat(Instance(p) + ":", seq(n, _ => '/'));
      if Match(p, c) {
        MatchBoundsSlashes(p, c);
      }
      if EndsInStar(p) && p[..|p| - 1] <= c {
        LiteralBeginning(p[..|p| - 2], c);
      }
    } else {
      assert c == Instance(p) + ":";
      InstanceKeepsLength(p);
      StarlessMatchIsExact(p, ":");
      if p + ":" <= c {
        assert p == c[..|p|] == Instance(p);
        InstanceIsLiteral(p);
      }
    }
  }

  ghost predicate TransitiveBelow(a: string) {
    forall b, c :: Covered(b, a) && Covered(c, b) ==> Covered(c, a)
  }

  /** Without classes and escapes, coverage below an ancestor is transitive exactly when
      the ancestor is simple: a "?" or an inner "*" always lets something escape. */
  lemma {:induction false} TransitiveIffSimple(a: string)
    requires NoBrackets(a)
    ensures TransitiveBelow(a) <==> Simple(a)
  {
    if Simple(a) {
      forall b, c | Covered(b, a) && Covered(c, b)
        ensures Covered(c, a)
      {
        SimpleIsTransitive(a, b, c);
      }
    } else {
      StrayIsBelowInstance(a);
      StrayIsNotCovered(a);
    }
  }

  // --------------------------------------------------------- malformed patterns

  lemma {:induction false} OpenBracketSkipsNowhere(name: string)
    ensures SkipMatch("[", name, true) == None
  {
    if name != "" && name[0] != '/' {
      OpenBracketSkipsNowhere(name[1..]);
    }
  }

  /** With a bracket it can be otherwise: a malformed pattern with a star covers only
      itself, so that nothing escapes below it, though it is not simple. */
  lemma {:induction false} MalformedCoversItself(leaf: string)
    ensures Covered(leaf, "*[") <==> leaf == "*["
    ensures TransitiveBelow("*[") && !Simple("*[")
  {
    forall id ensures Covered(id, "*[") <==> id == "*[" {
      assert DropStars("*[") == "[" by { assert "*["[1..] == "["; }
      assert "["[..1] == "[" && "["[1..] == "";
      OpenBracketSkipsNowhere(id);
      assert '*' == "*["[0];
    }
    assert IsMeta("*["[0]) && !EndsInStar("*[");
  }
}
