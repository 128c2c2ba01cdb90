/** Constraint strings, their parser, the registry of evaluators, and the discharge of
    residual obligations by it. */
module ConstraintStrings {
  import opened ByteStrings

  /** Scheme, capability id and raw parameters of one authorization constraint. */
  datatype Constraint = Constraint(scheme: string, id: string, parameters: string)

  const SCHEME: string := "varwof/constraint-v1"

  predicate IsConstraintScheme(scheme: string) {
    scheme == SCHEME || scheme == "constraint" || scheme == "constraint-v1"
  }

  function NormalScheme(scheme: string): string {
    if scheme == "constraint" || scheme == "constraint-v1" then SCHEME else scheme
  }

  function Normal(c: Constraint): Constraint {
    c.(scheme := NormalScheme(c.scheme))
  }

  // ------------------------------------------------------------------ print and parse

  function Render(c: Constraint): string {
    NormalScheme(c.scheme)
    + (if c.id != "" then ":" + c.id else "")
    + if c.parameters != "" then ":" + c.parameters else ""
  }

  /** A constraint of ours is printed under the one full name of our scheme, any other under
      its own; an empty id or empty parameters are left out with their colon. */
  lemma {:induction false} PrintedExactly(c: Constraint)
    ensures var scheme := if c.scheme == "constraint" || c.scheme == "constraint-v1" then "varwof/constraint-v1"
                          else c.scheme;
            && (c.id == "" && c.parameters == "" ==> Render(c) == scheme)
            && (c.id != "" && c.parameters == "" ==> Render(c) == scheme + ":" + c.id)
            && (c.id == "" && c.parameters != "" ==> Render(c) == scheme + ":" + c.parameters)
            && (c.id != "" && c.parameters != "" ==> Render(c) == scheme + ":" + c.id + ":" + c.parameters)
  {
    ConcatAssociative(NormalScheme(c.scheme), ":", c.id);
    ConcatAssociative(NormalScheme(c.scheme), ":", c.parameters);
    ConcatAssociative(NormalScheme(c.scheme) + (":" + c.id), ":", c.parameters);
  }

  method RenderAll(constraints: seq<Constraint>) returns (out: seq<string>)
    ensures |out| == |constraints| && forall i :: 0 <= i < |out| ==> out[i] == Render(constraints[i])
  {
    out := [];
    for i := 0 to |constraints|
      invariant |out| == i && forall k :: 0 <= k < i ==> out[k] == Render(constraints[k])
    {
      var c := constraints[i];
      var scheme := c.scheme;
      if scheme == "constraint" || scheme == "constraint-v1" {
        scheme := SCHEME;
      }
      var s := scheme;
      if c.id != "" {
        s := s + ":" + c.id;
      }
      if |c.parameters| > 0 {
        s := s + ":" + c.parameters;
      }
      assert s == Render(c) by {
        ConcatAssociative(scheme, ":", c.id);
        ConcatAssociative(scheme, ":", c.parameters);
        ConcatAssociative(scheme + (":" + c.id), ":", c.parameters);
      }
      out := out + [s];
    }
  }

  /** The pieces of a string between its colons. */
  function Split(s: string): (parts: seq<string>)
    ensures |parts| >= 1
  {
    if s == "" then [""]
    else
      var rest := Split(s[1..]);
      if s[0] == ':' then [""] + rest else [[s[0]] + rest[0]] + rest[1..]
  }

  function Join(parts: seq<string>): string
    requires |parts| >= 1
  {
    if |parts| == 1 then parts[0] else parts[0] + ":" + Join(parts[1..])
  }

  /** Time and network ids keep their second piece; every other id is one piece. */
  predicate TwoPiece(piece: string) {
    piece == "time" || piece == "network"
  }

  function Parse(s: string): Option<Constraint> {
    var parts := Split(s);
    if |parts| < 2 || parts[0] == "" || parts[1] == "" then None
    else if TwoPiece(parts[1]) then
      if |parts| < 4 then None else Some(Constraint(parts[0], parts[1] + ":" + parts[2], Join(parts[3..])))
    else if |parts| == 2 then Some(Constraint(parts[0], parts[1], ""))
    else Some(Constraint(parts[0], parts[1], Join(parts[2..])))
  }

  predicate ColonFree(s: string) {
    ':' !in s
  }

  lemma {:induction false} JoinSplit(s: string)
    ensures Join(Split(s)) == s
  {
    if s != "" {
      JoinSplit(s[1..]);
      var rest := Split(s[1..]);
      if s[0] == ':' {
        assert ([""] + rest)[1..] == rest;
      } else {
        var parts := [[s[0]] + rest[0]] + rest[1..];
        assert parts[1..] == rest[1..];
        assert Join(parts) == [s[0]] + Join(rest);
      }
    }
  }

  lemma {:induction false} SplitPlain(s: string)
    requires ColonFree(s)
    ensures Split(s) == [s]
  {
    if s != "" {
      assert s[0] != ':' && ColonFree(s[1..]);
      SplitPlain(s[1..]);
      assert [s[0]] + s[1..] == s;
    }
  }

  lemma {:induction false} SplitAtColon(head: string, tail: string)
    requires ColonFree(head)
    ensures Split(head + (":" + tail)) == [head] + Split(tail)
  {
    if head == "" {
      assert head + (":" + tail) == ":" + tail && (":" + tail)[1..] == tail;
    } else {
      assert head[0] != ':' && ColonFree(head[1..]);
      SplitAtColon(head[1..], tail);
      var s := head + (":" + tail);
      assert s[0] == head[0] && s[1..] == head[1..] + (":" + tail);
      assert [head[0]] + head[1..] == head;
      assert ([head[1..]] + Split(tail))[1..] == Split(tail);
    }
  }

  lemma {:induction false} PiecesAreColonFree(s: string)
    ensures forall i :: 0 <= i < |Split(s)| ==> ColonFree(Split(s)[i])
  {
    if s != "" {
      PiecesAreColonFree(s[1..]);
    }
  }

  // ------------------------------------------------------------------- the round trip

  ghost predicate TwoPieceId(id: string) {
    exists t, x :: IsTwoPiece(id, t, x)
  }

  predicate IsTwoPiece(id: string, t: string, x: string) {
    TwoPiece(t) && ColonFree(x) && id == t + (":" + x)
  }

  /** The constraints that survive printing and parsing. */
  ghost predicate Recoverable(c: Constraint) {
    && NormalScheme(c.scheme) != ""
    && ColonFree(NormalScheme(c.scheme))
    && ((c.id != "" && ColonFree(c.id) && !TwoPiece(c.id)) || (TwoPieceId(c.id) && c.parameters != ""))
  }

  lemma {:induction false} SplitOnePiece(c: Constraint)
    requires ColonFree(NormalScheme(c.scheme)) && ColonFree(c.id) && c.id != ""
    ensures Split(Render(c)) == [NormalScheme(c.scheme), c.id] + if c.parameters == "" then [] else Split(c.parameters)
  {
    var s := NormalScheme(c.scheme);
    if c.parameters == "" {
      assert Render(c) == s + (":" + c.id);
      SplitPlain(c.id);
    } else {
      assert Render(c) == s + (":" + (c.id + (":" + c.parameters)));
      SplitAtColon(c.id, c.parameters);
      SplitAtColon(s, c.id + (":" + c.parameters));
    }
    SplitAtColon(s, c.id);
  }

  lemma {:induction false} SplitTwoPieces(c: Constraint, t: string, x: string)
    requires ColonFree(NormalScheme(c.scheme)) && IsTwoPiece(c.id, t, x)
    ensures Split(Render(c)) == [NormalScheme(c.scheme), t, x] + if c.parameters == "" then [] else Split(c.parameters)
  {
    var s := NormalScheme(c.scheme);
    if c.parameters == "" {
      assert Render(c) == s + (":" + (t + (":" + x)));
      SplitPlain(x);
      SplitAtColon(t, x);
      SplitAtColon(s, t + (":" + x));
    } else {
      assert Render(c) == s + (":" + (t + (":" + (x + (":" + c.parameters)))));
      SplitAtColon(x, c.parameters);
      SplitAtColon(t, x + (":" + c.parameters));
      SplitAtColon(s, t + (":" + (x + (":" + c.parameters))));
    }
  }

  lemma {:induction false} ParsesBack(c: Constraint)
    requires Recoverable(c)
    ensures Parse(Render(c)) == Some(Normal(c))
  {
    var parts := Split(Render(c));
    if TwoPieceId(c.id) && c.parameters != "" {
      var t, x :| IsTwoPiece(c.id, t, x);
      SplitTwoPieces(c, t, x);
      assert parts[3..] == Split(c.parameters);
      assert parts[1] + ":" + parts[2] == c.id;
    } else {
      SplitOnePiece(c);
      assert c.parameters != "" ==> parts[2..] == Split(c.parameters);
    }
    JoinSplit(c.parameters);
  }

  lemma {:induction false} OnlyRecoverableParsesBack(c: Constraint)
    requires Parse(Render(c)) == Some(Normal(c))
    ensures Recoverable(c)
  {
    var parts := Split(Render(c));
    PiecesAreColonFree(Render(c));
    if TwoPiece(parts[1]) {
      assert parts[1] + ":" + parts[2] == parts[1] + (":" + parts[2]);
      assert IsTwoPiece(c.id, parts[1], parts[2]);
      SplitTwoPieces(c, parts[1], parts[2]);
    }
  }

  /** The parser gives a printed constraint back exactly when its scheme is one non-empty
      piece and its id is one piece other than time and network, or a time or network id of
      two pieces with parameters. The parameters may hold any number of colons. */
  lemma {:induction false} RoundTripExactly(c: Constraint)
    ensures Parse(Render(c)) == Some(Normal(c)) <==> Recoverable(c)
  {
    if Recoverable(c) {
      ParsesBack(c);
    }
    if Parse(Render(c)) == Some(Normal(c)) {
      OnlyRecoverableParsesBack(c);
    }
  }

  /** The other way round: what parses prints back to the string it came from, under the
      normal form of its scheme and but for a last colon with nothing behind it. */
  lemma {:induction false} ParsedPrintsBack(s: string)
    requires Parse(s).Some?
    ensures var c := Parse(s).value;
            && c.scheme <= s
            && var back := NormalScheme(c.scheme) + s[|c.scheme|..];
               Render(c) == back || Render(c) + ":" == back
  {
    var parts, c := Split(s), Parse(s).value;
    var tail := ":" + Join(parts[1..]);
    JoinSplit(s);
    assert s == parts[0] + tail;
    assert s[|c.scheme|..] == tail;
    PiecesAreIdAndParameters(parts);
    RenderInPieces(c);
  }

  /** A constraint as printed, up to a last colon when it has no parameters. */
  lemma {:induction false} RenderInPieces(c: Constraint)
    requires c.id != ""
    ensures var whole := NormalScheme(c.scheme) + (":" + (c.id + (":" + c.parameters)));
            Render(c) == whole || Render(c) + ":" == whole
    ensures c.parameters == "" ==> Render(c) == NormalScheme(c.scheme) + (":" + c.id)
  {
  }

  lemma {:induction false} PiecesAreIdAndParameters(parts: seq<string>)
    requires |parts| >= 2 && (TwoPiece(parts[1]) ==> |parts| >= 4)
    ensures |parts| == 2 ==> Join(parts[1..]) == parts[1]
    ensures |parts| > 2 && !TwoPiece(parts[1]) ==> Join(parts[1..]) == parts[1] + (":" + Join(parts[2..]))
    ensures TwoPiece(parts[1]) ==> Join(parts[1..]) == (parts[1] + ":" + parts[2]) + (":" + Join(parts[3..]))
  {
    if |parts| > 2 {
      assert parts[1..][1..] == parts[2..];
    }
    if |parts| > 3 {
      assert parts[2..][1..] == parts[3..];
      assert Join(parts[2..]) == parts[2] + ":" + Join(parts[3..]);
    }
  }

  /** Recoverable constraints with one printed form are one constraint. */
  lemma {:induction false} RenderInjective(c: Constraint, d: Constraint)
    requires Recoverable(c) && Recoverable(d) && Render(c) == Render(d)
    ensures Normal(c) == Normal(d)
  {
    ParsesBack(c);
    ParsesBack(d);
  }

  /** The strings that are a constraint: a scheme, then an id of one piece alone or with
      parameters, or a time or network id of two pieces with parameters, between colons. */
  predicate Spells(s: string, c: Constraint, t: string, x: string) {
    && c.scheme != "" && ColonFree(c.scheme)
    && if t == "time" || t == "network" then
         ColonFree(x) && c.id == t + (":" + x) && s == c.scheme + (":" + (c.id + (":" + c.parameters)))
       else
         && x == "" && t != "" && ColonFree(t) && c.id == t
         && ((c.parameters == "" && s == c.scheme + (":" + t)) || s == c.scheme + (":" + (t + (":" + c.parameters))))
  }

  /** Parsing reads exactly those. */
  lemma {:induction false} ParsedExactly(s: string, c: Constraint)
    ensures Parse(s) == Some(c) <==> exists t, x :: Spells(s, c, t, x)
  {
    if Parse(s) == Some(c) {
      ParsedIsSpelt(s, c);
    }
    forall t, x | Spells(s, c, t, x) ensures Parse(s) == Some(c) {
      SpeltIsParsed(s, c, t, x);
    }
  }

  lemma {:induction false} ParsedIsSpelt(s: string, c: Constraint)
    requires Parse(s) == Some(c)
    ensures exists t, x :: Spells(s, c, t, x)
  {
    var parts := Split(s);
    JoinSplit(s);
    PiecesAreColonFree(s);
    PiecesAreIdAndParameters(parts);
    assert s == parts[0] + (":" + Join(parts[1..]));
    if TwoPiece(parts[1]) {
      assert parts[1] + ":" + parts[2] == parts[1] + (":" + parts[2]);
      assert Spells(s, c, parts[1], parts[2]);
    } else {
      assert Spells(s, c, parts[1], "");
    }
  }

  lemma {:induction false} SplitInThree(a: string, b: string, rest: string)
    requires ColonFree(a) && ColonFree(b)
    ensures Split(a + (":" + (b + (":" + rest)))) == [a, b] + Split(rest)
  {
    SplitAtColon(b, rest);
    SplitAtColon(a, b + (":" + rest));
  }

  lemma {:induction false} TwoPiecesAreParsed(s: string, c: Constraint, t: string, x: string)
    requires Spells(s, c, t, x) && TwoPiece(t)
    ensures Parse(s) == Some(c)
  {
    var parts := Split(s);
    assert s == c.scheme + (":" + (t + (":" + (x + (":" + c.parameters)))));
    SplitInThree(c.scheme, t, x + (":" + c.parameters));
    SplitAtColon(x, c.parameters);
    JoinSplit(c.parameters);
    assert parts == [c.scheme, t, x] + Split(c.parameters) && parts[3..] == Split(c.parameters);
    assert t + ":" + x == c.id;
  }

  lemma {:induction false} OnePieceIsParsed(s: string, c: Constraint, t: string)
    requires Spells(s, c, t, "") && !TwoPiece(t)
    ensures Parse(s) == Some(c)
  {
    var parts := Split(s);
    if s == c.scheme + (":" + t) && c.parameters == "" {
      SplitPlain(t);
      SplitAtColon(c.scheme, t);
    } else {
      SplitInThree(c.scheme, t, c.parameters);
      JoinSplit(c.parameters);
      assert parts[2..] == Split(c.parameters);
    }
  }

  lemma {:induction false} SpeltIsParsed(s: string, c: Constraint, t: string, x: string)
    requires Spells(s, c, t, x)
    ensures Parse(s) == Some(c)
  {
    if TwoPiece(t) {
      TwoPiecesAreParsed(s, c, t, x);
    } else {
      OnePieceIsParsed(s, c, t);
    }
  }

  // --------------------------------------------------------------------- the registry

  datatype Context = Context(clientIP: string, now: int)

  /** accepts is what the evaluator's own code decides about parameters in a context. */
  datatype Evaluator = Evaluator(id: string, accepts: (string, Context) -> bool)

  type Evaluators = map<string, Evaluator>

  const BUILT_IN: seq<string> := [
    "network:cidr", "time:window", "session:max-concurrent", "session:hard-timeout",
    "session:idle-timeout", "op:readonly", "op:audit:required", "geo-fence"]

  /** How the built-in evaluators decide, by their id. */
  type Behaviour = (string, string, Context) -> bool

  function BuiltIn(behaviour: Behaviour, id: string): Evaluator {
    Evaluator(id, (parameters, ctx) => behaviour(id, parameters, ctx))
  }

  ghost predicate HoldsBuiltIns(evaluators: Evaluators, behaviour: Behaviour) {
    && (forall id :: id in evaluators <==> id in BUILT_IN)
    && (forall id :: id in evaluators ==> evaluators[id] == BuiltIn(behaviour, id))
  }

  /** Eight ids are registered then, each with its own evaluator. */
  lemma {:induction false} BuiltInExactly(evaluators: Evaluators, behaviour: Behaviour, id: string, parameters: string,
                                          ctx: Context)
    requires HoldsBuiltIns(evaluators, behaviour)
    ensures id in evaluators <==>
            || id == "network:cidr" || id == "time:window" || id == "session:max-concurrent"
            || id == "session:hard-timeout" || id == "session:idle-timeout" || id == "op:readonly"
            || id == "op:audit:required" || id == "geo-fence"
    ensures id in evaluators ==>
              evaluators[id].id == id && (evaluators[id].accepts(parameters, ctx) <==> behaviour(id, parameters, ctx))
  {
    assert BUILT_IN[0] == "network:cidr" && BUILT_IN[1] == "time:window" && BUILT_IN[2] == "session:max-concurrent";
    assert BUILT_IN[3] == "session:hard-timeout" && BUILT_IN[4] == "session:idle-timeout";
    assert BUILT_IN[5] == "op:readonly" && BUILT_IN[6] == "op:audit:required" && BUILT_IN[7] == "geo-fence";
  }

  class ConstraintRegistry {
    var evaluators: Evaluators

    /** Every evaluator is filed under its own, non-empty id. */
    ghost predicate Valid()
      reads this
    {
      "" !in evaluators && forall id :: id in evaluators ==> evaluators[id].id == id
    }

    constructor ()
      ensures Valid() && evaluators == map[]
    {
      evaluators := map[];
    }

    /** A second evaluator for an id is refused. */
    method Register(ev: Option<Evaluator>) returns (ok: bool)
      requires Valid()
      modifies this
      ensures Valid()
      ensures ok <==> ev.Some? && ev.value.id != "" && ev.value.id !in old(evaluators)
      ensures evaluators == if ok then old(evaluators)[ev.value.id := ev.value] else old(evaluators)
    {
      if ev.None? || ev.value.id == "" || ev.value.id in evaluators {
        return false;
      }
      evaluators := evaluators[ev.value.id := ev.value];
      return true;
    }

    method Replace(ev: Option<Evaluator>) returns (ok: bool)
      requires Valid()
      modifies this
      ensures Valid()
      ensures ok <==> ev.Some? && ev.value.id != ""
      ensures evaluators == if ok then old(evaluators)[ev.value.id := ev.value] else old(evaluators)
    {
      if ev.None? || ev.value.id == "" {
        return false;
      }
      evaluators := evaluators[ev.value.id := ev.value];
      return true;
    }

    method Find(id: string) returns (ev: Option<Evaluator>)
      ensures ev == if id in evaluators then Some(evaluators[id]) else None
      ensures Valid() && ev.Some? ==> ev.value.id == id
    {
      if id in evaluators {
        return Some(evaluators[id]);
      }
      return None;
    }

    method Remove(id: string)
      requires Valid()
      modifies this
      ensures Valid() && evaluators == old(evaluators) - {id}
    {
      evaluators := evaluators - {id};
    }

    /** Whatever was registered before, only the built-in evaluators are afterwards. */
    method ResetToBuiltIns(behaviour: Behaviour)
      modifies this
      ensures Valid() && HoldsBuiltIns(evaluators, behaviour)
    {
      evaluators := map[];
      for i := 0 to |BUILT_IN|
        invariant Valid()
        invariant forall id :: id in evaluators <==> id in BUILT_IN[..i]
        invariant forall id :: id in evaluators ==> evaluators[id] == BuiltIn(behaviour, id)
      {
        var ok := Register(Some(BuiltIn(behaviour, BUILT_IN[i])));
        assert BUILT_IN[..i + 1] == BUILT_IN[..i] + [BUILT_IN[i]];
      }
    }
  }

  // ------------------------------------------------------------- check and discharge

  datatype Refusal = ForeignScheme(at: nat) | Unsatisfied(at: nat)

  /** A constraint passes the connection check: its scheme is ours, and its evaluator, if
      there is one, accepts. */
  predicate Passes(evaluators: Evaluators, c: Constraint, ctx: Context) {
    IsConstraintScheme(c.scheme) && (c.id in evaluators ==> evaluators[c.id].accepts(c.parameters, ctx))
  }

  /** The three words a constraint's scheme can be. */
  const OURS: seq<string> := ["varwof/constraint-v1", "constraint", "constraint-v1"]

  /** A constraint of any other scheme is refused, wherever its id is registered; one of ours
      is refused exactly when an evaluator registered for its id does not accept it. */
  lemma {:induction false} PassesExactly(evaluators: Evaluators, c: Constraint, ctx: Context)
    ensures Passes(evaluators, c, ctx) <==>
            && (c.scheme == "varwof/constraint-v1" || c.scheme == "constraint" || c.scheme == "constraint-v1")
            && (c.id !in evaluators || evaluators[c.id].accepts(c.parameters, ctx))
    ensures IsConstraintScheme(c.scheme) <==> c.scheme in OURS
  {
    assert OURS[0] == "varwof/constraint-v1" && OURS[1] == "constraint" && OURS[2] == "constraint-v1";
  }

  method CheckConstraints(registry: ConstraintRegistry, constraints: seq<Constraint>, ctx: Context)
    returns (refusal: Option<Refusal>)
    ensures refusal.None? <==> forall i :: 0 <= i < |constraints| ==> Passes(registry.evaluators, constraints[i], ctx)
    ensures refusal.Some? ==>
              refusal.value.at < |constraints| && !Passes(registry.evaluators, constraints[refusal.value.at], ctx)
    ensures refusal.Some? ==> forall i :: 0 <= i < refusal.value.at ==> Passes(registry.evaluators, constraints[i], ctx)
    ensures refusal.Some? ==>
              (refusal.value.ForeignScheme? <==> !IsConstraintScheme(constraints[refusal.value.at].scheme))
    ensures (exists i :: 0 <= i < |constraints| && constraints[i].scheme !in OURS) ==> refusal.Some?
  {
    for i := 0 to |constraints|
      invariant forall k :: 0 <= k < i ==> Passes(registry.evaluators, constraints[k], ctx)
      invariant forall k :: 0 <= k < i ==> constraints[k].scheme in OURS
    {
      var c := constraints[i];
      PassesExactly(registry.evaluators, c, ctx);
      if !IsConstraintScheme(c.scheme) {
        return Some(ForeignScheme(i));
      }
      var ev := registry.Find(c.id);
      if ev.None? {
        continue;
      }
      if !ev.value.accepts(c.parameters, ctx) {
        return Some(Unsatisfied(i));
      }
    }
    return None;
  }

  /** An obligation is discharged when it parses, an evaluator is registered for what it
      parses to, and the connection check passes. */
  predicate Discharged(evaluators: Evaluators, obligation: string, ctx: Context) {
    var c := Parse(obligation);
    c.Some? && c.value.id in evaluators && Passes(evaluators, c.value, ctx)
  }

  /** The clock is read once for every obligation. */
  method DischargeAll(registry: ConstraintRegistry, clientIP: string, clock: int -> int, unresolved: seq<string>)
    returns (released: bool)
    ensures released <==>
              forall i :: 0 <= i < |unresolved| ==>
                Discharged(registry.evaluators, unresolved[i], Context(clientIP, clock(i)))
  {
    for i := 0 to |unresolved|
      invariant forall k :: 0 <= k < i ==> Discharged(registry.evaluators, unresolved[k], Context(clientIP, clock(k)))
    {
      var c := Parse(unresolved[i]);
      if c.None? {
        return false;
      }
      var ev := registry.Find(c.value.id);
      if ev.None? {
        return false;
      }
      var refusal := CheckConstraints(registry, [c.value], Context(clientIP, clock(i)));
      if refusal.Some? {
        return false;
      }
      assert Passes(registry.evaluators, [c.value][0], Context(clientIP, clock(i)));
    }
    return true;
  }

  /** The built-in ids that printing and parsing lose. */
  predicate Lossy(id: string, parameters: string) {
    || id == "session:max-concurrent" || id == "session:hard-timeout" || id == "session:idle-timeout"
    || id == "op:readonly" || id == "op:audit:required"
    || ((id == "network:cidr" || id == "time:window") && parameters == "")
  }

  /** Of any other id with a colon the parser keeps the first piece. */
  lemma {:induction false} FirstPieceKept(c: Constraint, head: string, rest: string)
    requires ColonFree(NormalScheme(c.scheme)) && NormalScheme(c.scheme) != ""
    requires ColonFree(head) && head != "" && !TwoPiece(head) && c.id == head + (":" + rest)
    ensures Parse(Render(c)).Some? && Parse(Render(c)).value.id == head
  {
    var s := NormalScheme(c.scheme);
    var tail := rest + if c.parameters != "" then ":" + c.parameters else "";
    assert Render(c) == s + (":" + (head + (":" + tail)));
    SplitAtColon(head, tail);
    SplitAtColon(s, head + (":" + tail));
  }

  lemma {:induction false} CrumbWithoutParameters(c: Constraint, t: string, x: string)
    requires ColonFree(NormalScheme(c.scheme)) && IsTwoPiece(c.id, t, x) && c.parameters == ""
    ensures Parse(Render(c)).None?
  {
    SplitTwoPieces(c, t, x);
  }

  lemma {:induction false} IdsInPieces()
    ensures "session:max-concurrent" == "session" + (":" + "max-concurrent")
    ensures "session:hard-timeout" == "session" + (":" + "hard-timeout")
    ensures "session:idle-timeout" == "session" + (":" + "idle-timeout")
    ensures ColonFree("session") && !TwoPiece("session") && "session" != ""
  {
  }

  lemma {:induction false} SessionIdIsLost(c: Constraint)
    requires ColonFree(NormalScheme(c.scheme)) && NormalScheme(c.scheme) != ""
    requires c.id == "session:max-concurrent" || c.id == "session:hard-timeout" || c.id == "session:idle-timeout"
    ensures Parse(Render(c)).Some? && Parse(Render(c)).value.id == "session"
  {
    IdsInPieces();
    if c.id == "session:max-concurrent" {
      FirstPieceKept(c, "session", "max-concurrent");
    } else if c.id == "session:hard-timeout" {
      FirstPieceKept(c, "session", "hard-timeout");
    } else {
      FirstPieceKept(c, "session", "idle-timeout");
    }
  }

  lemma {:induction false} CrumbIsLost(c: Constraint)
    requires ColonFree(NormalScheme(c.scheme)) && c.parameters == ""
    requires c.id == "network:cidr" || c.id == "time:window"
    ensures Parse(Render(c)).None?
  {
    if c.id == "network:cidr" {
      assert c.id == "network" + (":" + "cidr");
      CrumbWithoutParameters(c, "network", "cidr");
    } else {
      assert c.id == "time" + (":" + "window");
      CrumbWithoutParameters(c, "time", "window");
    }
  }

  lemma {:induction false} OperationIdIsLost(c: Constraint)
    requires ColonFree(NormalScheme(c.scheme)) && NormalScheme(c.scheme) != ""
    requires c.id == "op:readonly" || c.id == "op:audit:required"
    ensures Parse(Render(c)).Some? && Parse(Render(c)).value.id == "op"
  {
    if c.id == "op:readonly" {
      assert c.id == "op" + (":" + "readonly");
      FirstPieceKept(c, "op", "readonly");
    } else {
      assert c.id == "op" + (":" + "audit:required");
      FirstPieceKept(c, "op", "audit:required");
    }
  }

  lemma {:induction false} ParsedLossyId(c: Constraint)
    requires ColonFree(NormalScheme(c.scheme)) && NormalScheme(c.scheme) != "" && Lossy(c.id, c.parameters)
    ensures Parse(Render(c)).None? || Parse(Render(c)).value.id == "session" || Parse(Render(c)).value.id == "op"
  {
    if c.id == "network:cidr" || c.id == "time:window" {
      CrumbIsLost(c);
    } else if c.id == "op:readonly" || c.id == "op:audit:required" {
      OperationIdIsLost(c);
    } else {
      SessionIdIsLost(c);
    }
  }

  lemma {:induction false} BuiltInIds(id: string, parameters: string)
    requires id in BUILT_IN && !Lossy(id, parameters)
    ensures id == "geo-fence" || ((id == "network:cidr" || id == "time:window") && parameters != "")
  {
  }

  lemma {:induction false} TwoPieceIds()
    ensures TwoPieceId("network:cidr") && TwoPieceId("time:window")
    ensures ColonFree("geo-fence") && !TwoPiece("geo-fence") && "geo-fence" != ""
  {
    assert IsTwoPiece("network:cidr", "network", "cidr");
    assert IsTwoPiece("time:window", "time", "window");
  }

  lemma {:induction false} KeptBuiltInIsRecoverable(c: Constraint)
    requires ColonFree(NormalScheme(c.scheme)) && NormalScheme(c.scheme) != ""
    requires c.id in BUILT_IN && !Lossy(c.id, c.parameters)
    ensures Recoverable(c)
  {
    BuiltInIds(c.id, c.parameters);
    TwoPieceIds();
  }

  lemma {:induction false} SchemeIsOnePiece(scheme: string)
    requires IsConstraintScheme(scheme)
    ensures ColonFree(NormalScheme(scheme)) && NormalScheme(scheme) != ""
  {
  }

  /** Over the built-in registry the obligation a built-in constraint prints to is
      discharged exactly when its id is not a lossy one and its evaluator accepts: session
      and operation constraints, and empty network and time ones, never are. */
  lemma {:induction false} BuiltInDischargedExactly(evaluators: Evaluators, behaviour: Behaviour, c: Constraint,
                                                    ctx: Context)
    requires HoldsBuiltIns(evaluators, behaviour) && IsConstraintScheme(c.scheme) && c.id in BUILT_IN
    ensures Discharged(evaluators, Render(c), ctx) <==> !Lossy(c.id, c.parameters) && behaviour(c.id, c.parameters, ctx)
  {
    SchemeIsOnePiece(c.scheme);
    if Lossy(c.id, c.parameters) {
      ParsedLossyId(c);
      assert "session" !in BUILT_IN && "op" !in BUILT_IN;
    } else {
      KeptBuiltInIsRecoverable(c);
      ParsesBack(c);
    }
  }

  /** The two halves of one rule: over the built-in registry, a constraint whose printed
      obligation is discharged also passes the connection check. */
  lemma {:induction false} DischargeImpliesCheck(evaluators: Evaluators, behaviour: Behaviour, c: Constraint,
                                                 ctx: Context)
    requires HoldsBuiltIns(evaluators, behaviour) && IsConstraintScheme(c.scheme)
    requires Discharged(evaluators, Render(c), ctx)
    ensures Passes(evaluators, c, ctx)
  {
    if c.id in BUILT_IN {
      BuiltInDischargedExactly(evaluators, behaviour, c, ctx);
    }
  }
}
