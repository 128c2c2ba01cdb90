/** The operation layer of an admission: every declared operation is decided, the
    decisions are kept on the result, and a refusal can become a challenge. */
module ClcDecisions {
  import opened ByteStrings
  import ConstraintStrings

  datatype Verdict = Allow | Deny | AllowUnresolved

  datatype Decision = Decision(verdict: Verdict, reason: string, unresolved: seq<string>)

  datatype Operation = Operation(id: string, parameters: string)

  // ------------------------------------------------------------ deciding one operation

  datatype Grant = Grant(id: string, parameters: string, constraints: seq<string>)

  /** A set of declared capabilities, and the constraints of its connection. */
  datatype Authority = Authority(capabilities: seq<string>, constraints: seq<ConstraintStrings.Constraint>)

  /** The capability language: reading a declared capability, checking an operation's own
      form (parameters, then the id and parameters together), and deciding over grants. */
  datatype Language = Language(
    toGrant: string -> Option<Grant>,
    normalize: string -> Option<string>,
    wellFormed: (string, string) -> bool,
    authorizeSet: (seq<Grant>, Operation) -> Decision
  )

  function ToGrants(l: Language, capabilities: seq<string>): Option<seq<Grant>> {
    if capabilities == [] then Some([])
    else
      var first := l.toGrant(capabilities[0]);
      var rest := ToGrants(l, capabilities[1..]);
      if first.None? || rest.None? then None else Some([first.value] + rest.value)
  }

  function Printed(constraints: seq<ConstraintStrings.Constraint>): seq<string> {
    seq(|constraints|, i requires 0 <= i < |constraints| => ConstraintStrings.Render(constraints[i]))
  }

  function Bind(grants: seq<Grant>, constraints: seq<string>): seq<Grant> {
    seq(|grants|, i requires 0 <= i < |grants| => grants[i].(constraints := grants[i].constraints + constraints))
  }

  predicate Absent(grants: seq<Grant>) {
    forall i :: 0 <= i < |grants| ==> grants[i].id == ""
  }

  /** An operation is checked for its form only when there is a grant to decide it by. */
  function AuthorizeGrants(l: Language, grants: seq<Grant>, op: Operation): Option<Decision> {
    var parameters := l.normalize(op.parameters);
    if parameters.None? then None
    else if Absent(grants) then Some(l.authorizeSet(grants, Operation(op.id, parameters.value)))
    else if !l.wellFormed(op.id, parameters.value) then None
    else Some(l.authorizeSet(grants, Operation(op.id, parameters.value)))
  }

  function AuthorizeUnder(l: Language, a: Authority, op: Operation): Option<Decision> {
    var grants := ToGrants(l, a.capabilities);
    if grants.None? then None else AuthorizeGrants(l, Bind(grants.value, Printed(a.constraints)), op)
  }

  lemma {:induction false} ToGrantsReadsEach(l: Language, capabilities: seq<string>)
    ensures ToGrants(l, capabilities).None? <==>
            exists i :: 0 <= i < |capabilities| && l.toGrant(capabilities[i]).None?
    ensures var grants := ToGrants(l, capabilities);
            grants.Some? ==>
              && |grants.value| == |capabilities|
              && forall i :: 0 <= i < |capabilities| ==> l.toGrant(capabilities[i]) == Some(grants.value[i])
    decreases |capabilities|
  {
    if capabilities != [] {
      var rest := capabilities[1..];
      ToGrantsReadsEach(l, rest);
      assert forall i :: 0 <= i < |rest| ==> rest[i] == capabilities[i + 1];
      if i :| 0 <= i < |capabilities| && l.toGrant(capabilities[i]).None? {
        assert i > 0 ==> l.toGrant(rest[i - 1]).None?;
      }
    }
  }

  /** A grant as it is handed to the language: its own constraints, then the connection's. */
  predicate IsHanded(l: Language, a: Authority, i: nat, g: Grant)
    requires i < |a.capabilities|
  {
    var read := l.toGrant(a.capabilities[i]);
    && read.Some? && g.id == read.value.id && g.parameters == read.value.parameters
    && |g.constraints| == |read.value.constraints| + |a.constraints|
    && (forall k :: 0 <= k < |read.value.constraints| ==> g.constraints[k] == read.value.constraints[k])
    && forall k :: 0 <= k < |a.constraints| ==>
         g.constraints[|read.value.constraints| + k] == ConstraintStrings.Render(a.constraints[k])
  }

  /** When the language is not asked: a capability cannot be read, the parameters cannot be
      normalised, or the operation is malformed and some grant is named. */
  lemma {:induction false} NotAskedExactly(l: Language, a: Authority, op: Operation)
    ensures AuthorizeUnder(l, a, op).None? <==>
            || (exists i :: 0 <= i < |a.capabilities| && l.toGrant(a.capabilities[i]).None?)
            || l.normalize(op.parameters).None?
            || (!l.wellFormed(op.id, l.normalize(op.parameters).value)
                && exists i :: 0 <= i < |a.capabilities| && l.toGrant(a.capabilities[i]).value.id != "")
  {
    ToGrantsReadsEach(l, a.capabilities);
    var grants := ToGrants(l, a.capabilities);
    if grants.Some? {
      var bound := Bind(grants.value, Printed(a.constraints));
      assert forall i :: 0 <= i < |bound| ==> bound[i].id == l.toGrant(a.capabilities[i]).value.id;
    }
  }

  /** Otherwise it decides over one grant for every capability, in order, each carrying the
      connection's constraints as they are printed, and over the operation with its
      parameters normalised. */
  lemma {:induction false} AskedExactly(l: Language, a: Authority, op: Operation) returns (grants: seq<Grant>)
    requires AuthorizeUnder(l, a, op).Some?
    ensures |grants| == |a.capabilities| && forall i :: 0 <= i < |grants| ==> IsHanded(l, a, i, grants[i])
    ensures AuthorizeUnder(l, a, op).value ==
            l.authorizeSet(grants, Operation(op.id, l.normalize(op.parameters).value))
  {
    ToGrantsReadsEach(l, a.capabilities);
    var read, printed := ToGrants(l, a.capabilities).value, Printed(a.constraints);
    grants := Bind(read, printed);
    forall i | 0 <= i < |grants| ensures IsHanded(l, a, i, grants[i]) {
      assert grants[i].constraints == read[i].constraints + printed;
    }
  }

  /** Obligations of both, each listed once. */
  function Union(a: seq<string>, b: seq<string>): seq<string>
    decreases b
  {
    if b == [] then a
    else if b[0] in a then Union(a, b[1..])
    else Union(a + [b[0]], b[1..])
  }

  /** Deny overrides; obligations are the union. */
  function Combine(a: Decision, b: Decision): Decision {
    if a.verdict.Deny? then a
    else if b.verdict.Deny? then b
    else if a.verdict.Allow? && b.verdict.Allow? then a
    else
      var reason := if a.verdict.AllowUnresolved? then a.reason else b.reason;
      Decision(AllowUnresolved, reason, Union(a.unresolved, b.unresolved))
  }

  /** The agent's capabilities and the principal's grants must both authorize. */
  function AuthorizeOperation(l: Language, aic: Option<Authority>, pa: Option<Authority>,
                              op: Operation): Option<Decision> {
    if aic.None? && pa.None? then None
    else if aic.None? then AuthorizeUnder(l, pa.value, op)
    else
      var agent := AuthorizeUnder(l, aic.value, op);
      if agent.None? then None
      else if pa.None? then agent
      else
        var principal := AuthorizeUnder(l, pa.value, op);
        if principal.None? then None else Some(Combine(agent.value, principal.value))
  }

  lemma {:induction false} UnionHolds(a: seq<string>, b: seq<string>, o: string)
    ensures o in Union(a, b) <==> o in a || o in b
    decreases b
  {
    if b != [] {
      UnionHolds(if b[0] in a then a else a + [b[0]], b[1..], o);
    }
  }

  predicate Distinct(s: seq<string>) {
    forall i, j :: 0 <= i < j < |s| ==> s[i] != s[j]
  }

  lemma {:induction false} UnionKeepsOrder(a: seq<string>, b: seq<string>)
    ensures a <= Union(a, b) && (Distinct(a) ==> Distinct(Union(a, b)))
    decreases |b|
  {
    if b != [] {
      UnionKeepsOrder(if b[0] in a then a else a + [b[0]], b[1..]);
    }
  }

  /** Two decisions combined: a denial stands as it is, two outright allows are the first,
      and otherwise the obligations of both are owed, the first's before the second's and
      none twice, for the reason of the first that leaves any. */
  lemma {:induction false} CombinedExactly(a: Decision, b: Decision)
    ensures a.verdict == Deny ==> Combine(a, b) == a
    ensures a.verdict != Deny && b.verdict == Deny ==> Combine(a, b) == b
    ensures a.verdict == Allow && b.verdict == Allow ==> Combine(a, b) == a
    ensures var d := Combine(a, b);
            a.verdict != Deny && b.verdict != Deny && (a.verdict != Allow || b.verdict != Allow) ==>
              && d.verdict == AllowUnresolved
              && d.reason == (if a.verdict == Allow then b.reason else a.reason)
              && a.unresolved <= d.unresolved && (Distinct(a.unresolved) ==> Distinct(d.unresolved))
              && (forall o :: o in d.unresolved <==> o in a.unresolved || o in b.unresolved)
  {
    UnionKeepsOrder(a.unresolved, b.unresolved);
    forall o ensures o in Union(a.unresolved, b.unresolved) <==> o in a.unresolved || o in b.unresolved {
      UnionHolds(a.unresolved, b.unresolved, o);
    }
  }

  /** The decision of one source, if it is there and can be decided. */
  ghost predicate Decides(l: Language, source: Option<Authority>, op: Operation, verdict: Verdict) {
    && source.Some?
    && AuthorizeUnder(l, source.value, op).Some?
    && AuthorizeUnder(l, source.value, op).value.verdict == verdict
  }

  /** An operation is allowed outright exactly when every source there is allows it
      outright, and there is one; it is denied when one denies and none is undecidable. */
  lemma {:induction false} AllowNeedsEverySource(l: Language, aic: Option<Authority>, pa: Option<Authority>,
                                                 op: Operation)
    ensures var d := AuthorizeOperation(l, aic, pa, op);
            (d.Some? && d.value.verdict == Allow) <==>
              && (aic.Some? || pa.Some?)
              && (aic.Some? ==> Decides(l, aic, op, Allow))
              && (pa.Some? ==> Decides(l, pa, op, Allow))
    ensures var d := AuthorizeOperation(l, aic, pa, op);
            (d.Some? && d.value.verdict == Deny) <==>
            d.Some? && (Decides(l, aic, op, Deny) || Decides(l, pa, op, Deny))
    ensures AuthorizeOperation(l, aic, pa, op).None? <==>
              || (aic.None? && pa.None?)
              || (aic.Some? && AuthorizeUnder(l, aic.value, op).None?)
              || (pa.Some? && AuthorizeUnder(l, pa.value, op).None?)
  {
  }

  /** With two sources, no residual obligation of either is lost. */
  lemma {:induction false} ResidualsOfBoth(l: Language, aic: Authority, pa: Authority, op: Operation, o: string)
    requires var d := AuthorizeOperation(l, Some(aic), Some(pa), op); d.Some? && d.value.verdict == AllowUnresolved
    ensures o in AuthorizeOperation(l, Some(aic), Some(pa), op).value.unresolved <==>
            o in AuthorizeUnder(l, aic, op).value.unresolved || o in AuthorizeUnder(l, pa, op).value.unresolved
  {
    UnionHolds(AuthorizeUnder(l, aic, op).value.unresolved, AuthorizeUnder(l, pa, op).value.unresolved, o);
  }

  // ---------------------------------------------------------------- the operation loop

  datatype OperationDecision = OperationDecision(
    id: string, parameters: string, verdict: Verdict, reason: string, unresolved: seq<string>, released: bool)

  /** clock is the instant at which an operation's context is checked; discharge is the
      consumer's rule over the obligations it understands. The evaluator is told which
      operation it is called for: called again, it may answer otherwise. */
  datatype Config = Config(
    operations: seq<Operation>,
    language: Language,
    aic: Option<Authority>,
    pa: Option<Authority>,
    dischargeObligations: bool,
    discharge: Decision -> bool,
    evaluator: Option<(int, Operation, seq<string>) -> bool>,
    requireFresh: bool,
    contextFresh: Option<int -> bool>,
    clock: int -> int
  )

  predicate ContextPasses(cfg: Config, now: int) {
    cfg.requireFresh ==> cfg.contextFresh.Some? && cfg.contextFresh.value(now)
  }

  function DecisionOn(cfg: Config, i: nat): Option<Decision>
    requires i < |cfg.operations|
  {
    AuthorizeOperation(cfg.language, cfg.aic, cfg.pa, cfg.operations[i])
  }

  /** The deployment takes on what the language left open. */
  predicate TakenOn(cfg: Config, i: nat, op: Operation, d: Decision) {
    && (cfg.dischargeObligations ==> cfg.discharge(d))
    && cfg.evaluator.Some? && cfg.evaluator.value(i, op, d.unresolved)
  }

  /** An operation lets the admission go on: it is decided, allowed outright or left open
      and taken on, and the context was fresh. */
  predicate GoesOn(cfg: Config, i: nat)
    requires i < |cfg.operations|
  {
    var d := DecisionOn(cfg, i);
    && d.Some?
    && !d.value.verdict.Deny?
    && (d.value.verdict.AllowUnresolved? ==> TakenOn(cfg, i, cfg.operations[i], d.value))
    && ContextPasses(cfg, cfg.clock(i))
  }

  function Entry(op: Operation, d: Decision, released: bool): OperationDecision {
    OperationDecision(op.id, op.parameters, d.verdict, d.reason, d.unresolved, released)
  }

  /** The decision kept of an operation that goes on: released, if it was left open. */
  function PassedEntry(cfg: Config, i: nat): OperationDecision
    requires i < |cfg.operations| && DecisionOn(cfg, i).Some?
  {
    var d := DecisionOn(cfg, i).value;
    Entry(cfg.operations[i], d, d.verdict.AllowUnresolved?)
  }

  /** The language left the operation unresolved. */
  predicate LeftOpen(cfg: Config, i: nat)
    requires i < |cfg.operations|
  {
    DecisionOn(cfg, i).Some? && DecisionOn(cfg, i).value.verdict.AllowUnresolved?
  }

  /** One decision per operation in order, each either allowed or released. */
  ghost predicate Admitted(cfg: Config, n: nat, decisions: seq<OperationDecision>)
    requires n <= |cfg.operations|
  {
    && |decisions| == n
    && forall i :: 0 <= i < n ==> GoesOn(cfg, i) && decisions[i] == PassedEntry(cfg, i)
  }

  /** What is kept of an admitted operation: the operation, and the language's own answer on
      it; it is marked released exactly when the answer left something open. */
  lemma {:induction false} KeptAsDecided(cfg: Config, n: nat, decisions: seq<OperationDecision>, i: nat)
    requires n <= |cfg.operations| && Admitted(cfg, n, decisions) && i < n
    ensures |decisions| == n
    ensures var op, kept := cfg.operations[i], decisions[i];
            && kept.id == op.id && kept.parameters == op.parameters
            && AuthorizeOperation(cfg.language, cfg.aic, cfg.pa, op) ==
               Some(Decision(kept.verdict, kept.reason, kept.unresolved))
            && (kept.released <==> kept.verdict == AllowUnresolved)
  {
    assert GoesOn(cfg, i) && decisions[i] == PassedEntry(cfg, i);
  }

  datatype Refusal = Undecidable(at: nat) | RefusedWith(at: nat, decisions: seq<OperationDecision>)

  class AdmissionResult {
    var decisions: seq<OperationDecision>

    constructor ()
      ensures decisions == []
    {
      decisions := [];
    }
  }

  /** An operation that cannot be decided is refused without the decisions made; any other
      refusal carries them all, the refused one last and unreleased. */
  ghost predicate RefusedAt(cfg: Config, refusal: Refusal, decisions: seq<OperationDecision>) {
    var n := refusal.at;
    && n < |cfg.operations|
    && !GoesOn(cfg, n)
    && match refusal
       case Undecidable(_) => DecisionOn(cfg, n).None? && Admitted(cfg, n, decisions)
       case RefusedWith(_, carried) =>
         && carried == decisions
         && |carried| == n + 1
         && Admitted(cfg, n, carried[..n])
         && DecisionOn(cfg, n).Some?
         && carried[n] == Entry(cfg.operations[n], DecisionOn(cfg, n).value, false)
  }

  /** What a refusal carries of the operation it is about. */
  lemma {:induction false} RefusedAsDecided(cfg: Config, refusal: Refusal, decisions: seq<OperationDecision>)
    requires RefusedAt(cfg, refusal, decisions)
    ensures var op, n := cfg.operations[refusal.at], refusal.at;
            match refusal
            case Undecidable(_) => |decisions| == n && AuthorizeOperation(cfg.language, cfg.aic, cfg.pa, op) == None
            case RefusedWith(_, carried) =>
              && |carried| == n + 1 && carried[n].id == op.id && carried[n].parameters == op.parameters
              && AuthorizeOperation(cfg.language, cfg.aic, cfg.pa, op) ==
                 Some(Decision(carried[n].verdict, carried[n].reason, carried[n].unresolved))
              && !carried[n].released
  {
  }

  method CheckContext(cfg: Config, now: int) returns (ok: bool)
    ensures ok <==> ContextPasses(cfg, now)
  {
    if !cfg.requireFresh {
      return true;
    }
    if cfg.contextFresh.None? {
      return false;
    }
    return cfg.contextFresh.value(now);
  }

  method EvaluateOperations(result: AdmissionResult, cfg: Config) returns (refusal: Option<Refusal>)
    requires result.decisions == []
    modifies result
    ensures refusal.None? ==> Admitted(cfg, |cfg.operations|, result.decisions)
    ensures refusal.Some? ==> RefusedAt(cfg, refusal.value, result.decisions)
  {
    for i := 0 to |cfg.operations|
      invariant Admitted(cfg, i, result.decisions)
    {
      var op := cfg.operations[i];
      var answer := AuthorizeOperation(cfg.language, cfg.aic, cfg.pa, op);
      if answer.None? {
        return Some(Undecidable(i));
      }
      var d := answer.value;
      ghost var before := result.decisions;
      result.decisions := result.decisions +
        [OperationDecision(op.id, op.parameters, d.verdict, d.reason, d.unresolved, false)];
      assert result.decisions[..i] == before;
      match d.verdict
      case Allow =>
        var inTime := CheckContext(cfg, cfg.clock(i));
        if !inTime {
          return Some(RefusedWith(i, result.decisions));
        }
      case Deny =>
        return Some(RefusedWith(i, result.decisions));
      case AllowUnresolved =>
        if cfg.dischargeObligations {
          if !cfg.discharge(d) {
            return Some(RefusedWith(i, result.decisions));
          }
        }
        if cfg.evaluator.Some? && cfg.evaluator.value(i, op, d.unresolved) {
          var inTime := CheckContext(cfg, cfg.clock(i));
          if !inTime {
            return Some(RefusedWith(i, result.decisions));
          }
          var last := |result.decisions| - 1;
          result.decisions := result.decisions[last := result.decisions[last].(released := true)];
        } else {
          return Some(RefusedWith(i, result.decisions));
        }
    }
    return None;
  }

  /** The description leaves no choice: one refusal, with one list of decisions, meets it. */
  lemma {:induction false} RefusalIsDetermined(cfg: Config, r: Refusal, s: Refusal, decisions: seq<OperationDecision>,
                                               others: seq<OperationDecision>)
    requires RefusedAt(cfg, r, decisions) && RefusedAt(cfg, s, others)
    ensures r == s && decisions == others
  {
    if r.at < s.at {
      AdmittedPast(cfg, s, others, r.at);
    } else if s.at < r.at {
      AdmittedPast(cfg, r, decisions, s.at);
    } else {
      SameDecisions(cfg, r.at, decisions[..r.at], others[..r.at]);
      assert decisions == decisions[..r.at] + decisions[r.at..] && others == others[..r.at] + others[r.at..];
    }
  }

  lemma {:induction false} AdmittedPast(cfg: Config, r: Refusal, decisions: seq<OperationDecision>, i: nat)
    requires RefusedAt(cfg, r, decisions) && i < r.at
    ensures GoesOn(cfg, i)
  {
  }

  lemma {:induction false} SameDecisions(cfg: Config, n: nat, a: seq<OperationDecision>, b: seq<OperationDecision>)
    requires n <= |cfg.operations| && Admitted(cfg, n, a) && Admitted(cfg, n, b)
    ensures a == b
  {
  }

  // ------------------------------------------------- the connection's own evaluator

  /** Every obligation of operation i is discharged, at its own instant. */
  predicate AllDischarged(evaluators: ConstraintStrings.Evaluators, clientIP: string, clock: (int, int) -> int,
                          i: int, unresolved: seq<string>) {
    forall k :: 0 <= k < |unresolved| ==>
      ConstraintStrings.Discharged(evaluators, unresolved[k], ConstraintStrings.Context(clientIP, clock(i, k)))
  }

  /** The evaluator that discharges what the constraint registry can evaluate. */
  function ConnectionEvaluator(evaluators: ConstraintStrings.Evaluators, clientIP: string,
                               clock: (int, int) -> int): (int, Operation, seq<string>) -> bool {
    (i, op, unresolved) => AllDischarged(evaluators, clientIP, clock, i, unresolved)
  }

  lemma {:induction false} PlaceOf(unresolved: seq<string>, o: string) returns (k: nat)
    requires o in unresolved
    ensures k < |unresolved| && unresolved[k] == o
  {
    k :| 0 <= k < |unresolved| && unresolved[k] == o;
  }

  lemma {:induction false} EachIsDischarged(evaluators: ConstraintStrings.Evaluators, clientIP: string,
                                            clock: (int, int) -> int, i: int, unresolved: seq<string>, k: nat)
    requires AllDischarged(evaluators, clientIP, clock, i, unresolved) && k < |unresolved|
    ensures ConstraintStrings.Discharged(evaluators, unresolved[k], ConstraintStrings.Context(clientIP, clock(i, k)))
  {
  }

  /** What the evaluator takes on it has discharged, each obligation at its own instant. */
  lemma {:induction false} TakenOnIsMet(evaluators: ConstraintStrings.Evaluators,
                                        behaviour: ConstraintStrings.Behaviour, clientIP: string,
                                        clock: (int, int) -> int, i: int, unresolved: seq<string>, k: nat,
                                        c: ConstraintStrings.Constraint)
    requires AllDischarged(evaluators, clientIP, clock, i, unresolved)
    requires ConstraintStrings.HoldsBuiltIns(evaluators, behaviour)
    requires ConstraintStrings.IsConstraintScheme(c.scheme) && c.id in ConstraintStrings.BUILT_IN
    requires k < |unresolved| && unresolved[k] == ConstraintStrings.Render(c)
    ensures !ConstraintStrings.Lossy(c.id, c.parameters)
    ensures behaviour(c.id, c.parameters, ConstraintStrings.Context(clientIP, clock(i, k)))
  {
    EachIsDischarged(evaluators, clientIP, clock, i, unresolved, k);
    ConstraintStrings.BuiltInDischargedExactly(evaluators, behaviour, c,
                                               ConstraintStrings.Context(clientIP, clock(i, k)));
  }

  lemma {:induction false} OpenIsTakenOn(cfg: Config, i: nat, evaluators: ConstraintStrings.Evaluators,
                                         clientIP: string, clock: (int, int) -> int)
    requires i < |cfg.operations| && GoesOn(cfg, i) && DecisionOn(cfg, i).value.verdict.AllowUnresolved?
    requires cfg.evaluator == Some(ConnectionEvaluator(evaluators, clientIP, clock))
    ensures AllDischarged(evaluators, clientIP, clock, i, DecisionOn(cfg, i).value.unresolved)
  {
    assert ConnectionEvaluator(evaluators, clientIP, clock)(i, cfg.operations[i], DecisionOn(cfg, i).value.unresolved);
  }

  /** Under that evaluator and the built-in registry, an operation left open with a
      built-in constraint goes on only if the constraint is not one that printing loses and
      its own evaluator accepted it. */
  lemma {:induction false} OpenConstraintIsMet(cfg: Config, i: nat, evaluators: ConstraintStrings.Evaluators,
                                               behaviour: ConstraintStrings.Behaviour,
                                               clientIP: string, clock: (int, int) -> int,
                                               c: ConstraintStrings.Constraint)
    requires i < |cfg.operations| && GoesOn(cfg, i) && DecisionOn(cfg, i).value.verdict.AllowUnresolved?
    requires cfg.evaluator == Some(ConnectionEvaluator(evaluators, clientIP, clock))
    requires ConstraintStrings.HoldsBuiltIns(evaluators, behaviour)
    requires ConstraintStrings.IsConstraintScheme(c.scheme) && c.id in ConstraintStrings.BUILT_IN
    requires ConstraintStrings.Render(c) in DecisionOn(cfg, i).value.unresolved
    ensures !ConstraintStrings.Lossy(c.id, c.parameters)
    ensures exists k :: 0 <= k < |DecisionOn(cfg, i).value.unresolved|
              && DecisionOn(cfg, i).value.unresolved[k] == ConstraintStrings.Render(c)
              && behaviour(c.id, c.parameters, ConstraintStrings.Context(clientIP, clock(i, k)))
  {
    OpenIsTakenOn(cfg, i, evaluators, clientIP, clock);
    var k := PlaceOf(DecisionOn(cfg, i).value.unresolved, ConstraintStrings.Render(c));
    TakenOnIsMet(evaluators, behaviour, clientIP, clock, i, DecisionOn(cfg, i).value.unresolved, k, c);
  }

  // --------------------------------------------------------------------- the aggregate

  function Residuals(decisions: seq<OperationDecision>): seq<string> {
    if decisions == [] then []
    else
      var last := decisions[|decisions| - 1];
      Residuals(decisions[..|decisions| - 1]) + if last.verdict.AllowUnresolved? then last.unresolved else []
  }

  function Reasons(decisions: seq<OperationDecision>): seq<string> {
    if decisions == [] then []
    else
      var last := decisions[|decisions| - 1];
      var reasons := Reasons(decisions[..|decisions| - 1]);
      if last.verdict.AllowUnresolved? && last.reason != "" then reasons + [last.reason] else reasons
  }

  function Joined(reasons: seq<string>): string {
    if reasons == [] then ""
    else if |reasons| == 1 then reasons[0]
    else reasons[0] + "; " + Joined(reasons[1..])
  }

  /** Reasons stand in order, a semicolon and a space between any two. */
  lemma {:induction false} JoinedInOrder(reasons: seq<string>, last: string)
    ensures Joined([]) == "" && Joined([last]) == last
    ensures reasons != [] ==> Joined(reasons + [last]) == Joined(reasons) + "; " + last
    decreases |reasons|
  {
    if |reasons| > 1 {
      JoinedInOrder(reasons[1..], last);
      assert (reasons + [last])[1..] == reasons[1..] + [last];
      ConcatAssociative(reasons[0] + "; ", Joined(reasons[1..]), "; " + last);
      assert Joined(reasons[1..]) + "; " + last == Joined(reasons[1..]) + ("; " + last);
    } else if |reasons| == 1 {
      assert (reasons + [last])[1..] == [last];
    }
  }

  /** The verdict of an empty list is no verdict. */
  method Aggregate(decisions: seq<OperationDecision>)
    returns (verdict: Option<Verdict>, reason: string, unresolved: seq<string>)
    ensures verdict.None? <==> decisions == []
    ensures decisions != [] ==>
              (verdict == Some(AllowUnresolved) <==> exists d :: d in decisions && d.verdict.AllowUnresolved?)
    ensures decisions != [] ==> verdict == Some(Allow) || verdict == Some(AllowUnresolved)
    ensures unresolved == Residuals(decisions) && reason == Joined(Reasons(decisions))
  {
    if |decisions| == 0 {
      return None, "", [];
    }
    verdict, unresolved := Some(Allow), [];
    var reasons := [];
    for i := 0 to |decisions|
      invariant verdict == Some(Allow) || verdict == Some(AllowUnresolved)
      invariant verdict == Some(AllowUnresolved) <==> exists k :: 0 <= k < i && decisions[k].verdict.AllowUnresolved?
      invariant unresolved == Residuals(decisions[..i]) && reasons == Reasons(decisions[..i])
    {
      var d := decisions[i];
      assert decisions[..i + 1][..i] == decisions[..i];
      if d.verdict != AllowUnresolved {
        continue;
      }
      verdict := Some(AllowUnresolved);
      if d.reason != "" {
        reasons := reasons + [d.reason];
      }
      unresolved := unresolved + d.unresolved;
    }
    assert decisions[..|decisions|] == decisions;
    reason := Joined(reasons);
  }

  /** The residual obligations of the first n operations, straight from the language. */
  function Owed(cfg: Config, n: nat): seq<string>
    requires n <= |cfg.operations|
  {
    if n == 0 then []
    else
      var d := DecisionOn(cfg, n - 1);
      Owed(cfg, n - 1) + if d.Some? && d.value.verdict.AllowUnresolved? then d.value.unresolved else []
  }

  lemma {:induction false} ResidualsAreOwed(cfg: Config, n: nat, decisions: seq<OperationDecision>)
    requires n <= |cfg.operations| && Admitted(cfg, n, decisions)
    ensures Residuals(decisions) == Owed(cfg, n)
  {
    if n > 0 {
      ResidualsAreOwed(cfg, n - 1, decisions[..n - 1]);
    }
  }

  /** An admission's aggregate carries everything the language left open, in order, and
      is an outright allow exactly when every operation was allowed outright. */
  method AdmitAndAggregate(result: AdmissionResult, cfg: Config)
    returns (refusal: Option<Refusal>, verdict: Option<Verdict>, unresolved: seq<string>)
    requires result.decisions == []
    modifies result
    ensures refusal.None? <==> forall i :: 0 <= i < |cfg.operations| ==> GoesOn(cfg, i)
    ensures refusal.None? ==> unresolved == Owed(cfg, |cfg.operations|)
    ensures refusal.None? ==> (verdict.None? <==> cfg.operations == [])
    ensures refusal.None? && cfg.operations != [] ==> (verdict == Some(Allow) <==> AllAllowed(cfg))
  {
    refusal := EvaluateOperations(result, cfg);
    verdict, unresolved := None, [];
    if refusal.None? {
      var reason;
      verdict, reason, unresolved := Aggregate(result.decisions);
      ResidualsAreOwed(cfg, |cfg.operations|, result.decisions);
      assert forall i :: 0 <= i < |cfg.operations| ==> result.decisions[i].verdict == DecisionOn(cfg, i).value.verdict;
      assert forall i :: 0 <= i < |cfg.operations| ==> result.decisions[i] in result.decisions;
    }
  }

  ghost predicate AllAllowed(cfg: Config) {
    forall i :: 0 <= i < |cfg.operations| ==> DecisionOn(cfg, i).Some? && DecisionOn(cfg, i).value.verdict.Allow?
  }

  // --------------------------------------------------------------------- the challenge

  /** What a challenge needs besides a decision; each can fail. */
  datatype Tokens = Tokens(
    digest: OperationDecision -> bool, nonce: Option<string>, id: Option<string>, build: OperationDecision -> bool)

  datatype Challenge = NoChallenge | About(at: nat) | Failed(at: nat)

  predicate Open(d: OperationDecision) {
    d.verdict.AllowUnresolved? && !d.released
  }

  predicate Buildable(t: Tokens, d: OperationDecision) {
    t.digest(d) && t.nonce.Some? && t.nonce.value != "" && t.id.Some? && t.id.value != "" && t.build(d)
  }

  /** The first decision left open, or none. */
  method BuildChallenge(decisions: seq<OperationDecision>, t: Tokens) returns (c: Challenge)
    ensures c.NoChallenge? <==> forall i :: 0 <= i < |decisions| ==> !Open(decisions[i])
    ensures !c.NoChallenge? ==> c.at < |decisions| && Open(decisions[c.at])
    ensures !c.NoChallenge? ==> forall i :: 0 <= i < c.at ==> !Open(decisions[i])
    ensures !c.NoChallenge? ==> (c.About? <==> Buildable(t, decisions[c.at]))
  {
    for i := 0 to |decisions|
      invariant forall k :: 0 <= k < i ==> !Open(decisions[k])
    {
      var d := decisions[i];
      if d.verdict != AllowUnresolved || d.released {
        continue;
      }
      if !t.digest(d) || t.nonce.None? || t.nonce.value == "" || t.id.None? || t.id.value == "" || !t.build(d) {
        return Failed(i);
      }
      return About(i);
    }
    return NoChallenge;
  }

  function Carried(refusal: Refusal): seq<OperationDecision> {
    match refusal
    case Undecidable(_) => []
    case RefusedWith(_, decisions) => decisions
  }

  /** Of the decisions a refusal carries only the last can be open: it is exactly when the
      language left that operation unresolved. */
  lemma {:induction false} OnlyTheLastIsOpen(cfg: Config, refusal: Refusal, decisions: seq<OperationDecision>)
    requires RefusedAt(cfg, refusal, decisions)
    ensures var carried := Carried(refusal);
            && (forall i :: 0 <= i < |carried| - 1 ==> !Open(carried[i]))
            && (carried != [] ==> |carried| == refusal.at + 1)
            && (carried != [] ==> (Open(carried[refusal.at]) <==> LeftOpen(cfg, refusal.at)))
  {
    if refusal.RefusedWith? {
      var carried := refusal.decisions;
      assert forall i :: 0 <= i < refusal.at ==> carried[i] == carried[..refusal.at][i];
    }
  }

  /** Any challenge is about the operation the refusal is about, and there is one to build
      exactly when that operation was left unresolved. */
  method RefuseWithChallenge(cfg: Config, ghost refusal: Refusal, ghost decisions: seq<OperationDecision>,
                             carried: seq<OperationDecision>, t: Tokens)
    returns (c: Challenge)
    requires RefusedAt(cfg, refusal, decisions) && carried == Carried(refusal)
    ensures c.NoChallenge? <==> !LeftOpen(cfg, refusal.at)
    ensures !c.NoChallenge? ==> c.at == refusal.at
  {
    OnlyTheLastIsOpen(cfg, refusal, decisions);
    c := BuildChallenge(carried, t);
  }

  /** An admission leaves nothing open to challenge. */
  lemma {:induction false} AdmissionIsNotChallenged(cfg: Config, decisions: seq<OperationDecision>)
    requires Admitted(cfg, |cfg.operations|, decisions)
    ensures forall i :: 0 <= i < |decisions| ==> !Open(decisions[i])
  {
  }
}
