/** The risk monitor: per-agent lists of violations, filtered in place by each rule's
    window, and the rules evaluated over them. Times are Unix seconds. */
module RiskMonitoring {
  import opened ByteStrings

  datatype Violation = Violation(agent: string, signal: string, capability: string, details: string, at: int)

  datatype Rule = Rule(
    name: string, signals: seq<string>, threshold: int, windowSeconds: int, action: string, reason: string)

  datatype Enforcement = Enforcement(agent: string, action: string, reason: string)

  /** Letter-case folding equality of two signals. */
  type Folding = (string, string) -> bool

  const DEFAULT_WINDOW: int := 60

  function Window(r: Rule): int {
    if r.windowSeconds <= 0 then DEFAULT_WINDOW else r.windowSeconds
  }

  function Threshold(r: Rule): int {
    if r.threshold <= 0 then 1 else r.threshold
  }

  predicate Names(fold: Folding, signals: seq<string>, signal: string) {
    exists s :: s in signals && (s == "*" || fold(s, signal))
  }

  predicate Matches(fold: Folding, r: Rule, list: seq<Violation>) {
    exists v :: v in list && Names(fold, r.signals, v.signal)
  }

  function InWindow(list: seq<Violation>, now: int, window: int): seq<Violation> {
    if list == [] then []
    else
      var front := InWindow(list[..|list| - 1], now, window);
      var last := list[|list| - 1];
      if now - last.at > window then front else front + [last]
  }

  predicate Fires(fold: Folding, r: Rule, kept: seq<Violation>) {
    Matches(fold, r, kept) && |kept| >= Threshold(r)
  }

  function ActionOf(r: Rule, agent: string): Enforcement {
    Enforcement(agent, if r.action == "" then "disconnect" else r.action, r.reason)
  }

  datatype Evaluation = Kept(list: seq<Violation>) | Fired(rule: Rule)

  /** The rules in order, each filtering what the ones before it kept. */
  function Evaluate(fold: Folding, rules: seq<Rule>, list: seq<Violation>, now: int): Evaluation {
    if rules == [] then Kept(list)
    else
      var kept := InWindow(list, now, Window(rules[0]));
      if Fires(fold, rules[0], kept) then Fired(rules[0]) else Evaluate(fold, rules[1..], kept, now)
  }

  type Lists = map<string, seq<Violation>>

  function ListOf(lists: Lists, agent: string): seq<Violation> {
    if agent in lists then lists[agent] else []
  }

  /** A violation without a time takes the clock's. */
  function Dated(v: Violation, clock: int): Violation {
    if v.at == 0 then v.(at := clock) else v
  }

  datatype Outcome = Outcome(lists: Lists, fired: Option<Enforcement>)

  /** What recording a violation does to the lists, and what it enforces. */
  function Recorded(fold: Folding, rules: seq<Rule>, lists: Lists, v: Violation, clock: int): Outcome {
    if rules == [] then Outcome(lists, None)
    else
      var d := Dated(v, clock);
      match Evaluate(fold, rules, ListOf(lists, d.agent) + [d], d.at)
      case Kept(list) => Outcome(lists[d.agent := list], None)
      case Fired(rule) => Outcome(lists - {d.agent}, Some(ActionOf(rule, d.agent)))
  }

  /** A violation with a time is appended and judged at that time, whatever the clock. */
  lemma {:induction false} TimedAsGiven(fold: Folding, rules: seq<Rule>, lists: Lists, v: Violation, clock: int)
    requires v.at != 0 && rules != []
    ensures Recorded(fold, rules, lists, v, clock) ==
            match Evaluate(fold, rules, ListOf(lists, v.agent) + [v], v.at)
            case Kept(list) => Outcome(lists[v.agent := list], None)
            case Fired(rule) => Outcome(lists - {v.agent}, Some(ActionOf(rule, v.agent)))
  {
  }

  /** One without a time is treated as one that carries the clock's. */
  lemma {:induction false} UntimedTakesClock(fold: Folding, rules: seq<Rule>, lists: Lists, v: Violation, clock: int)
    requires v.at == 0
    ensures Recorded(fold, rules, lists, v, clock) == Recorded(fold, rules, lists, v.(at := clock), 0)
  {
  }

  /** The violations kept are those no older than the rule's window, a minute unless it
      gives one. */
  lemma {:induction false} KeptExactly(r: Rule, list: seq<Violation>, now: int, v: Violation)
    ensures v in InWindow(list, now, Window(r)) <==>
            v in list && now - v.at <= if r.windowSeconds > 0 then r.windowSeconds else 60
    decreases |list|
  {
    if list != [] {
      var front, last := list[..|list| - 1], list[|list| - 1];
      KeptExactly(r, front, now, v);
      assert list == front + [last];
    }
  }

  /** A rule fires when it names some kept violation's signal and there are enough kept,
      whatever their signals; without a threshold one is enough. */
  lemma {:induction false} FiresExactly(fold: Folding, r: Rule, kept: seq<Violation>)
    ensures Fires(fold, r, kept) <==>
            && |kept| >= 1 && |kept| >= r.threshold
            && exists v, s :: v in kept && s in r.signals && (s == "*" || fold(s, v.signal))
    ensures forall agent ::
              ActionOf(r, agent) == Enforcement(agent, if r.action != "" then r.action else "disconnect", r.reason)
  {
    if v, s :| v in kept && s in r.signals && (s == "*" || fold(s, v.signal)) {
      assert Names(fold, r.signals, v.signal);
    }
  }

  lemma {:induction false} InWindowExtends(list: seq<Violation>, v: Violation, now: int, window: int)
    ensures InWindow(list + [v], now, window) == InWindow(list, now, window) + if now - v.at > window then [] else [v]
  {
    assert (list + [v])[..|list|] == list;
  }

  lemma {:induction false} MatchesGrows(fold: Folding, r: Rule, front: seq<Violation>, v: Violation)
    ensures Matches(fold, r, front + [v]) <==> Matches(fold, r, front) || Names(fold, r.signals, v.signal)
  {
    assert forall x :: x in front + [v] <==> x in front || x == v;
  }

  /** What the filter has after i violations. */
  ghost predicate KeptSoFar(fold: Folding, r: Rule, was: seq<Violation>, i: nat, now: int, front: seq<Violation>,
                            matched: bool)
    requires i <= |was|
  {
    front == InWindow(was[..i], now, Window(r)) && (matched <==> Matches(fold, r, front))
  }

  lemma {:induction false} KeepStep(fold: Folding, r: Rule, was: seq<Violation>, i: nat, now: int,
                                    front: seq<Violation>, matched: bool)
    requires i < |was| && KeptSoFar(fold, r, was, i, now, front, matched)
    ensures if now - was[i].at > Window(r) then KeptSoFar(fold, r, was, i + 1, now, front, matched)
            else KeptSoFar(fold, r, was, i + 1, now, front + [was[i]], matched || Names(fold, r.signals, was[i].signal))
  {
    assert was[..i + 1] == was[..i] + [was[i]];
    InWindowExtends(was[..i], was[i], now, Window(r));
    MatchesGrows(fold, r, front, was[i]);
  }

  // ----------------------------------------------------------------- the monitor

  /** A slice: a prefix of a backing array. */
  datatype Slice = Slice(data: array<Violation>, len: nat)

  class RiskMonitor {
    var rules: seq<Rule>
    var violations: map<string, Slice>
    const fold: Folding

    ghost function Buffers(): set<object>
      reads this
    {
      set a | a in violations :: violations[a].data
    }

    /** Every slice fits its buffer, and no two agents share one. */
    ghost predicate Valid()
      reads this
    {
      && (forall a :: a in violations ==> violations[a].len <= violations[a].data.Length)
      && (forall a, b :: a in violations && b in violations && a != b ==> violations[a].data != violations[b].data)
    }

    ghost function Contents(): Lists
      requires Valid()
      reads this, Buffers()
    {
      map a | a in violations :: violations[a].data[..violations[a].len]
    }

    constructor (rules: seq<Rule>, fold: Folding)
      ensures Valid() && this.rules == rules && this.fold == fold && violations == map[]
    {
      this.rules := rules;
      this.fold := fold;
      violations := map[];
    }

    /** New rules start with no violations. */
    method SetRules(rules: seq<Rule>)
      requires Valid()
      modifies this
      ensures Valid() && this.rules == rules && Contents() == map[]
    {
      this.rules := rules;
      violations := map[];
    }

    method SignalIn(signals: seq<string>, signal: string) returns (named: bool)
      ensures named <==> Names(fold, signals, signal)
    {
      for i := 0 to |signals|
        invariant forall k :: 0 <= k < i ==> !(signals[k] == "*" || fold(signals[k], signal))
      {
        if signals[i] == "*" || fold(signals[i], signal) {
          assert signals[i] in signals;
          return true;
        }
      }
      return false;
    }

    /** The filter writes what it keeps over the front of the buffer it reads. */
    method KeepInWindow(buffer: array<Violation>, n: nat, now: int, rule: Rule) returns (kept: nat, matched: bool)
      requires n <= buffer.Length
      modifies buffer
      ensures kept <= n && buffer[..kept] == InWindow(old(buffer[..n]), now, Window(rule))
      ensures matched <==> Matches(fold, rule, buffer[..kept])
    {
      ghost var was := buffer[..n];
      var window := if rule.windowSeconds <= 0 then DEFAULT_WINDOW else rule.windowSeconds;
      kept, matched := 0, false;
      for i := 0 to n
        invariant kept <= i
        invariant forall k :: i <= k < n ==> buffer[k] == was[k]
        invariant KeptSoFar(fold, rule, was, i, now, buffer[..kept], matched)
      {
        var viol := buffer[i];
        KeepStep(fold, rule, was, i, now, buffer[..kept], matched);
        if now - viol.at <= window {
          ghost var front := buffer[..kept];
          buffer[kept] := viol;
          assert buffer[..kept + 1] == front + [viol];
          kept := kept + 1;
          var named := SignalIn(rule.signals, viol.signal);
          if named {
            matched := true;
          }
        }
      }
      assert was[..n] == was;
    }

    /** Appending reuses the buffer while it has room and moves to a larger one otherwise. */
    static method Append(slice: Slice, v: Violation) returns (longer: Slice)
      requires slice.len <= slice.data.Length
      modifies slice.data
      ensures longer.len == slice.len + 1 <= longer.data.Length
      ensures longer.data == slice.data || fresh(longer.data)
      ensures longer.data[..longer.len] == old(slice.data[..slice.len]) + [v]
    {
      if slice.len < slice.data.Length {
        slice.data[slice.len] := v;
        return Slice(slice.data, slice.len + 1);
      }
      var data := new Violation[2 * slice.len + 1](_ => v);
      forall k | 0 <= k < slice.len {
        data[k] := slice.data[k];
      }
      return Slice(data, slice.len + 1);
    }

    /** All agents but one have the lists they had before. */
    ghost predicate AgreesButFor(before: Lists, agent: string)
      requires Valid()
      reads this, Buffers()
    {
      forall a :: a != agent ==>
        (a in violations <==> a in before) && (a in violations ==> violations[a].data[..violations[a].len] == before[a])
    }

    /** The rules in order, each filtering the buffer in place, until one fires. */
    method EvaluateRules(slice: Slice, now: int) returns (kept: nat, fired: Option<Rule>)
      requires slice.len <= slice.data.Length
      modifies slice.data
      ensures kept <= slice.len
      ensures match Evaluate(fold, rules, old(slice.data[..slice.len]), now)
              case Kept(list) => fired.None? && slice.data[..kept] == list
              case Fired(rule) => fired == Some(rule)
    {
      ghost var list := slice.data[..slice.len];
      kept := slice.len;
      for i := 0 to |rules|
        invariant kept <= slice.len
        invariant Evaluate(fold, rules, list, now) == Evaluate(fold, rules[i..], slice.data[..kept], now)
      {
        var rule := rules[i];
        assert rules[i..][0] == rule && rules[i..][1..] == rules[i + 1..];
        var matched;
        kept, matched := KeepInWindow(slice.data, kept, now, rule);
        var threshold := if rule.threshold <= 0 then 1 else rule.threshold;
        if matched && kept >= threshold {
          return kept, Some(rule);
        }
      }
      assert rules[|rules|..] == [];
      return kept, None;
    }

    /** An agent's slice, or a new empty one. */
    method SliceOf(agent: string) returns (slice: Slice)
      requires Valid()
      ensures slice.len <= slice.data.Length && slice.data[..slice.len] == ListOf(Contents(), agent)
      ensures if agent in violations then slice == violations[agent] else fresh(slice.data)
    {
      if agent in violations {
        return violations[agent];
      }
      var none := new Violation[0];
      return Slice(none, 0);
    }

    method Forget(agent: string, ghost before: Lists)
      requires Valid() && AgreesButFor(before, agent)
      modifies this`violations
      ensures Valid() && Buffers() <= old(Buffers()) && Contents() == before - {agent}
    {
      violations := violations - {agent};
    }

    method Keep(agent: string, slice: Slice, ghost before: Lists)
      requires Valid() && slice.len <= slice.data.Length && AgreesButFor(before, agent)
      requires forall a :: a in violations && a != agent ==> violations[a].data != slice.data
      modifies this`violations
      ensures Valid() && Buffers() <= old(Buffers()) + {slice.data}
      ensures Contents() == before[agent := slice.data[..slice.len]]
    {
      ghost var after := before[agent := slice.data[..slice.len]];
      violations := violations[agent := slice];
      assert forall a :: a in violations <==> a in after;
      assert forall a :: a in violations ==> violations[a].data[..violations[a].len] == after[a];
    }

    /** The violation is appended and the rules evaluated, on the agent's buffer alone. */
    method AppendAndEvaluate(d: Violation) returns (slice: Slice, fired: Option<Rule>)
      requires Valid()
      modifies Buffers()
      ensures Valid() && slice.len <= slice.data.Length && AgreesButFor(old(Contents()), d.agent)
      ensures fresh(slice.data) || (d.agent in violations && violations[d.agent].data == slice.data)
      ensures match Evaluate(fold, rules, ListOf(old(Contents()), d.agent) + [d], d.at)
              case Kept(list) => fired.None? && slice.data[..slice.len] == list
              case Fired(rule) => fired == Some(rule)
    {
      slice := SliceOf(d.agent);
      slice := Append(slice, d);
      var kept;
      kept, fired := EvaluateRules(slice, d.at);
      slice := Slice(slice.data, kept);
    }

    method RecordViolation(v: Violation, clock: int) returns (triggered: bool, enforced: Option<Enforcement>)
      requires Valid()
      modifies this`violations, Buffers()
      ensures Valid() && fresh(Buffers() - old(Buffers()))
      ensures Outcome(Contents(), enforced) == Recorded(fold, rules, old(Contents()), v, clock)
      ensures triggered <==> enforced.Some?
    {
      if |rules| == 0 {
        return false, None;
      }
      ghost var before := Contents();
      var now := v.at;
      if now == 0 {
        now := clock;
      }
      var d := v.(at := now);
      var slice, fired := AppendAndEvaluate(d);
      if fired.Some? {
        Forget(d.agent, before);
        var rule := fired.value;
        return true, Some(Enforcement(d.agent, if rule.action == "" then "disconnect" else rule.action, rule.reason));
      }
      Keep(d.agent, slice, before);
      return false, None;
    }
  }

  // ---------------------------------------------------------------------- windows

  function MinWindow(rules: seq<Rule>): int
    requires rules != []
  {
    var last := Window(rules[|rules| - 1]);
    if |rules| == 1 then last
    else
      var front := MinWindow(rules[..|rules| - 1]);
      if last < front then last else front
  }

  /** Two filters are one, by the later of their two cut-offs. */
  lemma {:induction false} WindowsCompose(list: seq<Violation>, t1: int, w1: int, t2: int, w2: int, t: int, w: int)
    requires t - w == if t1 - w1 < t2 - w2 then t2 - w2 else t1 - w1
    ensures InWindow(InWindow(list, t1, w1), t2, w2) == InWindow(list, t, w)
  {
    if list != [] {
      WindowsCompose(list[..|list| - 1], t1, w1, t2, w2, t, w);
      InWindowExtends(InWindow(list[..|list| - 1], t1, w1), list[|list| - 1], t2, w2);
    }
  }

  /** What the rule at an index is evaluated over. */
  function SeenBy(rules: seq<Rule>, i: nat, list: seq<Violation>, now: int): seq<Violation>
    requires i < |rules|
  {
    InWindow(list, now, MinWindow(rules[..i + 1]))
  }

  /** The list that reaches the rules from an index on, when none before it fired. */
  function Reaching(rules: seq<Rule>, i: nat, list: seq<Violation>, now: int): seq<Violation>
    requires i <= |rules|
  {
    if i == 0 then list else SeenBy(rules, i - 1, list, now)
  }

  lemma {:induction false} NextRuleSees(rules: seq<Rule>, i: nat, list: seq<Violation>, now: int)
    requires i < |rules|
    ensures InWindow(Reaching(rules, i, list, now), now, Window(rules[i])) == SeenBy(rules, i, list, now)
  {
    assert rules[..i + 1][..i] == rules[..i];
    if i > 0 {
      WindowsCompose(list, now, MinWindow(rules[..i]), now, Window(rules[i]), now, MinWindow(rules[..i + 1]));
    }
  }

  /** Whatever the windows, the rule that fires is the first to do so on the violations
      within the smallest window up to it; if none does, the smallest of all is kept. */
  lemma {:induction false} EvaluatedExactly(fold: Folding, rules: seq<Rule>, i: nat, list: seq<Violation>, now: int)
    requires i <= |rules|
    ensures match Evaluate(fold, rules[i..], Reaching(rules, i, list, now), now)
            case Kept(kept) =>
              && kept == Reaching(rules, |rules|, list, now)
              && forall k :: i <= k < |rules| ==> !Fires(fold, rules[k], SeenBy(rules, k, list, now))
            case Fired(rule) => exists k :: IsFirst(fold, rules, i, k, list, now) && rules[k] == rule
    decreases |rules| - i
  {
    if i < |rules| {
      assert rules[i..][0] == rules[i] && rules[i..][1..] == rules[i + 1..];
      NextRuleSees(rules, i, list, now);
      if Fires(fold, rules[i], SeenBy(rules, i, list, now)) {
        assert IsFirst(fold, rules, i, i, list, now);
      } else {
        EvaluatedExactly(fold, rules, i + 1, list, now);
        LaterFirst(fold, rules, i, list, now);
      }
    }
  }

  /** A rule that does not fire is passed over. */
  lemma {:induction false} LaterFirst(fold: Folding, rules: seq<Rule>, i: nat, list: seq<Violation>, now: int)
    requires i < |rules| && !Fires(fold, rules[i], SeenBy(rules, i, list, now))
    ensures forall k :: IsFirst(fold, rules, i + 1, k, list, now) ==> IsFirst(fold, rules, i, k, list, now)
  {
  }

  ghost predicate IsFirst(fold: Folding, rules: seq<Rule>, i: nat, k: int, list: seq<Violation>, now: int) {
    && i <= k < |rules|
    && Fires(fold, rules[k], SeenBy(rules, k, list, now))
    && forall m :: i <= m < k ==> !Fires(fold, rules[m], SeenBy(rules, m, list, now))
  }

  // ------------------------------------------------------------------------ runs

  datatype Event = SetRules(rules: seq<Rule>) | Record(violation: Violation, clock: int)

  /** The rules in force after the first n events. */
  function RulesAfter(start: seq<Rule>, events: seq<Event>, n: nat): seq<Rule>
    requires n <= |events|
  {
    if n == 0 then start
    else if events[n - 1].SetRules? then events[n - 1].rules
    else RulesAfter(start, events, n - 1)
  }

  function ListsAfter(fold: Folding, start: seq<Rule>, events: seq<Event>, n: nat): Lists
    requires n <= |events|
    decreases n, 0
  {
    if n == 0 || events[n - 1].SetRules? then map[] else RecordedAt(fold, start, events, n - 1).lists
  }

  function RecordedAt(fold: Folding, start: seq<Rule>, events: seq<Event>, i: nat): Outcome
    requires i < |events| && events[i].Record?
    decreases i, 1
  {
    var e := events[i];
    Recorded(fold, RulesAfter(start, events, i), ListsAfter(fold, start, events, i), e.violation, e.clock)
  }

  /** The same event, with the clock's time in a violation that has none. */
  function TimedEvent(e: Event): Event {
    match e
    case SetRules(_) => e
    case Record(v, clock) => if v.at == 0 then Record(v.(at := clock), 0) else Record(v, 0)
  }

  function Timed(events: seq<Event>): (timed: seq<Event>)
    ensures |timed| == |events| && forall i :: 0 <= i < |events| ==> timed[i] == TimedEvent(events[i])
  {
    seq(|events|, i requires 0 <= i < |events| => TimedEvent(events[i]))
  }

  lemma {:induction false} TimedAlike(fold: Folding, rules: seq<Rule>, lists: Lists, e: Event)
    requires e.Record?
    ensures TimedEvent(e).Record?
    ensures Recorded(fold, rules, lists, TimedEvent(e).violation, TimedEvent(e).clock) ==
            Recorded(fold, rules, lists, e.violation, e.clock)
  {
    if e.violation.at == 0 {
      UntimedTakesClock(fold, rules, lists, e.violation, e.clock);
    } else if rules != [] {
      TimedAsGiven(fold, rules, lists, e.violation, e.clock);
      TimedAsGiven(fold, rules, lists, e.violation, 0);
    }
  }

  lemma {:induction false} RulesTimedAlike(start: seq<Rule>, events: seq<Event>, n: nat)
    requires n <= |events|
    ensures RulesAfter(start, Timed(events), n) == RulesAfter(start, events, n)
  {
    if n > 0 {
      RulesTimedAlike(start, events, n - 1);
    }
  }

  lemma {:induction false} ListsTimedAlike(fold: Folding, start: seq<Rule>, events: seq<Event>, n: nat)
    requires n <= |events|
    ensures ListsAfter(fold, start, Timed(events), n) == ListsAfter(fold, start, events, n)
  {
    if n > 0 && events[n - 1].Record? {
      RulesTimedAlike(start, events, n - 1);
      ListsTimedAlike(fold, start, events, n - 1);
      TimedAlike(fold, RulesAfter(start, events, n - 1), ListsAfter(fold, start, events, n - 1), events[n - 1]);
    }
  }

  /** Over any run the clock is what dates the violations that carry no time, and nothing
      else: with their times filled in it does not matter. */
  lemma {:induction false} ClockDatesRun(fold: Folding, start: seq<Rule>, events: seq<Event>, n: nat)
    requires n <= |events|
    ensures ListsAfter(fold, start, Timed(events), n) == ListsAfter(fold, start, events, n)
    ensures n < |events| && events[n].Record? ==>
              RecordedAt(fold, start, Timed(events), n) == RecordedAt(fold, start, events, n)
  {
    ListsTimedAlike(fold, start, events, n);
    if n < |events| && events[n].Record? {
      RulesTimedAlike(start, events, n);
      TimedAlike(fold, RulesAfter(start, events, n), ListsAfter(fold, start, events, n), events[n]);
    }
  }

  predicate Reports(e: Event, agent: string) {
    e.Record? && e.violation.agent == agent
  }

  function DatedAt(events: seq<Event>, i: nat): Violation
    requires i < |events| && events[i].Record?
  {
    Dated(events[i].violation, events[i].clock)
  }

  /** Every violation of an agent recorded since its last enforcement or the last
      change of rules: the whole history, nothing filtered. */
  function Since(fold: Folding, start: seq<Rule>, events: seq<Event>, n: nat, agent: string): seq<Violation>
    requires n <= |events|
  {
    if n == 0 || events[n - 1].SetRules? then []
    else if !Reports(events[n - 1], agent) || RulesAfter(start, events, n - 1) == [] then
      Since(fold, start, events, n - 1, agent)
    else if RecordedAt(fold, start, events, n - 1).fired.Some? then []
    else Since(fold, start, events, n - 1, agent) + [DatedAt(events, n - 1)]
  }

  /** An agent's times do not decrease. */
  ghost predicate InOrder(events: seq<Event>, agent: string) {
    forall i, j :: 0 <= i < j < |events| && Reports(events[i], agent) && Reports(events[j], agent) ==>
      DatedAt(events, i).at <= DatedAt(events, j).at
  }

  lemma {:induction false} LastWasRecorded(fold: Folding, start: seq<Rule>, events: seq<Event>, n: nat, agent: string)
    returns (i: nat)
    requires n <= |events| && Since(fold, start, events, n, agent) != []
    ensures i < n && Reports(events[i], agent)
    ensures var since := Since(fold, start, events, n, agent); since[|since| - 1] == DatedAt(events, i)
    ensures RulesAfter(start, events, n) != []
  {
    if Reports(events[n - 1], agent) && RulesAfter(start, events, n - 1) != [] {
      i := n - 1;
    } else {
      i := LastWasRecorded(fold, start, events, n - 1, agent);
    }
  }

  ghost predicate Refines(rules: seq<Rule>, list: seq<Violation>, since: seq<Violation>) {
    if since == [] then list == []
    else rules != [] && list == InWindow(since, since[|since| - 1].at, MinWindow(rules))
  }

  /** A filtered list and a full history agree on everything a later call can see. */
  lemma {:induction false} FilteredListSuffices(rules: seq<Rule>, list: seq<Violation>, since: seq<Violation>,
                                                d: Violation, window: int)
    requires rules != [] && Refines(rules, list, since) && (since != [] ==> since[|since| - 1].at <= d.at)
    requires window <= MinWindow(rules)
    ensures InWindow(list + [d], d.at, window) == InWindow(since + [d], d.at, window)
  {
    InWindowExtends(list, d, d.at, window);
    InWindowExtends(since, d, d.at, window);
    if since != [] {
      WindowsCompose(since, since[|since| - 1].at, MinWindow(rules), d.at, window, d.at, window);
    }
  }

  lemma {:induction false} RecordingKeepsHistory(fold: Folding, rules: seq<Rule>, lists: Lists, since: seq<Violation>,
                                                 v: Violation, clock: int)
    requires rules != [] && Refines(rules, ListOf(lists, v.agent), since)
    requires since != [] ==> since[|since| - 1].at <= Dated(v, clock).at
    ensures var out := Recorded(fold, rules, lists, v, clock);
            Refines(rules, ListOf(out.lists, v.agent), if out.fired.Some? then [] else since + [Dated(v, clock)])
  {
    var d := Dated(v, clock);
    var list := ListOf(lists, v.agent);
    EvaluatedExactly(fold, rules, 0, list + [d], d.at);
    assert rules[0..] == rules && rules[..|rules|] == rules;
    FilteredListSuffices(rules, list, since, d, MinWindow(rules));
  }

  lemma {:induction false} OtherListsStay(fold: Folding, rules: seq<Rule>, lists: Lists, v: Violation, clock: int,
                                          agent: string)
    requires rules == [] || agent != v.agent
    ensures ListOf(Recorded(fold, rules, lists, v, clock).lists, agent) == ListOf(lists, agent)
  {
  }

  /** An event that is not a report of the agent's under some rules leaves its list and
      its history alone. */
  lemma {:induction false} OtherEvent(fold: Folding, start: seq<Rule>, events: seq<Event>, n: nat, agent: string)
    requires 0 < n <= |events| && events[n - 1].Record?
    requires !Reports(events[n - 1], agent) || RulesAfter(start, events, n - 1) == []
    ensures ListOf(ListsAfter(fold, start, events, n), agent) == ListOf(ListsAfter(fold, start, events, n - 1), agent)
    ensures Since(fold, start, events, n, agent) == Since(fold, start, events, n - 1, agent)
  {
    OtherListsStay(fold, RulesAfter(start, events, n - 1), ListsAfter(fold, start, events, n - 1),
                   events[n - 1].violation, events[n - 1].clock, agent);
  }

  ghost predicate RefinesAt(fold: Folding, start: seq<Rule>, events: seq<Event>, n: nat, agent: string)
    requires n <= |events|
  {
    Refines(RulesAfter(start, events, n), ListOf(ListsAfter(fold, start, events, n), agent),
            Since(fold, start, events, n, agent))
  }

  lemma {:induction false} OwnReport(fold: Folding, start: seq<Rule>, events: seq<Event>, n: nat, agent: string)
    requires n < |events| && Reports(events[n], agent) && RulesAfter(start, events, n) != []
    ensures RulesAfter(start, events, n + 1) == RulesAfter(start, events, n)
    ensures ListsAfter(fold, start, events, n + 1) == RecordedAt(fold, start, events, n).lists
    ensures Since(fold, start, events, n + 1, agent) ==
              if RecordedAt(fold, start, events, n).fired.Some? then []
              else Since(fold, start, events, n, agent) + [DatedAt(events, n)]
  {
  }

  lemma {:induction false} OwnReportRefines(fold: Folding, start: seq<Rule>, events: seq<Event>, n: nat, agent: string)
    requires n < |events| && InOrder(events, agent) && RefinesAt(fold, start, events, n, agent)
    requires Reports(events[n], agent) && RulesAfter(start, events, n) != []
    ensures RefinesAt(fold, start, events, n + 1, agent)
  {
    LatestIsLast(fold, start, events, n, agent);
    OwnReport(fold, start, events, n, agent);
    RecordingKeepsHistory(fold, RulesAfter(start, events, n), ListsAfter(fold, start, events, n),
                          Since(fold, start, events, n, agent), events[n].violation, events[n].clock);
  }

  lemma {:induction false} OtherEventRefines(fold: Folding, start: seq<Rule>, events: seq<Event>, n: nat, agent: string)
    requires n < |events| && RefinesAt(fold, start, events, n, agent)
    requires events[n].Record? && (!Reports(events[n], agent) || RulesAfter(start, events, n) == [])
    ensures RefinesAt(fold, start, events, n + 1, agent)
  {
    OtherEvent(fold, start, events, n + 1, agent);
  }

  /** The list kept by filtering in place is the full history, seen through the smallest
      window at the last violation. */
  lemma {:induction false} ListIsWindowOfHistory(fold: Folding, start: seq<Rule>, events: seq<Event>, n: nat,
                                                 agent: string)
    requires n <= |events| && InOrder(events, agent)
    ensures Refines(RulesAfter(start, events, n), ListOf(ListsAfter(fold, start, events, n), agent),
                    Since(fold, start, events, n, agent))
  {
    if n > 0 && events[n - 1].Record? {
      ListIsWindowOfHistory(fold, start, events, n - 1, agent);
      if Reports(events[n - 1], agent) && RulesAfter(start, events, n - 1) != [] {
        OwnReportRefines(fold, start, events, n - 1, agent);
      } else {
        OtherEventRefines(fold, start, events, n - 1, agent);
      }
    }
  }

  lemma {:induction false} LatestIsLast(fold: Folding, start: seq<Rule>, events: seq<Event>, n: nat, agent: string)
    requires n < |events| && InOrder(events, agent) && Reports(events[n], agent)
    ensures var since := Since(fold, start, events, n, agent);
            since != [] ==> since[|since| - 1].at <= DatedAt(events, n).at
  {
    if Since(fold, start, events, n, agent) != [] {
      var i := LastWasRecorded(fold, start, events, n, agent);
    }
  }

  // ------------------------------------------------- what a rule is judged on

  /** Where the history is cut for a rule: by every window at the agent's last violation,
      and by the windows up to the rule's own now. */
  function CutOff(rules: seq<Rule>, k: nat, since: seq<Violation>, now: int): int
    requires k < |rules| && since != []
  {
    var before, after := since[|since| - 1].at - MinWindow(rules), now - MinWindow(rules[..k + 1]);
    if before < after then after else before
  }

  function From(list: seq<Violation>, cut: int): seq<Violation> {
    InWindow(list, cut, 0)
  }

  /** The full history from the cut-off on, and the new violation. */
  function JudgedOn(rules: seq<Rule>, k: nat, since: seq<Violation>, d: Violation): seq<Violation>
    requires k < |rules|
  {
    (if since == [] then [] else From(since, CutOff(rules, k, since, d.at))) + [d]
  }

  lemma {:induction false} SmallestIsPositive(rules: seq<Rule>)
    requires rules != []
    ensures 0 < MinWindow(rules) <= Window(rules[|rules| - 1])
  {
    if |rules| > 1 {
      SmallestIsPositive(rules[..|rules| - 1]);
    }
  }

  lemma {:induction false} ListJudged(rules: seq<Rule>, k: nat, list: seq<Violation>, since: seq<Violation>,
                                      d: Violation)
    requires k < |rules| && Refines(rules, list, since)
    ensures SeenBy(rules, k, list + [d], d.at) == JudgedOn(rules, k, since, d)
  {
    var w := MinWindow(rules[..k + 1]);
    SmallestIsPositive(rules[..k + 1]);
    InWindowExtends(list, d, d.at, w);
    if since != [] {
      WindowsCompose(since, since[|since| - 1].at, MinWindow(rules), d.at, w, CutOff(rules, k, since, d.at), 0);
    }
  }

  /** The first rule that fires on what it is judged on. */
  ghost predicate FirstJudged(fold: Folding, rules: seq<Rule>, k: int, since: seq<Violation>, d: Violation) {
    && 0 <= k < |rules|
    && Fires(fold, rules[k], JudgedOn(rules, k, since, d))
    && forall m :: 0 <= m < k ==> !Fires(fold, rules[m], JudgedOn(rules, m, since, d))
  }

  /** What enforcement there is names the first rule that fires, if any does. */
  ghost predicate EnforcedOn(fold: Folding, rules: seq<Rule>, since: seq<Violation>, d: Violation, agent: string,
                             fired: Option<Enforcement>) {
    match fired
    case None => forall k :: 0 <= k < |rules| ==> !Fires(fold, rules[k], JudgedOn(rules, k, since, d))
    case Some(enforcement) =>
      exists k :: FirstJudged(fold, rules, k, since, d) && enforcement == ActionOf(rules[k], agent)
  }

  lemma {:induction false} EvaluatedAsJudged(fold: Folding, rules: seq<Rule>, list: seq<Violation>,
                                             since: seq<Violation>,
                                             d: Violation, agent: string)
    requires rules != [] && Refines(rules, list, since)
    ensures var e := Evaluate(fold, rules, list + [d], d.at);
            EnforcedOn(fold, rules, since, d, agent, if e.Fired? then Some(ActionOf(e.rule, agent)) else None)
  {
    EvaluatedExactly(fold, rules, 0, list + [d], d.at);
    assert rules[0..] == rules;
    forall k | 0 <= k < |rules| ensures SeenBy(rules, k, list + [d], d.at) == JudgedOn(rules, k, since, d) {
      ListJudged(rules, k, list, since, d);
    }
    if Evaluate(fold, rules, list + [d], d.at).Fired? {
      var k :| IsFirst(fold, rules, 0, k, list + [d], d.at) && rules[k] == Evaluate(fold, rules, list + [d], d.at).rule;
      assert FirstJudged(fold, rules, k, since, d);
    }
  }

  /** Over any run, whatever the windows: a violation is acted on exactly when some rule
      fires on the full history cut for it, and the action is the first such rule's. */
  lemma {:induction false} EnforcedExactly(fold: Folding, start: seq<Rule>, events: seq<Event>, n: nat, agent: string)
    requires n < |events| && InOrder(events, agent) && Reports(events[n], agent)
    ensures EnforcedOn(fold, RulesAfter(start, events, n), Since(fold, start, events, n, agent), DatedAt(events, n),
                       agent, RecordedAt(fold, start, events, n).fired)
  {
    var rules := RulesAfter(start, events, n);
    if rules != [] {
      ListIsWindowOfHistory(fold, start, events, n, agent);
      EvaluatedAsJudged(fold, rules, ListOf(ListsAfter(fold, start, events, n), agent),
                        Since(fold, start, events, n, agent), DatedAt(events, n), agent);
    }
  }

  /** Two cuts of a list agree exactly when nothing lies between them. */
  lemma {:induction false} CutsAgree(list: seq<Violation>, early: int, late: int)
    requires early <= late
    ensures |From(list, late)| <= |From(list, early)|
    ensures From(list, late) == From(list, early) <==> forall v :: v in list ==> !(early <= v.at < late)
    ensures |From(list, late)| == |From(list, early)| ==> From(list, late) == From(list, early)
    decreases |list|
  {
    if list != [] {
      var front, last := list[..|list| - 1], list[|list| - 1];
      CutsAgree(front, early, late);
      assert list == front + [last];
    }
  }

  /** Nothing of the history lies between a rule's own window and the cut-off. */
  ghost predicate NothingForgotten(rules: seq<Rule>, k: nat, since: seq<Violation>, now: int)
    requires k < |rules|
  {
    since != [] ==>
      forall v :: v in since ==> !(now - Window(rules[k]) <= v.at < CutOff(rules, k, since, now))
  }

  /** A rule is judged on its own full window exactly when no violation of the history
      lies between that window's beginning and the cut-off. */
  lemma {:induction false} OwnWindowExactly(rules: seq<Rule>, k: nat, since: seq<Violation>, d: Violation)
    requires k < |rules|
    ensures JudgedOn(rules, k, since, d) == InWindow(since + [d], d.at, Window(rules[k])) <==>
            NothingForgotten(rules, k, since, d.at)
  {
    var w := Window(rules[k]);
    SmallestIsPositive(rules[..k + 1]);
    InWindowExtends(since, d, d.at, w);
    WindowsCompose(since, d.at, w, d.at, w, d.at - w, 0);
    WindowIsCut(since, d.at, w);
    if since != [] {
      CutsAgree(since, d.at - w, CutOff(rules, k, since, d.at));
      SameEnd(From(since, CutOff(rules, k, since, d.at)), From(since, d.at - w), d);
    }
  }

  lemma {:induction false} SameEnd(a: seq<Violation>, b: seq<Violation>, d: Violation)
    ensures a + [d] == b + [d] <==> a == b
  {
    if a + [d] == b + [d] {
      assert a == (a + [d])[..|a|] && b == (b + [d])[..|b|];
    }
  }

  lemma {:induction false} WindowIsCut(list: seq<Violation>, now: int, window: int)
    ensures InWindow(list, now, window) == From(list, now - window)
    decreases |list|
  {
    if list != [] {
      WindowIsCut(list[..|list| - 1], now, window);
    }
  }

  ghost predicate OneWindow(rules: seq<Rule>, window: int) {
    forall r :: r in rules ==> Window(r) == window
  }

  lemma {:induction false} OneWindowIsSmallest(rules: seq<Rule>, window: int)
    requires rules != [] && OneWindow(rules, window)
    ensures MinWindow(rules) == window
  {
    if |rules| > 1 {
      OneWindowIsSmallest(rules[..|rules| - 1], window);
    }
  }

  /** With one window for all rules and times in order nothing is ever forgotten: over any
      run every rule is judged on the full history within the window. */
  lemma {:induction false} OneWindowForgetsNothing(fold: Folding, start: seq<Rule>, events: seq<Event>, n: nat,
                                                   agent: string, window: int, k: nat)
    requires n < |events| && InOrder(events, agent) && Reports(events[n], agent)
    requires k < |RulesAfter(start, events, n)| && OneWindow(RulesAfter(start, events, n), window)
    ensures var since, d := Since(fold, start, events, n, agent), DatedAt(events, n);
            JudgedOn(RulesAfter(start, events, n), k, since, d) == InWindow(since + [d], d.at, window)
  {
    var rules := RulesAfter(start, events, n);
    LatestIsLast(fold, start, events, n, agent);
    OneWindowIsSmallest(rules, window);
    OneWindowIsSmallest(rules[..k + 1], window);
    OwnWindowExactly(rules, k, Since(fold, start, events, n, agent), DatedAt(events, n));
  }

  lemma {:induction false} TwoRules(fold: Folding, first: Rule, second: Rule, list: seq<Violation>, now: int)
    requires !Fires(fold, first, InWindow(list, now, Window(first)))
    requires !Fires(fold, second, InWindow(InWindow(list, now, Window(first)), now, Window(second)))
    ensures Evaluate(fold, [first, second], list, now) ==
            Kept(InWindow(InWindow(list, now, Window(first)), now, Window(second)))
  {
    assert [first, second][0] == first && [first, second][1..] == [second] && [second][1..] == [];
    var kept := InWindow(list, now, Window(first));
    assert Evaluate(fold, [second], kept, now) == Kept(InWindow(kept, now, Window(second)));
  }

  lemma {:induction false} OneRecorded(fold: Folding, rules: seq<Rule>, v: Violation, rest: seq<Event>)
    requires v.at != 0 && rules != [] && Evaluate(fold, rules, [v], v.at) == Kept([v])
    ensures ListsAfter(fold, rules, [Record(v, 0)] + rest, 1) == map[v.agent := [v]]
    ensures Since(fold, rules, [Record(v, 0)] + rest, 1, v.agent) == [v]
  {
    var events := [Record(v, 0)] + rest;
    assert RulesAfter(rules, events, 0) == rules && ListsAfter(fold, rules, events, 0) == map[];
    assert ListOf(map[], v.agent) + [v] == [v];
    assert Since(fold, rules, events, 0, v.agent) == [];
  }

  lemma {:induction false} SecondMisses(fold: Folding, rules: seq<Rule>, first: Violation, second: Violation)
    requires first.at != 0 && second.at != 0 && first.agent == second.agent && first.at <= second.at
    requires rules != [] && Evaluate(fold, rules, [first], first.at) == Kept([first])
    requires Evaluate(fold, rules, [first] + [second], second.at).Kept?
    ensures var events := [Record(first, 0)] + [Record(second, 0)];
            && InOrder(events, first.agent)
            && RecordedAt(fold, rules, events, 1).fired.None?
            && Since(fold, rules, events, 1, first.agent) + [DatedAt(events, 1)] == [first] + [second]
  {
    OneRecorded(fold, rules, first, [Record(second, 0)]);
  }

  lemma {:induction false} FirstOfTwo(fold: Folding, short: Rule, long: Rule, first: Violation)
    requires Window(short) > 0 && Window(long) > 0 && Threshold(short) > 1 && Threshold(long) > 1
    ensures Evaluate(fold, [short, long], [first], first.at) == Kept([first])
  {
    InWindowExtends([], first, first.at, Window(short));
    InWindowExtends([], first, first.at, Window(long));
    assert [] + [first] == [first];
    TwoRules(fold, short, long, [first], first.at);
  }

  lemma {:induction false} SecondOfTwo(fold: Folding, short: Rule, long: Rule, first: Violation, second: Violation)
    requires 0 < Window(short) < second.at - first.at <= Window(long) && Threshold(short) > 1 && Threshold(long) > 1
    ensures Evaluate(fold, [short, long], [first] + [second], second.at).Kept?
    ensures InWindow([first] + [second], second.at, Window(long)) == [first] + [second]
  {
    InWindowExtends([first], second, second.at, Window(short));
    InWindowExtends([], first, second.at, Window(short));
    InWindowExtends([], second, second.at, Window(long));
    InWindowExtends([first], second, second.at, Window(long));
    InWindowExtends([], first, second.at, Window(long));
    assert [] + [first] == [first] && [] + [second] == [second];
    TwoRules(fold, short, long, [first] + [second], second.at);
  }

  /** With two windows a rule can miss violations within its own: the shorter window has
      removed them from the shared list. */
  lemma {:induction false} ShorterWindowForgets(fold: Folding) returns (rules: seq<Rule>, events: seq<Event>)
    ensures |events| == 2 && events[1].Record? && InOrder(events, "agent")
    ensures RecordedAt(fold, rules, events, 1).fired.None?
    ensures var d := DatedAt(events, 1);
            var full := Since(fold, rules, events, 1, "agent") + [d];
            exists r :: r in rules && Fires(fold, r, InWindow(full, d.at, Window(r)))
  {
    var short := Rule("burst", ["*"], 5, 10, "", "");
    var long := Rule("slow", ["*"], 2, 100, "", "");
    var first := Violation("agent", "signal", "", "", 1);
    var second := Violation("agent", "signal", "", "", 50);
    rules := [short, long];
    events := [Record(first, 0)] + [Record(second, 0)];
    FirstOfTwo(fold, short, long, first);
    SecondOfTwo(fold, short, long, first, second);
    SecondMisses(fold, rules, first, second);
    var both := [first] + [second];
    assert second == both[1] && second in both && "*" in long.signals;
    assert long == rules[1] && Fires(fold, long, both);
  }
}
