/** The delegation nonce cache: many callers and one background sweep over a concurrent
    map. A step is one operation on the map or one reading of the clock. */
module NonceCache {
  import opened ByteStrings

  type Scope = string
  type Nonce = Bytes
  type Id = nat

  /** 24 hours in nanoseconds. */
  const RETENTION: int := 86_400_000_000_000

  datatype Entry = Entry(scope: Scope, stamp: int)

  datatype Caller =
    | Stamped(scope: Scope, nonce: Nonce, stamp: int)   // the clock is read, the map not yet
    | Answered(allowed: bool)

  datatype Sweep =
    | Idle
    | Ranging(deadline: int, pending: set<Nonce>, added: set<Nonce>)
    | Deleting(deadline: int, pending: set<Nonce>, added: set<Nonce>, nonce: Nonce)

  /** What happened to the map, in order. */
  datatype Event =
    | Stored(nonce: Nonce, scope: Scope, stamp: int, at: int)
    | Reused(nonce: Nonce, scope: Scope, at: int)
    | Denied(nonce: Nonce, scope: Scope, at: int)
    | Deleted(nonce: Nonce, began: int, at: int)   // began: when its sweep read the clock

  datatype State = State(now: int, entries: map<Nonce, Entry>, callers: map<Id, Caller>, sweep: Sweep, log: seq<Event>)

  datatype Step =
    | Tick(elapsed: nat)
    | Call(id: Id, scope: Scope, nonce: Nonce)
    | LoadOrStore(id: Id)
    | BeginSweep
    | Examine(nonce: Nonce)
    | Delete
    | EndSweep

  function Initial(now: int): State {
    State(now, map[], map[], Idle, [])
  }

  predicate Enabled(s: State, step: Step) {
    match step
    case Tick(_) => true
    case Call(id, _, _) => id !in s.callers
    case LoadOrStore(id) => id in s.callers && s.callers[id].Stamped?
    case BeginSweep => s.sweep.Idle?
    case Examine(n) => s.sweep.Ranging? && n in s.entries && n in s.sweep.pending + s.sweep.added
    case Delete => s.sweep.Deleting?
    case EndSweep => s.sweep.Ranging? && s.sweep.pending == {}
  }

  /** An empty nonce is refused at once; a new one is stored; a stored one is allowed to
      its own scope only. */
  function Load(s: State, id: Id): State
    requires Enabled(s, LoadOrStore(id))
  {
    var c := s.callers[id];
    if c.nonce !in s.entries then
      s.(entries := s.entries[c.nonce := Entry(c.scope, c.stamp)],
      callers := s.callers[id := Answered(true)],
      sweep := match s.sweep
               case Idle => Idle
               case Ranging(d, p, a) => Ranging(d, p, a + {c.nonce})
               case Deleting(d, p, a, n) => Deleting(d, p, a + {c.nonce}, n),
      log := s.log + [Stored(c.nonce, c.scope, c.stamp, s.now)])
    else if s.entries[c.nonce].scope == c.scope then
      s.(callers := s.callers[id := Answered(true)], log := s.log + [Reused(c.nonce, c.scope, s.now)])
    else
      s.(callers := s.callers[id := Answered(false)], log := s.log + [Denied(c.nonce, c.scope, s.now)])
  }

  function Next(s: State, step: Step): State
    requires Enabled(s, step)
  {
    match step
    case Tick(elapsed) => s.(now := s.now + elapsed)
    case Call(id, scope, nonce) =>
      s.(callers := s.callers[id := if nonce == [] then Answered(false) else Stamped(scope, nonce, s.now)])
    case LoadOrStore(id) => Load(s, id)
    case BeginSweep => s.(sweep := Ranging(s.now - RETENTION, s.entries.Keys, {}))
    case Examine(n) =>
      if s.entries[n].stamp < s.sweep.deadline then
        s.(sweep := Deleting(s.sweep.deadline, s.sweep.pending, s.sweep.added, n))
      else
        s.(sweep := Ranging(s.sweep.deadline, s.sweep.pending - {n}, s.sweep.added))
    case Delete =>
      s.(entries := s.entries - {s.sweep.nonce},
      sweep := Ranging(s.sweep.deadline, s.sweep.pending - {s.sweep.nonce}, s.sweep.added - {s.sweep.nonce}),
      log := s.log + [Deleted(s.sweep.nonce, s.sweep.deadline + RETENTION, s.now)])
    case EndSweep => s.(sweep := Idle)
  }

  // ------------------------------------------------------------ what a log determines

  /** The entry a log leaves for a nonce. */
  function Holder(log: seq<Event>, nonce: Nonce): Option<Entry> {
    if log == [] then None
    else
      var e := log[|log| - 1];
      if e.nonce == nonce && e.Stored? then Some(Entry(e.scope, e.stamp))
      else if e.nonce == nonce && e.Deleted? then None
      else Holder(log[..|log| - 1], nonce)
  }

  /** What each event needs of the ones before it. */
  ghost predicate Justified(before: seq<Event>, e: Event) {
    var holder := Holder(before, e.nonce);
    match e
    case Stored(_, _, stamp, at) => holder.None? && stamp <= at
    case Reused(_, scope, _) => holder.Some? && holder.value.scope == scope
    case Denied(_, scope, _) => holder.Some? && holder.value.scope != scope
    case Deleted(_, began, at) => holder.Some? && holder.value.stamp < began - RETENTION && began <= at
  }

  ghost predicate Coherent(log: seq<Event>) {
    forall k :: 0 <= k < |log| ==> Justified(log[..k], log[k])
  }

  ghost predicate Agrees(s: State) {
    forall n :: Holder(s.log, n) == if n in s.entries then Some(s.entries[n]) else None
  }

  ghost predicate StampsPast(s: State) {
    forall id :: id in s.callers && s.callers[id].Stamped? ==> s.callers[id].stamp <= s.now && s.callers[id].nonce != []
  }

  /** The entry about to be deleted is the one that was examined. */
  ghost predicate SweepHolds(s: State) {
    s.sweep.Deleting? ==> s.sweep.nonce in s.entries && s.entries[s.sweep.nonce].stamp < s.sweep.deadline
  }

  /** An expired entry the sweep no longer has to visit was stored after it began. */
  ghost predicate SweepCovers(s: State) {
    !s.sweep.Idle? ==>
      forall n :: n in s.entries && s.entries[n].stamp < s.sweep.deadline ==> n in s.sweep.pending + s.sweep.added
  }

  ghost predicate PendingPresent(s: State) {
    (!s.sweep.Idle? ==> s.sweep.pending <= s.entries.Keys) && [] !in s.entries
  }

  /** Events are logged as time goes by, and no sweep began in the future. */
  ghost predicate TimesInOrder(s: State) {
    && (forall i, j :: 0 <= i < j < |s.log| ==> s.log[i].at <= s.log[j].at)
    && (forall i :: 0 <= i < |s.log| ==> s.log[i].at <= s.now)
    && (!s.sweep.Idle? ==> s.sweep.deadline + RETENTION <= s.now)
  }

  ghost predicate Inv(s: State) {
    && Coherent(s.log) && Agrees(s) && StampsPast(s) && TimesInOrder(s)
    && SweepHolds(s) && SweepCovers(s) && PendingPresent(s)
  }

  lemma {:induction false} CoherentExtends(log: seq<Event>, e: Event)
    requires Coherent(log) && Justified(log, e)
    ensures Coherent(log + [e])
  {
    forall k | 0 <= k < |log + [e]| ensures Justified((log + [e])[..k], (log + [e])[k]) {
      assert (log + [e])[..k] == if k == |log| then log else log[..k];
    }
  }

  lemma {:induction false} HolderExtends(log: seq<Event>, e: Event, nonce: Nonce)
    ensures Holder(log + [e], nonce) == if e.nonce != nonce then Holder(log, nonce) else match e
                                         case Stored(_, scope, stamp, _) => Some(Entry(scope, stamp))
                                         case Deleted(_, _, _) => None
                                         case _ => Holder(log, nonce)
  {
    assert (log + [e])[..|log|] == log;
  }

  lemma {:induction false} EventKeepsLog(s: State, t: State, e: Event)
    requires Coherent(s.log) && Agrees(s) && Justified(s.log, e) && t.log == s.log + [e]
    requires t.entries == match e
                          case Stored(n, scope, stamp, _) => s.entries[n := Entry(scope, stamp)]
                          case Deleted(n, _, _) => s.entries - {n}
                          case _ => s.entries
    ensures Coherent(t.log) && Agrees(t)
  {
    CoherentExtends(s.log, e);
    forall n ensures Holder(t.log, n) == if n in t.entries then Some(t.entries[n]) else None {
      HolderExtends(s.log, e, n);
    }
  }

  lemma {:induction false} StepKeepsLog(s: State, step: Step)
    requires Inv(s) && Enabled(s, step)
    ensures Coherent(Next(s, step).log) && Agrees(Next(s, step))
  {
    var t := Next(s, step);
    if step.LoadOrStore? || step.Delete? {
      var e := t.log[|s.log|];
      assert Holder(s.log, e.nonce) == if e.nonce in s.entries then Some(s.entries[e.nonce]) else None;
      EventKeepsLog(s, t, e);
    } else {
      assert t.log == s.log && t.entries == s.entries;
    }
  }

  lemma {:induction false} StepKeepsSweep(s: State, step: Step)
    requires StampsPast(s) && SweepHolds(s) && SweepCovers(s) && PendingPresent(s) && Enabled(s, step)
    ensures var t := Next(s, step); StampsPast(t) && SweepHolds(t) && SweepCovers(t) && PendingPresent(t)
  {
  }

  lemma {:induction false} StepKeepsTimes(s: State, step: Step)
    requires TimesInOrder(s) && Enabled(s, step)
    ensures TimesInOrder(Next(s, step))
  {
  }

  lemma {:induction false} StepKeepsInv(s: State, step: Step)
    requires Inv(s) && Enabled(s, step)
    ensures Inv(Next(s, step))
  {
    StepKeepsLog(s, step);
    StepKeepsSweep(s, step);
    StepKeepsTimes(s, step);
  }

  // ------------------------------------------------------------------------ runs

  ghost predicate IsRun(states: seq<State>, steps: seq<Step>) {
    && |states| == |steps| + 1
    && (exists now :: states[0] == Initial(now))
    && forall i :: 0 <= i < |steps| ==> Enabled(states[i], steps[i]) && states[i + 1] == Next(states[i], steps[i])
  }

  lemma {:induction false} RunKeepsInv(states: seq<State>, steps: seq<Step>, n: nat)
    requires IsRun(states, steps) && n < |states|
    ensures Inv(states[n])
  {
    if n > 0 {
      RunKeepsInv(states, steps, n - 1);
      StepKeepsInv(states[n - 1], steps[n - 1]);
    }
  }

  // -------------------------------------------------------------------- ownership

  predicate Allows(e: Event, nonce: Nonce, scope: Scope) {
    e.nonce == nonce && (e.Stored? || e.Reused?) && e.scope == scope
  }

  lemma {:induction false} HolderAt(log: seq<Event>, j: nat, nonce: Nonce)
    requires Coherent(log) && 0 < j <= |log|
    ensures Justified(log[..j - 1], log[j - 1])
    ensures var e := log[j - 1];
            Holder(log[..j], nonce) == if e.nonce != nonce then Holder(log[..j - 1], nonce) else match e
                                         case Stored(_, scope, stamp, _) => Some(Entry(scope, stamp))
                                         case Deleted(_, _, _) => None
                                         case _ => Holder(log[..j - 1], nonce)
  {
    assert log[..j] == log[..j - 1] + [log[j - 1]];
    HolderExtends(log[..j - 1], log[j - 1], nonce);
  }

  /** From an allowed presentation on, its scope's entry stays until it is deleted. */
  lemma {:induction false} OwnerStays(log: seq<Event>, i: nat, j: nat, nonce: Nonce, scope: Scope)
    requires Coherent(log) && i < j <= |log| && Allows(log[i], nonce, scope)
    requires forall k :: i < k < j ==> !(log[k].Deleted? && log[k].nonce == nonce)
    ensures Holder(log[..j], nonce).Some? && Holder(log[..j], nonce).value.scope == scope
    ensures Holder(log[..i], nonce).Some? ==> Holder(log[..j], nonce) == Holder(log[..i], nonce)
  {
    HolderAt(log, j, nonce);
    if j > i + 1 {
      OwnerStays(log, i, j - 1, nonce, scope);
    }
  }

  /** The first deletion of a nonce after an index. */
  lemma {:induction false} FirstDeletion(log: seq<Event>, i: nat, j: nat, nonce: Nonce) returns (k: nat)
    requires i < j <= |log|
    requires exists m :: i < m < j && log[m].Deleted? && log[m].nonce == nonce
    ensures i < k < j && log[k].Deleted? && log[k].nonce == nonce
    ensures forall m :: i < m < k ==> !(log[m].Deleted? && log[m].nonce == nonce)
  {
    k := i + 1;
    while !(log[k].Deleted? && log[k].nonce == nonce)
      invariant i < k < j
      invariant forall m :: i < m < k ==> !(log[m].Deleted? && log[m].nonce == nonce)
      invariant exists m :: k <= m < j && log[m].Deleted? && log[m].nonce == nonce
      decreases j - k
    {
      k := k + 1;
    }
  }

  /** Two allowed presentations of a nonce under different scopes have a deletion between
      them, by a sweep that began more than 24 hours after the clock reading the first
      scope's entry carries; the second comes after the deletion. If the first stored the
      entry, that is more than 24 hours after the store less the time the store took to
      follow its clock reading. */
  lemma {:induction false} ScopesAreApart(s: State, i: nat, j: nat, nonce: Nonce, first: Scope, second: Scope)
    returns (k: nat)
    requires Inv(s) && i < j < |s.log| && first != second
    requires Allows(s.log[i], nonce, first) && Allows(s.log[j], nonce, second)
    ensures i < k < j && s.log[k].Deleted? && s.log[k].nonce == nonce
    ensures var held := Holder(s.log[..k], nonce);
            && held.Some? && held.value.scope == first
            && held.value.stamp + 24 * 60 * 60 * 1_000_000_000 < s.log[k].began <= s.log[k].at <= s.log[j].at
    ensures s.log[i].Stored? ==>
              s.log[k].began - s.log[i].at > RETENTION - (s.log[i].at - s.log[i].stamp)
  {
    assert Justified(s.log[..j], s.log[j]);
    if forall m :: i < m < j ==> !(s.log[m].Deleted? && s.log[m].nonce == nonce) {
      OwnerStays(s.log, i, j, nonce, first);
      assert false;
    }
    k := FirstDeletion(s.log, i, j, nonce);
    OwnerStays(s.log, i, k, nonce, first);
    assert Justified(s.log[..k], s.log[k]);
    if s.log[i].Stored? {
      StampStays(s.log, i, k, nonce);
    }
  }

  /** A reuse does not renew an entry: until it is deleted it is the one stored. */
  lemma {:induction false} StampStays(log: seq<Event>, i: nat, j: nat, nonce: Nonce)
    requires Coherent(log) && i < j <= |log| && log[i].Stored? && log[i].nonce == nonce
    requires forall k :: i < k < j ==> !(log[k].Deleted? && log[k].nonce == nonce)
    ensures Holder(log[..j], nonce) == Some(Entry(log[i].scope, log[i].stamp))
  {
    HolderAt(log, j, nonce);
    if j > i + 1 {
      StampStays(log, i, j - 1, nonce);
    }
  }

  /** A scope once allowed is refused the nonce only after a deletion. */
  lemma {:induction false} OwnerIsNotRefused(s: State, i: nat, j: nat, nonce: Nonce, scope: Scope)
    requires Inv(s) && i < j < |s.log|
    requires Allows(s.log[i], nonce, scope) && s.log[j].Denied? && s.log[j].nonce == nonce && s.log[j].scope == scope
    ensures exists k :: i < k < j && s.log[k].Deleted? && s.log[k].nonce == nonce
  {
    assert Justified(s.log[..j], s.log[j]);
    if forall k :: i < k < j ==> !(s.log[k].Deleted? && s.log[k].nonce == nonce) {
      OwnerStays(s.log, i, j, nonce, scope);
      assert false;
    }
  }

  /** A caller is allowed exactly when the nonce is free or its own, whatever the sweep is
      doing. */
  lemma {:induction false} PresentedExactly(s: State, id: Id)
    requires Inv(s) && Enabled(s, LoadOrStore(id))
    ensures var c := s.callers[id];
            Next(s, LoadOrStore(id)).callers[id] ==
            Answered(c.nonce !in s.entries || s.entries[c.nonce].scope == c.scope)
    ensures var c := s.callers[id];
            var t := Next(s, LoadOrStore(id));
            c.nonce in t.entries && (c.nonce in s.entries ==> t.entries == s.entries)
  {
  }

  /** The first presentation of a free nonce files its scope and its clock reading; nothing
      else changes an entry that is there. Every presentation leaves its mark. */
  lemma {:induction false} PresentedLeaves(s: State, id: Id)
    requires Enabled(s, LoadOrStore(id))
    ensures var c, t := s.callers[id], Next(s, LoadOrStore(id));
            && t.entries == (if c.nonce in s.entries then s.entries else s.entries[c.nonce := Entry(c.scope, c.stamp)])
            && t.log == s.log + [if c.nonce !in s.entries then Stored(c.nonce, c.scope, c.stamp, s.now)
                                 else if s.entries[c.nonce].scope == c.scope then Reused(c.nonce, c.scope, s.now)
                                 else Denied(c.nonce, c.scope, s.now)]
            && t.callers[id] == Answered(Allows(t.log[|s.log|], c.nonce, c.scope))
  {
  }

  /** A call reads the clock when it begins; with an empty nonce it is refused there and
      then. */
  lemma {:induction false} CallBegins(s: State, id: Id, scope: Scope, nonce: Nonce)
    requires id !in s.callers
    ensures Enabled(s, Call(id, scope, nonce))
    ensures Next(s, Call(id, scope, nonce)) ==
            s.(callers := s.callers[id := if |nonce| > 0 then Stamped(scope, nonce, s.now) else Answered(false)])
  {
  }

  lemma {:induction false} AnswerStays(states: seq<State>, steps: seq<Step>, i: nat, n: nat, id: Id, allowed: bool)
    requires IsRun(states, steps) && i <= n < |states|
    requires id in states[i].callers && states[i].callers[id] == Answered(allowed)
    ensures id in states[n].callers && states[n].callers[id] == Answered(allowed)
  {
    if n > i {
      AnswerStays(states, steps, i, n - 1, id, allowed);
      assert states[n] == Next(states[n - 1], steps[n - 1]);
    }
  }

  /** In no run is a presentation without a nonce allowed, nor does it leave a mark. */
  lemma {:induction false} EmptyNonceIsRefused(states: seq<State>, steps: seq<Step>, i: nat, n: nat, id: Id,
                                               scope: Scope)
    requires IsRun(states, steps) && i < n < |states| && steps[i] == Call(id, scope, [])
    ensures id in states[n].callers && states[n].callers[id] == Answered(false)
    ensures states[i + 1].entries == states[i].entries && states[i + 1].log == states[i].log
  {
    CallBegins(states[i], id, scope, []);
    assert states[i + 1] == Next(states[i], steps[i]);
    AnswerStays(states, steps, i + 1, n, id, false);
  }

  /** When a sweep ends, an entry older than its deadline was stored while it ran. */
  lemma {:induction false} SweepRemovesOldEntries(s: State, nonce: Nonce)
    requires Inv(s) && Enabled(s, EndSweep)
    requires nonce in s.entries && s.entries[nonce].stamp < s.sweep.deadline
    ensures nonce in s.sweep.added
  {
    assert nonce in s.sweep.pending + s.sweep.added;
  }

  /** A nonce was stored by some step from a on, before i. */
  ghost predicate StoredBetween(states: seq<State>, a: nat, i: nat, nonce: Nonce)
    requires i < |states|
  {
    exists k :: a <= k < i && IsStore(states[k], states[k + 1], nonce)
  }

  predicate IsStore(s: State, t: State, nonce: Nonce) {
    |t.log| == |s.log| + 1 && t.log[|s.log|].Stored? && t.log[|s.log|].nonce == nonce && t.log[|s.log|].at == s.now
  }

  /** While a sweep runs its deadline stands, a day before its clock reading, and what it
      counts as added was stored since. */
  lemma {:induction false} SweepRunsOn(states: seq<State>, steps: seq<Step>, a: nat, i: nat, nonce: Nonce)
    requires IsRun(states, steps) && a < i < |states| && steps[a] == BeginSweep
    requires forall k :: a < k < i ==> steps[k] != EndSweep
    ensures !states[i].sweep.Idle?
    ensures states[i].sweep.deadline == states[a].now - 24 * 60 * 60 * 1_000_000_000
    ensures nonce in states[i].sweep.added ==> StoredBetween(states, a, i, nonce)
  {
    assert states[i] == Next(states[i - 1], steps[i - 1]) && Enabled(states[i - 1], steps[i - 1]);
    if i > a + 1 {
      SweepRunsOn(states, steps, a, i - 1, nonce);
      if nonce in states[i].sweep.added && nonce !in states[i - 1].sweep.added {
        assert IsStore(states[i - 1], states[i], nonce);
      }
    }
  }

  /** A sweep is thorough: what is older than a day before its clock reading and still there
      when it ends was stored while it ran. */
  lemma {:induction false} SweepIsThorough(states: seq<State>, steps: seq<Step>, a: nat, b: nat, nonce: Nonce)
    requires IsRun(states, steps) && a < b < |steps| && steps[a] == BeginSweep && steps[b] == EndSweep
    requires forall k :: a < k < b ==> steps[k] != EndSweep
    requires nonce in states[b].entries
    requires states[b].entries[nonce].stamp < states[a].now - 24 * 60 * 60 * 1_000_000_000
    ensures StoredBetween(states, a, b, nonce)
  {
    RunKeepsInv(states, steps, b);
    SweepRunsOn(states, steps, a, b, nonce);
    SweepRemovesOldEntries(states[b], nonce);
  }

  lemma {:induction false} RunGrows(states: seq<State>, steps: seq<Step>, step: Step, t: State)
    requires IsRun(states, steps) && Enabled(states[|states| - 1], step) && t == Next(states[|states| - 1], step)
    ensures IsRun(states + [t], steps + [step])
  {
  }

  /** Stored a delay after its clock reading, the entry is held. */
  lemma {:induction false} StoreLate(n: Nonce, d: nat, later: nat) returns (states: seq<State>, steps: seq<Step>)
    requires n != []
    ensures IsRun(states, steps)
    ensures states[|states| - 1] == State(d + later, map[n := Entry("a", 0)], map[0 := Answered(true)], Idle,
                                          [Stored(n, "a", 0, d)])
  {
    var s0 := Initial(0);
    var s1 := State(0, map[], map[0 := Stamped("a", n, 0)], Idle, []);
    var s2 := s1.(now := d);
    var s3 := State(d, map[n := Entry("a", 0)], map[0 := Answered(true)], Idle, [Stored(n, "a", 0, d)]);
    assert s1 == Next(s0, Call(0, "a", n));
    assert s2 == Next(s1, Tick(d));
    assert s3 == Next(s2, LoadOrStore(0));
    states, steps := [s0, s1, s2, s3, s3.(now := d + later)], [Call(0, "a", n), Tick(d), LoadOrStore(0), Tick(later)];
    assert states[0] == Initial(0);
  }

  /** A sweep deletes the one entry there is, once it is old enough. */
  lemma {:induction false} SweepIt(n: Nonce, before: seq<State>, taken: seq<Step>, e: Entry)
    returns (states: seq<State>, steps: seq<Step>)
    requires IsRun(before, taken)
    requires var s := before[|before| - 1];
             s.entries == map[n := e] && s.sweep == Idle && e.stamp < s.now - RETENTION
    ensures IsRun(states, steps)
    ensures var s := before[|before| - 1];
            states[|states| - 1] == s.(entries := map[], log := s.log + [Deleted(n, s.now, s.now)])
  {
    var s := before[|before| - 1];
    var deadline := s.now - RETENTION;
    states, steps := before, taken;
    var s5 := s.(sweep := Ranging(deadline, {n}, {}));
    assert s.entries.Keys == {n} && Next(s, BeginSweep) == s5;
    RunGrows(states, steps, BeginSweep, s5);
    states, steps := states + [s5], steps + [BeginSweep];
    var s6 := s.(sweep := Deleting(deadline, {n}, {}, n));
    RunGrows(states, steps, Examine(n), s6);
    states, steps := states + [s6], steps + [Examine(n)];
    var s7 := Next(s6, Delete);
    RunGrows(states, steps, Delete, s7);
    states, steps := states + [s7], steps + [Delete];
    RunGrows(states, steps, EndSweep, Next(s7, EndSweep));
    states, steps := states + [Next(s7, EndSweep)], steps + [EndSweep];
    assert s6.entries - {n} == map[];
  }

  /** The 24 hours run from the clock reading, not from the store. Every delay d between
      the two is lost from them, down to nothing: there is a run in which the entry is
      swept 24 hours and the next instant less d after the store, and a second scope is
      allowed at once. */
  lemma {:induction false} DelayIsLost(d: int) returns (states: seq<State>, steps: seq<Step>)
    requires 0 <= d <= RETENTION + 1
    ensures IsRun(states, steps)
    ensures var log := states[|states| - 1].log;
            && |log| == 3 && log[0].Stored? && log[1].Deleted? && log[2].Stored?
            && log[0].nonce == log[1].nonce == log[2].nonce && log[0].scope != log[2].scope
            && log[0].at - log[0].stamp == d
            && log[1].began - log[0].at == RETENTION + 1 - d && log[2].at == log[1].began
  {
    var n: Nonce := [7];
    states, steps := StoreLate(n, d, RETENTION + 1 - d);
    states, steps := SweepIt(n, states, steps, Entry("a", 0));
    var s8 := states[|states| - 1];
    var s9 := s8.(callers := s8.callers[1 := Stamped("b", n, s8.now)]);
    RunGrows(states, steps, Call(1, "b", n), s9);
    states, steps := states + [s9], steps + [Call(1, "b", n)];
    RunGrows(states, steps, LoadOrStore(1), Next(s9, LoadOrStore(1)));
    states, steps := states + [Next(s9, LoadOrStore(1))], steps + [LoadOrStore(1)];
  }
}
