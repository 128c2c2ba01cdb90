/** The OCSP cache: one fetch per key at a time, the other callers waiting for it. A
    step is what one goroutine does inside one critical section, or between two. */
module OcspCache {
  import opened ByteStrings

  type Id = nat

  /** An issuer and a serial number name a certificate; url is its responder's, or empty. */
  datatype Certificate = Certificate(issuer: string, serial: nat, url: string)

  /** The cache's key leaves the issuer out. */
  datatype Key = Key(serial: nat, url: string)

  function KeyOf(c: Certificate): Key {
    Key(c.serial, c.url)
  }

  datatype Status = Good | Revoked | Unknown

  /** Absent times are the zero time of the responder's answer. */
  datatype Response = Response(
    status: Status, producedAt: Option<int>, thisUpdate: Option<int>, nextUpdate: Option<int>)

  datatype CacheEntry = CacheEntry(
    status: Status, cachedAt: int, thisUpdate: Option<int>, nextUpdate: Option<int>, ttl: int)

  datatype Policy = Allow | Deny | Crl

  datatype CrlAnswer = NotRevoked | IsRevoked | LookupFailed

  const DEFAULT_TTL: int := 300

  datatype Config = Config(ttl: int, policy: Policy)

  /** A ttl that is not positive becomes five minutes, an unknown policy deny. */
  function NewConfig(ttl: int, fallback: string): Config {
    Config(if ttl <= 0 then DEFAULT_TTL else ttl,
           if fallback == "allow" then Allow else if fallback == "crl" then Crl else Deny)
  }

  // ------------------------------------------------------------------- freshness

  predicate Fresh(e: CacheEntry, now: int) {
    if e.thisUpdate.Some? && now < e.thisUpdate.value then false
    else if e.nextUpdate.Some? then now < e.nextUpdate.value
    else now < e.cachedAt + e.ttl
  }

  function EntryOf(r: Response, now: int, ttl: int): CacheEntry {
    CacheEntry(r.status, now, r.thisUpdate, r.nextUpdate, ttl)
  }

  /** The four checks on a response before it is stored, in the order they are made. */
  function Accept(r: Response, now: int, ttl: int): Option<CacheEntry> {
    var entry := EntryOf(r, now, ttl);
    if r.thisUpdate.None? && r.producedAt.None? then None
    else if r.nextUpdate.Some? && now > r.nextUpdate.value then None
    else if r.thisUpdate.Some? && r.thisUpdate.value > now then None
    else if !Fresh(entry, now) then None
    else Some(entry)
  }

  /** Section 3.2 of RFC 6960: the time a status is known to be correct is recent, and
      newer information is not yet due. */
  predicate WithinWindow(r: Response, now: int) {
    (r.thisUpdate.Some? ==> r.thisUpdate.value <= now) && (r.nextUpdate.Some? ==> now < r.nextUpdate.value)
  }

  /** What is stored was in its window when fetched, and had a time at all. */
  lemma {:induction false} AcceptedIsCurrent(r: Response, now: int, ttl: int)
    requires ttl > 0
    ensures Accept(r, now, ttl).Some? <==> (r.thisUpdate.Some? || r.producedAt.Some?) && WithinWindow(r, now)
  {
  }

  // ------------------------------------------------------------------- the fallback

  datatype Verdict = Nil | Refused

  function FallbackErr(policy: Policy, checker: bool, answer: CrlAnswer): Verdict {
    match policy
    case Allow => Nil
    case Crl => if !checker then Refused else if answer == NotRevoked then Nil else Refused
    case Deny => Refused
  }

  function StatusVerdict(status: Status): Verdict {
    if status == Good then Nil else Refused
  }

  /** What a verdict was reached on. */
  datatype Basis = ByFallback(checker: bool, answer: CrlAnswer) | ByEntry(entry: CacheEntry, at: int) | ByError

  // ----------------------------------------------------------------------- threads

  datatype Phase =
    | Starting
    | Missed
    | Waiting(channel: Id)
    | Woken
    | Snapshot(seen: Option<CacheEntry>)
    | Fetching
    | Storing(entry: CacheEntry)
    | Unwinding(verdict: Verdict, basis: Basis)   // the deferred function runs
    | Closing(verdict: Verdict, basis: Basis)     // key deregistered, channel still open
    | Done(verdict: Verdict, basis: Basis)

  datatype Thread = Thread(cert: Certificate, hasIssuer: bool, started: int, phase: Phase)

  /** A response the responder gave, for which certificate, and when. */
  datatype Received = Received(cert: Certificate, response: Response, at: int)

  /** A leader's channel carries the leader's identity. */
  datatype State = State(
    config: Config,
    now: int,
    checker: bool,
    entries: map<Key, CacheEntry>,
    inflight: map<Key, Id>,
    closed: set<Id>,
    threads: map<Id, Thread>,
    log: set<Received>
  )

  datatype Step =
    | Tick(elapsed: nat)
    | Flush
    | SetChecker(installed: bool)
    | Begin(id: Id, cert: Certificate, hasIssuer: bool)
    | NoURL(id: Id, answer: CrlAnswer)
    | ReadCache(id: Id, elapsed: nat)
    | Register(id: Id)
    | Wake(id: Id)
    | Reread(id: Id)
    | Judge(id: Id, answer: CrlAnswer)
    | NoIssuer(id: Id, answer: CrlAnswer)
    | RequestFails(id: Id)
    | NetworkFails(id: Id, answer: CrlAnswer)
    | Respond(id: Id, response: Response, answer: CrlAnswer)
    | Store(id: Id)
    | Deregister(id: Id)
    | CloseChannel(id: Id)

  function Initial(config: Config, now: int): State {
    State(config, now, false, map[], map[], {}, map[], {})
  }

  function With(s: State, id: Id, phase: Phase): State
    requires id in s.threads
  {
    s.(threads := s.threads[id := s.threads[id].(phase := phase)])
  }

  function Fall(s: State, answer: CrlAnswer): (Verdict, Basis) {
    (FallbackErr(s.config.policy, s.checker, answer), ByFallback(s.checker, answer))
  }

  predicate Enabled(s: State, step: Step) {
    match step
    case Tick(_) => true
    case Flush => true
    case SetChecker(_) => true
    case Begin(id, _, _) => id !in s.threads
    case NoURL(id, _) => id in s.threads && s.threads[id].phase == Starting && s.threads[id].cert.url == ""
    case ReadCache(id, _) => id in s.threads && s.threads[id].phase == Starting && s.threads[id].cert.url != ""
    case Register(id) => id in s.threads && s.threads[id].phase == Missed
    case Wake(id) => id in s.threads && s.threads[id].phase.Waiting? && s.threads[id].phase.channel in s.closed
    case Reread(id) => id in s.threads && s.threads[id].phase == Woken
    case Judge(id, _) => id in s.threads && s.threads[id].phase.Snapshot?
    case NoIssuer(id, _) => id in s.threads && s.threads[id].phase == Fetching && !s.threads[id].hasIssuer
    case RequestFails(id) => id in s.threads && s.threads[id].phase == Fetching && s.threads[id].hasIssuer
    case NetworkFails(id, _) => id in s.threads && s.threads[id].phase == Fetching && s.threads[id].hasIssuer
    case Respond(id, _, _) => id in s.threads && s.threads[id].phase == Fetching && s.threads[id].hasIssuer
    case Store(id) => id in s.threads && s.threads[id].phase.Storing?
    case Deregister(id) => id in s.threads && s.threads[id].phase.Unwinding?
    case CloseChannel(id) => id in s.threads && s.threads[id].phase.Closing?
  }

  function Next(s: State, step: Step): State
    requires Enabled(s, step)
  {
    match step
    case Tick(elapsed) => s.(now := s.now + elapsed)
    case Flush => s.(entries := map[])
    case SetChecker(installed) => s.(checker := installed)
    case Begin(id, cert, hasIssuer) =>
      s.(threads := s.threads[id := Thread(cert, hasIssuer, s.now, Starting)])
    case NoURL(id, answer) => var (v, b) := Fall(s, answer); With(s, id, Done(v, b))
    case ReadCache(id, elapsed) =>
      // the clock is read twice under the read lock: for the age, then for the window
      var key, later := KeyOf(s.threads[id].cert), s.now + elapsed;
      if key in s.entries && s.now - s.entries[key].cachedAt < s.config.ttl && Fresh(s.entries[key], later) then
        With(s, id, Done(StatusVerdict(s.entries[key].status), ByEntry(s.entries[key], later))).(now := later)
      else With(s, id, Missed).(now := later)
    case Register(id) =>
      var key := KeyOf(s.threads[id].cert);
      if key in s.inflight then With(s, id, Waiting(s.inflight[key]))
      else With(s, id, Fetching).(inflight := s.inflight[key := id])
    case Wake(id) => With(s, id, Woken)
    case Reread(id) =>
      var key := KeyOf(s.threads[id].cert);
      With(s, id, Snapshot(if key in s.entries then Some(s.entries[key]) else None))
    case Judge(id, answer) =>
      var seen := s.threads[id].phase.seen;
      if seen.Some? && Fresh(seen.value, s.now) then
        With(s, id, Done(StatusVerdict(seen.value.status), ByEntry(seen.value, s.now)))
      else
        var (v, b) := Fall(s, answer);
        With(s, id, Done(v, b))
    case NoIssuer(id, answer) => var (v, b) := Fall(s, answer); With(s, id, Unwinding(v, b))
    case RequestFails(id) => With(s, id, Unwinding(Refused, ByError))
    case NetworkFails(id, answer) => var (v, b) := Fall(s, answer); With(s, id, Unwinding(v, b))
    case Respond(id, response, answer) =>
      (match Accept(response, s.now, s.config.ttl)
       case None => var (v, b) := Fall(s, answer); With(s, id, Unwinding(v, b))
       case Some(entry) =>
         With(s, id, Storing(entry)).(log := s.log + {Received(s.threads[id].cert, response, s.now)}))
    case Store(id) =>
      var entry := s.threads[id].phase.entry;
      With(s, id, Unwinding(StatusVerdict(entry.status), ByEntry(entry, entry.cachedAt))).(
        entries := s.entries[KeyOf(s.threads[id].cert) := entry])
    case Deregister(id) =>
      With(s, id, Closing(s.threads[id].phase.verdict, s.threads[id].phase.basis)).(
        inflight := s.inflight - {KeyOf(s.threads[id].cert)})
    case CloseChannel(id) =>
      With(s, id, Done(s.threads[id].phase.verdict, s.threads[id].phase.basis)).(closed := s.closed + {id})
  }

  // --------------------------------------------------------------- the invariant

  predicate Leading(p: Phase) { p.Fetching? || p.Storing? || p.Unwinding? }

  /** inflight[key] is present exactly while a thread is between registering and
      deregistering for that key, and names that thread. */
  ghost predicate OneLeader(s: State) {
    && (forall key :: key in s.inflight ==>
          s.inflight[key] in s.threads && KeyOf(s.threads[s.inflight[key]].cert) == key
          && Leading(s.threads[s.inflight[key]].phase))
    && (forall id :: id in s.threads && Leading(s.threads[id].phase) ==>
          KeyOf(s.threads[id].cert) in s.inflight && s.inflight[KeyOf(s.threads[id].cert)] == id)
  }

  /** Someone is still due to close the channel. */
  predicate WillClose(s: State, channel: Id) {
    channel in s.threads && (Leading(s.threads[channel].phase) || s.threads[channel].phase.Closing?)
  }

  ghost predicate NoLostWakeup(s: State) {
    && (forall id :: id in s.threads && s.threads[id].phase.Waiting? ==>
          s.threads[id].phase.channel in s.closed || WillClose(s, s.threads[id].phase.channel))
    && (forall channel :: channel in s.closed ==> channel in s.threads && s.threads[channel].phase.Done?)
  }

  /** The responder gave this entry's response for this key, and it was current then. */
  ghost predicate Backed(s: State, key: Key, e: CacheEntry) {
    exists r :: r in s.log && KeyOf(r.cert) == key && r.at == e.cachedAt && r.at <= s.now
      && Accept(r.response, r.at, s.config.ttl) == Some(e)
  }

  /** A verdict is nil exactly when the fallback policy says so, or a Good entry was
      within its validity at an instant of the call. */
  ghost predicate Justified(s: State, thread: Thread, verdict: Verdict, basis: Basis) {
    match basis
    case ByFallback(checker, answer) =>
      verdict == Nil <==> s.config.policy == Allow || (s.config.policy == Crl && checker && answer == NotRevoked)
    case ByEntry(e, at) =>
      && (verdict == Nil <==> e.status == Good)
      && Fresh(e, at) && thread.started <= at <= s.now && Backed(s, KeyOf(thread.cert), e)
    case ByError => verdict == Refused
  }

  /** What a thread carries is backed by the responder, its verdict justified. */
  ghost predicate ThreadSound(s: State, thread: Thread) {
    && thread.started <= s.now
    && match thread.phase
       case Storing(e) => Backed(s, KeyOf(thread.cert), e) && thread.started <= e.cachedAt && Fresh(e, e.cachedAt)
       case Snapshot(seen) => seen.Some? ==> Backed(s, KeyOf(thread.cert), seen.value)
       case Unwinding(v, b) => Justified(s, thread, v, b)
       case Closing(v, b) => Justified(s, thread, v, b)
       case Done(v, b) => Justified(s, thread, v, b)
       case _ => true
  }

  ghost predicate CacheSound(s: State) {
    && (forall key :: key in s.entries ==> Backed(s, key, s.entries[key]))
    && (forall id :: id in s.threads ==> ThreadSound(s, s.threads[id]))
  }

  ghost predicate Inv(s: State) {
    s.config.ttl > 0 && OneLeader(s) && NoLostWakeup(s) && CacheSound(s)
  }

  // ------------------------------------------------------ every step keeps it

  /** A thread other than the leaders' comings and goings. */
  predicate KeepsLeading(s: State, step: Step)
    requires Enabled(s, step)
  {
    !step.Register? && !step.Deregister?
  }

  /** Time and log only grow. */
  predicate Later(s: State, t: State) {
    s.log <= t.log && s.config == t.config && s.now <= t.now
  }

  lemma {:induction false} BackingStays(s: State, t: State, key: Key, e: CacheEntry)
    requires Backed(s, key, e) && Later(s, t)
    ensures Backed(t, key, e)
  {
    var r :| r in s.log && KeyOf(r.cert) == key && r.at == e.cachedAt && r.at <= s.now
      && Accept(r.response, r.at, s.config.ttl) == Some(e);
    assert r in t.log;
  }

  lemma {:induction false} SoundnessStays(s: State, t: State, thread: Thread)
    requires ThreadSound(s, thread) && Later(s, t)
    ensures ThreadSound(t, thread)
  {
    forall e | Backed(s, KeyOf(thread.cert), e)
      ensures Backed(t, KeyOf(thread.cert), e)
    {
      BackingStays(s, t, KeyOf(thread.cert), e);
    }
  }

  /** The thread a step moves on. */
  function MovedBy(step: Step): Option<Id> {
    match step
    case Tick(_) => None
    case Flush => None
    case SetChecker(_) => None
    case Begin(id, _, _) => Some(id)
    case NoURL(id, _) => Some(id)
    case ReadCache(id, _) => Some(id)
    case Register(id) => Some(id)
    case Wake(id) => Some(id)
    case Reread(id) => Some(id)
    case Judge(id, _) => Some(id)
    case NoIssuer(id, _) => Some(id)
    case RequestFails(id) => Some(id)
    case NetworkFails(id, _) => Some(id)
    case Respond(id, _, _) => Some(id)
    case Store(id) => Some(id)
    case Deregister(id) => Some(id)
    case CloseChannel(id) => Some(id)
  }

  lemma {:induction false} OthersUnmoved(s: State, step: Step)
    requires Enabled(s, step)
    ensures Later(s, Next(s, step))
    ensures forall id :: id in Next(s, step).threads && Some(id) != MovedBy(step) ==>
              id in s.threads && Next(s, step).threads[id] == s.threads[id]
  {
  }

  lemma {:induction false} LeaderLeadsOn(s: State, step: Step, id: Id)
    requires Enabled(s, step) && KeepsLeading(s, step) && MovedBy(step) == Some(id)
    requires id in s.threads && Leading(s.threads[id].phase)
    ensures var t := Next(s, step);
            id in t.threads && t.threads[id].cert == s.threads[id].cert && Leading(t.threads[id].phase)
  {
  }

  lemma {:induction false} ReadersDoNotLead(s: State, step: Step, id: Id)
    requires Enabled(s, step) && MovedBy(step) == Some(id) && (step.ReadCache? || step.Judge?)
    ensures var t := Next(s, step);
            id in t.threads && t.threads[id].cert == s.threads[id].cert && !Leading(t.threads[id].phase)
  {
  }

  lemma {:induction false} OthersDoNotLead(s: State, step: Step, id: Id)
    requires Enabled(s, step) && KeepsLeading(s, step) && MovedBy(step) == Some(id) && !step.Begin?
    requires id in s.threads && !Leading(s.threads[id].phase)
    ensures var t := Next(s, step);
            id in t.threads && t.threads[id].cert == s.threads[id].cert && !Leading(t.threads[id].phase)
  {
    if step.ReadCache? || step.Judge? {
      ReadersDoNotLead(s, step, id);
    }
  }

  lemma {:induction false} LeadingUnchanged(s: State, step: Step, id: Id)
    requires Enabled(s, step) && KeepsLeading(s, step) && MovedBy(step) == Some(id)
    ensures var t := Next(s, step);
            && id in t.threads
            && (id in s.threads ==> KeyOf(t.threads[id].cert) == KeyOf(s.threads[id].cert))
            && (Leading(t.threads[id].phase) <==> id in s.threads && Leading(s.threads[id].phase))
  {
    if step.Begin? {
      assert Next(s, step).threads[id].phase == Starting;
    } else if Leading(s.threads[id].phase) {
      LeaderLeadsOn(s, step, id);
    } else {
      OthersDoNotLead(s, step, id);
    }
  }

  lemma {:induction false} InflightUnchanged(s: State, step: Step)
    requires Enabled(s, step) && KeepsLeading(s, step)
    ensures Next(s, step).inflight == s.inflight && s.threads.Keys <= Next(s, step).threads.Keys
  {
  }

  lemma {:induction false} StepKeepsLeader(s: State, step: Step)
    requires Inv(s) && Enabled(s, step) && KeepsLeading(s, step)
    ensures OneLeader(Next(s, step))
  {
    var t := Next(s, step);
    OthersUnmoved(s, step);
    InflightUnchanged(s, step);
    forall id | id in t.threads
      ensures Leading(t.threads[id].phase) <==> id in s.threads && Leading(s.threads[id].phase)
      ensures id in s.threads ==> KeyOf(t.threads[id].cert) == KeyOf(s.threads[id].cert)
    {
      if MovedBy(step) == Some(id) {
        LeadingUnchanged(s, step, id);
      }
    }
  }

  lemma {:induction false} RegisterKeepsLeader(s: State, id: Id)
    requires Inv(s) && Enabled(s, Register(id))
    ensures OneLeader(Next(s, Register(id)))
  {
    if KeyOf(s.threads[id].cert) in s.inflight {
      JoiningKeepsLeader(s, id);
    } else {
      LeadingKeepsLeader(s, id);
    }
  }

  lemma {:induction false} JoiningKeepsLeader(s: State, id: Id)
    requires Inv(s) && Enabled(s, Register(id)) && KeyOf(s.threads[id].cert) in s.inflight
    ensures OneLeader(Next(s, Register(id)))
  {
    var t := Next(s, Register(id));
    assert t.inflight == s.inflight;
    assert forall k :: k in s.inflight ==> s.inflight[k] != id;
  }

  lemma {:induction false} LeadingKeepsLeader(s: State, id: Id)
    requires Inv(s) && Enabled(s, Register(id)) && KeyOf(s.threads[id].cert) !in s.inflight
    ensures OneLeader(Next(s, Register(id)))
  {
    var t := Next(s, Register(id));
    assert t.inflight == s.inflight[KeyOf(s.threads[id].cert) := id];
    assert forall k :: k in s.inflight ==> s.inflight[k] != id;
  }

  lemma {:induction false} DeregisterKeepsLeader(s: State, id: Id)
    requires Inv(s) && Enabled(s, Deregister(id))
    ensures OneLeader(Next(s, Deregister(id)))
  {
    var t, key := Next(s, Deregister(id)), KeyOf(s.threads[id].cert);
    assert s.inflight[key] == id;
    assert t.inflight == s.inflight - {key};
  }

  /** A channel that is open keeps somebody who will close it, until it is closed. */
  lemma {:induction false} ClosersStay(s: State, step: Step, channel: Id)
    requires Enabled(s, step) && WillClose(s, channel)
    ensures WillClose(Next(s, step), channel) || channel in Next(s, step).closed
  {
  }

  lemma {:induction false} WaiterHasCloser(s: State, step: Step, id: Id)
    requires Inv(s) && Enabled(s, step)
    requires var t := Next(s, step); id in t.threads && t.threads[id].phase.Waiting?
    ensures var channel := Next(s, step).threads[id].phase.channel;
            (id in s.threads && s.threads[id].phase == Waiting(channel)) || WillClose(s, channel)
  {
    OthersUnmoved(s, step);
    if MovedBy(step) == Some(id) {
      OnlyRegisterWaits(s, step, id);
    }
  }

  lemma {:induction false} OnlyRegisterWaits(s: State, step: Step, id: Id)
    requires Enabled(s, step) && MovedBy(step) == Some(id)
    requires var t := Next(s, step); id in t.threads && t.threads[id].phase.Waiting?
    ensures step == Register(id)
  {
  }

  lemma {:induction false} WaiterStaysSafe(s: State, step: Step, id: Id)
    requires Inv(s) && Enabled(s, step)
    requires var t := Next(s, step); id in t.threads && t.threads[id].phase.Waiting?
    ensures var t := Next(s, step);
            t.threads[id].phase.channel in t.closed || WillClose(t, t.threads[id].phase.channel)
  {
    var channel := Next(s, step).threads[id].phase.channel;
    WaiterHasCloser(s, step, id);
    OnlyCloseChannelCloses(s, step);
    if channel !in s.closed {
      ClosersStay(s, step, channel);
    }
  }

  lemma {:induction false} StepKeepsWakeups(s: State, step: Step)
    requires Inv(s) && Enabled(s, step)
    ensures NoLostWakeup(Next(s, step))
  {
    var t := Next(s, step);
    forall id | id in t.threads && t.threads[id].phase.Waiting?
      ensures t.threads[id].phase.channel in t.closed || WillClose(t, t.threads[id].phase.channel)
    {
      WaiterStaysSafe(s, step, id);
    }
    ClosedAreDone(s, step);
  }

  lemma {:induction false} OnlyCloseChannelCloses(s: State, step: Step)
    requires Enabled(s, step)
    ensures Next(s, step).closed == if step.CloseChannel? then s.closed + {step.id} else s.closed
  {
  }

  lemma {:induction false} DoneStays(s: State, step: Step, id: Id)
    requires Enabled(s, step) && id in s.threads && s.threads[id].phase.Done?
    ensures id in Next(s, step).threads && Next(s, step).threads[id] == s.threads[id]
  {
    assert MovedBy(step) != Some(id);
  }

  lemma {:induction false} ClosedAreDone(s: State, step: Step)
    requires Inv(s) && Enabled(s, step)
    ensures var t := Next(s, step);
            forall channel :: channel in t.closed ==> channel in t.threads && t.threads[channel].phase.Done?
  {
    var t := Next(s, step);
    OnlyCloseChannelCloses(s, step);
    forall channel | channel in t.closed
      ensures channel in t.threads && t.threads[channel].phase.Done?
    {
      if channel in s.closed {
        DoneStays(s, step, channel);
      }
    }
  }

  lemma {:induction false} JudgeIsSound(s: State, step: Step, id: Id)
    requires Inv(s) && Enabled(s, step) && MovedBy(step) == Some(id) && step.Judge?
    ensures var t := Next(s, step); id in t.threads && ThreadSound(t, t.threads[id])
  {
    SoundnessStays(s, Next(s, step), s.threads[id]);
  }

  lemma {:induction false} RereadIsSound(s: State, step: Step, id: Id)
    requires Inv(s) && Enabled(s, step) && MovedBy(step) == Some(id) && step.Reread?
    ensures var t := Next(s, step); id in t.threads && ThreadSound(t, t.threads[id])
  {
    var t, key := Next(s, step), KeyOf(s.threads[id].cert);
    assert t.now == s.now && t.threads[id].cert == s.threads[id].cert;
    if key in s.entries {
      BackingStays(s, t, key, s.entries[key]);
    }
  }

  /** The fast path: the entry is backed, and fresh at an instant of the call. */
  lemma {:induction false} HitIsJustified(s: State, t: State, thread: Thread, e: CacheEntry)
    requires Later(s, t) && thread.started <= s.now && Backed(s, KeyOf(thread.cert), e) && Fresh(e, t.now)
    ensures Justified(t, thread, StatusVerdict(e.status), ByEntry(e, t.now))
  {
    BackingStays(s, t, KeyOf(thread.cert), e);
  }

  lemma {:induction false} ReaderIsSound(s: State, step: Step, id: Id)
    requires Inv(s) && Enabled(s, step) && MovedBy(step) == Some(id) && step.ReadCache?
    ensures var t := Next(s, step); id in t.threads && ThreadSound(t, t.threads[id])
  {
    var t, key := Next(s, step), KeyOf(s.threads[id].cert);
    var thread := s.threads[id];
    assert ThreadSound(s, thread);
    if t.threads[id].phase.Done? {
      HitIsJustified(s, t, t.threads[id], s.entries[key]);
    }
  }

  /** A verdict of the fallback is justified by what the fallback was asked. */
  lemma {:induction false} FallenIsSound(s: State, step: Step, id: Id)
    requires Inv(s) && Enabled(s, step) && MovedBy(step) == Some(id)
    requires step.NoURL? || step.NoIssuer? || step.NetworkFails?
    ensures var t := Next(s, step); id in t.threads && ThreadSound(t, t.threads[id])
  {
    assert ThreadSound(s, s.threads[id]);
  }

  lemma {:induction false} MovedIsSound(s: State, step: Step, id: Id)
    requires Inv(s) && Enabled(s, step) && MovedBy(step) == Some(id)
    requires !step.Respond? && !step.ReadCache? && !step.Reread? && !step.Judge?
    requires !step.NoURL? && !step.NoIssuer? && !step.NetworkFails?
    ensures var t := Next(s, step); id in t.threads && ThreadSound(t, t.threads[id])
  {
    OthersUnmoved(s, step);
    if id in s.threads {
      SoundnessStays(s, Next(s, step), s.threads[id]);
    }
  }

  lemma {:induction false} RespondedIsSound(s: State, step: Step)
    requires Inv(s) && Enabled(s, step) && step.Respond?
    ensures var t := Next(s, step); step.id in t.threads && ThreadSound(t, t.threads[step.id])
  {
    var t := Next(s, step);
    if Accept(step.response, s.now, s.config.ttl).Some? {
      var r := Received(s.threads[step.id].cert, step.response, s.now);
      assert r in t.log;
      assert Backed(t, KeyOf(r.cert), EntryOf(step.response, s.now, s.config.ttl));
    }
  }

  lemma {:induction false} StepKeepsSound(s: State, step: Step)
    requires Inv(s) && Enabled(s, step)
    ensures CacheSound(Next(s, step))
  {
    var t := Next(s, step);
    OthersUnmoved(s, step);
    forall id | id in t.threads
      ensures ThreadSound(t, t.threads[id])
    {
      if MovedBy(step) == Some(id) {
        if step.Respond? {
          RespondedIsSound(s, step);
        } else if step.Judge? {
          JudgeIsSound(s, step, id);
        } else if step.ReadCache? {
          ReaderIsSound(s, step, id);
        } else if step.Reread? {
          RereadIsSound(s, step, id);
        } else if step.NoURL? || step.NoIssuer? || step.NetworkFails? {
          FallenIsSound(s, step, id);
        } else {
          MovedIsSound(s, step, id);
        }
      } else {
        SoundnessStays(s, t, s.threads[id]);
      }
    }
    StoredIsBacked(s, step);
  }

  lemma {:induction false} OnlyStoreAdds(s: State, step: Step, key: Key)
    requires Enabled(s, step) && key in Next(s, step).entries
    ensures var e := Next(s, step).entries[key];
            || (key in s.entries && e == s.entries[key])
            || (step.Store? && key == KeyOf(s.threads[step.id].cert) && e == s.threads[step.id].phase.entry)
  {
  }

  lemma {:induction false} StoredIsBacked(s: State, step: Step)
    requires Inv(s) && Enabled(s, step)
    ensures var t := Next(s, step); forall key :: key in t.entries ==> Backed(t, key, t.entries[key])
  {
    var t := Next(s, step);
    OthersUnmoved(s, step);
    forall key | key in t.entries
      ensures Backed(t, key, t.entries[key])
    {
      OnlyStoreAdds(s, step, key);
      assert Backed(s, key, t.entries[key]);
      BackingStays(s, t, key, t.entries[key]);
    }
  }

  lemma {:induction false} StepKeepsInv(s: State, step: Step)
    requires Inv(s) && Enabled(s, step)
    ensures Inv(Next(s, step))
  {
    if KeepsLeading(s, step) {
      StepKeepsLeader(s, step);
    } else if step.Register? {
      RegisterKeepsLeader(s, step.id);
    } else {
      DeregisterKeepsLeader(s, step.id);
    }
    StepKeepsWakeups(s, step);
    StepKeepsSound(s, step);
    OthersUnmoved(s, step);
  }

  // ------------------------------------------------------------------ whole runs

  ghost predicate Possible(s: State, steps: seq<Step>)
    decreases |steps|
  {
    steps == [] || (Enabled(s, steps[0]) && Possible(Next(s, steps[0]), steps[1..]))
  }

  ghost function After(s: State, steps: seq<Step>): State
    requires Possible(s, steps)
    decreases |steps|
  {
    if steps == [] then s else After(Next(s, steps[0]), steps[1..])
  }

  lemma {:induction false} RunKeepsInv(s: State, steps: seq<Step>)
    requires Inv(s) && Possible(s, steps)
    ensures Inv(After(s, steps)) && After(s, steps).config == s.config
    decreases |steps|
  {
    if steps != [] {
      StepKeepsInv(s, steps[0]);
      OthersUnmoved(s, steps[0]);
      RunKeepsInv(Next(s, steps[0]), steps[1..]);
    }
  }

  predicate BothLead(a: Thread, b: Thread) {
    KeyOf(a.cert) == KeyOf(b.cert) && Leading(a.phase) && Leading(b.phase)
  }

  /** In every interleaving at most one call per key is fetching, and a waiting call's
      channel is closed or has somebody left who will close it. */
  lemma {:induction false} Coalescing(ttl: int, fallback: string, now: int, steps: seq<Step>)
    requires Possible(Initial(NewConfig(ttl, fallback), now), steps)
    ensures var s := After(Initial(NewConfig(ttl, fallback), now), steps);
            && (forall a, b :: a in s.threads && b in s.threads && BothLead(s.threads[a], s.threads[b]) ==> a == b)
            && (forall key :: key in s.inflight <==>
                  exists id :: id in s.threads && KeyOf(s.threads[id].cert) == key && Leading(s.threads[id].phase))
            && NoLostWakeup(s)
  {
    var s0 := Initial(NewConfig(ttl, fallback), now);
    RunKeepsInv(s0, steps);
    var s := After(s0, steps);
    forall key | key in s.inflight
      ensures exists id :: id in s.threads && KeyOf(s.threads[id].cert) == key && Leading(s.threads[id].phase)
    {
      assert s.inflight[key] in s.threads;
    }
  }

  /** When the fallback of a cache made with this word passes a certificate. */
  predicate FallsToNil(fallback: string, checker: bool, answer: CrlAnswer) {
    fallback == "allow" || (fallback == "crl" && checker && answer == NotRevoked)
  }

  /** Five minutes, unless a positive time is given. */
  function TtlOf(ttl: int): int {
    if ttl > 0 then ttl else 5 * 60
  }

  /** What a nil result may rest on. */
  ghost predicate NilGrounds(fallback: string, ttl: int, s: State, thread: Thread, basis: Basis) {
    match basis
    case ByFallback(checker, answer) => FallsToNil(fallback, checker, answer)
    case ByEntry(_, at) =>
      && thread.started <= at <= s.now
      && exists r :: r in s.log && r.cert.serial == thread.cert.serial && r.cert.url == thread.cert.url
           && Vouches(r, at, TtlOf(ttl))
    case ByError => false
  }

  /** A Good answer, in its window at the instant; without nextUpdate, no older than ttl. */
  predicate Vouches(r: Received, at: int, ttl: int) {
    && r.response.status == Good
    && WithinWindow(r.response, at)
    && (r.response.nextUpdate.None? ==> at < r.at + ttl)
  }

  lemma {:induction false} ConfiguredAsGiven(ttl: int, fallback: string, checker: bool, answer: CrlAnswer)
    ensures NewConfig(ttl, fallback).ttl == TtlOf(ttl)
    ensures FallbackErr(NewConfig(ttl, fallback).policy, checker, answer) == Nil <==>
            FallsToNil(fallback, checker, answer)
  {
  }

  /** In every interleaving a verdict of the fallback is nil exactly when the word the cache
      was made with says so: "allow" always, "crl" when a checker finds the certificate not
      revoked, and no other word. */
  lemma {:induction false} FallbackExactly(ttl: int, fallback: string, now: int, steps: seq<Step>, id: Id)
    requires Possible(Initial(NewConfig(ttl, fallback), now), steps)
    requires var s := After(Initial(NewConfig(ttl, fallback), now), steps);
             id in s.threads && s.threads[id].phase.Done? && s.threads[id].phase.basis.ByFallback?
    ensures var phase := After(Initial(NewConfig(ttl, fallback), now), steps).threads[id].phase;
            phase.verdict == Nil <==> FallsToNil(fallback, phase.basis.checker, phase.basis.answer)
  {
    var s0 := Initial(NewConfig(ttl, fallback), now);
    RunKeepsInv(s0, steps);
    var s := After(s0, steps);
    assert ThreadSound(s, s.threads[id]);
    ConfiguredAsGiven(ttl, fallback, s.threads[id].phase.basis.checker, s.threads[id].phase.basis.answer);
  }

  /** In every interleaving a nil result rests on the fallback policy, or on a Good
      answer for a certificate of the same serial and URL, whose window held at an instant
      during the call. */
  lemma {:induction false} NilIsGrounded(ttl: int, fallback: string, now: int, steps: seq<Step>, id: Id)
    requires Possible(Initial(NewConfig(ttl, fallback), now), steps)
    requires var s := After(Initial(NewConfig(ttl, fallback), now), steps);
             id in s.threads && s.threads[id].phase.Done?
    ensures var s := After(Initial(NewConfig(ttl, fallback), now), steps);
            var thread := s.threads[id];
            thread.phase.verdict == Nil ==> NilGrounds(fallback, ttl, s, thread, thread.phase.basis)
  {
    var s0 := Initial(NewConfig(ttl, fallback), now);
    RunKeepsInv(s0, steps);
    var s := After(s0, steps);
    var thread := s.threads[id];
    assert ThreadSound(s, thread);
    if thread.phase.verdict == Nil && thread.phase.basis.ByFallback? {
      FallbackExactly(ttl, fallback, now, steps, id);
    } else if thread.phase.verdict == Nil && thread.phase.basis.ByEntry? {
      ConfiguredAsGiven(ttl, fallback, false, LookupFailed);
      var e, at := thread.phase.basis.entry, thread.phase.basis.at;
      var r :| r in s.log && KeyOf(r.cert) == KeyOf(thread.cert) && r.at == e.cachedAt && r.at <= s.now
        && Accept(r.response, r.at, s.config.ttl) == Some(e);
      assert Vouches(r, at, TtlOf(ttl));
    }
  }

  // --------------------------------------------------------- what decides a call

  /** An entry holds from thisUpdate on, until nextUpdate or else for its time to live. */
  lemma {:induction false} FreshExactly(e: CacheEntry, at: int)
    ensures Fresh(e, at) <==>
            && (e.thisUpdate.Some? ==> e.thisUpdate.value <= at)
            && (if e.nextUpdate.Some? then at < e.nextUpdate.value else at - e.cachedAt < e.ttl)
  {
  }

  /** Time passes, the cache is flushed and the checker is set at any moment. */
  lemma {:induction false} WorldMoves(s: State, elapsed: nat, installed: bool)
    ensures Enabled(s, Tick(elapsed)) && Next(s, Tick(elapsed)) == s.(now := s.now + elapsed)
    ensures Enabled(s, Flush) && Next(s, Flush) == s.(entries := map[])
    ensures Enabled(s, SetChecker(installed)) && Next(s, SetChecker(installed)) == s.(checker := installed)
  {
  }

  /** A call is about its certificate, from the instant at which it begins. */
  lemma {:induction false} CallBegins(s: State, id: Id, c: Certificate, hasIssuer: bool)
    requires id !in s.threads
    ensures Enabled(s, Begin(id, c, hasIssuer))
    ensures Next(s, Begin(id, c, hasIssuer)) == s.(threads := s.threads[id := Thread(c, hasIssuer, s.now, Starting)])
  {
  }

  /** A call ends at once, with the entry's verdict, exactly when the entry filed under its
      serial and URL is less than the cache's age old and holds; any other goes on. */
  lemma {:induction false} HitDecides(s: State, id: Id, elapsed: nat)
    requires Enabled(s, ReadCache(id, elapsed))
    ensures s.threads[id].cert.url != ""
    ensures var c, p := s.threads[id].cert, Next(s, ReadCache(id, elapsed)).threads[id].phase;
            var key := Key(c.serial, c.url);
            if key in s.entries && s.now - s.entries[key].cachedAt < s.config.ttl
               && Fresh(s.entries[key], s.now + elapsed) then
              p.Done? && (p.verdict == Nil <==> s.entries[key].status == Good)
            else p == Missed
  {
  }

  /** A woken waiter reads the entry filed under its serial and URL. */
  lemma {:induction false} WaiterReads(s: State, id: Id)
    requires Enabled(s, Reread(id))
    ensures var c := s.threads[id].cert;
            var key := Key(c.serial, c.url);
            Next(s, Reread(id)).threads[id].phase ==
            Snapshot(if key in s.entries then Some(s.entries[key]) else None)
  {
  }

  /** It is woken only when the call it waits for is over. */
  lemma {:induction false} WaiterWaits(s: State, id: Id)
    requires Inv(s) && Enabled(s, Wake(id))
    ensures s.threads[id].phase.Waiting?
    ensures var leader := s.threads[id].phase.channel; leader in s.threads && s.threads[leader].phase.Done?
  {
  }

  /** A verdict of the fallback rests on a checker only if one was installed: some step of the
      run has done so. */
  lemma {:induction false} CheckerWasInstalled(s: State, steps: seq<Step>)
    requires Possible(s, steps) && NoChecker(s)
    requires forall i :: 0 <= i < |steps| ==> steps[i] != SetChecker(true)
    ensures NoChecker(After(s, steps))
    decreases |steps|
  {
    if steps != [] {
      StepInstallsNone(s, steps[0]);
      CheckerWasInstalled(Next(s, steps[0]), steps[1..]);
    }
  }

  ghost predicate NoChecker(s: State) {
    !s.checker && forall id :: id in s.threads ==> CheckerFree(s.threads[id].phase)
  }

  predicate CheckerFree(p: Phase) {
    p.Unwinding? || p.Closing? || p.Done? ==> !(p.basis.ByFallback? && p.basis.checker)
  }

  lemma {:induction false} StepInstallsNone(s: State, step: Step)
    requires NoChecker(s) && Enabled(s, step) && step != SetChecker(true)
    ensures NoChecker(Next(s, step))
  {
    var t := Next(s, step);
    OthersUnmoved(s, step);
    forall id | id in t.threads ensures CheckerFree(t.threads[id].phase) {
      if MovedBy(step) == Some(id) {
        MovedIsCheckerFree(s, step, id);
      }
    }
  }

  lemma {:induction false} MovedIsCheckerFree(s: State, step: Step, id: Id)
    requires NoChecker(s) && Enabled(s, step) && MovedBy(step) == Some(id)
    ensures id in Next(s, step).threads && CheckerFree(Next(s, step).threads[id].phase)
  {
  }

  /** So under "crl", in a run that installs no checker, the fallback never passes. */
  lemma {:induction false} NoCheckerNoPass(ttl: int, now: int, steps: seq<Step>, id: Id)
    requires Possible(Initial(NewConfig(ttl, "crl"), now), steps)
    requires forall i :: 0 <= i < |steps| ==> steps[i] != SetChecker(true)
    requires var s := After(Initial(NewConfig(ttl, "crl"), now), steps);
             id in s.threads && s.threads[id].phase.Done? && s.threads[id].phase.basis.ByFallback?
    ensures After(Initial(NewConfig(ttl, "crl"), now), steps).threads[id].phase.verdict == Refused
  {
    CheckerWasInstalled(Initial(NewConfig(ttl, "crl"), now), steps);
    FallbackExactly(ttl, "crl", now, steps, id);
  }

  /** It ends with that entry's verdict if the entry holds, and falls back otherwise. */
  lemma {:induction false} WaiterDecides(s: State, id: Id, answer: CrlAnswer)
    requires Enabled(s, Judge(id, answer))
    ensures var seen, p := s.threads[id].phase.seen, Next(s, Judge(id, answer)).threads[id].phase;
            && p.Done?
            && if seen.Some? && Fresh(seen.value, s.now) then p.verdict == Nil <==> seen.value.status == Good
               else p.basis == ByFallback(s.checker, answer)
  {
  }

  /** A response that carries a time and is in its window is filed and decides by its
      status; any other falls back. */
  lemma {:induction false} ResponseDecides(s: State, id: Id, r: Response, answer: CrlAnswer)
    requires Enabled(s, Respond(id, r, answer)) && s.config.ttl > 0
    ensures s.threads[id].hasIssuer
    ensures var t, c := Next(s, Respond(id, r, answer)), s.threads[id].cert;
            if (r.thisUpdate.Some? || r.producedAt.Some?) && WithinWindow(r, s.now) then
              && Enabled(t, Store(id))
              && var u := Next(t, Store(id));
                 && u.threads[id].phase.Unwinding? && (u.threads[id].phase.verdict == Nil <==> r.status == Good)
                 && Key(c.serial, c.url) in u.entries
                 && u.entries[Key(c.serial, c.url)] ==
                    CacheEntry(r.status, s.now, r.thisUpdate, r.nextUpdate, s.config.ttl)
            else t.threads[id].phase.Unwinding? && t.threads[id].phase.basis == ByFallback(s.checker, answer)
  {
  }

  /** Without a URL, an issuer or an answer the fallback decides, over the checker there is
      then; a request that cannot be made is an error. */
  lemma {:induction false} FallbackDecides(s: State, step: Step)
    requires Enabled(s, step) && (step.NoURL? || step.NoIssuer? || step.NetworkFails? || step.RequestFails?)
    ensures var p := Next(s, step).threads[step.id].phase;
            && (if step.NoURL? then p.Done? else p.Unwinding?)
            && p.basis == (if step.RequestFails? then ByError else ByFallback(s.checker, step.answer))
            && (step.RequestFails? ==> p.verdict == Refused)
    ensures var thread := s.threads[step.id];
            && (step.NoURL? ==> thread.phase == Starting && thread.cert.url == "")
            && (!step.NoURL? ==> thread.phase == Fetching && (step.NoIssuer? <==> !thread.hasIssuer))
  {
  }

  /** What a leader's call has decided it returns. */
  lemma {:induction false} VerdictStays(s: State, id: Id)
    ensures Enabled(s, Deregister(id)) ==>
              var p, q := s.threads[id].phase, Next(s, Deregister(id)).threads[id].phase;
              q.Closing? && q.verdict == p.verdict && q.basis == p.basis
    ensures Enabled(s, CloseChannel(id)) ==>
              var p, q := s.threads[id].phase, Next(s, CloseChannel(id)).threads[id].phase;
              q.Done? && q.verdict == p.verdict && q.basis == p.basis
  {
  }

  // ---------------------------------------------------------- whose response it is

  /** Every response was asked for by a call with its certificate. */
  ghost predicate Asked(s: State) {
    forall r :: r in s.log ==> exists id :: id in s.threads && s.threads[id].cert == r.cert
  }

  lemma {:induction false} CertificatesStay(s: State, step: Step, id: Id)
    requires Enabled(s, step) && id in s.threads
    ensures id in Next(s, step).threads && Next(s, step).threads[id].cert == s.threads[id].cert
  {
    if MovedBy(step) == Some(id) {
      MovedKeepsCertificate(s, step, id);
    }
  }

  lemma {:induction false} MovedKeepsCertificate(s: State, step: Step, id: Id)
    requires Enabled(s, step) && id in s.threads && MovedBy(step) == Some(id)
    ensures id in Next(s, step).threads && Next(s, step).threads[id].cert == s.threads[id].cert
  {
  }

  lemma {:induction false} StepKeepsAsked(s: State, step: Step)
    requires Asked(s) && Enabled(s, step)
    ensures Asked(Next(s, step))
  {
    var t := Next(s, step);
    forall r | r in t.log ensures exists id :: id in t.threads && t.threads[id].cert == r.cert {
      if r in s.log {
        var id :| id in s.threads && s.threads[id].cert == r.cert;
        CertificatesStay(s, step, id);
      } else {
        assert step.Respond?;
        CertificatesStay(s, step, step.id);
      }
    }
  }

  lemma {:induction false} RunKeepsAsked(s: State, steps: seq<Step>)
    requires Asked(s) && Possible(s, steps)
    ensures Asked(After(s, steps))
    decreases |steps|
  {
    if steps != [] {
      StepKeepsAsked(s, steps[0]);
      RunKeepsAsked(Next(s, steps[0]), steps[1..]);
    }
  }

  /** No two certificates that were checked share serial and URL under different issuers. */
  ghost predicate KeysTellIssuers(s: State) {
    forall a, b :: a in s.threads && b in s.threads && SameKey(s.threads[a], s.threads[b]) ==>
      s.threads[a].cert == s.threads[b].cert
  }

  predicate SameKey(a: Thread, b: Thread) {
    KeyOf(a.cert) == KeyOf(b.cert)
  }

  /** A Good answer about this very certificate held at the instant. */
  ghost predicate VouchedFor(s: State, thread: Thread, at: int) {
    thread.started <= at <= s.now && exists r :: r in s.log && r.cert == thread.cert && Vouches(r, at, s.config.ttl)
  }

  /** In every run whose certificates the key tells apart, a nil result that does not rest
      on the fallback rests on a Good answer about the certificate itself. */
  lemma {:induction false} NilIsAboutTheCertificate(ttl: int, fallback: string, now: int, steps: seq<Step>, id: Id)
    requires Possible(Initial(NewConfig(ttl, fallback), now), steps)
    requires var s := After(Initial(NewConfig(ttl, fallback), now), steps);
             && KeysTellIssuers(s)
             && id in s.threads && s.threads[id].phase.Done?
    ensures var s := After(Initial(NewConfig(ttl, fallback), now), steps);
            var phase := s.threads[id].phase;
            phase.verdict == Nil && phase.basis.ByEntry? ==> VouchedFor(s, s.threads[id], phase.basis.at)
  {
    var s0 := Initial(NewConfig(ttl, fallback), now);
    var s := After(s0, steps);
    var thread := s.threads[id];
    NilIsGrounded(ttl, fallback, now, steps, id);
    RunKeepsInv(s0, steps);
    RunKeepsAsked(s0, steps);
    if thread.phase.verdict == Nil && thread.phase.basis.ByEntry? {
      var at := thread.phase.basis.at;
      var r :| r in s.log && KeyOf(r.cert) == KeyOf(thread.cert) && Vouches(r, at, s.config.ttl);
      var asker :| asker in s.threads && s.threads[asker].cert == r.cert;
      assert SameKey(s.threads[asker], thread);
    }
  }

  lemma {:induction false} RunGrows(s: State, a: seq<Step>, step: Step)
    requires Possible(s, a) && Enabled(After(s, a), step)
    ensures Possible(s, a + [step]) && After(s, a + [step]) == Next(After(s, a), step)
    decreases |a|
  {
    if a == [] {
      assert Possible(Next(s, step), [step][1..]);
    } else {
      RunGrows(Next(s, a[0]), a[1..], step);
      assert (a + [step])[1..] == a[1..] + [step];
    }
  }

  const GOOD_NOW: Response := Response(Good, None, Some(0), None)

  /** One call misses the cache and becomes the leader. */
  lemma {:induction false} Lead(a: Certificate) returns (steps: seq<Step>)
    requires a.url != ""
    ensures var s0 := Initial(NewConfig(0, "deny"), 0);
            && Possible(s0, steps)
            && After(s0, steps) ==
               s0.(threads := map[0 := Thread(a, true, 0, Fetching)], inflight := map[KeyOf(a) := 0])
  {
    var s := Initial(NewConfig(0, "deny"), 0);
    RunGrows(s, [], Begin(0, a, true));
    steps := [] + [Begin(0, a, true)];
    RunGrows(s, steps, ReadCache(0, 0));
    steps := steps + [ReadCache(0, 0)];
    RunGrows(s, steps, Register(0));
    steps := steps + [Register(0)];
  }

  /** One call fetches a Good answer and stores it. */
  lemma {:induction false} FetchGood(a: Certificate) returns (steps: seq<Step>)
    requires a.url != ""
    ensures var s0 := Initial(NewConfig(0, "deny"), 0);
            && Possible(s0, steps)
            && var s := After(s0, steps);
               && s.threads.Keys == {0} && s.log == {Received(a, GOOD_NOW, 0)} && s.now == 0
               && s.config == NewConfig(0, "deny")
               && s.entries == map[KeyOf(a) := EntryOf(GOOD_NOW, 0, DEFAULT_TTL)]
  {
    var s := Initial(NewConfig(0, "deny"), 0);
    steps := Lead(a);
    RunGrows(s, steps, Respond(0, GOOD_NOW, LookupFailed));
    steps := steps + [Respond(0, GOOD_NOW, LookupFailed)];
    RunGrows(s, steps, Store(0));
    steps := steps + [Store(0)];
  }

  /** Any two certificates with one serial and one URL share their answers: there is a run
      in which b passes without the fallback, and the one answer ever given is about a. */
  lemma {:induction false} AnotherIssuersAnswer(a: Certificate, b: Certificate) returns (steps: seq<Step>)
    requires KeyOf(a) == KeyOf(b) && a.issuer != b.issuer && a.url != ""
    ensures var s0 := Initial(NewConfig(0, "deny"), 0);
            && Possible(s0, steps)
            && var s := After(s0, steps);
               && 1 in s.threads && s.threads[1].cert == b
               && s.threads[1].phase.Done? && s.threads[1].phase.verdict == Nil && s.threads[1].phase.basis.ByEntry?
               && forall r :: r in s.log ==> r.cert == a
  {
    var s := Initial(NewConfig(0, "deny"), 0);
    steps := FetchGood(a);
    RunGrows(s, steps, Begin(1, b, true));
    steps := steps + [Begin(1, b, true)];
    RunGrows(s, steps, ReadCache(1, 0));
    steps := steps + [ReadCache(1, 0)];
  }

  /** The step an unfinished thread takes next, the outside world answering somehow. */
  function StepOf(id: Id, thread: Thread): Step {
    match thread.phase
    case Starting => if thread.cert.url != "" then ReadCache(id, 0) else NoURL(id, LookupFailed)
    case Missed => Register(id)
    case Waiting(_) => Wake(id)
    case Woken => Reread(id)
    case Snapshot(_) => Judge(id, LookupFailed)
    case Fetching => if thread.hasIssuer then NetworkFails(id, LookupFailed) else NoIssuer(id, LookupFailed)
    case Storing(_) => Store(id)
    case Unwinding(_, _) => Deregister(id)
    case Closing(_, _) => CloseChannel(id)
    case Done(_, _) => Tick(0)
  }

  function Rank(p: Phase): nat {
    match p
    case Starting => 6
    case Missed => 5
    case Waiting(_) => 4
    case Fetching => 4
    case Woken => 3
    case Storing(_) => 3
    case Snapshot(_) => 2
    case Unwinding(_, _) => 2
    case Closing(_, _) => 1
    case Done(_, _) => 0
  }

  lemma {:induction false} CanMoveItself(s: State, id: Id)
    requires id in s.threads && !s.threads[id].phase.Done?
    requires s.threads[id].phase.Waiting? ==> s.threads[id].phase.channel in s.closed
    ensures Enabled(s, StepOf(id, s.threads[id]))
  {
  }

  /** No deadlock: while a call is unfinished, some unfinished call can move. */
  lemma {:induction false} SomeoneCanMove(s: State, id: Id) returns (mover: Id)
    requires Inv(s) && id in s.threads && !s.threads[id].phase.Done?
    ensures mover in s.threads && !s.threads[mover].phase.Done? && Enabled(s, StepOf(mover, s.threads[mover]))
  {
    mover := id;
    if s.threads[id].phase.Waiting? && s.threads[id].phase.channel !in s.closed {
      mover := s.threads[id].phase.channel;
      assert WillClose(s, mover);
    }
    CanMoveItself(s, mover);
  }

  /** Every move brings its call nearer its end, and no other call further from it. */
  lemma {:induction false} MovesEnd(s: State, step: Step, id: Id)
    requires Enabled(s, step) && !step.Begin? && id in s.threads
    ensures var t := Next(s, step);
            id in t.threads && Rank(t.threads[id].phase) <= Rank(s.threads[id].phase)
            && (MovedBy(step) == Some(id) ==> Rank(t.threads[id].phase) < Rank(s.threads[id].phase))
  {
    OthersUnmoved(s, step);
    if MovedBy(step) == Some(id) {
      OwnMoveEnds(s, step, id);
    } else {
      assert s.threads.Keys <= Next(s, step).threads.Keys;
    }
  }

  lemma {:induction false} OwnMoveEnds(s: State, step: Step, id: Id)
    requires Enabled(s, step) && !step.Begin? && id in s.threads && MovedBy(step) == Some(id)
    ensures var t := Next(s, step);
            id in t.threads && Rank(t.threads[id].phase) < Rank(s.threads[id].phase)
  {
    if s.threads[id].phase == Fetching {
      FetchEnds(s, step, id);
    } else if step.ReadCache? {
      ReadEnds(s, step, id);
    } else if step.Register? || step.Judge? {
      JoinEnds(s, step, id);
    }
  }

  lemma {:induction false} FetchEnds(s: State, step: Step, id: Id)
    requires Enabled(s, step) && id in s.threads && MovedBy(step) == Some(id) && s.threads[id].phase == Fetching
    ensures var t := Next(s, step); id in t.threads && Rank(t.threads[id].phase) <= 3
  {
  }

  lemma {:induction false} ReadEnds(s: State, step: Step, id: Id)
    requires Enabled(s, step) && id in s.threads && MovedBy(step) == Some(id) && step.ReadCache?
    ensures var t := Next(s, step); id in t.threads && Rank(t.threads[id].phase) < Rank(s.threads[id].phase)
  {
  }

  lemma {:induction false} JoinEnds(s: State, step: Step, id: Id)
    requires Enabled(s, step) && id in s.threads && MovedBy(step) == Some(id)
    requires step.Register? || step.Judge?
    ensures var t := Next(s, step); id in t.threads && Rank(t.threads[id].phase) < Rank(s.threads[id].phase)
  {
  }
}
