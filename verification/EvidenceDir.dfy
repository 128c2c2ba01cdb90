/** Verifying an evidence directory: every record envelope is classified, then the
    outcomes are linked to the decisions found. */
module EvidenceDir {
  import opened ByteStrings

  datatype Signature = Signature(keyId: string, sig: Bytes)

  datatype Envelope = Envelope(payloadType: string, payload: Bytes, signatures: seq<Signature>)

  datatype Kind = Decision | Admission | Outcome

  datatype File = File(name: string, isDir: bool)

  /** Reading and parsing, as oracles. predicateType is that of the envelope's statement;
      recomputes is the language's own check of a decision record. */
  datatype Oracles = Oracles(
    load: string -> Option<Envelope>,
    predicateType: Envelope -> Option<Kind>,
    recomputes: Envelope -> bool,
    parseAdmission: Envelope -> bool,
    parseOutcome: Envelope -> Option<string>,
    inputDigest: Envelope -> Option<Bytes>,
    pae: (string, Bytes) -> Bytes,
    verify: Option<(string, Bytes, Bytes) -> bool>
  )

  datatype Cause = Unreadable | Unverified | NoRecord | Unresolved(digest: string)

  datatype Failure = Failure(path: string, cause: Cause)

  datatype Report = Report(
    total: nat, decision: nat, admission: nat, outcome: nat, orphanOutcome: nat, failures: seq<Failure>)

  // ------------------------------------------------------------------- one envelope

  function CheckEnvelope(o: Oracles, env: Envelope): Option<Kind> {
    match o.predicateType(env)
    case None => None
    case Some(Decision) => if o.recomputes(env) then Some(Decision) else None
    case Some(Admission) => if o.parseAdmission(env) then Some(Admission) else None
    case Some(Outcome) => if o.parseOutcome(env).Some? then Some(Outcome) else None
  }

  predicate Verifies(o: Oracles, s: Signature, pae: Bytes)
    requires o.verify.Some?
  {
    s.sig != [] && o.verify.value(s.keyId, pae, s.sig)
  }

  predicate Signed(o: Oracles, env: Envelope) {
    o.verify.Some? ==> exists s :: s in env.signatures && Verifies(o, s, o.pae(env.payloadType, env.payload))
  }

  /** The structure is always checked; with a verifier, one signature must verify too. */
  method VerifyEnvelope(o: Oracles, env: Envelope) returns (kind: Option<Kind>)
    ensures kind == if Signed(o, env) then CheckEnvelope(o, env) else None
  {
    kind := CheckEnvelope(o, env);
    if kind.None? || o.verify.None? {
      return kind;
    }
    if |env.signatures| == 0 {
      return None;
    }
    var pae := o.pae(env.payloadType, env.payload);
    for i := 0 to |env.signatures|
      invariant forall k :: 0 <= k < i ==> !Verifies(o, env.signatures[k], pae)
    {
      var s := env.signatures[i];
      if |s.sig| == 0 {
        continue;
      }
      if o.verify.value(s.keyId, pae, s.sig) {
        assert s in env.signatures;
        return kind;
      }
    }
    return None;
  }

  // ----------------------------------------------------------------------- one file

  predicate IsRecord(f: File) {
    !f.isDir && |f.name| >= 5 && f.name[|f.name| - 5..] == ".json"
  }

  /** What a file of the directory is. */
  datatype Class =
    | Other
    | Broken(cause: Cause)
    | DecisionFile(digest: string)
    | AdmissionFile
    | OutcomeFile(digest: string)

  function Classify(o: Oracles, f: File): Class {
    if !IsRecord(f) then Other
    else if o.load(f.name).None? then Broken(Unreadable)
    else
      var env := o.load(f.name).value;
      if !Signed(o, env) || CheckEnvelope(o, env).None? then Broken(Unverified)
      else
        match CheckEnvelope(o, env).value
        case Decision =>
          if o.inputDigest(env).None? then Broken(NoRecord) else DecisionFile(HexEncode(o.inputDigest(env).value))
        case Admission => AdmissionFile
        case Outcome => OutcomeFile(o.parseOutcome(env).value)
  }

  /** The envelope of a record file: a .json file that is no directory and can be read. */
  predicate Carries(o: Oracles, f: File, env: Envelope) {
    !f.isDir && (exists n :: 0 <= n <= |f.name| && f.name[n..] == ".json") && o.load(f.name) == Some(env)
  }

  /** With a verifier, some signature that is not empty verifies over the envelope's own type
      and payload. */
  ghost predicate HasGoodSignature(o: Oracles, env: Envelope) {
    o.verify.Some? ==>
      exists s :: s in env.signatures && |s.sig| > 0
        && o.verify.value(s.keyId, o.pae(env.payloadType, env.payload), s.sig)
  }

  lemma {:induction false} SuffixIsJson(f: File)
    ensures IsRecord(f) <==> !f.isDir && exists n :: 0 <= n <= |f.name| && f.name[n..] == ".json"
  {
    if n :| 0 <= n <= |f.name| && f.name[n..] == ".json" {
      assert n == |f.name| - 5;
    }
  }

  lemma {:induction false} SignedExactly(o: Oracles, env: Envelope)
    ensures Signed(o, env) <==> HasGoodSignature(o, env)
  {
  }

  /** A file counts as a decision exactly when its envelope says so, recomputes, is signed
      and gives an input digest; the digest is kept in lower-case hexadecimal. */
  lemma {:induction false} DecisionExactly(o: Oracles, f: File, digest: string)
    ensures Classifier(o)(f) == DecisionFile(digest) <==>
            exists env :: Carries(o, f, env) && HasGoodSignature(o, env)
              && o.predicateType(env) == Some(Decision) && o.recomputes(env)
              && o.inputDigest(env).Some? && digest == HexEncode(o.inputDigest(env).value)
  {
    SuffixIsJson(f);
    if o.load(f.name).Some? {
      SignedExactly(o, o.load(f.name).value);
    }
  }

  /** As an admission, when it says so, parses and is signed. */
  lemma {:induction false} AdmissionExactly(o: Oracles, f: File)
    ensures Classifier(o)(f).AdmissionFile? <==>
            exists env :: Carries(o, f, env) && HasGoodSignature(o, env)
              && o.predicateType(env) == Some(Admission) && o.parseAdmission(env)
  {
    SuffixIsJson(f);
    if o.load(f.name).Some? {
      SignedExactly(o, o.load(f.name).value);
    }
  }

  /** As an outcome, when it says so, parses and is signed; its digest is what it parses to. */
  lemma {:induction false} OutcomeExactly(o: Oracles, f: File, digest: string)
    ensures Classifier(o)(f) == OutcomeFile(digest) <==>
            exists env :: Carries(o, f, env) && HasGoodSignature(o, env)
              && o.predicateType(env) == Some(Outcome) && o.parseOutcome(env) == Some(digest)
  {
    SuffixIsJson(f);
    if o.load(f.name).Some? {
      SignedExactly(o, o.load(f.name).value);
    }
  }

  /** Any other .json file is broken: it cannot be read, or its envelope does not verify, or
      it is a decision without a digest. Directories and other files are passed over. */
  lemma {:induction false} BrokenExactly(o: Oracles, f: File)
    ensures Classifier(o)(f).Other? <==> !IsRecord(f)
    ensures Classifier(o)(f) == Broken(Unreadable) <==> IsRecord(f) && o.load(f.name).None?
    ensures Classifier(o)(f) == Broken(NoRecord) <==>
            exists env :: Carries(o, f, env) && HasGoodSignature(o, env)
              && o.predicateType(env) == Some(Decision) && o.recomputes(env) && o.inputDigest(env).None?
  {
    SuffixIsJson(f);
    if o.load(f.name).Some? {
      SignedExactly(o, o.load(f.name).value);
    }
  }

  function Classifier(o: Oracles): File -> Class {
    (f: File) => Classify(o, f)
  }

  // ------------------------------------------------------------------- a directory

  /** Some verified decision in the listing has the digest. */
  ghost predicate Resolves(classify: File -> Class, files: seq<File>, digest: string) {
    digest != "" && exists f :: f in files && classify(f) == DecisionFile(digest)
  }

  datatype View = Records | Breakages | Decisions | Admissions | Linked | Orphans

  /** A file as a view shows it, or not at all. */
  function ShowClass(view: View, name: string, c: Class, linked: bool): seq<Failure> {
    match view
    case Records => if c.Other? then [] else [Failure(name, Unreadable)]
    case Breakages => if c.Broken? then [Failure(name, c.cause)] else []
    case Decisions => if c.DecisionFile? then [Failure(name, Unreadable)] else []
    case Admissions => if c.AdmissionFile? then [Failure(name, Unreadable)] else []
    case Linked => if c.OutcomeFile? && linked then [Failure(name, Unresolved(c.digest))] else []
    case Orphans => if c.OutcomeFile? && !linked then [Failure(name, Unresolved(c.digest))] else []
  }

  ghost predicate IsLinked(classify: File -> Class, whole: seq<File>, f: File) {
    classify(f).OutcomeFile? && Resolves(classify, whole, classify(f).digest)
  }

  /** The outcomes link into the whole listing. */
  ghost function Show(classify: File -> Class, whole: seq<File>, view: View): File -> seq<Failure> {
    (f: File) => ShowClass(view, f.name, classify(f), IsLinked(classify, whole, f))
  }

  /** What is shown of a listing, file by file. */
  ghost function Gather(show: File -> seq<Failure>, files: seq<File>): seq<Failure> {
    if files == [] then []
    else Gather(show, files[..|files| - 1]) + show(files[|files| - 1])
  }

  /** What the report must say of a listing. */
  ghost predicate Describes(classify: File -> Class, files: seq<File>, r: Report) {
    && r.decision == |Gather(Show(classify, files, Decisions), files)|
    && r.admission == |Gather(Show(classify, files, Admissions), files)|
    && r.outcome == |Gather(Show(classify, files, Linked), files)|
    && r.orphanOutcome == |Gather(Show(classify, files, Orphans), files)|
    && r.total == r.decision + r.admission + r.outcome + r.orphanOutcome
    && r.failures == Gather(Show(classify, files, Breakages), files) + Gather(Show(classify, files, Orphans), files)
  }

  lemma {:induction false} GatherExtends(show: File -> seq<Failure>, files: seq<File>, f: File)
    ensures Gather(show, files + [f]) == Gather(show, files) + show(f)
  {
    assert (files + [f])[..|files|] == files;
  }

  // --------------------------------------------------------------------- the two passes

  datatype Collected = Collected(file: File, env: Envelope)

  method ClassifyFile(o: Oracles, f: File) returns (c: Class, env: Option<Envelope>)
    ensures c == Classifier(o)(f)
    ensures c.OutcomeFile? ==> env.Some? && o.parseOutcome(env.value) == Some(c.digest)
  {
    env := None;
    if !IsRecord(f) {
      return Other, None;
    }
    env := o.load(f.name);
    if env.None? {
      return Broken(Unreadable), None;
    }
    var kind := VerifyEnvelope(o, env.value);
    if kind.None? {
      return Broken(Unverified), None;
    }
    match kind.value
    case Decision =>
      var digest := o.inputDigest(env.value);
      if digest.None? {
        return Broken(NoRecord), None;
      }
      c := DecisionFile(HexEncode(digest.value));
    case Admission =>
      c := AdmissionFile;
    case Outcome =>
      c := OutcomeFile(o.parseOutcome(env.value).value);
  }

  /** The digests of the decisions among the first n files. */
  ghost predicate HasDigests(classify: File -> Class, files: seq<File>, n: nat, digests: set<string>)
    requires n <= |files|
  {
    forall d :: d in digests <==> exists k :: 0 <= k < n && classify(files[k]) == DecisionFile(d)
  }

  ghost predicate IsCollected(o: Oracles, classify: File -> Class, c: Collected) {
    o.parseOutcome(c.env).Some? && classify(c.file) == OutcomeFile(o.parseOutcome(c.env).value)
  }

  ghost function FilesOf(outcomes: seq<Collected>): (files: seq<File>)
    ensures |files| == |outcomes| && forall k :: 0 <= k < |files| ==> files[k] == outcomes[k].file
  {
    seq(|outcomes|, k requires 0 <= k < |outcomes| => outcomes[k].file)
  }

  /** Linking the collected outcomes is linking the files they were collected from. */
  ghost predicate HasOutcomes(o: Oracles, classify: File -> Class, whole: seq<File>, seen: seq<File>,
                              outcomes: seq<Collected>) {
    && (forall k :: 0 <= k < |outcomes| ==> IsCollected(o, classify, outcomes[k]))
    && Gather(Show(classify, whole, Linked), FilesOf(outcomes)) == Gather(Show(classify, whole, Linked), seen)
    && Gather(Show(classify, whole, Orphans), FilesOf(outcomes)) == Gather(Show(classify, whole, Orphans), seen)
  }

  lemma {:induction false} OneMoreOutcome(o: Oracles, classify: File -> Class, whole: seq<File>, seen: seq<File>,
                                          outcomes: seq<Collected>, c: Collected)
    requires HasOutcomes(o, classify, whole, seen, outcomes) && IsCollected(o, classify, c)
    ensures HasOutcomes(o, classify, whole, seen + [c.file], outcomes + [c])
  {
    assert FilesOf(outcomes + [c]) == FilesOf(outcomes) + [c.file];
    GatherExtends(Show(classify, whole, Linked), seen, c.file);
    GatherExtends(Show(classify, whole, Orphans), seen, c.file);
    GatherExtends(Show(classify, whole, Linked), FilesOf(outcomes), c.file);
    GatherExtends(Show(classify, whole, Orphans), FilesOf(outcomes), c.file);
  }

  lemma {:induction false} NoMoreOutcomes(o: Oracles, classify: File -> Class, whole: seq<File>, seen: seq<File>,
                                          outcomes: seq<Collected>, f: File)
    requires HasOutcomes(o, classify, whole, seen, outcomes) && !classify(f).OutcomeFile?
    ensures HasOutcomes(o, classify, whole, seen + [f], outcomes)
  {
    GatherExtends(Show(classify, whole, Linked), seen, f);
    GatherExtends(Show(classify, whole, Orphans), seen, f);
  }

  /** What the first pass has after n files. */
  ghost predicate Tallied(classify: File -> Class, files: seq<File>, n: nat, decision: nat, admission: nat,
                          failures: seq<Failure>, digests: set<string>)
    requires n <= |files|
  {
    && decision == |Gather(Show(classify, files, Decisions), files[..n])|
    && admission == |Gather(Show(classify, files, Admissions), files[..n])|
    && failures == Gather(Show(classify, files, Breakages), files[..n])
    && HasDigests(classify, files, n, digests)
  }

  lemma {:induction false} OneMoreFile(classify: File -> Class, files: seq<File>, n: nat, decision: nat,
                                       admission: nat, failures: seq<Failure>, digests: set<string>)
    requires n < |files| && Tallied(classify, files, n, decision, admission, failures, digests)
    ensures var c := classify(files[n]);
            Tallied(classify, files, n + 1,
                    decision + if c.DecisionFile? then 1 else 0, admission + if c.AdmissionFile? then 1 else 0,
                    failures + if c.Broken? then [Failure(files[n].name, c.cause)] else [],
                    digests + if c.DecisionFile? then {c.digest} else {})
  {
    var f := files[n];
    assert files[..n + 1] == files[..n] + [f];
    GatherExtends(Show(classify, files, Decisions), files[..n], f);
    GatherExtends(Show(classify, files, Admissions), files[..n], f);
    GatherExtends(Show(classify, files, Breakages), files[..n], f);
  }

  /** The first pass. */
  method ClassifyAll(o: Oracles, files: seq<File>, ghost classify: File -> Class)
    returns (decision: nat, admission: nat, failures: seq<Failure>, digests: set<string>, outcomes: seq<Collected>)
    requires classify == Classifier(o)
    ensures Tallied(classify, files, |files|, decision, admission, failures, digests)
    ensures HasOutcomes(o, classify, files, files, outcomes)
  {
    decision, admission, failures, digests, outcomes := 0, 0, [], {}, [];
    for i := 0 to |files|
      invariant Tallied(classify, files, i, decision, admission, failures, digests)
      invariant HasOutcomes(o, classify, files, files[..i], outcomes)
    {
      var f := files[i];
      OneMoreFile(classify, files, i, decision, admission, failures, digests);
      assert files[..i + 1] == files[..i] + [f];
      var c, env := ClassifyFile(o, f);
      if c.OutcomeFile? {
        OneMoreOutcome(o, classify, files, files[..i], outcomes, Collected(f, env.value));
      } else {
        NoMoreOutcomes(o, classify, files, files[..i], outcomes, f);
      }
      match c
      case Other =>
      case Broken(cause) =>
        failures := failures + [Failure(f.name, cause)];
      case DecisionFile(digest) =>
        decision := decision + 1;
        digests := digests + {digest};
      case AdmissionFile =>
        admission := admission + 1;
      case OutcomeFile(_) =>
        outcomes := outcomes + [Collected(f, env.value)];
    }
    assert files[..|files|] == files;
  }

  /** What the second pass has after n of the outcome files. */
  ghost predicate LinkedSoFar(classify: File -> Class, whole: seq<File>, linkable: seq<File>, n: nat, outcome: nat,
                              orphans: seq<Failure>)
    requires n <= |linkable|
  {
    && outcome == |Gather(Show(classify, whole, Linked), linkable[..n])|
    && orphans == Gather(Show(classify, whole, Orphans), linkable[..n])
  }

  lemma {:induction false} OneMoreLink(classify: File -> Class, whole: seq<File>, linkable: seq<File>, n: nat,
                                       outcome: nat, orphans: seq<Failure>, digest: string)
    requires n < |linkable| && LinkedSoFar(classify, whole, linkable, n, outcome, orphans)
    requires classify(linkable[n]) == OutcomeFile(digest)
    ensures var missing := [Failure(linkable[n].name, Unresolved(digest))];
            if Resolves(classify, whole, digest) then
              LinkedSoFar(classify, whole, linkable, n + 1, outcome + 1, orphans)
            else LinkedSoFar(classify, whole, linkable, n + 1, outcome, orphans + missing)
  {
    var f := linkable[n];
    assert linkable[..n + 1] == linkable[..n] + [f];
    GatherExtends(Show(classify, whole, Linked), linkable[..n], f);
    GatherExtends(Show(classify, whole, Orphans), linkable[..n], f);
  }

  lemma {:induction false} DigestsResolve(classify: File -> Class, files: seq<File>, digests: set<string>,
                                          digest: string)
    requires HasDigests(classify, files, |files|, digests)
    ensures Resolves(classify, files, digest) <==> digest != "" && digest in digests
  {
  }

  /** The second pass. */
  method Link(o: Oracles, ghost classify: File -> Class, ghost files: seq<File>, digests: set<string>,
              outcomes: seq<Collected>)
    returns (outcome: nat, orphans: seq<Failure>)
    requires HasDigests(classify, files, |files|, digests) && HasOutcomes(o, classify, files, files, outcomes)
    ensures outcome == |Gather(Show(classify, files, Linked), files)|
    ensures orphans == Gather(Show(classify, files, Orphans), files)
  {
    outcome, orphans := 0, [];
    ghost var linkable := FilesOf(outcomes);
    for i := 0 to |outcomes|
      invariant LinkedSoFar(classify, files, linkable, i, outcome, orphans)
    {
      var c := outcomes[i];
      assert IsCollected(o, classify, c) && linkable[i] == c.file;
      var digest := o.parseOutcome(c.env).value;
      OneMoreLink(classify, files, linkable, i, outcome, orphans, digest);
      DigestsResolve(classify, files, digests, digest);
      if digest == "" || digest !in digests {
        orphans := orphans + [Failure(c.file.name, Unresolved(digest))];
        continue;
      }
      outcome := outcome + 1;
    }
    assert linkable[..|outcomes|] == linkable;
  }

  method VerifyEvidenceDir(o: Oracles, listing: Option<seq<File>>) returns (report: Option<Report>)
    ensures report.None? <==> listing.None?
    ensures listing.Some? ==> Describes(Classifier(o), listing.value, report.value)
  {
    if listing.None? {
      return None;
    }
    ghost var classify := Classifier(o);
    var decision, admission, failures, digests, outcomes := ClassifyAll(o, listing.value, classify);
    var outcome, orphans := Link(o, classify, listing.value, digests, outcomes);
    assert listing.value[..|listing.value|] == listing.value;
    var total := decision + admission + outcome + |orphans|;
    return Some(Report(total, decision, admission, outcome, |orphans|, failures + orphans));
  }

  // ------------------------------------------------------------------- conservation

  lemma {:induction false} OneViewEach(name: string, c: Class, linked: bool)
    ensures |ShowClass(Records, name, c, linked)| ==
            |ShowClass(Breakages, name, c, linked)|
            + |ShowClass(Decisions, name, c, linked)| + |ShowClass(Admissions, name, c, linked)|
            + |ShowClass(Linked, name, c, linked)| + |ShowClass(Orphans, name, c, linked)|
  {
  }

  lemma {:induction false} EveryRecordIsSomewhere(classify: File -> Class, whole: seq<File>, files: seq<File>)
    ensures |Gather(Show(classify, whole, Records), files)| ==
            |Gather(Show(classify, whole, Breakages), files)| + |Gather(Show(classify, whole, Decisions), files)|
            + |Gather(Show(classify, whole, Admissions), files)|
            + |Gather(Show(classify, whole, Linked), files)| + |Gather(Show(classify, whole, Orphans), files)|
  {
    if files != [] {
      EveryRecordIsSomewhere(classify, whole, files[..|files| - 1]);
      var f := files[|files| - 1];
      OneViewEach(f.name, classify(f), classify(f).OutcomeFile? && Resolves(classify, whole, classify(f).digest));
    }
  }

  /** The .json files of a listing. */
  function RecordCount(files: seq<File>): nat {
    if files == [] then 0
    else RecordCount(files[..|files| - 1]) + if IsRecord(files[|files| - 1]) then 1 else 0
  }

  lemma {:induction false} OtherIsNoRecord(o: Oracles, f: File)
    ensures Classifier(o)(f).Other? <==> !IsRecord(f)
  {
  }

  lemma {:induction false} RecordsShown(o: Oracles, classify: File -> Class, whole: seq<File>, files: seq<File>)
    requires classify == Classifier(o)
    ensures |Gather(Show(classify, whole, Records), files)| == RecordCount(files)
  {
    if files != [] {
      RecordsShown(o, classify, whole, files[..|files| - 1]);
      OtherIsNoRecord(o, files[|files| - 1]);
    }
  }

  /** Every record file of the listing is accounted for once: as a decision, an admission,
      a linked outcome, or a failure. */
  lemma {:induction false} Conservation(o: Oracles, files: seq<File>, r: Report)
    requires Describes(Classifier(o), files, r)
    ensures RecordCount(files) == r.decision + r.admission + r.outcome + |r.failures|
  {
    EveryRecordIsSomewhere(Classifier(o), files, files);
    RecordsShown(o, Classifier(o), files, files);
  }

  lemma {:induction false} GatheredIsListed(show: File -> seq<Failure>, files: seq<File>, x: Failure)
    ensures x in Gather(show, files) <==> exists f :: f in files && x in show(f)
  {
    if files != [] {
      var front, last := files[..|files| - 1], files[|files| - 1];
      GatheredIsListed(show, front, x);
      assert files == front + [last];
    }
  }

  /** A record that does not verify, or an outcome of no decision in the directory. */
  ghost predicate IsGap(classify: File -> Class, files: seq<File>, f: File) {
    var c := classify(f);
    c.Broken? || (c.OutcomeFile? && !Resolves(classify, files, c.digest))
  }

  lemma {:induction false} GapIsReported(classify: File -> Class, files: seq<File>, r: Report, f: File)
    requires Describes(classify, files, r) && f in files && IsGap(classify, files, f)
    ensures exists x :: x in r.failures && x.path == f.name
  {
    var view := if classify(f).Broken? then Breakages else Orphans;
    var x := Show(classify, files, view)(f)[0];
    assert x in Show(classify, files, view)(f);
    GatheredIsListed(Show(classify, files, view), files, x);
    assert x in r.failures && x.path == f.name;
  }

  lemma {:induction false} ReportedIsGap(classify: File -> Class, files: seq<File>, r: Report, x: Failure)
    requires Describes(classify, files, r) && x in r.failures
    ensures exists f :: f in files && f.name == x.path && IsGap(classify, files, f)
  {
    GatheredIsListed(Show(classify, files, Breakages), files, x);
    GatheredIsListed(Show(classify, files, Orphans), files, x);
  }

  /** A path is reported exactly when a file with it is a gap: no failures means every
      record verifies and every outcome is linked. */
  lemma {:induction false} FailuresAreGaps(classify: File -> Class, files: seq<File>, r: Report, path: string)
    requires Describes(classify, files, r)
    ensures (exists x :: x in r.failures && x.path == path) <==>
            exists f :: f in files && f.name == path && IsGap(classify, files, f)
  {
    forall f | f in files && f.name == path && IsGap(classify, files, f)
      ensures exists x :: x in r.failures && x.path == path
    {
      GapIsReported(classify, files, r, f);
    }
    forall x | x in r.failures && x.path == path
      ensures exists f :: f in files && f.name == path && IsGap(classify, files, f)
    {
      ReportedIsGap(classify, files, r, x);
    }
  }

  // ------------------------------------------------------------------- listing order

  lemma {:induction false} GatherConcat(show: File -> seq<Failure>, a: seq<File>, b: seq<File>)
    ensures Gather(show, a + b) == Gather(show, a) + Gather(show, b)
  {
    if b == [] {
      assert a + b == a;
    } else {
      var front, last := b[..|b| - 1], b[|b| - 1];
      GatherConcat(show, a, front);
      assert a + b == (a + front) + [last] && b == front + [last];
      GatherExtends(show, a + front, last);
      GatherExtends(show, front, last);
      ConcatAssociative(Gather(show, a), Gather(show, front), show(last));
    }
  }

  lemma {:induction false} RemoveOne(b: seq<File>, f: File) returns (i: nat)
    requires f in multiset(b)
    ensures i < |b| && b == b[..i] + [f] + b[i + 1..]
    ensures multiset(b) == multiset(b[..i] + b[i + 1..]) + multiset{f}
  {
    i :| 0 <= i < |b| && b[i] == f;
    assert b == b[..i] + [f] + b[i + 1..];
  }

  lemma {:induction false} GatherPermutes(show: File -> seq<Failure>, a: seq<File>, b: seq<File>)
    requires multiset(a) == multiset(b)
    ensures multiset(Gather(show, a)) == multiset(Gather(show, b))
  {
    if a == [] {
      assert |multiset(b)| == 0;
    } else {
      var front, last := a[..|a| - 1], a[|a| - 1];
      assert a == front + [last];
      assert last in multiset(b);
      var i := RemoveOne(b, last);
      var before, after := b[..i], b[i + 1..];
      assert multiset(front) == multiset(a) - multiset{last};
      assert multiset(before + after) == multiset(b) - multiset{last};
      GatherPermutes(show, front, before + after);
      GatherExtends(show, before, last);
      GatherConcat(show, before + [last], after);
      GatherConcat(show, before, after);
    }
  }

  lemma {:induction false} ShownAlike(classify: File -> Class, a: seq<File>, b: seq<File>, view: View, f: File)
    requires multiset(a) == multiset(b)
    ensures Show(classify, a, view)(f) == Show(classify, b, view)(f)
  {
    assert forall g :: g in a <==> g in multiset(a);
    assert forall g :: g in b <==> g in multiset(b);
  }

  lemma {:induction false} GatheredAlike(classify: File -> Class, a: seq<File>, b: seq<File>, view: View,
                                         files: seq<File>)
    requires multiset(a) == multiset(b)
    ensures Gather(Show(classify, a, view), files) == Gather(Show(classify, b, view), files)
  {
    if files != [] {
      GatheredAlike(classify, a, b, view, files[..|files| - 1]);
      ShownAlike(classify, a, b, view, files[|files| - 1]);
    }
  }

  lemma {:induction false} ViewsAgree(classify: File -> Class, a: seq<File>, b: seq<File>, view: View)
    requires multiset(a) == multiset(b)
    ensures multiset(Gather(Show(classify, a, view), a)) == multiset(Gather(Show(classify, b, view), b))
    ensures |Gather(Show(classify, a, view), a)| == |Gather(Show(classify, b, view), b)|
  {
    GatheredAlike(classify, a, b, view, a);
    GatherPermutes(Show(classify, b, view), a, b);
    assert |multiset(Gather(Show(classify, b, view), a))| == |multiset(Gather(Show(classify, b, view), b))|;
  }

  /** The counts and the collection of failures do not depend on the order in which the
      directory is listed. */
  lemma {:induction false} OrderDoesNotMatter(classify: File -> Class, a: seq<File>, b: seq<File>, r: Report, s: Report)
    requires multiset(a) == multiset(b) && Describes(classify, a, r) && Describes(classify, b, s)
    ensures r.(failures := []) == s.(failures := [])
    ensures multiset(r.failures) == multiset(s.failures)
  {
    ViewsAgree(classify, a, b, Decisions);
    ViewsAgree(classify, a, b, Admissions);
    ViewsAgree(classify, a, b, Linked);
    ViewsAgree(classify, a, b, Orphans);
    ViewsAgree(classify, a, b, Breakages);
  }
}
