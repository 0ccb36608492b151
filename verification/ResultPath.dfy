/** From a job handed to the ASIC to a share handed to the pool: components/asic/asic_submit.c and
    components/asic/asic_result_handler.c. */
module ResultPath {
  import opened Options
  import opened Work
  import opened JobTable
  import opened Submissions

  const V1 := 0
  const SV2_STANDARD := 1
  const SV2_EXTENDED := 2
  const EXTRANONCE2_SIZE := 32

  /** A decoded result. `work` is the snapshot the decoder took of the store, if there was one. */
  datatype Result = Result(work: Option<Entry>, nonce: bv32, finalTime: bv32, finalVersion: bv32, versionBits: bv32)

  datatype Share = Share(job: Job, nonce: bv32, nonceDiff: real, time: bv32, finalVersion: bv32, versionBits: bv32,
                         extranonce2: string, workGeneration: nat, jobVersion: bv32)

  datatype Status = RejectedWork | StaleWork | RecordedSelfTest | AccountedWork

  /** Which callbacks are installed. */
  datatype Installed = Installed(workIsCurrent: bool, selfTest: bool, transportReady: bool, sv1: bool,
                                 sv2Standard: bool,
                                 sv2Extended: bool, account: bool)

  datatype Event =
    | SelfTest(difficulty: real)
    | Checked(generation: nat, current: bool)
    | Asked(ready: bool)
    | Submitted(route: int, share: Share)
    | Accounted(share: Share)

  /** The difficulty of a nonce, computed by the hashing code. */
  type Difficulty = (Job, bv32, bv32, bv32) -> real

  // ----- Text in fixed buffers -----

  function Text(buffer: string): string {
    if buffer == "" || buffer[0] == 0 as char then "" else [buffer[0]] + Text(buffer[1..])
  }

  predicate Terminated(buffer: string) {
    0 as char in buffer
  }

  predicate IsHex(c: char) {
    '0' <= c <= '9' || 'a' <= c <= 'f' || 'A' <= c <= 'F'
  }

  /** Whole bytes in hexadecimal, no more than the binary buffer takes. */
  predicate IsExtranonce2(text: string) {
    |text| % 2 == 0 && |text| / 2 <= EXTRANONCE2_SIZE && forall i :: 0 <= i < |text| ==> IsHex(text[i])
  }

  // ----- One result -----

  predicate VersionRolled(r: Result, job: Job) {
    r.versionBits == r.finalVersion ^ job.version && r.versionBits & !job.versionMask == 0
  }

  predicate Wellformed(r: Result)
    requires r.work.Some?
  {
    var job := r.work.value.job;
    && V1 <= job.sourceType <= SV2_EXTENDED
    && Terminated(job.jobId) && Terminated(job.extranonce2)
    && VersionRolled(r, job) && IsExtranonce2(Text(job.extranonce2))
  }

  function ShareOf(r: Result, difficulty: Difficulty): Share
    requires r.work.Some?
  {
    var job, context := r.work.value.job, r.work.value.context;
    Share(job, r.nonce, difficulty(job, r.nonce, r.finalTime, r.finalVersion), r.finalTime, r.finalVersion,
        r.versionBits,
          Text(job.extranonce2), context.workGeneration, context.jobVersion)
  }

  predicate MeetsPool(share: Share) {
    share.job.poolDiff > 0.0 && share.nonceDiff >= share.job.poolDiff
  }

  /** What the world answers: the work's currency twice, before and after, and the transport. */
  datatype Answers = Answers(before: bool, ready: bool, after: bool)

  function Submission(share: Share, installed: Installed, ready: bool): seq<Event> {
    if !MeetsPool(share) then []
    else if share.job.sourceType == V1 then
      (if installed.transportReady then [Asked(ready)] else []) +
      (if (!installed.transportReady || ready) && installed.sv1 then [Submitted(V1, share)] else [])
    else if share.job.sourceType == SV2_STANDARD then
      (if installed.sv2Standard then [Submitted(SV2_STANDARD, share)] else [])
    else (if installed.sv2Extended then [Submitted(SV2_EXTENDED, share)] else [])
  }

  /** What becomes of a result, and the effects it has, in order. */
  function Outcome(r: Result, selfTest: bool, installed: Installed, difficulty: Difficulty, a: Answers)
    : (Status, seq<Event>)
  {
    if r.work.None? then (StaleWork, [])
    else if !Wellformed(r) then (RejectedWork, [])
    else
      var share := ShareOf(r, difficulty);
      var check := installed.workIsCurrent;
      if selfTest then (RecordedSelfTest, if installed.selfTest then [SelfTest(share.nonceDiff)] else [])
      else if check && !a.before then (StaleWork, [Checked(share.workGeneration, false)])
      else
        var sent := (if check then [Checked(share.workGeneration, true)] else [])
            + Submission(share, installed, a.ready);
        if check && !a.after then (StaleWork, sent + [Checked(share.workGeneration, false)])
        else (AccountedWork, sent + (if check then [Checked(share.workGeneration, true)] else [])
                                  + (if installed.account then [Accounted(share)] else []))
  }

  /** The callbacks. Their answers are anyone's guess. */
  class Callbacks {
    const installed: Installed
    ghost var trace: seq<Event>

    constructor (installed: Installed)
      ensures this.installed == installed && trace == []
    {
      this.installed := installed;
      trace := [];
    }

    method IsCurrent(generation: nat) returns (current: bool)
      modifies this
      ensures trace == old(trace) + [Checked(generation, current)]
    {
      current := *;
      trace := trace + [Checked(generation, current)];
    }

    method TransportReady() returns (ready: bool)
      modifies this
      ensures trace == old(trace) + [Asked(ready)]
    {
      ready := *;
      trace := trace + [Asked(ready)];
    }

    method Submit(route: int, share: Share)
      modifies this
      ensures trace == old(trace) + [Submitted(route, share)]
    {
      trace := trace + [Submitted(route, share)];
    }

    method RecordSelfTest(difficulty: real)
      modifies this
      ensures trace == old(trace) + [SelfTest(difficulty)]
    {
      trace := trace + [SelfTest(difficulty)];
    }

    method Account(share: Share)
      modifies this
      ensures trace == old(trace) + [Accounted(share)]
    {
      trace := trace + [Accounted(share)];
    }
  }

  /** Offer a share to the pool it came from, if it is good enough. */
  method Offer(share: Share, cb: Callbacks) returns (ghost answer: bool)
    modifies cb
    ensures cb.trace == old(cb.trace) + Submission(share, cb.installed, answer)
  {
    hide MeetsPool;
    answer := true;
    if MeetsPool(share) {
      if share.job.sourceType == V1 {
        var ready := true;
        if cb.installed.transportReady {
          ready := cb.TransportReady();
          answer := ready;
        }
        if ready && cb.installed.sv1 {
          cb.Submit(V1, share);
        }
      } else if share.job.sourceType == SV2_STANDARD {
        if cb.installed.sv2Standard {
          cb.Submit(SV2_STANDARD, share);
        }
      } else if cb.installed.sv2Extended {
        cb.Submit(SV2_EXTENDED, share);
      }
    }
  }

  method Handle(r: Result, selfTest: bool, cb: Callbacks, difficulty: Difficulty)
    returns (status: Status, ghost a: Answers)
    modifies cb
    ensures status == Outcome(r, selfTest, cb.installed, difficulty, a).0
    ensures cb.trace == old(cb.trace) + Outcome(r, selfTest, cb.installed, difficulty, a).1
  {
    hide Wellformed, ShareOf, Submission;
    a := Answers(false, false, false);
    if r.work.None? {
      return StaleWork, a;
    }
    if !Wellformed(r) {
      return RejectedWork, a;
    }
    var share := ShareOf(r, difficulty);
    if selfTest {
      if cb.installed.selfTest {
        cb.RecordSelfTest(share.nonceDiff);
      }
      return RecordedSelfTest, a;
    }
    if cb.installed.workIsCurrent {
      var current := cb.IsCurrent(share.workGeneration);
      a := a.(before := current);
      if !current {
        return StaleWork, a;
      }
    }
    ghost var ready := Offer(share, cb);
    a := a.(ready := ready);
    if cb.installed.workIsCurrent {
      var current := cb.IsCurrent(share.workGeneration);
      a := a.(after := current);
      if !current {
        return StaleWork, a;
      }
    }
    if cb.installed.account {
      cb.Account(share);
    }
    status := AccountedWork;
  }

  // ----- What every outcome keeps to -----

  /** An offer submits at most once, for a share that meets the pool's difficulty, by its protocol's route. */
  lemma OfferedOnce(share: Share, installed: Installed, ready: bool)
    requires V1 <= share.job.sourceType <= SV2_EXTENDED
    ensures var events := Submission(share, installed, ready);
            && (forall i :: 0 <= i < |events| ==>
                events[i].Asked? || events[i] == Submitted(share.job.sourceType, share))
            && (forall i :: 0 <= i < |events| && events[i].Submitted? ==> i == |events| - 1 && MeetsPool(share))
  {
    hide MeetsPool;
  }

  /** At most one submission, made only for a share worth it whose version bits are inside its mask,
      by the route of its protocol, and only after its generation was found current. */
  lemma SubmittedOnceAndRightly(r: Result, selfTest: bool, installed: Installed, difficulty: Difficulty, a: Answers,
                                i: nat)
    requires var events := Outcome(r, selfTest, installed, difficulty, a).1; i < |events| && events[i].Submitted?
    ensures var events := Outcome(r, selfTest, installed, difficulty, a).1;
            && r.work.Some? && !selfTest && events[i].share == ShareOf(r, difficulty)
            && events[i].share.nonce == r.nonce && events[i].share.time == r.finalTime
            && events[i].share.finalVersion == r.finalVersion && events[i].share.versionBits == r.versionBits
            && events[i].share.job.poolDiff > 0.0 && events[i].share.nonceDiff >= events[i].share.job.poolDiff
            && events[i].route == r.work.value.job.sourceType && VersionRolled(r, r.work.value.job)
            && (installed.workIsCurrent ==> i > 0 && events[0] == Checked(r.work.value.context.workGeneration, true))
            && forall j :: 0 <= j < |events| && events[j].Submitted? ==> j == i
  {
    hide VersionRolled, IsExtranonce2, Text, Terminated, Submission;
    OfferedOnce(ShareOf(r, difficulty), installed, a.ready);
  }

  /** What a buffer's text is, without reading it: everything before its first zero. */
  ghost predicate IsText(buffer: string, n: nat) {
    n < |buffer| && buffer[n] == 0 as char && forall i :: 0 <= i < n ==> buffer[i] != 0 as char
  }

  lemma {:induction false} TextIsFound(buffer: string)
    requires Terminated(buffer)
    ensures IsText(buffer, |Text(buffer)|) && Text(buffer) == buffer[..|Text(buffer)|]
  {
    if buffer[0] != 0 as char {
      TextIsFound(buffer[1..]);
      var n := |Text(buffer[1..])|;
      assert buffer[..n + 1] == [buffer[0]] + buffer[1..][..n];
      assert buffer[1..][n] == buffer[n + 1];
      forall i | 0 <= i < n + 1
        ensures buffer[i] != 0 as char
      {
        assert i > 0 ==> buffer[i] == buffer[1..][i - 1];
      }
    }
  }

  /** At most 32 bytes in hexadecimal digits. */
  predicate IsHexText(buffer: string, n: nat) {
    n % 2 == 0 && n <= 64 && n <= |buffer| && forall i :: 0 <= i < n ==> buffer[i] in "0123456789abcdefABCDEF"
  }

  lemma HexTexts(buffer: string, n: nat)
    requires IsText(buffer, n)
    ensures IsExtranonce2(buffer[..n]) <==> IsHexText(buffer, n)
  {
    hide IsHex;
    forall c: char
      ensures IsHex(c) <==> c in "0123456789abcdefABCDEF"
    {
      HexDigits(c);
    }
  }

  lemma HexDigits(c: char)
    ensures IsHex(c) <==> c in "0123456789abcdefABCDEF"
  {
    var digits := "0123456789abcdefABCDEF";
    assert forall i :: 0 <= i < 10 ==> digits[i] == '0' + i as char;
    assert forall i :: 10 <= i < 16 ==> digits[i] == 'a' + (i - 10) as char;
    assert forall i :: 16 <= i < 22 ==> digits[i] == 'A' + (i - 16) as char;
    if '0' <= c <= '9' {
      assert c == digits[c as int - '0' as int];
    } else if 'a' <= c <= 'f' {
      assert c == digits[10 + (c as int - 'a' as int)];
    } else if 'A' <= c <= 'F' {
      assert c == digits[16 + (c as int - 'A' as int)];
    }
  }

  /** A result that deserves to be looked at: of one of the three protocols, its texts terminated, its version
      that of the job but for bits the mask leaves free, and an extranonce of at most 32 bytes in hexadecimal. */
  ghost predicate IsGenuine(r: Result) {
    && r.work.Some?
    && var job := r.work.value.job;
       && (job.sourceType == 0 || job.sourceType == 1 || job.sourceType == 2)
       && (exists n: nat :: IsText(job.jobId, n))
       && VersionAgrees(r, job)
       && (exists n: nat :: IsText(job.extranonce2, n) && IsHexText(job.extranonce2, n))
  }

  /** The final version is the job's with the reported bits flipped, and differs from it inside the mask only. */
  predicate VersionAgrees(r: Result, job: Job) {
    job.version ^ r.versionBits == r.finalVersion && r.finalVersion & !job.versionMask == job.version & !job.versionMask
  }

  lemma RolledAgrees(r: Result, job: Job)
    requires VersionRolled(r, job)
    ensures VersionAgrees(r, job)
  {
  }

  lemma AgreesIsRolled(r: Result, job: Job)
    requires VersionAgrees(r, job)
    ensures VersionRolled(r, job)
  {
  }

  lemma VersionsAgree(r: Result, job: Job)
    ensures VersionRolled(r, job) <==> VersionAgrees(r, job)
  {
    hide VersionRolled, VersionAgrees;
    if VersionRolled(r, job) {
      RolledAgrees(r, job);
    }
    if VersionAgrees(r, job) {
      AgreesIsRolled(r, job);
    }
  }

  lemma TextIsUnique(buffer: string, n: nat)
    requires IsText(buffer, n)
    ensures Terminated(buffer) && |Text(buffer)| == n && Text(buffer) == buffer[..n]
  {
    assert buffer[n] == 0 as char;
    TextIsFound(buffer);
  }

  /** Those results, and no others, are not rejected as malformed. */
  lemma WellformedIsGenuine(r: Result)
    requires r.work.Some?
    ensures Wellformed(r) <==> IsGenuine(r)
  {
    hide IsHexText, IsText, Text, Terminated, IsHex, VersionRolled, VersionAgrees;
    var job := r.work.value.job;
    VersionsAgree(r, job);
    if Terminated(job.jobId) {
      TextIsFound(job.jobId);
    }
    if Terminated(job.extranonce2) {
      TextIsFound(job.extranonce2);
      HexTexts(job.extranonce2, |Text(job.extranonce2)|);
    }
    if IsGenuine(r) {
      var m: nat :| IsText(job.jobId, m);
      TextIsUnique(job.jobId, m);
      var n: nat :| IsText(job.extranonce2, n) && IsHexText(job.extranonce2, n);
      TextIsUnique(job.extranonce2, n);
      HexTexts(job.extranonce2, n);
    }
  }

  /** The way to the pool is open: the protocol's callback is there and, for V1, the transport not known to be
      down. */
  predicate IsOpen(sourceType: int, installed: Installed, ready: bool) {
    && (sourceType == 0 ==> installed.sv1 && (installed.transportReady ==> ready))
    && (sourceType == 1 ==> installed.sv2Standard)
    && (sourceType == 2 ==> installed.sv2Extended)
  }

  lemma OfferedWhenOpen(share: Share, installed: Installed, ready: bool)
    requires V1 <= share.job.sourceType <= SV2_EXTENDED
    ensures var events := Submission(share, installed, ready);
            Sends(events) <==>
              share.job.poolDiff > 0.0 && share.nonceDiff >= share.job.poolDiff &&
              IsOpen(share.job.sourceType, installed, ready)
  {
    var events := Submission(share, installed, ready);
    if share.job.poolDiff > 0.0 && share.nonceDiff >= share.job.poolDiff &&
       IsOpen(share.job.sourceType, installed, ready)
    {
      assert events[|events| - 1].Submitted?;
    }
  }

  /** A share reaches the pool if and only if it deserves to: a genuine result outside self-test, of work found
      current, at or above a positive pool difficulty, with its way to the pool open. */
  lemma SubmittedExactlyWhenWorthy(r: Result, selfTest: bool, installed: Installed, difficulty: Difficulty, a: Answers)
    ensures Sends(Outcome(r, selfTest, installed, difficulty, a).1) <==>
              && IsGenuine(r) && !selfTest && (installed.workIsCurrent ==> a.before)
              && var job := r.work.value.job;
                 && job.poolDiff > 0.0 && difficulty(job, r.nonce, r.finalTime, r.finalVersion) >= job.poolDiff
                 && IsOpen(job.sourceType, installed, a.ready)
  {
    hide Wellformed, IsGenuine, Submission, IsOpen, Sends;
    NothingIsSent();
    if r.work.None? {
      NoWorkNotGenuine(r);
    } else {
      WellformedIsGenuine(r);
      if Wellformed(r) {
        KnownProtocol(r);
        OfferedWhenOpen(ShareOf(r, difficulty), installed, a.ready);
        SentWithin(r, selfTest, installed, difficulty, a);
      }
    }
  }

  predicate Sends(events: seq<Event>) {
    exists i :: 0 <= i < |events| && events[i].Submitted?
  }

  lemma NothingIsSent()
    ensures !Sends([])
  {
  }

  lemma SentWithin(r: Result, selfTest: bool, installed: Installed, difficulty: Difficulty, a: Answers)
    requires r.work.Some? && Wellformed(r)
    ensures Sends(Outcome(r, selfTest, installed, difficulty, a).1) <==>
              && !selfTest && (installed.workIsCurrent ==> a.before)
              && Sends(Submission(ShareOf(r, difficulty), installed, a.ready))
  {
    hide Wellformed, Submission, ShareOf;
    var events, sent := Outcome(r, selfTest, installed, difficulty, a).1,
      Submission(ShareOf(r, difficulty), installed, a.ready);
    if !selfTest && (installed.workIsCurrent ==> a.before) {
      var from := if installed.workIsCurrent then 1 else 0;
      if i :| 0 <= i < |sent| && sent[i].Submitted? {
        assert events[from + i] == sent[i];
      }
      if i :| 0 <= i < |events| && events[i].Submitted? {
        assert events[i] == sent[i - from];
      }
    }
  }

  lemma KnownProtocol(r: Result)
    requires r.work.Some? && Wellformed(r)
    ensures V1 <= r.work.value.job.sourceType <= SV2_EXTENDED
  {
  }

  /** What is reported of a result, and that a share is accounted, and a self-test recorded, exactly when it
      should be. */
  lemma ReportedExactly(r: Result, selfTest: bool, installed: Installed, difficulty: Difficulty, a: Answers)
    ensures var (status, events) := Outcome(r, selfTest, installed, difficulty, a);
            && (status == RejectedWork <==> r.work.Some? && !IsGenuine(r))
            && (status == RecordedSelfTest <==> IsGenuine(r) && selfTest)
            && (status == AccountedWork <==>
                  IsGenuine(r) && !selfTest && (installed.workIsCurrent ==> a.before && a.after))
            && ((exists i :: 0 <= i < |events| && events[i].Accounted?) <==>
                status == AccountedWork && installed.account)
            && ((exists i :: 0 <= i < |events| && events[i].SelfTest?) <==>
                  status == RecordedSelfTest && installed.selfTest)
            && (status == RecordedSelfTest && installed.selfTest ==>
                  events == [SelfTest(difficulty(r.work.value.job, r.nonce, r.finalTime, r.finalVersion))])
  {
    hide Wellformed, IsGenuine, Submission;
    if r.work.Some? {
      WellformedIsGenuine(r);
      if Wellformed(r) {
        KnownProtocol(r);
        OfferedOnce(ShareOf(r, difficulty), installed, a.ready);
        var (status, events) := Outcome(r, selfTest, installed, difficulty, a);
        if status == AccountedWork && installed.account {
          assert events[|events| - 1].Accounted?;
        }
        if status == RecordedSelfTest && installed.selfTest {
          assert events[0].SelfTest?;
        }
      }
    } else {
      NoWorkNotGenuine(r);
    }
  }

  lemma NoWorkNotGenuine(r: Result)
    requires r.work.None?
    ensures !IsGenuine(r)
  {
  }

  /** Work is accounted last, at most once, and only if its generation was current after any submission. */
  lemma AccountedOnlyIfStillCurrent(r: Result, selfTest: bool, installed: Installed, difficulty: Difficulty,
                                    a: Answers, i: nat)
    requires var events := Outcome(r, selfTest, installed, difficulty, a).1; i < |events| && events[i].Accounted?
    ensures var (status, events) := Outcome(r, selfTest, installed, difficulty, a);
            && r.work.Some? && status == AccountedWork && i == |events| - 1 && events[i].share == ShareOf(r, difficulty)
            && (installed.workIsCurrent ==>
                i > 0 && events[i - 1] == Checked(r.work.value.context.workGeneration, true))
            && forall j :: 0 <= j < |events| && events[j].Submitted? ==>
                j < i - (if installed.workIsCurrent then 1 else 0)
  {
    hide Wellformed, MeetsPool;
  }

  /** A rejected result, and one without retained work, has no effect at all. */
  lemma RejectionIsSilent(r: Result, selfTest: bool, installed: Installed, difficulty: Difficulty, a: Answers)
    ensures Outcome(r, selfTest, installed, difficulty, a).0 == RejectedWork <==> r.work.Some? && !Wellformed(r)
    ensures r.work.None? || !Wellformed(r) ==> Outcome(r, selfTest, installed, difficulty, a).1 == []
  {
  }

  // ----- From submission to share -----

  /** The generation a share is checked and submitted under is the one its producer submitted the very
      job with: in any interleaving of producers, for any handle the hardware returns. */
  lemma ShareCarriesItsProducersGeneration(capacity: nat, producers: nat, actions: seq<Action>, handle: Handle,
                                           r: Result,
                                           difficulty: Difficulty)
    requires 0 < capacity <= 256 && Submissions.Run(Start(capacity, producers), actions).Some?
    requires r.work == Resolve(Submissions.Run(Start(capacity, producers), actions).value.table, handle) && r.work.Some?
    ensures var s, share := Submissions.Run(Start(capacity, producers), actions).value, ShareOf(r, difficulty);
            exists k ::
              && 0 <= k < |s.stored| && s.stored[k].entry.handle == handle && s.stored[k].entry.job == share.job
              && share.workGeneration == s.stored[k].meant.workGeneration
              && share.jobVersion == s.stored[k].meant.jobVersion
  {
    hide Submissions.Run, Text, Resolve;
    ResolvedContextIsItsProducers(capacity, producers, actions, handle);
  }

  // ----- Handing a job to the ASIC -----

  /** One turn of the retry loop: is the generation current, is the ASIC ready, would the driver take it. */
  datatype Turn = Turn(current: bool, ready: bool, taken: bool)

  datatype Sending = Sent | Cancelled | Trying

  predicate Valid(job: Job) {
    Terminated(job.jobId) && Terminated(job.extranonce2)
  }

  predicate Blocked(context: Context, turn: Turn) {
    !(context.poolWork && !turn.current) && !(turn.ready && turn.taken)
  }

  /** The retry loop over however many turns the world has had. The driver is offered the job at exactly
      the turns in `offers`. */
  method SendJob(job: Job, context: Context, turns: seq<Turn>) returns (result: Sending, offers: seq<nat>)
    ensures !Valid(job) ==> result == Cancelled && offers == []
    ensures Valid(job) && result == Trying ==> forall i :: 0 <= i < |turns| ==> Blocked(context, turns[i])
    ensures Valid(job) && result != Trying ==>
              exists n ::
                && 0 <= n < |turns| && !Blocked(context, turns[n])
                && (forall i :: 0 <= i < n ==> Blocked(context, turns[i]))
                && (result == Cancelled <==> context.poolWork && !turns[n].current)
                && (result == Sent ==> offers != [] && offers[|offers| - 1] == n)
                && (forall i :: 0 <= i < |offers| ==> offers[i] <= n)
    ensures forall i :: 0 <= i < |offers| ==>
              offers[i] < |turns| && turns[offers[i]].ready && (context.poolWork ==> turns[offers[i]].current)
    ensures forall i, j :: 0 <= i < j < |offers| ==> offers[i] < offers[j]
    ensures forall i :: 0 <= i < |offers| ==> (turns[offers[i]].taken <==> result == Sent && i == |offers| - 1)
  {
    offers := [];
    if !Valid(job) {
      return Cancelled, offers;
    }
    var n := 0;
    while n < |turns|
      invariant 0 <= n <= |turns|
      invariant forall i :: 0 <= i < n ==> Blocked(context, turns[i])
      invariant forall i :: 0 <= i < |offers| ==>
                  offers[i] < n && turns[offers[i]].ready && !turns[offers[i]].taken &&
                      (context.poolWork ==> turns[offers[i]].current)
      invariant forall i, j :: 0 <= i < j < |offers| ==> offers[i] < offers[j]
    {
      if context.poolWork && !turns[n].current {
        return Cancelled, offers;
      }
      if turns[n].ready {
        offers := offers + [n];
        if turns[n].taken {
          return Sent, offers;
        }
      }
      n := n + 1;
    }
    result := Trying;
  }
}
