/** The fingerprint sweep: which rows a pass takes, and how a match reaches the enricher or is forgotten. */
module FingerprintRequeue {
  import opened Basics

  /** A file version: a path, and the size and date the scanner recorded, as one number. */
  datatype Key = Key(path: string, version: nat)

  /** What the store holds of a track. `noMatch` is the version of a no-match still in force, `veto` the
      version and artist tag of a refusal still in force. */
  datatype Row = Row(version: nat, artist: string, artistMbid: bool, albumMbid: bool, provenance: bool, enriched: bool,
                     noMatch: Option<nat>, veto: Option<(nat, string)>, eligible: bool)

  predicate Has(cache: map<Key, bool>, path: string, version: nat) { Key(path, version) in cache }

  /** The candidate scan's rules, in its order. `provenance` says what the row's is taken for. */
  predicate OfferedWith(r: Row, provenance: bool, cached: bool) {
    && !(r.artistMbid && r.albumMbid)
    && !(r.artistMbid && provenance)
    && r.noMatch != Some(r.version)
    && r.veto != Some((r.version, r.artist))
    && r.enriched
    && r.eligible
    && !cached
  }

  predicate Offered(path: string, r: Row, cache: map<Key, bool>) {
    OfferedWith(r, r.provenance, Has(cache, path, r.version))
  }

  /** Where a worker is with one candidate. */
  datatype Job = Pending | Answered | Admitted | Cached

  datatype Pass =
    | Idle
    | Working(jobs: map<Key, Job>, resolved: set<Key>)
    | Deciding(resolved: set<Key>)
    | Requeueing(resolved: set<Key>)   // admitted: the transaction is about to run

  /** Why the pass's context ended: the switch went off, or the process is stopping. */
  datatype Cause = Off | Shutdown

  /** `cache` says of a key whether it matched. `landed` holds the keys re-queued with their provenance in one
      transaction, by this process or one before it; `late` the candidates a cancelled pass gave up on when its grace
      was over, their workers still at them, and `past` those of them whose worker was past its admission; `strays`
      the matches such workers cached. */
  datatype World = World(switchOn: bool, stopping: bool, cancelled: Option<Cause>, rows: map<string, Row>,
                         cache: map<Key, bool>, pass: Pass, landed: set<Key>, late: set<Key>, past: set<Key>,
                         strays: set<Key>)

  datatype Step =
    | Switch(on: bool) | CancelOff | Stop
    | RowChanges(path: string, to: Row) | Retry(paths: set<string>)
    | StartPass(taken: set<Key>)
    | Drop(k: Key) | CacheMiss(k: Key) | PersistMiss(k: Key) | LookupAnswers(k: Key) | Admit(k: Key) | Refuse(k: Key)
    | CacheMatch(k: Key) | Append(k: Key) | LateMiss(k: Key) | LateMatch(k: Key)
    | DrainWorkers | ForgetCancelled | RefuseRequeue | AdmitRequeue | Commit | CommitFails

  /** The switch asked on the pass's context: off now, or off when it ended the context. */
  predicate SwitchAdmits(s: World) { s.switchOn && s.cancelled != Some(Off) }

  function Ended(s: World, cause: Cause): Option<Cause> { if s.cancelled.Some? then s.cancelled else Some(cause) }

  /** Everything the cache holds of these keys' paths goes. */
  function Forget(cache: map<Key, bool>, paths: set<string>): map<Key, bool> {
    map k | k in cache && k.path !in paths :: cache[k]
  }

  function PathsOf(keys: set<Key>): set<string> { set k | k in keys :: k.path }

  function Requeued(rows: map<string, Row>, paths: set<string>): map<string, Row> {
    map p | p in rows :: if p in paths then rows[p].(provenance := true, enriched := false) else rows[p]
  }

  function AllPending(taken: set<Key>): map<Key, Job> { map k | k in taken :: Pending }

  predicate JobAt(p: Pass, k: Key, j: Job) { p.Working? && k in p.jobs && p.jobs[k] == j }

  /** What a worker does, within its pass or after the pass gave up on it. */
  ghost predicate WorkerStep(s: World, step: Step, t: World) {
    match step
    case Drop(k) =>
      && (JobAt(s.pass, k, Pending) || JobAt(s.pass, k, Answered))
      && t == s.(pass := s.pass.(jobs := s.pass.jobs - {k}))
    case CacheMiss(k) =>
      && (JobAt(s.pass, k, Pending) || JobAt(s.pass, k, Admitted))
      && t == s.(cache := s.cache[k := false], pass := s.pass.(jobs := s.pass.jobs - {k}))
    case PersistMiss(k) =>
      && JobAt(s.pass, k, Admitted)
      && t == s.(cache := s.cache[k := false], pass := s.pass.(jobs := s.pass.jobs - {k}),
                 rows := if k.path !in s.rows then s.rows
                         else s.rows[k.path := s.rows[k.path].(noMatch := Some(k.version))])
    case LookupAnswers(k) => JobAt(s.pass, k, Pending) && t == s.(pass := s.pass.(jobs := s.pass.jobs[k := Answered]))
    case Admit(k) => JobAt(s.pass, k, Answered) && SwitchAdmits(s)
      && t == s.(pass := s.pass.(jobs := s.pass.jobs[k := Admitted]))
    case Refuse(k) =>
      && JobAt(s.pass, k, Answered) && !SwitchAdmits(s)
      && t == s.(cancelled := Ended(s, Off), pass := s.pass.(jobs := s.pass.jobs - {k}))
    case CacheMatch(k) =>
      JobAt(s.pass, k, Admitted)
        && t == s.(cache := s.cache[k := true], pass := s.pass.(jobs := s.pass.jobs[k := Cached]))
    case Append(k) =>
      JobAt(s.pass, k, Cached) && t == s.(pass := Working(s.pass.jobs - {k}, s.pass.resolved + {k}))
    case LateMiss(k) => k in s.late && t == s.(cache := s.cache[k := false])
    case LateMatch(k) =>
      // past its admission, or asked on the context of the pass that gave up on it, which admits only when a
      // stopping process ended it
      && k in s.late && (s.stopping || k in s.past)
      && t == s.(cache := s.cache[k := true], strays := s.strays + {k})
    case _ => false
  }

  predicate IsWorkers(step: Step) {
    step.Drop? || step.CacheMiss? || step.PersistMiss? || step.LookupAnswers? || step.Admit? || step.Refuse?
    || step.CacheMatch? || step.Append? || step.LateMiss? || step.LateMatch?
  }

  /** `overrun` says whether a worker past its admission may outlive the grace of a cancelled pass. */
  ghost predicate Next(s: World, step: Step, t: World, overrun: bool) {
    match step
    case Switch(on) => t == s.(switchOn := on)
    case CancelOff => !s.switchOn && t == s.(cancelled := Ended(s, Off))
    case Stop => t == s.(stopping := true, cancelled := Ended(s, Shutdown))
    case RowChanges(path, to) =>
      // the scanner, the enricher, an expiry: anything but a provenance out of nowhere
      && (to.provenance ==> path in s.rows && s.rows[path].provenance)
      && t == s.(rows := s.rows[path := to])
    case Retry(paths) => t == s.(cache := Forget(s.cache, paths))
    case StartPass(taken) =>
      && s.pass.Idle? && s.switchOn && !s.stopping
      && (forall k :: k in taken ==>
         k.path in s.rows && s.rows[k.path].version == k.version && Offered(k.path, s.rows[k.path], s.cache))
      && t == s.(cancelled := None, pass := Working(AllPending(taken), {}))
    case DrainWorkers =>
      // every worker is done, or the pass is cancelled and the grace over
      && s.pass.Working?
      && (s.pass.jobs == map[]
          || (s.cancelled.Some?
              && forall k :: k in s.pass.jobs ==> overrun || s.pass.jobs[k].Pending? || s.pass.jobs[k].Answered?))
      && t == s.(pass := Deciding(s.pass.resolved), late := s.late + s.pass.jobs.Keys,
                 past := s.past + (set k | k in s.pass.jobs && s.pass.jobs[k].Admitted?),
                 strays := s.strays + set k | k in s.pass.jobs && s.pass.jobs[k].Cached?)
    case ForgetCancelled =>
      s.pass.Deciding? && s.cancelled.Some? && t == s.(pass := Idle, cache := Forget(s.cache, PathsOf(s.pass.resolved)))
    case RefuseRequeue =>
      && s.pass.Deciding? && !SwitchAdmits(s)
      && t == s.(pass := Idle, cancelled := Ended(s, Off), cache := Forget(s.cache, PathsOf(s.pass.resolved)))
    case AdmitRequeue => s.pass.Deciding? && SwitchAdmits(s) && t == s.(pass := Requeueing(s.pass.resolved))
    case Commit =>
      && s.pass.Requeueing?
      && t == s.(pass := Idle, rows := Requeued(s.rows, PathsOf(s.pass.resolved)), landed := s.landed + s.pass.resolved)
    case CommitFails =>
      s.pass.Requeueing? && t == s.(pass := Idle, cache := Forget(s.cache, PathsOf(s.pass.resolved)))
    case _ => WorkerStep(s, step, t)
  }

  /** A process starts with an empty cache, on whatever store those before it left. */
  ghost predicate Init(s: World) {
    && s.pass.Idle? && s.cache == map[] && s.late == {} && s.past == {} && s.strays == {} && !s.stopping
    && forall p :: p in s.rows && s.rows[p].provenance ==> p in PathsOf(s.landed)
  }

  ghost predicate Run(states: seq<World>, steps: seq<Step>, overrun: bool) {
    && |states| == |steps| + 1 && Init(states[0])
    && forall i :: 0 <= i < |steps| ==> Next(states[i], steps[i], states[i + 1], overrun)
  }

  /** The keys whose match the running pass still answers for. */
  function InHand(p: Pass): set<Key> {
    match p
    case Idle => {}
    case Working(jobs, resolved) => resolved + set k | k in jobs && jobs[k] == Cached
    case Deciding(resolved) => resolved
    case Requeueing(resolved) => resolved
  }

  predicate Matched(s: World, k: Key) { k in s.cache && s.cache[k] }

  ghost predicate CacheInv(s: World, overrun: bool) {
    && (forall k :: k in s.cache && s.cache[k] ==> k in s.landed || k in InHand(s.pass) || k in s.strays)
    && (s.strays != {} ==> s.stopping || overrun) && (s.past != {} ==> overrun)
  }

  ghost predicate StoreInv(s: World) {
    forall p :: p in s.rows && s.rows[p].provenance ==> p in PathsOf(s.landed)
  }

  ghost predicate Inv(s: World, overrun: bool) { CacheInv(s, overrun) && StoreInv(s) }

  /** A transaction: each row at these keys' paths has its provenance and goes back to the enricher; the rest of it, and
      every other row, stays. */
  lemma CommitRequeues(s: World, t: World, overrun: bool, path: string)
    requires Next(s, Commit, t, overrun)
    ensures path in t.rows <==> path in s.rows
    ensures path in s.rows && path !in PathsOf(s.pass.resolved) ==> t.rows[path] == s.rows[path]
    ensures path in s.rows && path in PathsOf(s.pass.resolved) ==>
              var was, now := s.rows[path], t.rows[path];
              && now.provenance && !now.enriched
              && now.version == was.version && now.artist == was.artist && now.artistMbid == was.artistMbid
              && now.albumMbid == was.albumMbid && now.noMatch == was.noMatch && now.veto == was.veto
              && now.eligible == was.eligible
  {
  }

  /** A worker changes the store in one way: a clean miss, admitted, is remembered for the file version it was given
      for, and holds that version out of every pass while it is. */
  lemma OnlyMissesPersist(s: World, step: Step, t: World, path: string)
    requires WorkerStep(s, step, t)
    ensures path in t.rows <==> path in s.rows
    ensures path in s.rows && !(step.PersistMiss? && step.k.path == path) ==> t.rows[path] == s.rows[path]
    ensures step.PersistMiss? && step.k.path in s.rows ==>
              var was, now := s.rows[step.k.path], t.rows[step.k.path];
              && JobAt(s.pass, step.k, Admitted)
              && now.noMatch == Some(step.k.version) && now.version == was.version && now.provenance == was.provenance
              && now.enriched == was.enriched
              && (now.version == step.k.version ==>
                    forall provenance, cached :: !OfferedWith(now, provenance, cached))
  {
  }

  /** Forgetting drops what the cache holds of these paths, whatever the version, and nothing else. */
  lemma ForgetExactly(cache: map<Key, bool>, paths: set<string>, k: Key)
    ensures k in Forget(cache, paths) <==> k in cache && k.path !in paths
    ensures k in Forget(cache, paths) ==> Forget(cache, paths)[k] == cache[k]
  {
  }

  lemma ForgottenPaths(cache: map<Key, bool>, keys: set<Key>)
    ensures forall k :: k in Forget(cache, PathsOf(keys)) ==> k in cache && k !in keys
  {
    assert forall k :: k in keys ==> k.path in PathsOf(keys);
  }

  lemma WorkerKeepsCache(s: World, step: Step, t: World, overrun: bool)
    requires CacheInv(s, overrun) && WorkerStep(s, step, t)
    ensures CacheInv(t, overrun)
  {
  }

  lemma CacheKept(s: World, step: Step, t: World, overrun: bool)
    requires CacheInv(s, overrun) && Next(s, step, t, overrun)
    ensures CacheInv(t, overrun)
  {
    if IsWorkers(step) {
      WorkerKeepsCache(s, step, t, overrun);
    } else {
      PassKeepsCache(s, step, t, overrun);
    }
  }

  lemma PassKeepsCache(s: World, step: Step, t: World, overrun: bool)
    requires CacheInv(s, overrun) && Next(s, step, t, overrun) && !IsWorkers(step)
    ensures CacheInv(t, overrun)
  {
    match step {
      case CommitFails => ForgottenPaths(s.cache, s.pass.resolved);
      case ForgetCancelled => ForgottenPaths(s.cache, s.pass.resolved);
      case RefuseRequeue => ForgottenPaths(s.cache, s.pass.resolved);
      case DrainWorkers =>
        if !overrun { assert forall k :: k in s.pass.jobs ==> !s.pass.jobs[k].Admitted? && !s.pass.jobs[k].Cached?; }
      case _ =>
    }
  }

  lemma WorkerKeepsStore(s: World, step: Step, t: World)
    requires StoreInv(s) && WorkerStep(s, step, t)
    ensures StoreInv(t)
  {
  }

  lemma StoreKept(s: World, step: Step, t: World, overrun: bool)
    requires StoreInv(s) && Next(s, step, t, overrun)
    ensures StoreInv(t)
  {
    if IsWorkers(step) { WorkerKeepsStore(s, step, t); }
  }

  lemma {:induction false} RunKeeps(states: seq<World>, steps: seq<Step>, overrun: bool, i: nat)
    requires Run(states, steps, overrun) && i < |states|
    ensures Inv(states[i], overrun)
  {
    if i == 0 {
    } else {
      RunKeeps(states, steps, overrun, i - 1);
      CacheKept(states[i - 1], steps[i - 1], states[i], overrun);
      StoreKept(states[i - 1], steps[i - 1], states[i], overrun);
    }
  }

  /** The transaction of step j re-queued the key: its row, if there still is one, came out with the provenance and
      waiting for the enricher. */
  ghost predicate RequeuedAt(states: seq<World>, steps: seq<Step>, j: int, k: Key) {
    && 0 <= j < |steps| && |states| == |steps| + 1
    && steps[j].Commit? && states[j].pass.Requeueing? && k in states[j].pass.resolved
    && (k.path in states[j].rows ==>
          k.path in states[j + 1].rows && states[j + 1].rows[k.path].provenance && !states[j + 1].rows[k.path].enriched)
  }

  /** The match the cache holds in state i was re-queued, and has been in the cache ever since. */
  ghost predicate Requeuing(states: seq<World>, steps: seq<Step>, i: int, k: Key) {
    exists j :: 0 <= j < i < |states| && RequeuedAt(states, steps, j, k)
                && forall m :: j <= m <= i ==> Matched(states[m], k)
  }

  lemma {:induction false} MatchIsAnsweredFor(states: seq<World>, steps: seq<Step>, overrun: bool, i: nat, k: Key)
    requires Run(states, steps, overrun) && i < |states| && Matched(states[i], k)
    ensures k in InHand(states[i].pass) || k in states[i].strays || Requeuing(states, steps, i, k)
  {
    if i == 0 {
    } else if k !in InHand(states[i].pass) && k !in states[i].strays {
      WasAnsweredFor(states, steps, overrun, i, k);
      MatchIsAnsweredFor(states, steps, overrun, i - 1, k);
      if k in InHand(states[i - 1].pass) {
        JustRequeued(states, steps, i, k);
      } else {
        RequeuedStays(states, steps, i, k);
      }
    }
  }

  lemma WasAnsweredFor(states: seq<World>, steps: seq<Step>, overrun: bool, i: nat, k: Key)
    requires Run(states, steps, overrun) && 0 < i < |states|
    requires Matched(states[i], k) && k !in InHand(states[i].pass) && k !in states[i].strays
    ensures Matched(states[i - 1], k) && k !in states[i - 1].strays
    ensures k in InHand(states[i - 1].pass) ==> RequeuedAt(states, steps, i - 1, k)
  {
    var s, step, t := states[i - 1], steps[i - 1], states[i];
    assert Next(s, step, t, overrun);
    StillAnsweredFor(s, step, t, overrun, k);
    if k in InHand(s.pass) { CommitIsRequeue(states, steps, overrun, i - 1, k); }
  }

  lemma JustRequeued(states: seq<World>, steps: seq<Step>, i: nat, k: Key)
    requires 0 < i < |states| && RequeuedAt(states, steps, i - 1, k)
    requires Matched(states[i - 1], k) && Matched(states[i], k)
    ensures Requeuing(states, steps, i, k)
  {
    assert forall m :: i - 1 <= m <= i ==> Matched(states[m], k);
  }

  lemma CommitIsRequeue(states: seq<World>, steps: seq<Step>, overrun: bool, j: nat, k: Key)
    requires j < |steps| && |states| == |steps| + 1 && Next(states[j], steps[j], states[j + 1], overrun)
    requires steps[j].Commit? && k in states[j].pass.resolved
    ensures RequeuedAt(states, steps, j, k)
  {
    CommitRequeues(states[j], states[j + 1], overrun, k.path);
    assert k.path in PathsOf(states[j].pass.resolved);
  }

  lemma RequeuedStays(states: seq<World>, steps: seq<Step>, i: nat, k: Key)
    requires 0 < i < |states| && Requeuing(states, steps, i - 1, k) && Matched(states[i], k)
    ensures Requeuing(states, steps, i, k)
  {
    var j :| 0 <= j < i - 1 && RequeuedAt(states, steps, j, k)
             && forall m :: j <= m <= i - 1 ==> Matched(states[m], k);
    assert forall m :: j <= m <= i ==> Matched(states[m], k);
  }

  /** A match the pass no longer answers for, and no stray, was in the cache before; and if the pass then answered for
      it, it is being committed. */
  lemma StillAnsweredFor(s: World, step: Step, t: World, overrun: bool, k: Key)
    requires Next(s, step, t, overrun) && Matched(t, k) && k !in InHand(t.pass) && k !in t.strays
    ensures Matched(s, k) && k !in s.strays
    ensures k in InHand(s.pass) ==> step.Commit? && k in s.pass.resolved
  {
    if IsWorkers(step) {
      WorkerAnswersFor(s, step, t, k);
    } else {
      match step {
        case CommitFails => ForgottenPaths(s.cache, s.pass.resolved);
        case ForgetCancelled => ForgottenPaths(s.cache, s.pass.resolved);
        case RefuseRequeue => ForgottenPaths(s.cache, s.pass.resolved);
        case _ =>
      }
    }
  }

  lemma WorkerAnswersFor(s: World, step: Step, t: World, k: Key)
    requires WorkerStep(s, step, t) && Matched(t, k) && k !in InHand(t.pass) && k !in t.strays
    ensures Matched(s, k) && k !in s.strays && k !in InHand(s.pass)
  {
  }

  /** Between passes, however the last one ended, a match the cache holds was re-queued with its provenance while the
      cache held it, or is of a worker that outlived a cancelled pass's grace; and a provenance the store holds came
      with its re-queue. Only a stopping process has such workers, unless one past its admission may outlive the
      grace. */
  lemma MatchesAreRequeued(states: seq<World>, steps: seq<Step>, overrun: bool, i: nat)
    requires Run(states, steps, overrun) && i < |states| && states[i].pass.Idle?
    ensures forall k :: Matched(states[i], k) ==> k in states[i].strays || Requeuing(states, steps, i, k)
    ensures forall k :: k in states[i].cache && states[i].cache[k] ==> k in states[i].landed || k in states[i].strays
    ensures states[i].strays != {} ==> states[i].stopping || overrun
    ensures forall p :: p in states[i].rows && states[i].rows[p].provenance ==> p in PathsOf(states[i].landed)
  {
    RunKeeps(states, steps, overrun, i);
    forall k | Matched(states[i], k) ensures k in states[i].strays || Requeuing(states, steps, i, k) {
      MatchIsAnsweredFor(states, steps, overrun, i, k);
    }
  }

  /** A key this process landed was re-queued by one of its transactions. */
  lemma {:induction false} LandedWasRequeued(states: seq<World>, steps: seq<Step>, overrun: bool, i: nat, k: Key)
    requires Run(states, steps, overrun) && i < |states| && k in states[i].landed && k !in states[0].landed
    ensures exists j :: 0 <= j < i && RequeuedAt(states, steps, j, k)
  {
    assert i > 0;
    var s, step, t := states[i - 1], steps[i - 1], states[i];
    assert Next(s, step, t, overrun);
    if k in s.landed {
      LandedWasRequeued(states, steps, overrun, i - 1, k);
    } else {
      OnlyCommitsLand(s, step, t, overrun, k);
      CommitIsRequeue(states, steps, overrun, i - 1, k);
    }
  }

  lemma OnlyCommitsLand(s: World, step: Step, t: World, overrun: bool, k: Key)
    requires Next(s, step, t, overrun) && k in t.landed && k !in s.landed
    ensures step.Commit? && k in s.pass.resolved
  {
  }

  // ----- the switch -----

  /** The switch was on at step m, and had not ended the pass; and the pass is the one still under way at i. */
  ghost predicate OnAt(states: seq<World>, steps: seq<Step>, m: int, i: int) {
    && 0 <= m < i < |states| && |states| == |steps| + 1
    && states[m].switchOn && states[m].cancelled != Some(Off)
    && forall j :: m < j < i ==> !steps[j].StartPass?
  }

  ghost predicate AdmittedSince(states: seq<World>, steps: seq<Step>, i: int, k: Key) {
    exists m :: OnAt(states, steps, m, i) && steps[m] == Admit(k)
  }

  ghost predicate RequeueAdmitted(states: seq<World>, steps: seq<Step>, i: int) {
    exists m :: OnAt(states, steps, m, i) && steps[m].AdmitRequeue?
  }

  /** Past its admission, or cached and still answered for. */
  predicate Writes(p: Pass, k: Key) { JobAt(p, k, Admitted) || k in InHand(p) }

  lemma OnStays(states: seq<World>, steps: seq<Step>, m: int, i: int)
    requires OnAt(states, steps, m, i) && i < |steps| && !steps[i].StartPass?
    ensures OnAt(states, steps, m, i + 1)
  {
  }

  lemma WorkerWrites(s: World, step: Step, t: World, k: Key)
    requires WorkerStep(s, step, t) && Writes(t.pass, k)
    ensures Writes(s.pass, k) || (step == Admit(k) && s.switchOn && s.cancelled != Some(Off))
  {
  }

  lemma StepWrites(s: World, step: Step, t: World, overrun: bool, k: Key)
    requires Next(s, step, t, overrun) && Writes(t.pass, k)
    ensures !step.StartPass?
    ensures Writes(s.pass, k) || (step == Admit(k) && s.switchOn && s.cancelled != Some(Off))
  {
    if IsWorkers(step) { WorkerWrites(s, step, t, k); }
  }

  /** What AcoustID answered for a file is written only if the switch was on when its worker asked, and had not ended
      the pass: neither its match to the cache, nor, with the re-queue, to the store. */
  lemma {:induction false} WritesAreAdmitted(states: seq<World>, steps: seq<Step>, overrun: bool, i: nat, k: Key)
    requires Run(states, steps, overrun) && i < |states| && Writes(states[i].pass, k)
    ensures AdmittedSince(states, steps, i, k)
  {
    assert i > 0;
    assert Next(states[i - 1], steps[i - 1], states[i], overrun);
    StepWrites(states[i - 1], steps[i - 1], states[i], overrun, k);
    if Writes(states[i - 1].pass, k) {
      WritesAreAdmitted(states, steps, overrun, i - 1, k);
      var m :| OnAt(states, steps, m, i - 1) && steps[m] == Admit(k);
      OnStays(states, steps, m, i - 1);
    } else {
      assert OnAt(states, steps, i - 1, i);
    }
  }

  lemma StepRequeues(s: World, step: Step, t: World, overrun: bool)
    requires Next(s, step, t, overrun) && t.pass.Requeueing?
    ensures !step.StartPass?
    ensures s.pass.Requeueing? || (step.AdmitRequeue? && s.switchOn && s.cancelled != Some(Off))
  {
  }

  /** And the transaction that re-queues runs only if the switch was on, once more, when the pass asked for it. */
  lemma {:induction false} CommitsAreAdmitted(states: seq<World>, steps: seq<Step>, overrun: bool, i: nat)
    requires Run(states, steps, overrun) && i < |states| && states[i].pass.Requeueing?
    ensures RequeueAdmitted(states, steps, i)
    ensures forall k :: k in states[i].pass.resolved ==> AdmittedSince(states, steps, i, k)
  {
    assert i > 0;
    assert Next(states[i - 1], steps[i - 1], states[i], overrun);
    StepRequeues(states[i - 1], steps[i - 1], states[i], overrun);
    forall k | k in states[i].pass.resolved ensures AdmittedSince(states, steps, i, k) {
      WritesAreAdmitted(states, steps, overrun, i, k);
    }
    if states[i - 1].pass.Requeueing? {
      CommitsAreAdmitted(states, steps, overrun, i - 1);
      var m :| OnAt(states, steps, m, i - 1) && steps[m].AdmitRequeue?;
      OnStays(states, steps, m, i - 1);
    } else {
      assert OnAt(states, steps, i - 1, i);
    }
  }

  // ----- what the next pass is offered -----

  /** So a path no re-queue landed for, and no such worker matched, is held out of the next pass by no match and no
      provenance: the scan takes it exactly when its other rules do, and no miss is cached for it. */
  lemma UnlandedIsOfferedAgain(states: seq<World>, steps: seq<Step>, overrun: bool, i: nat, path: string)
    requires Run(states, steps, overrun) && i < |states| && states[i].pass.Idle?
    requires path in states[i].rows && path !in PathsOf(states[i].landed + states[i].strays)
    ensures var s, r := states[i], states[i].rows[path];
            var key := Key(path, r.version);
            Offered(path, r, s.cache) <==> OfferedWith(r, false, key in s.cache && !s.cache[key])
  {
    RunKeeps(states, steps, overrun, i);
    var s, r := states[i], states[i].rows[path];
    var k := Key(path, r.version);
    assert k in s.landed + s.strays ==> k.path in PathsOf(s.landed + s.strays);
    assert path in PathsOf(s.landed) ==> path in PathsOf(s.landed + s.strays);
  }

  // ----- a worker past its admission -----

  ghost predicate AllRequeued(states: seq<World>, steps: seq<Step>, i: int)
    requires 0 <= i < |states|
  {
    states[i].pass.Idle? && !states[i].stopping ==>
      forall k :: Matched(states[i], k) ==> k in states[i].landed && Requeuing(states, steps, i, k)
  }

  const SAMPLE := Key("a", 0)
  const WANTED := Row(0, "", false, false, false, true, None, None, true)

  function StrayState(i: nat): World {
    var start := World(true, false, None, map["a" := WANTED], map[], Idle, {}, {}, {}, {});
    var off := start.(switchOn := false);
    if i == 0 then start
    else if i == 1 then start.(pass := Working(map[SAMPLE := Pending], {}))
    else if i == 2 then start.(pass := Working(map[SAMPLE := Answered], {}))
    else if i == 3 then start.(pass := Working(map[SAMPLE := Admitted], {}))
    else if i == 4 then off.(pass := Working(map[SAMPLE := Admitted], {}))
    else if i == 5 then off.(cancelled := Some(Off), pass := Working(map[SAMPLE := Admitted], {}))
    else
      var gone := off.(cancelled := Some(Off), late := {SAMPLE}, past := {SAMPLE});
      if i == 6 then gone.(pass := Deciding({}))
      else if i == 7 then gone
      else gone.(cache := map[SAMPLE := true], strays := {SAMPLE})
  }

  const STRAY := [StartPass({SAMPLE}), LookupAnswers(SAMPLE), Admit(SAMPLE), Switch(false), CancelOff, DrainWorkers,
                  ForgetCancelled, LateMatch(SAMPLE)]

  lemma StrayBegins(i: nat)
    requires i < 5
    ensures Next(StrayState(i), STRAY[i], StrayState(i + 1), true)
  {
    var taken := {SAMPLE};
    var job: map<Key, Job> := map[SAMPLE := Pending];
    assert AllPending(taken) == job && job[SAMPLE := Answered] == map[SAMPLE := Answered];
    assert map[SAMPLE := Answered][SAMPLE := Admitted] == map[SAMPLE := Admitted];
  }

  lemma StrayEnds(i: nat)
    requires 5 <= i < 8
    ensures Next(StrayState(i), STRAY[i], StrayState(i + 1), true)
  {
    var jobs := map[SAMPLE := Admitted];
    assert jobs.Keys == {SAMPLE} && (set k | k in jobs && jobs[k].Admitted?) == {SAMPLE};
    assert (set k | k in jobs && jobs[k].Cached?) == {};
    assert Forget(map[], PathsOf({})) == map[];
  }

  /** A pass is switched off while a worker is past its admission, and gives up on it; the match the worker then
      caches holds its file out of every later pass, and no re-queue follows. */
  lemma StrayMatchIsLost() returns (states: seq<World>, steps: seq<Step>)
    ensures Run(states, steps, true) && states[|states| - 1] == StrayState(8)
    ensures !Offered("a", WANTED, states[|states| - 1].cache)
  {
    states, steps := seq(9, i requires 0 <= i => StrayState(i)), STRAY;
    forall i | 0 <= i < |steps| ensures Next(states[i], steps[i], states[i + 1], true) {
      if i < 5 { StrayBegins(i); } else { StrayEnds(i); }
    }
  }

  /** While the process goes on, every match in the cache between passes was re-queued, in every run, exactly when no
      worker past its admission can outlive the grace of a cancelled pass. */
  lemma MatchesAreRequeuedExactly(overrun: bool)
    ensures (forall states: seq<World>, steps, i ::
               Run(states, steps, overrun) && 0 <= i < |states| ==> AllRequeued(states, steps, i))
            <==> !overrun
  {
    if overrun {
      var states, steps := StrayMatchIsLost();
      assert Matched(states[|states| - 1], SAMPLE);
      assert !AllRequeued(states, steps, |states| - 1);
    } else {
      forall states: seq<World>, steps, i | Run(states, steps, overrun) && 0 <= i < |states|
        ensures AllRequeued(states, steps, i)
      {
        if states[i].pass.Idle? { MatchesAreRequeued(states, steps, overrun, i); }
      }
    }
  }

  // ----- a whole pass -----

  predicate Marked(s: World, p: string) { p in s.rows && s.rows[p].provenance }

  /** What a pass under way has added since it began: matches it still answers for, and no mark in the store. */
  ghost predicate Adds(s0: World, s: World) {
    && s.landed == s0.landed
    && (forall k :: Matched(s, k) ==> Matched(s0, k) || k in InHand(s.pass) || k in s.strays)
    && (forall p :: Marked(s, p) ==> Marked(s0, p))
  }

  lemma WorkerAdds(s0: World, s: World, step: Step, t: World)
    requires Adds(s0, s) && WorkerStep(s, step, t)
    ensures Adds(s0, t)
  {
  }

  lemma PassAdds(s0: World, s: World, step: Step, t: World, overrun: bool)
    requires Adds(s0, s) && Next(s, step, t, overrun) && !step.Commit? && !step.StartPass?
    ensures Adds(s0, t)
  {
    if IsWorkers(step) {
      WorkerAdds(s0, s, step, t);
    } else {
      match step {
        case CommitFails => ForgottenPaths(s.cache, s.pass.resolved);
        case ForgetCancelled => ForgottenPaths(s.cache, s.pass.resolved);
        case RefuseRequeue => ForgottenPaths(s.cache, s.pass.resolved);
        case _ =>
      }
    }
  }

  lemma {:induction false} PassSoFar(states: seq<World>, steps: seq<Step>, overrun: bool, i: nat, j: nat)
    requires Run(states, steps, overrun) && i < j < |states| && steps[i].StartPass?
    requires forall m :: i < m < j ==> !steps[m].StartPass? && !steps[m].Commit?
    ensures Adds(states[i], states[j])
  {
    assert Next(states[j - 1], steps[j - 1], states[j], overrun);
    if j == i + 1 {
    } else {
      PassSoFar(states, steps, overrun, i, j - 1);
      PassAdds(states[i], states[j - 1], steps[j - 1], states[j], overrun);
    }
  }

  /** A pass that ends without its transaction, however it was stopped and whatever its workers did in between,
      leaves nothing of its own: every match in the cache was there before it began, or is of a worker it gave up on,
      and so was every provenance in the store. */
  lemma StoppedPassLeavesNothing(states: seq<World>, steps: seq<Step>, overrun: bool, i: nat, j: nat)
    requires Run(states, steps, overrun) && i < j < |states| && steps[i].StartPass? && states[j].pass.Idle?
    requires forall m :: i < m < j ==> !steps[m].StartPass? && !steps[m].Commit?
    ensures states[j].landed == states[i].landed
    ensures forall k :: Matched(states[j], k) ==> Matched(states[i], k) || k in states[j].strays
    ensures forall p :: Marked(states[j], p) ==> Marked(states[i], p)
  {
    PassSoFar(states, steps, overrun, i, j);
  }
}
