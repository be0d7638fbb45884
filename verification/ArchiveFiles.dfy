/** Files: every row marked local keeps its file in new/, with the archived bytes, through
    every interleaving of syncs, uploads, retention passes, sweeps and kills, provided no two
    Maildir writers ever produce the same names in one directory. */
module ArchiveFiles {
  import opened Options
  import opened Archive

  const FRESH_WRITERS := Discipline(true, false, false, false)

  type Syncs = map<nat, Sync>
  type Files = map<Path, Mail>

  /** The promise: a row marked local has its file in new/ with the archived bytes. */
  ghost predicate LocalFilesKept(rows: map<nat, Row>, filed: Files) {
    forall id :: id in rows && rows[id].location.Local? ==>
      rows[id].path.Some? && rows[id].path.value in filed && filed[rows[id].path.value] == rows[id].mail
  }

  predicate InFlight(y: Sync) {
    y.phase.Staged? || y.phase.Renamed?
  }

  predicate Owns(y: Sync, x: Path) {
    y.dir == x.dir && y.writer == x.writer
  }

  /** No running sync can still produce the name `x`, and none is holding it. */
  ghost predicate Settled(syncs: Syncs, writers: set<(nat, nat)>, x: Path) {
    && (x.dir, x.writer) in writers
    && forall p :: p in syncs && Owns(syncs[p], x) ==>
         x.serial < syncs[p].serial || (x.serial == syncs[p].serial && !InFlight(syncs[p]))
  }

  ghost predicate WritersDistinct(syncs: Syncs, writers: set<(nat, nat)>) {
    && (forall p :: p in syncs ==> (syncs[p].dir, syncs[p].writer) in writers)
    && (forall p, q :: p in syncs && q in syncs && p != q ==>
          syncs[p].dir != syncs[q].dir || syncs[p].writer != syncs[q].writer)
  }

  ghost predicate SyncsHold(syncs: Syncs, tmp: Files, filed: Files) {
    forall p :: p in syncs ==>
      && (InFlight(syncs[p]) ==> Owns(syncs[p], syncs[p].phase.path) && syncs[p].phase.path.serial == syncs[p].serial)
      && (syncs[p].phase.Staged? && syncs[p].phase.path in tmp ==> tmp[syncs[p].phase.path] == syncs[p].phase.mail)
      && (syncs[p].phase.Renamed? ==> syncs[p].phase.path in filed && filed[syncs[p].phase.path] == syncs[p].phase.mail)
  }

  ghost predicate RowsHold(rows: map<nat, Row>, syncs: Syncs, writers: set<(nat, nat)>) {
    && (forall id :: id in rows && rows[id].path.Some? ==> Settled(syncs, writers, rows[id].path.value))
    && (forall i, j :: i in rows && j in rows && i != j && rows[i].path.Some? ==> rows[i].path != rows[j].path)
    && (forall id :: id in rows && rows[id].location.S3Only? ==> rows[id].path.None?)
  }

  ghost predicate ContentAt(filed: Files, syncs: Syncs, writers: set<(nat, nat)>, x: Path, mail: Mail) {
    Settled(syncs, writers, x) && (x in filed ==> filed[x] == mail)
  }

  ghost predicate QueueHolds(queue: map<nat, QueueRow>, filed: Files, syncs: Syncs, writers: set<(nat, nat)>) {
    forall q :: q in queue ==> ContentAt(filed, syncs, writers, queue[q].path, queue[q].key.content)
  }

  ghost predicate JobsHold(jobs: map<nat, Job>, filed: Files, syncs: Syncs, writers: set<(nat, nat)>) {
    forall q :: q in jobs ==>
      && ContentAt(filed, syncs, writers, jobs[q].path, jobs[q].key.content)
      && (jobs[q].work.Fetched? ==> jobs[q].work.content == jobs[q].key.content)
  }

  ghost predicate ObjectsHold(objects: map<Key, Mail>) {
    forall k :: k in objects ==> objects[k] == k.content
  }

  function ChorePath(c: Chore): Option<Path> {
    match c
    case Evict(path) => path
    case DeleteDirect(path) => path
    case Unlinking(file) => Some(file)
    case _ => None
  }

  /** A file a retention pass is about to remove belongs to the listed row or to none. */
  ghost predicate ChoresHold(chores: map<(nat, nat), Chore>, rows: map<nat, Row>, syncs: Syncs,
      writers: set<(nat, nat)>)
  {
    forall k :: k in chores && ChorePath(chores[k]).Some? ==>
      && Settled(syncs, writers, ChorePath(chores[k]).value)
      && forall i :: i in rows && rows[i].path == ChorePath(chores[k]) ==> i == k.1 && !chores[k].Unlinking?
  }

  ghost predicate FilesInv(s: State) {
    && LocalFilesKept(s.rows, s.filed)
    && WritersDistinct(s.syncs, s.writers)
    && SyncsHold(s.syncs, s.tmp, s.filed)
    && (forall id :: id in s.rows ==> id < s.nextRow)
    && RowsHold(s.rows, s.syncs, s.writers)
    && QueueHolds(s.queue, s.filed, s.syncs, s.writers)
    && JobsHold(s.jobs, s.filed, s.syncs, s.writers)
    && ObjectsHold(s.objects)
    && ChoresHold(s.chores, s.rows, s.syncs, s.writers)
  }

  /** A step of a sync process or a sweep: it takes back no settled name and touches no file
      under one. */
  ghost predicate Undisturbed(s: State, t: State) {
    && (forall x :: Settled(s.syncs, s.writers, x) ==> Settled(t.syncs, t.writers, x))
    && (forall x :: Settled(s.syncs, s.writers, x) ==>
          (x in t.filed <==> x in s.filed) && (x in t.filed ==> t.filed[x] == s.filed[x]))
    && WritersDistinct(t.syncs, t.writers) && SyncsHold(t.syncs, t.tmp, t.filed)
  }

  lemma UndisturbedRows(s: State, t: State)
    requires Undisturbed(s, t) && LocalFilesKept(s.rows, s.filed) && RowsHold(s.rows, s.syncs, s.writers)
    ensures LocalFilesKept(s.rows, t.filed) && RowsHold(s.rows, t.syncs, t.writers)
  {
    hide Settled, WritersDistinct, SyncsHold;
  }

  lemma UndisturbedQueue(s: State, t: State)
    requires Undisturbed(s, t)
    ensures QueueHolds(s.queue, s.filed, s.syncs, s.writers) ==> QueueHolds(s.queue, t.filed, t.syncs, t.writers)
    ensures JobsHold(s.jobs, s.filed, s.syncs, s.writers) ==> JobsHold(s.jobs, t.filed, t.syncs, t.writers)
    ensures ChoresHold(s.chores, s.rows, s.syncs, s.writers) ==> ChoresHold(s.chores, s.rows, t.syncs, t.writers)
  {
    hide Settled, WritersDistinct, SyncsHold;
  }

  lemma NothingHolds(s: State)
    ensures JobsHold(map[], s.filed, s.syncs, s.writers) && ChoresHold(map[], s.rows, s.syncs, s.writers)
  {
  }

  lemma UndisturbedKeeps(s: State, t: State)
    requires FilesInv(s) && Undisturbed(s, t)
    requires t.rows == s.rows && t.nextRow == s.nextRow && t.queue == s.queue && t.objects == s.objects
    requires (t.jobs == s.jobs && t.chores == s.chores) || (t.jobs == map[] && t.chores == map[])
    ensures FilesInv(t)
  {
    hide Settled, WritersDistinct, SyncsHold, LocalFilesKept, RowsHold, QueueHolds, JobsHold, ObjectsHold, ChoresHold;
    UndisturbedRows(s, t);
    UndisturbedQueue(s, t);
    NothingHolds(t);
  }

  lemma StageLeaves(s: State, p: nat)
    requires WritersDistinct(s.syncs, s.writers) && SyncsHold(s.syncs, s.tmp, s.filed)
    requires p in s.syncs && s.syncs[p].phase.Checked?
    ensures Undisturbed(s, StageStep(s, p))
  {
  }

  lemma RenameLeaves(s: State, p: nat)
    requires WritersDistinct(s.syncs, s.writers) && SyncsHold(s.syncs, s.tmp, s.filed)
    requires p in s.syncs && s.syncs[p].phase.Staged?
    ensures Undisturbed(s, RenameStep(s, p))
  {
  }

  lemma TornLeaves(s: State, p: nat, junk: Mail)
    requires WritersDistinct(s.syncs, s.writers) && SyncsHold(s.syncs, s.tmp, s.filed)
    requires p in s.syncs && s.syncs[p].phase.Checked?
    ensures Undisturbed(s, TornStep(s, p, junk))
  {
  }

  lemma DiscardLeaves(s: State, p: nat)
    requires WritersDistinct(s.syncs, s.writers) && SyncsHold(s.syncs, s.tmp, s.filed)
    requires p in s.syncs && s.syncs[p].phase.Staged?
    ensures Undisturbed(s, DiscardStep(s, p))
  {
  }

  /** The process ends, or goes to a phase in which it holds no name. */
  lemma ReleaseLeaves(s: State, t: State, p: nat, y: Sync)
    requires WritersDistinct(s.syncs, s.writers) && SyncsHold(s.syncs, s.tmp, s.filed)
    requires p in s.syncs && y == s.syncs[p].(phase := y.phase) && !InFlight(y)
    requires t.syncs == s.syncs[p := y] || t.syncs == s.syncs - {p} || t.syncs == s.syncs
    requires t.tmp == s.tmp && t.filed == s.filed && t.writers == s.writers
    ensures Undisturbed(s, t)
  {
  }

  lemma OtherStepLeaves(s: State, p: nat, op: SyncOp)
    requires WritersDistinct(s.syncs, s.writers) && SyncsHold(s.syncs, s.tmp, s.filed)
    requires SyncEnabled(s, p, op) && (op.Finish? || op.Check? || op.Abandon? || op.Skip?)
    ensures Undisturbed(s, SyncEffect(s, p, op))
  {
    hide Duplicate, Advanced, Undisturbed, WritersDistinct, SyncsHold;
    var t := SyncEffect(s, p, op);
    ReleaseLeaves(s, t, p, if op.Check? then t.syncs[p] else s.syncs[p].(phase := Idle));
  }

  lemma BeginLeaves(s: State, p: nat, account: nat, f: nat, dir: nat, writer: nat)
    requires WritersDistinct(s.syncs, s.writers) && SyncsHold(s.syncs, s.tmp, s.filed)
    requires p !in s.syncs && (dir, writer) !in s.writers
    ensures Undisturbed(s, Started(s, p, account, f, dir, writer))
  {
  }

  /** The transaction frees no name, and the file of the new row is settled. */
  lemma PersistSettles(s: State, p: nat, mirror: bool, today: nat, now: nat)
    requires FilesInv(s) && p in s.syncs && s.syncs[p].phase.Renamed?
    ensures var t := PersistStep(s, p, mirror, today, now);
            && (forall x :: Settled(s.syncs, s.writers, x) ==> Settled(t.syncs, t.writers, x))
            && Settled(t.syncs, t.writers, s.syncs[p].phase.path)
            && WritersDistinct(t.syncs, t.writers) && SyncsHold(t.syncs, t.tmp, t.filed)
  {
    hide RowsHold, QueueHolds, JobsHold, ChoresHold, LocalFilesKept, ObjectsHold;
  }

  lemma HeldIsUnsettled(s: State, p: nat)
    requires SyncsHold(s.syncs, s.tmp, s.filed) && p in s.syncs && s.syncs[p].phase.Renamed?
    ensures !Settled(s.syncs, s.writers, s.syncs[p].phase.path)
  {
  }

  lemma PersistRows(s: State, p: nat, mirror: bool, today: nat, now: nat)
    requires FilesInv(s) && p in s.syncs && s.syncs[p].phase.Renamed?
    ensures var t := PersistStep(s, p, mirror, today, now);
            && LocalFilesKept(t.rows, t.filed) && RowsHold(t.rows, t.syncs, t.writers)
            && ChoresHold(t.chores, t.rows, t.syncs, t.writers)
            && forall id :: id in t.rows ==> id < t.nextRow
  {
    hide QueueHolds, JobsHold, ObjectsHold, WritersDistinct, Settled, UidTaken, Advanced, NewQueueRow;
    PersistSettles(s, p, mirror, today, now);
    HeldIsUnsettled(s, p);
  }

  lemma PersistKeeps(s: State, p: nat, mirror: bool, today: nat, now: nat)
    requires FilesInv(s) && p in s.syncs && s.syncs[p].phase.Renamed?
    ensures FilesInv(PersistStep(s, p, mirror, today, now))
  {
    hide RowsHold, ChoresHold, LocalFilesKept, Settled, WritersDistinct, UidTaken, Advanced;
    PersistSettles(s, p, mirror, today, now);
    PersistRows(s, p, mirror, today, now);
  }

  /** An etag is no matter of files. */
  lemma RelabelledRows(s: State, rows: map<nat, Row>)
    requires FilesInv(s) && rows.Keys == s.rows.Keys
    requires forall id :: id in rows ==>
      rows[id].path == s.rows[id].path && rows[id].location == s.rows[id].location && rows[id].mail == s.rows[id].mail
    ensures LocalFilesKept(rows, s.filed) && RowsHold(rows, s.syncs, s.writers) && forall id :: id in rows ==>
      id < s.nextRow
    ensures ChoresHold(s.chores, rows, s.syncs, s.writers)
  {
    hide WritersDistinct, SyncsHold, Settled, ObjectsHold, QueueHolds, JobsHold;
  }

  lemma DoneKeeps(s: State, q: nat, reported: bool)
    requires FilesInv(s) && q in s.jobs && s.jobs[q].work.Stored?
    ensures FilesInv(DoneStep(s, q, reported))
  {
    hide WritersDistinct, SyncsHold, Settled, ObjectsHold, LocalFilesKept, RowsHold, ChoresHold;
    RelabelledRows(s, DoneStep(s, q, reported).rows);
  }

  lemma EvictedRows(s: State, rows: map<nat, Row>, id: nat, since: nat)
    requires FilesInv(s) && id in s.rows
    requires rows == s.rows[id := s.rows[id].(location := S3Only, path := None, since := Some(since))]
    ensures LocalFilesKept(rows, s.filed) && RowsHold(rows, s.syncs, s.writers) && forall i :: i in rows ==>
      i < s.nextRow
  {
    hide WritersDistinct, SyncsHold, Settled, ObjectsHold, QueueHolds, JobsHold, ChoresHold;
  }

  lemma EvictedChores(s: State, k: (nat, nat), since: nat)
    requires FilesInv(s) && k in s.chores && s.chores[k].Evict?
    ensures var t := EvictStep(s, k, since); ChoresHold(t.chores, t.rows, s.syncs, s.writers)
  {
    hide WritersDistinct, SyncsHold, Settled, ObjectsHold, QueueHolds, JobsHold, LocalFilesKept, RowsHold;
  }

  lemma EvictKeeps(s: State, k: (nat, nat), since: nat)
    requires FilesInv(s) && k in s.chores && s.chores[k].Evict?
    ensures FilesInv(EvictStep(s, k, since))
  {
    hide WritersDistinct, SyncsHold, Settled, ObjectsHold, QueueHolds, JobsHold, LocalFilesKept, RowsHold, ChoresHold;
    EvictedChores(s, k, since);
    if k.1 in s.rows {
      EvictedRows(s, EvictStep(s, k, since).rows, k.1, since);
    }
  }

  lemma DeleteKeeps(s: State, k: (nat, nat))
    requires FilesInv(s) && k in s.chores && (s.chores[k].DeleteDirect? || s.chores[k].ExpireRow?)
    ensures FilesInv(DeleteStep(s, k))
  {
    hide WritersDistinct, SyncsHold, Settled, ObjectsHold, JobsHold;
  }

  lemma UnlinkKeeps(s: State, k: (nat, nat))
    requires FilesInv(s) && k in s.chores && s.chores[k].Unlinking?
    ensures FilesInv(UnlinkStep(s, k))
  {
  }

  /** What a step of a sync process other than its transaction leaves alone. */
  lemma SyncFrame(s: State, p: nat, op: SyncOp)
    requires SyncEnabled(s, p, op) && !op.Persist?
    ensures var t := SyncEffect(s, p, op);
            && t.rows == s.rows && t.nextRow == s.nextRow && t.queue == s.queue && t.objects == s.objects
            && t.jobs == s.jobs && t.chores == s.chores
  {
    hide Duplicate, Advanced, NextName;
  }

  lemma SyncKeeps(s: State, p: nat, op: SyncOp)
    requires FilesInv(s) && SyncEnabled(s, p, op)
    ensures FilesInv(SyncEffect(s, p, op))
  {
    hide WritersDistinct, SyncsHold, LocalFilesKept, RowsHold, QueueHolds, JobsHold, ObjectsHold, ChoresHold,
      Undisturbed;
    if op.Persist? {
      PersistKeeps(s, p, op.mirror, op.today, op.now);
    } else {
      match op {
        case Stage => StageLeaves(s, p);
        case Rename => RenameLeaves(s, p);
        case StageTorn(junk) => TornLeaves(s, p, junk);
        case Discard => DiscardLeaves(s, p);
        case _ => OtherStepLeaves(s, p, op);
      }
      SyncFrame(s, p, op);
      UndisturbedKeeps(s, SyncEffect(s, p, op));
    }
  }

  lemma ClaimKeeps(s: State, q: nat)
    requires FilesInv(s) && UploadEnabled(s, q, Claim)
    ensures FilesInv(ClaimStep(s, q))
  {
  }

  lemma FailedKeeps(s: State, q: nat)
    requires FilesInv(s) && UploadEnabled(s, q, MarkFailed)
    ensures FilesInv(FailedStep(s, q))
  {
  }

  lemma UploadKeeps(s: State, q: nat, op: UploadOp)
    requires FilesInv(s) && UploadEnabled(s, q, op)
    ensures FilesInv(UploadEffect(s, q, op))
  {
    match op
    case Claim => ClaimKeeps(s, q);
    case Done(reported) => DoneKeeps(s, q, reported);
    case MarkFailed => FailedKeeps(s, q);
    case _ =>
  }

  lemma ListingKeeps(s: State, k: (nat, nat), op: RetainOp)
    requires FilesInv(s) && RetainEnabled(s, k, op)
    requires op.ListEvict? || op.ListDirect? || op.ListExpire?
    ensures FilesInv(RetainEffect(s, k, op))
  {
  }

  lemma RetainKeeps(s: State, k: (nat, nat), op: RetainOp)
    requires FilesInv(s) && RetainEnabled(s, k, op)
    ensures FilesInv(RetainEffect(s, k, op))
  {
    match op
    case MarkEvicted(since) => EvictKeeps(s, k, since);
    case Delete => DeleteKeeps(s, k);
    case Unlink => UnlinkKeeps(s, k);
    case DeleteObject =>
    case GiveUp =>
    case _ => ListingKeeps(s, k, op);
  }

  lemma BeginKeeps(s: State, p: nat, account: nat, f: nat, dir: nat, writer: nat)
    requires FilesInv(s) && p !in s.syncs && (dir, writer) !in s.writers
    ensures FilesInv(Started(s, p, account, f, dir, writer))
  {
    hide WritersDistinct, SyncsHold, LocalFilesKept, RowsHold, QueueHolds, JobsHold, ObjectsHold, ChoresHold,
      Undisturbed;
    BeginLeaves(s, p, account, f, dir, writer);
    UndisturbedKeeps(s, Started(s, p, account, f, dir, writer));
  }

  lemma SweepKeeps(s: State)
    requires FilesInv(s)
    ensures FilesInv(s.(tmp := map[]))
  {
    hide WritersDistinct, LocalFilesKept, RowsHold, QueueHolds, JobsHold, ObjectsHold, ChoresHold;
  }

  lemma CrashKeeps(s: State)
    requires FilesInv(s)
    ensures FilesInv(s.(syncs := map[], jobs := map[], chores := map[]))
  {
    hide LocalFilesKept, ObjectsHold;
  }

  lemma ProcessKeeps(s: State, a: Action)
    requires FilesInv(s) && Permitted(FRESH_WRITERS, s, a)
    requires a.Upsert? || a.Begin? || a.Sweep? || a.Crash?
    ensures FilesInv(Act(s, a))
  {
    hide WritersDistinct, SyncsHold, LocalFilesKept, RowsHold, QueueHolds, JobsHold, ObjectsHold, ChoresHold, Started;
    match a
    case Begin(p, account, f, dir, writer) =>
      if p !in s.syncs && f in s.folders { BeginKeeps(s, p, account, f, dir, writer); }
    case Upsert(_, _) =>
    case Sweep => SweepKeeps(s);
    case Crash => CrashKeeps(s);
  }

  lemma StepKeepsFiles(s: State, a: Action)
    requires FilesInv(s) && Permitted(FRESH_WRITERS, s, a)
    ensures FilesInv(Act(s, a))
  {
    hide FilesInv, SyncEffect, UploadEffect, RetainEffect;
    match a
    case OfSync(p, op) => if SyncEnabled(s, p, op) { SyncKeeps(s, p, op); }
    case OfUpload(q, op) => if UploadEnabled(s, q, op) { UploadKeeps(s, q, op); }
    case OfRetention(pass, id, op) => if RetainEnabled(s, (pass, id), op) { RetainKeeps(s, (pass, id), op); }
    case _ => ProcessKeeps(s, a);
  }

  /** In every interleaving, with kills between any two steps, no local row loses its file. */
  lemma {:induction false} LocalFilesSurvive(s: State, acts: seq<Action>)
    requires FilesInv(s) && Along(FRESH_WRITERS, s, acts)
    ensures FilesInv(Run(s, acts))
    ensures LocalFilesKept(Run(s, acts).rows, Run(s, acts).filed)
    decreases |acts|
  {
    if acts != [] {
      StepKeepsFiles(s, acts[0]);
      LocalFilesSurvive(Act(s, acts[0]), acts[1..]);
    }
  }

  /** `Commit` renames without looking at its target. It keeps the promise exactly when no
      local row with other bytes already sits at that name. */
  lemma RenameKeepsFilesIff(s: State, p: nat)
    requires LocalFilesKept(s.rows, s.filed)
    requires p in s.syncs && s.syncs[p].phase.Staged? && s.syncs[p].phase.path in s.tmp
    ensures var x := s.syncs[p].phase.path;
            LocalFilesKept(s.rows, RenameStep(s, p).filed) <==>
            forall id :: id in s.rows && s.rows[id].location.Local? && s.rows[id].path == Some(x) ==>
              s.rows[id].mail == s.tmp[x]
  {
    var x := s.syncs[p].phase.path;
    var t := RenameStep(s, p);
    if id :| id in s.rows && s.rows[id].location.Local? && s.rows[id].path == Some(x) && s.rows[id].mail != s.tmp[x] {
      assert t.filed[x] == s.tmp[x];
    }
  }
}
