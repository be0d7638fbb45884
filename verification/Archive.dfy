/** The archive as one crash-prone transition system: Maildir tmp/ and new/, the SQLite
    tables, the S3 bucket, and the processes that work on them. `Act` performs one atomic
    step (one file operation, one S3 request or one Single-Writer transaction); a run is any
    list of steps, so every interleaving and every kill between two steps is a run. A step
    whose guard does not hold leaves the state unchanged. */
module Archive {
  import opened Options

  /** Raw bytes of a message, seen through the header parser: equal values are equal bytes,
      and Message-ID ("" when the header is missing) and Date are functions of the bytes. */
  datatype Mail = Mail(messageId: string, day: Option<nat>, text: string)

  predicate Blank(m: Mail) {
    m.messageId == ""
  }

  /** A Maildir file: its folder directory and the base name a `maildir.Writer` gives it. */
  datatype Path = Path(dir: nat, writer: nat, serial: nat, flags: string)

  /** An S3 object key; the content hash is ideal (injective), so the content stands for it. */
  datatype Key = Key(account: nat, day: nat, content: Mail)

  datatype Location = Local | S3Only

  /** A row of `emails`. `uploaded` is "s3_etag IS NOT NULL". */
  datatype Row = Row(account: nat, folder: nat, uid: nat, mail: Mail, created: nat,
                     location: Location, path: Option<Path>, key: Option<Key>, uploaded: bool,
                     since: Option<nat>)

  datatype Folder = Folder(validity: nat, lastUid: nat)

  datatype Status = Pending | Uploading | Failed

  datatype QueueRow = QueueRow(email: nat, key: Key, path: Path, status: Status, retries: nat)

  const MAX_ATTEMPTS := 5

  /** manualMoveUIDBase: the first UID the bulk folder move gives out; server UIDs stay below. */
  const MOVE_BASE := 4_000_000_000

  /** Where one `ArchiveOne` call stands. */
  datatype Phase =
    | Idle
    | Checked(mail: Mail, flags: string, uid: nat)
    | Staged(mail: Mail, uid: nat, path: Path)
    | Renamed(mail: Mail, uid: nat, path: Path)

  /** One running folder sync (or import) with its own Maildir writer. */
  datatype Sync = Sync(account: nat, folder: nat, dir: nat, writer: nat, serial: nat, phase: Phase)

  datatype Work = Claimed | Fetched(content: Mail) | Stored | Failing

  /** An upload worker holding a claimed queue row. */
  datatype Job = Job(email: nat, key: Key, path: Path, retries: nat, work: Work)

  /** What a retention pass still has to do for one listed email. */
  datatype Chore =
    | Evict(path: Option<Path>)
    | DeleteDirect(path: Option<Path>)
    | Unlinking(file: Path)
    | Expire(key: Option<Key>)
    | ExpireRow

  /** Durable state, volatile state (syncs, jobs, chores) and history (the last four fields). */
  datatype State = State(
    tmp: map<Path, Mail>,
    filed: map<Path, Mail>,
    rows: map<nat, Row>,
    nextRow: nat,
    folders: map<nat, Folder>,
    queue: map<nat, QueueRow>,
    nextQueue: nat,
    objects: map<Key, Mail>,
    syncs: map<nat, Sync>,
    jobs: map<nat, Job>,
    chores: map<(nat, nat), Chore>,
    writers: set<(nat, nat)>,
    mirrored: set<nat>,
    begun: set<nat>,
    claims: map<nat, nat>)

  const EMPTY := State(map[], map[], map[], 0, map[], map[], 0, map[], map[], map[], map[], {}, {}, {}, map[])

  /** Steps of one sync process, of one upload worker and of one retention pass. */
  datatype SyncOp =
    | Finish
    | Check(mail: Mail, flags: string, uid: nat)
    | StageTorn(junk: Mail)
    | Stage
    | Rename
    | Discard
    | Abandon
    | Persist(mirror: bool, today: nat, now: nat)
    | Skip(uid: nat)

  datatype UploadOp = Claim | Drop | Read | Put(reported: bool) | Fail | Done(reported: bool) | MarkFailed

  datatype RetainOp =
    | ListEvict
    | ListDirect
    | ListExpire
    | MarkEvicted(since: nat)
    | Delete
    | Unlink
    | DeleteObject
    | GiveUp

  datatype Action =
    | Upsert(folder: nat, validity: nat)
    | Begin(p: nat, account: nat, folder: nat, dir: nat, writer: nat)
    | Sweep
    | Crash
    | OfSync(p: nat, sop: SyncOp)
    | OfUpload(q: nat, uop: UploadOp)
    | OfRetention(pass: nat, id: nat, rop: RetainOp)

  // ---------------------------------------------------------------- single statements

  /** `UpsertFolder`: a changed UIDVALIDITY resets the watermark. */
  function Upserted(folders: map<nat, Folder>, f: nat, validity: nat): map<nat, Folder> {
    if f in folders && folders[f].validity == validity then folders
    else folders[f := Folder(validity, 0)]
  }

  /** `UpdateLastUID`: the guard "last_uid < ?" never lets the watermark regress. */
  function Advanced(folders: map<nat, Folder>, f: nat, uid: nat): map<nat, Folder> {
    if f in folders && folders[f].lastUid < uid then folders[f := folders[f].(lastUid := uid)]
    else folders
  }

  /** `ExistsByAccountMessageID`. A blank id is stored as a placeholder and matches nothing. */
  predicate HasMessage(rows: map<nat, Row>, account: nat, messageId: string) {
    exists id :: id in rows && rows[id].account == account && rows[id].mail.messageId == messageId
  }

  /** UNIQUE(account_id, folder_id, uid) would reject an insert. */
  predicate UidTaken(rows: map<nat, Row>, account: nat, folder: nat, uid: nat) {
    exists id :: id in rows && rows[id].account == account && rows[id].folder == folder && rows[id].uid == uid
  }

  predicate Duplicate(rows: map<nat, Row>, account: nat, mail: Mail) {
    !Blank(mail) && HasMessage(rows, account, mail.messageId)
  }

  function MailKey(account: nat, mail: Mail, today: nat): Key {
    Key(account, if mail.day.Some? then mail.day.value else today, mail)
  }

  /** DELETE FROM emails: ON DELETE CASCADE also takes the upload queue rows. */
  function Cascaded(queue: map<nat, QueueRow>, id: nat): map<nat, QueueRow> {
    map q | q in queue && queue[q].email != id :: queue[q]
  }

  // ---------------------------------------------------------------- steps of a sync

  function Started(s: State, p: nat, account: nat, f: nat, dir: nat, writer: nat): State {
    s.(syncs := s.syncs[p := Sync(account, f, dir, writer, 0, Idle)], writers := s.writers + {(dir, writer)})
  }

  /** The duplicate check, which reads outside any transaction. */
  function CheckStep(s: State, p: nat, mail: Mail, flags: string, uid: nat): State
    requires p in s.syncs && s.syncs[p].phase.Idle?
  {
    var y := s.syncs[p];
    var phase := if Duplicate(s.rows, y.account, mail) then Idle else Checked(mail, flags, uid);
    s.(syncs := s.syncs[p := y.(phase := phase)])
  }

  function NextName(y: Sync): Path
    requires y.phase.Checked?
  {
    Path(y.dir, y.writer, y.serial + 1, y.phase.flags)
  }

  /** `Stage`: O_CREATE|O_EXCL under the next name, then write and fsync. */
  function StageStep(s: State, p: nat): State
    requires p in s.syncs && s.syncs[p].phase.Checked?
  {
    var y := s.syncs[p];
    var x := NextName(y);
    s.(tmp := if x in s.tmp then s.tmp else s.tmp[x := y.phase.mail],
       syncs := s.syncs[p := y.(serial := y.serial + 1,
                                phase := if x in s.tmp then Idle else Staged(y.phase.mail, y.phase.uid, x))])
  }

  /** `Stage` fails after creating the file: arbitrary bytes stay behind in tmp/. */
  function TornStep(s: State, p: nat, junk: Mail): State
    requires p in s.syncs && s.syncs[p].phase.Checked?
  {
    var y := s.syncs[p];
    s.(tmp := s.tmp[NextName(y) := junk], syncs := s.syncs[p := y.(serial := y.serial + 1, phase := Idle)])
  }

  /** `Commit`: rename tmp/ -> new/, without looking at the target; it fails when a sweep took the file. */
  function RenameStep(s: State, p: nat): State
    requires p in s.syncs && s.syncs[p].phase.Staged?
  {
    var y := s.syncs[p];
    var x := y.phase.path;
    s.(filed := if x in s.tmp then s.filed[x := s.tmp[x]] else s.filed, tmp := s.tmp - {x},
       syncs := s.syncs[p := y.(phase := if x in s.tmp then Renamed(y.phase.mail, y.phase.uid, x) else Idle)])
  }

  function DiscardStep(s: State, p: nat): State
    requires p in s.syncs && s.syncs[p].phase.Staged?
  {
    var y := s.syncs[p];
    s.(tmp := s.tmp - {y.phase.path}, syncs := s.syncs[p := y.(phase := Idle)])
  }

  function AbandonStep(s: State, p: nat): State
    requires p in s.syncs
  {
    s.(syncs := s.syncs[p := s.syncs[p].(phase := Idle)])
  }

  /** The Single-Writer transaction of `ArchiveOne`: row, queue row and watermark, or nothing
      at all when UNIQUE(account_id, folder_id, uid) rejects the insert. */
  function PersistStep(s: State, p: nat, mirror: bool, today: nat, now: nat): State
    requires p in s.syncs && s.syncs[p].phase.Renamed?
  {
    var y := s.syncs[p];
    var ok := !UidTaken(s.rows, y.account, y.folder, y.phase.uid);
    var item := NewQueueRow(y, s.nextRow, today);
    s.(rows := if ok then s.rows[s.nextRow := NewRow(y, now)] else s.rows,
       nextRow := if ok then s.nextRow + 1 else s.nextRow,
       folders := if ok then Advanced(s.folders, y.folder, y.phase.uid) else s.folders,
       queue := if ok && mirror then s.queue[s.nextQueue := item] else s.queue,
       nextQueue := if ok && mirror then s.nextQueue + 1 else s.nextQueue,
       claims := if ok && mirror then s.claims[s.nextQueue := 0] else s.claims,
       mirrored := if ok && mirror then s.mirrored + {s.nextRow} else s.mirrored,
       syncs := s.syncs[p := y.(phase := Idle)])
  }

  /** The row and the queue row of that transaction. */
  function NewRow(y: Sync, now: nat): Row
    requires y.phase.Renamed?
  {
    Row(y.account, y.folder, y.phase.uid, y.phase.mail, now, Local, Some(y.phase.path), None, false, None)
  }

  function NewQueueRow(y: Sync, id: nat, today: nat): QueueRow
    requires y.phase.Renamed?
  {
    QueueRow(id, MailKey(y.account, y.phase.mail, today), y.phase.path, Pending, 0)
  }

  // ---------------------------------------------------------------- steps of the uploader

  /** `ClaimBatch` takes a pending row; the worker gets a copy of it. */
  function ClaimStep(s: State, q: nat): State
    requires q in s.queue
  {
    var w := s.queue[q];
    s.(queue := s.queue[q := w.(status := Uploading)],
       claims := s.claims[q := (if q in s.claims then s.claims[q] else 0) + 1],
       jobs := s.jobs[q := Job(w.email, w.key, w.path, w.retries, Claimed)])
  }

  function WithWork(s: State, q: nat, work: Work): State
    requires q in s.jobs
  {
    s.(jobs := s.jobs[q := s.jobs[q].(work := work)])
  }

  /** `PutObject`; a request may take effect although it reports an error. */
  function PutStep(s: State, q: nat, reported: bool): State
    requires q in s.jobs && s.jobs[q].work.Fetched?
  {
    var j := s.jobs[q];
    s.(objects := s.objects[j.key := j.work.content],
       jobs := s.jobs[q := j.(work := if reported then Stored else Failing)])
  }

  /** `MarkDone`: record the etag and delete the queue row in one transaction. When the
      transaction committed but `Do` returned an error, the worker goes on to `MarkFailed`. */
  function DoneStep(s: State, q: nat, reported: bool): State
    requires q in s.jobs && s.jobs[q].work.Stored?
  {
    var j := s.jobs[q];
    s.(rows := if j.email in s.rows then s.rows[j.email := s.rows[j.email].(key := Some(j.key), uploaded := true)]
      else s.rows,
       queue := s.queue - {q},
       jobs := if reported then s.jobs - {q} else s.jobs[q := j.(work := Failing)])
  }

  function FailedStep(s: State, q: nat): State
    requires q in s.jobs && s.jobs[q].work.Failing?
  {
    var tries := s.jobs[q].retries + 1;
    var status := if tries >= MAX_ATTEMPTS then Failed else Pending;
    s.(queue := if q in s.queue then s.queue[q := s.queue[q].(retries := tries, status := status)] else s.queue,
       jobs := s.jobs - {q})
  }

  // ---------------------------------------------------------------- steps of a retention pass

  function Listed(s: State, k: (nat, nat), c: Chore): State {
    s.(chores := s.chores[k := c])
  }

  function Onward(chores: map<(nat, nat), Chore>, k: (nat, nat), path: Option<Path>): map<(nat, nat), Chore> {
    if path.Some? then chores[k := Unlinking(path.value)] else chores - {k}
  }

  /** `MarkMovedToS3Only`, by id alone. */
  function EvictStep(s: State, k: (nat, nat), since: nat): State
    requires k in s.chores && s.chores[k].Evict?
  {
    s.(rows := if k.1 in s.rows
               then s.rows[k.1 := s.rows[k.1].(location := S3Only, path := None, since := Some(since))] else s.rows,
       chores := Onward(s.chores, k, s.chores[k].path))
  }

  /** `DeleteCompletely` on the direct path (no mirror) or at the end of Stage C. */
  function DeleteStep(s: State, k: (nat, nat)): State
    requires k in s.chores && (s.chores[k].DeleteDirect? || s.chores[k].ExpireRow?)
  {
    s.(rows := s.rows - {k.1}, queue := Cascaded(s.queue, k.1),
       chores := Onward(s.chores, k, if s.chores[k].DeleteDirect? then s.chores[k].path else None))
  }

  function UnlinkStep(s: State, k: (nat, nat)): State
    requires k in s.chores && s.chores[k].Unlinking?
  {
    s.(filed := s.filed - {s.chores[k].file}, chores := s.chores - {k})
  }

  /** Stage C begins: the S3 object goes first. */
  function ExpireStep(s: State, k: (nat, nat)): State
    requires k in s.chores && s.chores[k].Expire?
  {
    var key := s.chores[k].key;
    s.(objects := if key.Some? then s.objects - {key.value} else s.objects,
       begun := s.begun + {k.1}, chores := s.chores[k := ExpireRow])
  }

  // ---------------------------------------------------------------- all steps

  predicate SyncEnabled(s: State, p: nat, op: SyncOp) {
    p in s.syncs &&
    match op
    case Finish => true
    case Check(_, _, _) => s.syncs[p].phase.Idle?
    case StageTorn(_) => s.syncs[p].phase.Checked?
    case Stage => s.syncs[p].phase.Checked?
    case Rename => s.syncs[p].phase.Staged?
    case Discard => s.syncs[p].phase.Staged?
    case Abandon => true
    case Persist(_, _, _) => s.syncs[p].phase.Renamed?
    case Skip(_) => s.syncs[p].phase.Idle?
  }

  function SyncEffect(s: State, p: nat, op: SyncOp): State
    requires SyncEnabled(s, p, op)
  {
    match op
    case Finish => s.(syncs := s.syncs - {p})
    case Check(mail, flags, uid) => CheckStep(s, p, mail, flags, uid)
    case StageTorn(junk) => TornStep(s, p, junk)
    case Stage => StageStep(s, p)
    case Rename => RenameStep(s, p)
    case Discard => DiscardStep(s, p)
    case Abandon => AbandonStep(s, p)
    case Persist(mirror, today, now) => PersistStep(s, p, mirror, today, now)
    case Skip(uid) => s.(folders := Advanced(s.folders, s.syncs[p].folder, uid))
  }

  predicate UploadEnabled(s: State, q: nat, op: UploadOp) {
    match op
    case Claim => q in s.queue && s.queue[q].status.Pending?
    case Drop => q in s.jobs
    case Read => q in s.jobs && s.jobs[q].work.Claimed?
    case Put(_) => q in s.jobs && s.jobs[q].work.Fetched?
    case Fail => q in s.jobs
    case Done(_) => q in s.jobs && s.jobs[q].work.Stored?
    case MarkFailed => q in s.jobs && s.jobs[q].work.Failing?
  }

  function UploadEffect(s: State, q: nat, op: UploadOp): State
    requires UploadEnabled(s, q, op)
  {
    match op
    case Claim => ClaimStep(s, q)
    case Drop => s.(jobs := s.jobs - {q})
    case Read => WithWork(s, q, if s.jobs[q].path in s.filed then Fetched(s.filed[s.jobs[q].path]) else Failing)
    case Put(reported) => PutStep(s, q, reported)
    case Fail => WithWork(s, q, Failing)
    case Done(reported) => DoneStep(s, q, reported)
    case MarkFailed => FailedStep(s, q)
  }

  /** The three listings and the steps that a listed email goes through. */
  predicate RetainEnabled(s: State, k: (nat, nat), op: RetainOp) {
    match op
    case ListEvict => k !in s.chores && k.1 in s.rows && s.rows[k.1].location.Local? && s.rows[k.1].uploaded
    case ListDirect => k !in s.chores && k.1 in s.rows && s.rows[k.1].location.Local?
    case ListExpire => k !in s.chores && k.1 in s.rows && s.rows[k.1].location.S3Only? && s.rows[k.1].since.Some?
    case MarkEvicted(_) => k in s.chores && s.chores[k].Evict?
    case Delete => k in s.chores && (s.chores[k].DeleteDirect? || s.chores[k].ExpireRow?)
    case Unlink => k in s.chores && s.chores[k].Unlinking?
    case DeleteObject => k in s.chores && s.chores[k].Expire?
    case GiveUp => k in s.chores
  }

  function RetainEffect(s: State, k: (nat, nat), op: RetainOp): State
    requires RetainEnabled(s, k, op)
  {
    match op
    case ListEvict => Listed(s, k, Evict(s.rows[k.1].path))
    case ListDirect => Listed(s, k, DeleteDirect(s.rows[k.1].path))
    case ListExpire => Listed(s, k, Expire(s.rows[k.1].key))
    case MarkEvicted(since) => EvictStep(s, k, since)
    case Delete => DeleteStep(s, k)
    case Unlink => UnlinkStep(s, k)
    case DeleteObject => ExpireStep(s, k)
    case GiveUp => s.(chores := s.chores - {k})
  }

  /** One atomic step; a step that is not possible changes nothing. */
  function Act(s: State, a: Action): State {
    match a
    case Upsert(f, validity) => s.(folders := Upserted(s.folders, f, validity))
    case Begin(p, account, f, dir, writer) =>
      if p in s.syncs || f !in s.folders then s else Started(s, p, account, f, dir, writer)
    case Sweep => s.(tmp := map[])
    case Crash => s.(syncs := map[], jobs := map[], chores := map[])
    case OfSync(p, op) => if SyncEnabled(s, p, op) then SyncEffect(s, p, op) else s
    case OfUpload(q, op) => if UploadEnabled(s, q, op) then UploadEffect(s, q, op) else s
    case OfRetention(pass, id, op) => if RetainEnabled(s, (pass, id), op) then RetainEffect(s, (pass, id), op) else s
  }

  function Run(s: State, acts: seq<Action>): State
    decreases |acts|
  {
    if acts == [] then s else Run(Act(s, acts[0]), acts[1..])
  }

  lemma {:induction false} RunConcat(s: State, a: seq<Action>, b: seq<Action>)
    ensures Run(s, a + b) == Run(Run(s, a), b)
    decreases |a|
  {
    if a == [] {
      assert a + b == b;
    } else {
      assert (a + b)[0] == a[0] && (a + b)[1..] == a[1..] + b;
      RunConcat(Act(s, a[0]), a[1..], b);
    }
  }

  /** Appending one step to a run. */
  lemma Then(s: State, acts: seq<Action>, a: Action) returns (longer: seq<Action>)
    ensures longer == acts + [a] && Run(s, longer) == Act(Run(s, acts), a)
  {
    longer := acts + [a];
    RunConcat(s, acts, [a]);
    assert Run(Run(s, acts), [a]) == Run(Act(Run(s, acts), a), []);
  }

  /** An uploaded email with a Message-ID whose Stage C has not begun. */
  predicate OwnsObject(s: State, id: nat) {
    id in s.rows && id !in s.begun && s.rows[id].uploaded && !Blank(s.rows[id].mail)
  }

  /** A worker that has stored the object of such an email, but not yet recorded the etag. */
  predicate JustStored(s: State, q: nat) {
    && q in s.jobs && s.jobs[q].work.Stored?
    && s.jobs[q].email in s.rows && s.jobs[q].email !in s.begun && !Blank(s.rows[s.jobs[q].email].mail)
  }

  /** The S3 object of an email about to expire is nobody else's: no other uploaded email with
      a Message-ID has that key, and no worker has just stored one under it. */
  predicate KeyFree(s: State, k: (nat, nat))
    requires k in s.chores && s.chores[k].Expire?
  {
    var key := s.chores[k].key;
    && (forall id :: id in s.rows && id != k.1 && OwnsObject(s, id) ==> key.None? || s.rows[id].key != key)
    && (forall q :: q in s.jobs && JustStored(s, q) && s.jobs[q].email != k.1 ==> Some(s.jobs[q].key) != key)
  }

  /** Assumptions about the schedule that the program relies on but does not enforce. The last
      one is what the mirror needs of retention; one pass at a time is a way to have it. */
  datatype Discipline = Discipline(freshWriters: bool, oneSyncPerAccount: bool, oneRetentionPass: bool,
      noStaleExpire: bool)

  /** One writer per name, one sync per account, one retention pass. */
  const ALL := Discipline(true, true, true, false)

  predicate Permitted(d: Discipline, s: State, a: Action) {
    && (d.freshWriters && a.Begin? ==> (a.dir, a.writer) !in s.writers)
    && (d.oneSyncPerAccount && a.Begin? ==> forall p :: p in s.syncs ==> s.syncs[p].account != a.account)
    && (d.oneRetentionPass && a.OfRetention? && IsListing(a.rop) ==> forall k :: k in s.chores ==> k.0 == a.pass)
    && (d.noStaleExpire && a.OfRetention? && a.rop.DeleteObject? && RetainEnabled(s, (a.pass, a.id), a.rop) ==>
          KeyFree(s, (a.pass, a.id)))
  }

  predicate IsListing(op: RetainOp) {
    op.ListEvict? || op.ListDirect? || op.ListExpire?
  }

  /** Every step of the run from `s` keeps to the discipline. */
  predicate Along(d: Discipline, s: State, acts: seq<Action>)
    decreases |acts|
  {
    acts == [] || (Permitted(d, s, acts[0]) && Along(d, Act(s, acts[0]), acts[1..]))
  }

  lemma {:induction false} AlongConcat(d: Discipline, s: State, a: seq<Action>, b: seq<Action>)
    requires Along(d, s, a) && Along(d, Run(s, a), b)
    ensures Along(d, s, a + b)
    decreases |a|
  {
    if a == [] {
      assert a + b == b;
    } else {
      assert (a + b)[0] == a[0] && (a + b)[1..] == a[1..] + b;
      AlongConcat(d, Act(s, a[0]), a[1..], b);
    }
  }

  /** A discipline that asks for less. */
  predicate Weaker(d: Discipline, e: Discipline) {
    && (e.freshWriters ==> d.freshWriters) && (e.oneSyncPerAccount ==> d.oneSyncPerAccount)
    && (e.oneRetentionPass ==> d.oneRetentionPass) && (e.noStaleExpire ==> d.noStaleExpire)
  }

  lemma {:induction false} AlongWeakens(d: Discipline, e: Discipline, s: State, acts: seq<Action>)
    requires Along(d, s, acts) && Weaker(d, e)
    ensures Along(e, s, acts)
    decreases |acts|
  {
    hide Act;
    if acts != [] {
      AlongWeakens(d, e, Act(s, acts[0]), acts[1..]);
    }
  }

  lemma {:induction false} AlongPrefix(d: Discipline, s: State, a: seq<Action>, b: seq<Action>)
    requires Along(d, s, a + b)
    ensures Along(d, s, a)
    decreases |a|
  {
    hide Act, Permitted;
    if a != [] {
      assert (a + b)[0] == a[0] && (a + b)[1..] == a[1..] + b;
      AlongPrefix(d, Act(s, a[0]), a[1..], b);
    }
  }

  /** One more permitted step. */
  lemma AlongThen(d: Discipline, s: State, acts: seq<Action>, a: Action)
    requires Along(d, s, acts) && Permitted(d, Run(s, acts), a)
    ensures Along(d, s, acts + [a])
  {
    hide Act, Permitted, Run;
    assert [a][1..] == [];
    assert Along(d, Act(Run(s, acts), a), []);
    AlongConcat(d, s, acts, [a]);
  }

  // ---------------------------------------------------------------- what becomes of a row

  predicate SameMessage(r: Row, was: Row) {
    r.account == was.account && r.folder == was.folder && r.uid == was.uid && r.mail == was.mail
  }

  /** UNIQUE(account_id, folder_id, uid) */
  ghost predicate UidsUnique(rows: map<nat, Row>) {
    forall i, j :: i in rows && j in rows && i != j ==>
      rows[i].account != rows[j].account || rows[i].folder != rows[j].folder || rows[i].uid != rows[j].uid
  }
}
