/** The mirror: an email whose etag is recorded keeps its S3 object until Stage C begins for
    that very email, so evicting the local copy never removes the last copy of a message with
    a Message-ID. What this needs of the schedule is that no retention pass deletes an object
    that has meanwhile become another email's; one sync per account and one pass at a time
    guarantee that. */
module ArchiveMirror {
  import opened Options
  import opened Archive
  import ArchiveMail
  import ArchiveQueue

  /** The weakest discipline under which every step keeps the mirror. */
  const NO_STALE_EXPIRE := Discipline(false, false, false, true)

  const SERIAL := Discipline(false, true, true, false)

  /** The key names this row's content and account. */
  predicate KeyOf(key: Key, row: Row) {
    key.content == row.mail && key.account == row.account
  }

  /** Column facts: what an etag, a location and a queue row say about the key. */
  ghost predicate KeysMatch(rows: map<nat, Row>, queue: map<nat, QueueRow>, jobs: map<nat, Job>) {
    && (forall id :: id in rows && rows[id].uploaded ==> rows[id].key.Some? && KeyOf(rows[id].key.value, rows[id]))
    && (forall id :: id in rows && rows[id].location.S3Only? ==> rows[id].uploaded)
    && (forall q :: q in queue && queue[q].email in rows ==> KeyOf(queue[q].key, rows[queue[q].email]))
    && (forall q :: q in jobs && jobs[q].email in rows ==> KeyOf(jobs[q].key, rows[jobs[q].email]))
  }

  /** An uploaded email with a Message-ID has its object, unless Stage C began for it. */
  ghost predicate ObjectsKept(rows: map<nat, Row>, objects: map<Key, Mail>, begun: set<nat>) {
    forall id :: id in rows && rows[id].uploaded && !Blank(rows[id].mail) && id !in begun ==>
      rows[id].key.Some? && rows[id].key.value in objects
  }

  ghost predicate StoredKept(jobs: map<nat, Job>, rows: map<nat, Row>, objects: map<Key, Mail>, begun: set<nat>) {
    forall q :: q in jobs && jobs[q].work.Stored? && jobs[q].email in rows && jobs[q].email !in begun &&
                !Blank(rows[jobs[q].email].mail) ==>
      jobs[q].key in objects
  }

  /** A pass knows only ids given out, and evicts uploaded rows. */
  ghost predicate ChoresAgree(chores: map<(nat, nat), Chore>, rows: map<nat, Row>, nextRow: nat) {
    forall k :: k in chores ==> k.1 < nextRow && (chores[k].Evict? && k.1 in rows ==> rows[k.1].uploaded)
  }

  ghost predicate MirrorInv(s: State) {
    && KeysMatch(s.rows, s.queue, s.jobs)
    && ObjectsKept(s.rows, s.objects, s.begun)
    && StoredKept(s.jobs, s.rows, s.objects, s.begun)
    && ChoresAgree(s.chores, s.rows, s.nextRow)
  }

  // ---------------------------------------------------------------- syncs

  /** The new row is not uploaded, and no worker or pass knows its id yet. */
  lemma PersistKeys(s: State, p: nat, mirror: bool, today: nat, now: nat)
    requires ArchiveQueue.Counters(s) && ArchiveQueue.QueueRefers(s.rows, s.queue, s.mirrored)
    requires MirrorInv(s) && p in s.syncs && s.syncs[p].phase.Renamed?
    ensures var t := PersistStep(s, p, mirror, today, now); KeysMatch(t.rows, t.queue, t.jobs)
  {
    hide ObjectsKept, StoredKept, ChoresAgree, UidTaken, Advanced;
  }

  lemma PersistKeeps(s: State, p: nat, mirror: bool, today: nat, now: nat)
    requires ArchiveQueue.Counters(s) && ArchiveQueue.QueueRefers(s.rows, s.queue, s.mirrored)
    requires MirrorInv(s) && p in s.syncs && s.syncs[p].phase.Renamed?
    ensures MirrorInv(PersistStep(s, p, mirror, today, now))
  {
    hide KeysMatch, ArchiveQueue.QueueRefers, UidTaken, Advanced, NewQueueRow;
    PersistKeys(s, p, mirror, today, now);
  }

  lemma SyncKeeps(s: State, p: nat, op: SyncOp)
    requires ArchiveQueue.QueueInv(s) && MirrorInv(s) && SyncEnabled(s, p, op)
    ensures MirrorInv(SyncEffect(s, p, op))
  {
    hide PersistStep;
    if op.Persist? {
      PersistKeeps(s, p, op.mirror, op.today, op.now);
    }
  }

  // ---------------------------------------------------------------- uploads

  lemma DoneKeys(s: State, q: nat, reported: bool)
    requires MirrorInv(s) && UploadEnabled(s, q, Done(reported))
    ensures var t := DoneStep(s, q, reported); KeysMatch(t.rows, t.queue, t.jobs)
  {
    hide ObjectsKept, StoredKept, ChoresAgree;
  }

  lemma DoneKeeps(s: State, q: nat, reported: bool)
    requires MirrorInv(s) && UploadEnabled(s, q, Done(reported))
    ensures MirrorInv(DoneStep(s, q, reported))
  {
    hide KeyOf;
    DoneKeys(s, q, reported);
  }

  lemma ClaimKeeps(s: State, q: nat)
    requires MirrorInv(s) && UploadEnabled(s, q, Claim)
    ensures MirrorInv(ClaimStep(s, q))
  {
    hide KeyOf;
  }

  lemma PutKeeps(s: State, q: nat, reported: bool)
    requires MirrorInv(s) && UploadEnabled(s, q, Put(reported))
    ensures MirrorInv(PutStep(s, q, reported))
  {
    hide KeyOf;
  }

  lemma FailedKeeps(s: State, q: nat)
    requires MirrorInv(s) && UploadEnabled(s, q, MarkFailed)
    ensures MirrorInv(FailedStep(s, q))
  {
    hide KeyOf;
  }

  lemma WorkKeeps(s: State, q: nat, op: UploadOp)
    requires MirrorInv(s) && UploadEnabled(s, q, op) && (op.Drop? || op.Read? || op.Fail?)
    ensures MirrorInv(UploadEffect(s, q, op))
  {
    hide KeyOf;
  }

  lemma UploadKeeps(s: State, q: nat, op: UploadOp)
    requires MirrorInv(s) && UploadEnabled(s, q, op)
    ensures MirrorInv(UploadEffect(s, q, op))
  {
    hide MirrorInv, DoneStep, PutStep, ClaimStep, FailedStep;
    match op
    case Claim => ClaimKeeps(s, q);
    case Put(reported) => PutKeeps(s, q, reported);
    case Done(reported) => DoneKeeps(s, q, reported);
    case MarkFailed => FailedKeeps(s, q);
    case _ => WorkKeeps(s, q, op);
  }

  // ---------------------------------------------------------------- retention

  /** Stage C's first step keeps the mirror exactly when the object is nobody else's. */
  lemma ExpireKeepsIff(s: State, k: (nat, nat))
    requires MirrorInv(s) && RetainEnabled(s, k, DeleteObject)
    ensures MirrorInv(ExpireStep(s, k)) <==> KeyFree(s, k)
  {
    hide KeyOf;
    var t := ExpireStep(s, k);
    if MirrorInv(t) {
      ExpireNeedsFreeKey(s, k);
    }
  }

  lemma ExpireNeedsFreeKey(s: State, k: (nat, nat))
    requires MirrorInv(s) && RetainEnabled(s, k, DeleteObject) && MirrorInv(ExpireStep(s, k))
    ensures KeyFree(s, k)
  {
    hide KeyOf, ChoresAgree;
    var t, key := ExpireStep(s, k), s.chores[k].key;
    forall id | id in s.rows && id != k.1 && OwnsObject(s, id) ensures key.None? || s.rows[id].key != key {
      assert t.rows[id] == s.rows[id] && id !in t.begun;
    }
    forall q | q in s.jobs && JustStored(s, q) && s.jobs[q].email != k.1 ensures Some(s.jobs[q].key) != key {
      assert t.jobs[q] == s.jobs[q] && s.jobs[q].email !in t.begun;
    }
  }

  /** When it is not, an uploaded email has lost its object, at once or as soon as the worker
      that stored it has recorded the etag. */
  lemma StaleExpireLoses(s: State, k: (nat, nat))
    requires MirrorInv(s) && RetainEnabled(s, k, DeleteObject) && !KeyFree(s, k)
    ensures var t := ExpireStep(s, k);
            || !ObjectsKept(t.rows, t.objects, t.begun)
            || exists q :: UploadEnabled(t, q, Done(true)) &&
                 !ObjectsKept(DoneStep(t, q, true).rows, DoneStep(t, q, true).objects, DoneStep(t, q, true).begun)
  {
    hide KeyOf, ChoresAgree;
    var t, key := ExpireStep(s, k), s.chores[k].key;
    if id :| id in s.rows && id != k.1 && OwnsObject(s, id) && key.Some? && s.rows[id].key == key {
      assert t.rows[id] == s.rows[id] && id !in t.begun && key.value !in t.objects;
    } else {
      var q :| q in s.jobs && JustStored(s, q) && s.jobs[q].email != k.1 && Some(s.jobs[q].key) == key;
      StaleDoneLoses(t, q);
    }
  }

  lemma StaleDoneLoses(t: State, q: nat)
    requires JustStored(t, q) && t.jobs[q].key !in t.objects
    ensures UploadEnabled(t, q, Done(true))
    ensures !ObjectsKept(DoneStep(t, q, true).rows, DoneStep(t, q, true).objects, DoneStep(t, q, true).begun)
  {
    var u := DoneStep(t, q, true);
    assert u.rows[t.jobs[q].email].uploaded;
  }

  lemma EvictKeeps(s: State, k: (nat, nat), since: nat)
    requires MirrorInv(s) && RetainEnabled(s, k, MarkEvicted(since))
    ensures MirrorInv(EvictStep(s, k, since))
  {
  }

  lemma DeleteKeeps(s: State, k: (nat, nat))
    requires MirrorInv(s) && RetainEnabled(s, k, Delete)
    ensures MirrorInv(DeleteStep(s, k))
  {
    hide KeyOf;
  }

  lemma ListingKeeps(s: State, k: (nat, nat), op: RetainOp)
    requires MirrorInv(s) && ArchiveQueue.Counters(s) && RetainEnabled(s, k, op) && IsListing(op)
    ensures MirrorInv(RetainEffect(s, k, op))
  {
    hide KeyOf;
  }

  lemma LeaveKeeps(s: State, k: (nat, nat), op: RetainOp)
    requires MirrorInv(s) && RetainEnabled(s, k, op) && (op.Unlink? || op.GiveUp?)
    ensures MirrorInv(RetainEffect(s, k, op))
  {
    hide KeyOf;
  }

  lemma RetainKeeps(s: State, k: (nat, nat), op: RetainOp)
    requires ArchiveQueue.QueueInv(s) && MirrorInv(s) && RetainEnabled(s, k, op) && (op.DeleteObject? ==> KeyFree(s, k))
    ensures MirrorInv(RetainEffect(s, k, op))
  {
    hide MirrorInv, KeyFree, EvictStep, DeleteStep, ExpireStep, UnlinkStep;
    match op
    case MarkEvicted(since) => EvictKeeps(s, k, since);
    case Delete => DeleteKeeps(s, k);
    case DeleteObject => ExpireKeepsIff(s, k);
    case Unlink => LeaveKeeps(s, k, op);
    case GiveUp => LeaveKeeps(s, k, op);
    case _ => ListingKeeps(s, k, op);
  }

  // ---------------------------------------------------------------- every run

  lemma ProcessKeeps(s: State, a: Action)
    requires MirrorInv(s) && !a.OfSync? && !a.OfUpload? && !a.OfRetention?
    ensures MirrorInv(Act(s, a))
  {
    hide KeyOf;
  }

  lemma StepKeepsMirror(s: State, a: Action)
    requires ArchiveQueue.QueueInv(s) && MirrorInv(s) && Permitted(NO_STALE_EXPIRE, s, a)
    ensures ArchiveQueue.QueueInv(Act(s, a)) && MirrorInv(Act(s, a))
  {
    hide MirrorInv, ArchiveQueue.QueueInv, KeyFree;
    ArchiveQueue.StepKeepsQueue(s, a);
    match a
    case OfSync(p, op) => if SyncEnabled(s, p, op) { SyncKeeps(s, p, op); }
    case OfUpload(q, op) => if UploadEnabled(s, q, op) { UploadKeeps(s, q, op); }
    case OfRetention(pass, id, op) => if RetainEnabled(s, (pass, id), op) { RetainKeeps(s, (pass, id), op); }
    case _ => ProcessKeeps(s, a);
  }

  /** A row marked s3 with a Message-ID has its etag and its object unless Stage C began. */
  ghost predicate S3RowsSafe(s: State) {
    forall id :: id in s.rows && s.rows[id].location.S3Only? && !Blank(s.rows[id].mail) ==>
      s.rows[id].uploaded && (id in s.begun || (s.rows[id].key.Some? && s.rows[id].key.value in s.objects))
  }

  lemma {:induction false} MirrorSurvives(s: State, acts: seq<Action>)
    requires ArchiveQueue.QueueInv(s) && MirrorInv(s) && Along(NO_STALE_EXPIRE, s, acts)
    ensures ArchiveQueue.QueueInv(Run(s, acts)) && MirrorInv(Run(s, acts)) && S3RowsSafe(Run(s, acts))
    decreases |acts|
  {
    hide Act, Permitted, ArchiveQueue.QueueInv;
    if acts != [] {
      StepKeepsMirror(s, acts[0]);
      MirrorSurvives(Act(s, acts[0]), acts[1..]);
    }
  }

  // ---------------------------------------------------------------- one pass at a time

  /** What the mirror argument borrows from the message and queue invariants. */
  ghost predicate Base(s: State) {
    ArchiveMail.MailInv(s) && ArchiveQueue.QueueInv(s)
  }

  /** With a single pass, the rows it expires stay where it found them. */
  ghost predicate PassInv(chores: map<(nat, nat), Chore>, rows: map<nat, Row>) {
    && (forall k, l :: k in chores && l in chores ==> k.0 == l.0)
    && (forall k :: k in chores && (chores[k].Expire? || chores[k].ExpireRow?) ==>
         k.1 in rows && rows[k.1].location.S3Only?)
    && (forall k :: k in chores && chores[k].Expire? ==> chores[k].key == rows[k.1].key)
  }

  /** A job about to be marked done works for an email that is not uploaded yet. */
  lemma StoredNotUploaded(s: State, q: nat)
    requires ArchiveQueue.QueueInv(s) && q in s.jobs && s.jobs[q].work.Stored? && s.jobs[q].email in s.rows
    ensures !s.rows[s.jobs[q].email].uploaded
  {
    assert q in s.queue;
    assert ArchiveQueue.Queued(s.queue, s.jobs[q].email);
  }

  /** So the key it expires is nobody else's. */
  lemma PassKeyFree(s: State, k: (nat, nat))
    requires Base(s) && MirrorInv(s) && PassInv(s.chores, s.rows) && RetainEnabled(s, k, DeleteObject)
    ensures KeyFree(s, k)
  {
    hide ArchiveQueue.QueueInv, ObjectsKept, StoredKept, ChoresAgree;
    var key := s.chores[k].key;
    forall q | q in s.jobs && JustStored(s, q) && s.jobs[q].email != k.1 ensures Some(s.jobs[q].key) != key {
      assert KeyOf(s.jobs[q].key, s.rows[s.jobs[q].email]);
    }
  }

  lemma PassSyncKeeps(s: State, p: nat, op: SyncOp)
    requires Base(s) && MirrorInv(s) && PassInv(s.chores, s.rows) && SyncEnabled(s, p, op)
    ensures PassInv(SyncEffect(s, p, op).chores, SyncEffect(s, p, op).rows)
  {
    hide KeysMatch, ObjectsKept, StoredKept, ArchiveMail.MailInv, ArchiveQueue.QueueOrEtag, ArchiveQueue.QueueRefers,
      ArchiveQueue.ClaimsBounded, ArchiveQueue.JobsAgree;
  }

  lemma PassUploadKeeps(s: State, q: nat, op: UploadOp)
    requires Base(s) && PassInv(s.chores, s.rows) && MirrorInv(s) && UploadEnabled(s, q, op)
    ensures PassInv(UploadEffect(s, q, op).chores, UploadEffect(s, q, op).rows)
  {
    hide PassInv, MirrorInv, ArchiveMail.MailInv, ArchiveQueue.QueueInv, DoneStep, ClaimStep, PutStep, FailedStep;
    UploadLeaves(s, q, op);
    if op.Done? && s.jobs[q].email in s.rows {
      PassDoneKeeps(s, q, op.reported);
    }
  }

  /** Uploads touch no chore, and no row except when they record an etag. */
  lemma UploadLeaves(s: State, q: nat, op: UploadOp)
    requires UploadEnabled(s, q, op)
    ensures var t := UploadEffect(s, q, op);
            t.chores == s.chores && ((op.Done? && s.jobs[q].email in s.rows) || t.rows == s.rows)
  {
  }

  /** A row under Stage C is uploaded already, so its key is not the one being recorded. */
  lemma PassDoneKeeps(s: State, q: nat, reported: bool)
    requires Base(s) && PassInv(s.chores, s.rows) && MirrorInv(s)
    requires q in s.jobs && s.jobs[q].work.Stored? && s.jobs[q].email in s.rows
    ensures var t := DoneStep(s, q, reported); PassInv(t.chores, t.rows)
  {
    hide ArchiveMail.MailInv, ArchiveQueue.QueueInv, ObjectsKept, StoredKept, ChoresAgree, KeyOf;
    StoredNotUploaded(s, q);
  }

  lemma PassRetainKeeps(s: State, k: (nat, nat), op: RetainOp)
    requires PassInv(s.chores, s.rows) && RetainEnabled(s, k, op) && Permitted(SERIAL, s, OfRetention(k.0, k.1, op))
    ensures PassInv(RetainEffect(s, k, op).chores, RetainEffect(s, k, op).rows)
  {
  }

  lemma PassStep(s: State, a: Action)
    requires Base(s) && MirrorInv(s) && PassInv(s.chores, s.rows) && Permitted(SERIAL, s, a)
    ensures Permitted(NO_STALE_EXPIRE, s, a) && PassInv(Act(s, a).chores, Act(s, a).rows)
  {
    hide PassInv, MirrorInv, Base, KeyFree, SyncEffect, UploadEffect, RetainEffect;
    match a
    case OfSync(p, op) => if SyncEnabled(s, p, op) { PassSyncKeeps(s, p, op); }
    case OfUpload(q, op) => if UploadEnabled(s, q, op) { PassUploadKeeps(s, q, op); }
    case OfRetention(pass, id, op) =>
      if RetainEnabled(s, (pass, id), op) {
        PassRetainKeeps(s, (pass, id), op);
        if op.DeleteObject? { PassKeyFree(s, (pass, id)); }
      }
    case _ => PassProcessKeeps(s, a);
  }

  lemma PassProcessKeeps(s: State, a: Action)
    requires PassInv(s.chores, s.rows) && !a.OfSync? && !a.OfUpload? && !a.OfRetention?
    ensures PassInv(Act(s, a).chores, Act(s, a).rows)
  {
  }

  /** One sync per account and one pass at a time: no pass ever deletes a stale key. */
  lemma {:induction false} SerialHasNoStaleExpire(s: State, acts: seq<Action>)
    requires Base(s) && MirrorInv(s) && PassInv(s.chores, s.rows) && Along(SERIAL, s, acts)
    ensures Along(NO_STALE_EXPIRE, s, acts)
    decreases |acts|
  {
    hide Act, Permitted, MirrorInv, PassInv, ArchiveMail.MailInv, ArchiveQueue.QueueInv;
    if acts != [] {
      PassStep(s, acts[0]);
      StepKeepsMirror(s, acts[0]);
      SerialStep(s, acts[0]);
      SerialHasNoStaleExpire(Act(s, acts[0]), acts[1..]);
    }
  }

  lemma SerialStep(s: State, a: Action)
    requires ArchiveMail.MailInv(s) && Permitted(SERIAL, s, a)
    ensures ArchiveMail.MailInv(Act(s, a))
  {
    hide Act, ArchiveMail.MailInv;
    ArchiveMail.StepKeepsMail(s, a);
  }

  /** Emails with a Message-ID never share an S3 key with another email of the archive, so
      Stage C on one never takes another's object. */
  lemma KeysNeverShared(s: State, acts: seq<Action>, i: nat, j: nat)
    requires Base(s) && MirrorInv(s) && Along(Discipline(false, true, false, true), s, acts)
    requires var t := Run(s, acts);
             i in t.rows && j in t.rows && i != j && t.rows[i].uploaded && t.rows[j].uploaded && !Blank(t.rows[i].mail)
    ensures var t := Run(s, acts); t.rows[i].key.Some? && t.rows[j].key.Some? && t.rows[i].key != t.rows[j].key
  {
    hide Run, Along, ArchiveQueue.QueueInv, ObjectsKept, StoredKept;
    AlongWeakens(Discipline(false, true, false, true), NO_STALE_EXPIRE, s, acts);
    AlongWeakens(Discipline(false, true, false, true), ArchiveMail.ONE_SYNC, s, acts);
    MirrorSurvives(s, acts);
    ArchiveMail.MessagesStayUnique(s, acts);
    var t := Run(s, acts);
    assert t.rows[i].account == t.rows[j].account ==> t.rows[i].mail.messageId != t.rows[j].mail.messageId;
  }
}
