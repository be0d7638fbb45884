/** What becomes of an archived message: in every run it stays archived and readable byte for
    byte, until retention deletes it outright where there is no mirror, or Stage C begins. */
module ArchiveHistory {
  import opened Archive
  import opened ArchiveFiles
  import ArchiveMail
  import ArchiveMirror
  import ArchiveQueue

  /** The step deletes this email's row. */
  predicate Deletes(s: State, a: Action, id: nat) {
    a.OfRetention? && a.id == id && a.rop.Delete? && RetainEnabled(s, (a.pass, id), a.rop)
  }

  /** The step is Stage A without a mirror, for this email. */
  predicate DeletesDirectly(s: State, a: Action, id: nat) {
    Deletes(s, a, id) && s.chores[(a.pass, id)].DeleteDirect?
  }

  predicate DeletedDirectly(s: State, acts: seq<Action>, id: nat)
    decreases |acts|
  {
    acts != [] && (DeletesDirectly(s, acts[0], id) || DeletedDirectly(Act(s, acts[0]), acts[1..], id))
  }

  /** Row ids are never given out twice, and a pass that deletes the row of an expired email
      has begun Stage C for it. */
  ghost predicate IdsInv(s: State) {
    && (forall id :: id in s.rows ==> id < s.nextRow)
    && (forall k :: k in s.chores && s.chores[k].ExpireRow? ==> k.1 in s.begun)
  }

  /** One step keeps a row, as far as its message goes, unless it deletes it. */
  ghost predicate RowKept(s: State, t: State, id: nat) {
    id in s.rows && id in t.rows && SameMessage(t.rows[id], s.rows[id])
  }

  /** Only fresh ids get rows. */
  ghost predicate NewIdsOnly(s: State, t: State) {
    s.nextRow <= t.nextRow && forall id :: id in t.rows && id < s.nextRow ==> id in s.rows
  }

  lemma SyncKeepsRows(s: State, p: nat, op: SyncOp)
    requires IdsInv(s) && SyncEnabled(s, p, op)
    ensures var t := SyncEffect(s, p, op);
            IdsInv(t) && NewIdsOnly(s, t) && t.begun == s.begun && forall id :: id in s.rows ==> RowKept(s, t, id)
  {
    hide UidTaken, Advanced, NewQueueRow;
  }

  lemma UploadKeepsRows(s: State, q: nat, op: UploadOp)
    requires IdsInv(s) && UploadEnabled(s, q, op)
    ensures var t := UploadEffect(s, q, op);
            IdsInv(t) && NewIdsOnly(s, t) && t.begun == s.begun && forall id :: id in s.rows ==> RowKept(s, t, id)
  {
  }

  lemma RetainKeepsRows(s: State, k: (nat, nat), op: RetainOp)
    requires IdsInv(s) && RetainEnabled(s, k, op)
    ensures var t := RetainEffect(s, k, op);
            && IdsInv(t) && NewIdsOnly(s, t) && s.begun <= t.begun
            && forall id :: id in s.rows ==> RowKept(s, t, id) || Deletes(s, OfRetention(k.0, k.1, op), id)
  {
    hide Cascaded;
  }

  lemma DeletedIsGone(s: State, a: Action, id: nat)
    requires Deletes(s, a, id)
    ensures id !in Act(s, a).rows
    ensures IdsInv(s) ==> id in s.begun || DeletesDirectly(s, a, id)
  {
    hide Cascaded;
  }

  /** Every step keeps every row but the one it deletes. */
  lemma RowsStep(s: State, a: Action)
    requires IdsInv(s)
    ensures var t := Act(s, a);
            && IdsInv(t) && NewIdsOnly(s, t) && s.begun <= t.begun
            && forall id :: id in s.rows ==> RowKept(s, t, id) || Deletes(s, a, id)
  {
    hide SyncEffect, UploadEffect, RetainEffect;
    match a
    case OfSync(p, op) => if SyncEnabled(s, p, op) { SyncKeepsRows(s, p, op); }
    case OfUpload(q, op) => if UploadEnabled(s, q, op) { UploadKeepsRows(s, q, op); }
    case OfRetention(pass, i, op) => if RetainEnabled(s, (pass, i), op) { RetainKeepsRows(s, (pass, i), op); }
    case _ =>
  }

  lemma {:induction false} IdsHold(s: State, acts: seq<Action>)
    requires IdsInv(s)
    ensures IdsInv(Run(s, acts)) && s.begun <= Run(s, acts).begun
    decreases |acts|
  {
    hide Act;
    if acts != [] {
      RowsStep(s, acts[0]);
      IdsHold(Act(s, acts[0]), acts[1..]);
    }
  }

  /** No assumption on the schedule: a row stays, with its message, unless retention deletes it
      directly or Stage C began for it. */
  lemma {:induction false} RowStays(s: State, acts: seq<Action>, id: nat)
    requires IdsInv(s) && id in s.rows
    ensures var t := Run(s, acts); id in t.begun || DeletedDirectly(s, acts, id) || RowKept(s, t, id)
    decreases |acts|
  {
    hide Act;
    if acts != [] {
      var t := Act(s, acts[0]);
      RowsStep(s, acts[0]);
      if RowKept(s, t, id) {
        RowStays(t, acts[1..], id);
      } else {
        IdsHold(t, acts[1..]);
      }
    }
  }

  /** The message can be read back byte for byte, from new/ or from S3. */
  ghost predicate Retrievable(s: State, id: nat)
    requires id in s.rows
  {
    var row := s.rows[id];
    match row.location
    case Local => row.path.Some? && row.path.value in s.filed && s.filed[row.path.value] == row.mail
    case S3Only => row.uploaded && row.key.Some? && row.key.value in s.objects && s.objects[row.key.value] == row.mail
  }

  /** The row is still there with its message, and the message can be read. */
  ghost predicate StillReadable(s: State, id: nat, was: Row) {
    id in s.rows && SameMessage(s.rows[id], was) && Retrievable(s, id)
  }

  /** The weakest assumptions: fresh writer names, and no object deleted under a stale key. */
  const FRESH_KEYS := Discipline(true, false, false, true)

  lemma EmptyIsSound()
    ensures FilesInv(EMPTY) && ArchiveQueue.QueueInv(EMPTY) && ArchiveMail.MailInv(EMPTY)
    ensures ArchiveMirror.MirrorInv(EMPTY) && ArchiveMirror.PassInv(EMPTY.chores, EMPTY.rows) && IdsInv(EMPTY)
  {
  }

  lemma ReachedState(acts: seq<Action>)
    requires Along(FRESH_KEYS, EMPTY, acts)
    ensures var s := Run(EMPTY, acts);
            FilesInv(s) && ArchiveMirror.MirrorInv(s) && ArchiveMirror.S3RowsSafe(s) && IdsInv(s)
  {
    hide Run, Along, FilesInv, ArchiveMirror.S3RowsSafe;
    EmptyIsSound();
    AlongWeakens(FRESH_KEYS, FRESH_WRITERS, EMPTY, acts);
    AlongWeakens(FRESH_KEYS, ArchiveMirror.NO_STALE_EXPIRE, EMPTY, acts);
    LocalFilesSurvive(EMPTY, acts);
    ArchiveMirror.MirrorSurvives(EMPTY, acts);
    IdsHold(EMPTY, acts);
  }

  lemma ReachedIsReadable(s: State, id: nat)
    requires LocalFilesKept(s.rows, s.filed) && ObjectsHold(s.objects)
    requires ArchiveMirror.KeysMatch(s.rows, s.queue, s.jobs) && ArchiveMirror.S3RowsSafe(s)
    requires id in s.rows && !Blank(s.rows[id].mail) && id !in s.begun
    ensures Retrievable(s, id)
  {
  }

  /** Whatever is in the archive can be read, a mail without a Message-ID aside, until Stage C
      begins for it. */
  lemma ReachedAreReadable(acts: seq<Action>, id: nat)
    requires Along(FRESH_KEYS, EMPTY, acts)
    requires var s := Run(EMPTY, acts); id in s.rows && !Blank(s.rows[id].mail) && id !in s.begun
    ensures Retrievable(Run(EMPTY, acts), id)
  {
    hide Run, Along, FilesInv, ArchiveMirror.MirrorInv, Retrievable;
    ReachedState(acts);
    ReachedParts(Run(EMPTY, acts));
    ReachedIsReadable(Run(EMPTY, acts), id);
  }

  /** A message with a Message-ID that was archived at any time stays archived and readable
      through everything that follows, unless Stage A deletes it where there is no mirror, or
      Stage C begins for it. */
  lemma NothingArchivedIsLost(before: seq<Action>, after: seq<Action>, id: nat)
    requires Along(FRESH_KEYS, EMPTY, before + after)
    requires id in Run(EMPTY, before).rows && !Blank(Run(EMPTY, before).rows[id].mail)
    ensures var s, t := Run(EMPTY, before), Run(EMPTY, before + after);
            id in t.begun || DeletedDirectly(s, after, id) || StillReadable(t, id, s.rows[id])
  {
    hide Run, Along, DeletedDirectly, FilesInv, ArchiveMirror.MirrorInv, ArchiveMirror.S3RowsSafe, Retrievable;
    var s, t := Run(EMPTY, before), Run(EMPTY, before + after);
    RunConcat(EMPTY, before, after);
    AlongPrefix(FRESH_KEYS, EMPTY, before, after);
    ReachedState(before);
    RowStays(s, after, id);
    if RowKept(s, t, id) && id !in t.begun {
      ReachedAreReadable(before + after, id);
    }
  }

  lemma ReachedParts(s: State)
    requires FilesInv(s) && ArchiveMirror.MirrorInv(s)
    ensures LocalFilesKept(s.rows, s.filed) && ObjectsHold(s.objects) &&
      ArchiveMirror.KeysMatch(s.rows, s.queue, s.jobs)
  {
  }

  /** The same under the three habits that keep it so: fresh names, one sync per account, and
      one retention pass at a time. */
  lemma HabitsSuffice(acts: seq<Action>)
    requires Along(ALL, EMPTY, acts)
    ensures Along(FRESH_KEYS, EMPTY, acts)
  {
    hide Run, Along;
    EmptyIsSound();
    AlongWeakens(ALL, ArchiveMirror.SERIAL, EMPTY, acts);
    AlongWeakens(ALL, FRESH_WRITERS, EMPTY, acts);
    ArchiveMirror.SerialHasNoStaleExpire(EMPTY, acts);
    AlongBoth(EMPTY, acts);
  }

  lemma {:induction false} AlongBoth(s: State, acts: seq<Action>)
    requires Along(FRESH_WRITERS, s, acts) && Along(ArchiveMirror.NO_STALE_EXPIRE, s, acts)
    ensures Along(FRESH_KEYS, s, acts)
    decreases |acts|
  {
    hide Act;
    if acts != [] {
      AlongBoth(Act(s, acts[0]), acts[1..]);
    }
  }
}
