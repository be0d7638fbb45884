/** The upload queue: a mirrored email has either a queue row or a recorded etag, never both
    and never neither, and no queue row is claimed more than five times, whatever the
    schedule, including kills and restarts. */
module ArchiveQueue {
  import opened Options
  import opened Archive

  type Queue = map<nat, QueueRow>

  ghost predicate Queued(queue: Queue, id: nat) {
    exists q :: q in queue && queue[q].email == id
  }

  /** For every mirrored email still archived: queue row or etag, exactly one. */
  ghost predicate QueueOrEtag(rows: map<nat, Row>, queue: Queue, mirrored: set<nat>) {
    forall id :: id in rows && id in mirrored ==> (Queued(queue, id) <==> !rows[id].uploaded)
  }

  ghost predicate QueueRefers(rows: map<nat, Row>, queue: Queue, mirrored: set<nat>) {
    && (forall q :: q in queue ==> queue[q].email in rows && queue[q].email in mirrored)
    && (forall q, r :: q in queue && r in queue && q != r ==> queue[q].email != queue[r].email)
    && (forall id :: id in rows && rows[id].uploaded ==> id in mirrored)
  }

  ghost predicate Counters(s: State) {
    && (forall id :: id in s.rows ==> id < s.nextRow)
    && (forall id :: id in s.mirrored ==> id < s.nextRow)
    && (forall q :: q in s.queue ==> q < s.nextQueue && q in s.claims)
    && (forall q :: q in s.jobs ==> q < s.nextQueue && s.jobs[q].email < s.nextRow)
    && (forall q :: q in s.claims ==> q < s.nextQueue)
  }

  /** The status machine of a queue row against the number of times it was claimed. */
  ghost predicate StatusOf(w: QueueRow, claims: nat) {
    match w.status
    case Pending => w.retries < MAX_ATTEMPTS && claims == w.retries
    case Uploading => w.retries < MAX_ATTEMPTS && claims == w.retries + 1
    case Failed => w.retries == MAX_ATTEMPTS && claims == MAX_ATTEMPTS
  }

  ghost predicate ClaimsBounded(queue: Queue, claims: map<nat, nat>) {
    && (forall q :: q in queue && q in claims ==> StatusOf(queue[q], claims[q]))
    && (forall q :: q in claims ==> claims[q] <= MAX_ATTEMPTS)
  }

  /** A worker still holding a claimed row agrees with that row; a row disappears under a
      worker only together with its email. */
  ghost predicate JobsAgree(jobs: map<nat, Job>, queue: Queue, rows: map<nat, Row>) {
    forall q :: q in jobs ==>
      && (q in queue ==> queue[q].status.Uploading? && queue[q].email == jobs[q].email &&
                         queue[q].key == jobs[q].key && queue[q].retries == jobs[q].retries)
      && (!jobs[q].work.Failing? && jobs[q].email in rows ==> q in queue)
  }

  ghost predicate QueueInv(s: State) {
    && Counters(s)
    && QueueOrEtag(s.rows, s.queue, s.mirrored)
    && QueueRefers(s.rows, s.queue, s.mirrored)
    && ClaimsBounded(s.queue, s.claims)
    && JobsAgree(s.jobs, s.queue, s.rows)
  }

  /** A rejected insert changes nothing the queue's law speaks of. */
  lemma RejectedKeeps(s: State, t: State)
    requires QueueInv(s) && t == s.(syncs := t.syncs)
    ensures QueueInv(t)
  {
  }

  /** An accepted one adds a row, and with mirroring its queue row. */
  ghost predicate Accepted(s: State, t: State, row: Row, w: QueueRow, mirror: bool) {
    && !row.uploaded && w.email == s.nextRow && w.status.Pending? && w.retries == 0
    && t.rows == s.rows[s.nextRow := row] && t.nextRow == s.nextRow + 1 && t.jobs == s.jobs
    && t.queue == (if mirror then s.queue[s.nextQueue := w] else s.queue)
    && t.nextQueue == (if mirror then s.nextQueue + 1 else s.nextQueue)
    && t.claims == (if mirror then s.claims[s.nextQueue := 0] else s.claims)
    && t.mirrored == (if mirror then s.mirrored + {s.nextRow} else s.mirrored)
  }

  lemma AcceptedCounters(s: State, t: State, row: Row, w: QueueRow, mirror: bool)
    requires Counters(s) && Accepted(s, t, row, w, mirror)
    ensures Counters(t)
  {
  }

  lemma AcceptedJobs(s: State, t: State, row: Row, w: QueueRow, mirror: bool)
    requires Counters(s) && JobsAgree(s.jobs, s.queue, s.rows) && Accepted(s, t, row, w, mirror)
    ensures JobsAgree(t.jobs, t.queue, t.rows)
  {
  }

  lemma AcceptedRefers(s: State, t: State, row: Row, w: QueueRow, mirror: bool)
    requires Counters(s) && QueueRefers(s.rows, s.queue, s.mirrored) && Accepted(s, t, row, w, mirror)
    ensures QueueRefers(t.rows, t.queue, t.mirrored)
    ensures s.nextRow !in s.rows && s.nextRow !in s.mirrored && s.nextQueue !in s.queue
  {
  }

  lemma AcceptedKeeps(s: State, t: State, row: Row, w: QueueRow, mirror: bool)
    requires QueueInv(s) && Accepted(s, t, row, w, mirror)
    ensures QueueInv(t)
  {
    hide QueueOrEtag, ClaimsBounded, Counters, JobsAgree, QueueRefers;
    AcceptedCounters(s, t, row, w, mirror);
    AcceptedJobs(s, t, row, w, mirror);
    AcceptedRefers(s, t, row, w, mirror);
    EnqueueExact(s.rows, s.queue, s.mirrored, s.nextRow, row, s.nextQueue, w);
    EnqueueClaims(s.queue, s.claims, s.nextQueue, w);
  }

  lemma EnqueueClaims(queue: Queue, claims: map<nat, nat>, q: nat, w: QueueRow)
    requires ClaimsBounded(queue, claims) && w.status.Pending? && w.retries == 0
    ensures ClaimsBounded(queue[q := w], claims[q := 0])
  {
  }

  lemma EnqueueExact(rows: map<nat, Row>, queue: Queue, mirrored: set<nat>, id: nat, row: Row, q: nat, w: QueueRow)
    requires QueueOrEtag(rows, queue, mirrored) && id !in rows && id !in mirrored && q !in queue && w.email == id &&
      !row.uploaded
    ensures QueueOrEtag(rows[id := row], queue, mirrored) &&
      QueueOrEtag(rows[id := row], queue[q := w], mirrored + {id})
  {
    var rows', queue' := rows[id := row], queue[q := w];
    forall i | i in rows' && i in mirrored + {id} ensures Queued(queue', i) <==> !rows'[i].uploaded {
      if i == id {
        assert queue'[q].email == id;
      } else if Queued(queue, i) {
        var r :| r in queue && queue[r].email == i;
        assert r in queue' && queue'[r].email == i;
      }
    }
  }

  lemma PersistKeeps(s: State, p: nat, mirror: bool, today: nat, now: nat)
    requires QueueInv(s) && p in s.syncs && s.syncs[p].phase.Renamed?
    ensures QueueInv(PersistStep(s, p, mirror, today, now))
  {
    hide QueueInv;
    var t, y := PersistStep(s, p, mirror, today, now), s.syncs[p];
    if UidTaken(s.rows, y.account, y.folder, y.phase.uid) {
      RejectedKeeps(s, t);
    } else {
      AcceptedKeeps(s, t, NewRow(y, now), NewQueueRow(y, s.nextRow, today), mirror);
    }
  }

  lemma SyncKeeps(s: State, p: nat, op: SyncOp)
    requires QueueInv(s) && SyncEnabled(s, p, op)
    ensures QueueInv(SyncEffect(s, p, op))
  {
    if op.Persist? {
      PersistKeeps(s, p, op.mirror, op.today, op.now);
    }
  }

  /** Rewriting one row of the queue for the same email leaves the queued emails alone. */
  lemma SameEmails(queue: Queue, q: nat, w: QueueRow)
    requires q in queue && w.email == queue[q].email
    ensures forall id :: Queued(queue[q := w], id) <==> Queued(queue, id)
  {
    forall id ensures Queued(queue[q := w], id) <==> Queued(queue, id) {
      var queue' := queue[q := w];
      if Queued(queue, id) {
        var r :| r in queue && queue[r].email == id;
        assert r in queue' && queue'[r].email == id;
      }
    }
  }

  /** Claiming and failing move the status machine along with the claim count. */
  lemma ClaimCounts(queue: Queue, claims: map<nat, nat>, q: nat)
    requires ClaimsBounded(queue, claims) && q in queue && q in claims && queue[q].status.Pending?
    ensures ClaimsBounded(queue[q := queue[q].(status := Uploading)], claims[q := claims[q] + 1])
  {
  }

  lemma ClaimCounters(s: State, q: nat)
    requires Counters(s) && QueueRefers(s.rows, s.queue, s.mirrored) && UploadEnabled(s, q, Claim)
    ensures var t := ClaimStep(s, q); Counters(t) && QueueRefers(t.rows, t.queue, t.mirrored) && q in s.claims
  {
  }

  lemma ClaimJobs(s: State, q: nat)
    requires Counters(s) && JobsAgree(s.jobs, s.queue, s.rows) && UploadEnabled(s, q, Claim)
    ensures var t := ClaimStep(s, q); JobsAgree(t.jobs, t.queue, t.rows)
  {
  }

  lemma ClaimKeeps(s: State, q: nat)
    requires QueueInv(s) && UploadEnabled(s, q, Claim)
    ensures QueueInv(ClaimStep(s, q))
  {
    hide ClaimsBounded, Counters, JobsAgree, QueueRefers, Queued;
    ClaimCounters(s, q);
    ClaimJobs(s, q);
    SameEmails(s.queue, q, s.queue[q].(status := Uploading));
    ClaimCounts(s.queue, s.claims, q);
  }

  lemma FailedJobs(s: State, q: nat)
    requires QueueInv(s) && UploadEnabled(s, q, MarkFailed)
    ensures var t := FailedStep(s, q);
            Counters(t) && JobsAgree(t.jobs, t.queue, t.rows) && QueueRefers(t.rows, t.queue, t.mirrored) &&
              ClaimsBounded(t.queue, t.claims)
  {
    hide QueueOrEtag;
  }

  lemma FailedKeeps(s: State, q: nat)
    requires QueueInv(s) && UploadEnabled(s, q, MarkFailed)
    ensures QueueInv(FailedStep(s, q))
  {
    hide Counters, JobsAgree, QueueRefers, ClaimsBounded, Queued;
    FailedJobs(s, q);
    if q in s.queue {
      SameEmails(s.queue, q, FailedStep(s, q).queue[q]);
    }
  }

  /** Etag recorded and queue row deleted, for a row that is still queued. */
  lemma DequeueExact(rows: map<nat, Row>, queue: Queue, mirrored: set<nat>, id: nat, row: Row, q: nat)
    requires QueueOrEtag(rows, queue, mirrored) && QueueRefers(rows, queue, mirrored)
    requires id in rows && q in queue && queue[q].email == id && row.uploaded
    ensures QueueOrEtag(rows[id := row], queue - {q}, mirrored) && QueueRefers(rows[id := row], queue - {q}, mirrored)
  {
    var rows', queue' := rows[id := row], queue - {q};
    forall i | i in rows' && i in mirrored ensures Queued(queue', i) <==> !rows'[i].uploaded {
      if i != id && Queued(queue, i) {
        var r :| r in queue && queue[r].email == i;
        assert r in queue' && queue'[r].email == i;
      }
    }
  }

  lemma DoneJobs(s: State, q: nat, reported: bool)
    requires QueueInv(s) && UploadEnabled(s, q, Done(reported))
    ensures var t := DoneStep(s, q, reported);
            JobsAgree(t.jobs, t.queue, t.rows) && Counters(t) && ClaimsBounded(t.queue, t.claims)
  {
    hide QueueOrEtag;
  }

  lemma DoneKeeps(s: State, q: nat, reported: bool)
    requires QueueInv(s) && UploadEnabled(s, q, Done(reported))
    ensures QueueInv(DoneStep(s, q, reported))
  {
    var j := s.jobs[q];
    DoneJobs(s, q, reported);
    if j.email in s.rows {
      DequeueExact(s.rows, s.queue, s.mirrored, j.email, s.rows[j.email].(key := Some(j.key), uploaded := true), q);
    } else {
      assert s.queue - {q} == s.queue;
    }
    hide JobsAgree, Counters, ClaimsBounded, QueueOrEtag, QueueRefers;
  }

  /** The worker drops its job, or goes on or gives up with it. */
  lemma WorkKeeps(s: State, t: State, q: nat, work: Work)
    requires QueueInv(s) && q in s.jobs && (work.Failing? || !s.jobs[q].work.Failing?)
    requires t.jobs == s.jobs - {q} || t.jobs == s.jobs[q := s.jobs[q].(work := work)]
    requires t == s.(jobs := t.jobs, objects := t.objects)
    ensures QueueInv(t)
  {
    hide QueueOrEtag, QueueRefers, ClaimsBounded;
  }

  lemma OtherUploadKeeps(s: State, q: nat, op: UploadOp)
    requires QueueInv(s) && UploadEnabled(s, q, op) && !op.Claim? && !op.Done? && !op.MarkFailed?
    ensures QueueInv(UploadEffect(s, q, op))
  {
    hide QueueInv;
    var t := UploadEffect(s, q, op);
    WorkKeeps(s, t, q, if op.Drop? then Failing else t.jobs[q].work);
  }

  lemma UploadKeeps(s: State, q: nat, op: UploadOp)
    requires QueueInv(s) && UploadEnabled(s, q, op)
    ensures QueueInv(UploadEffect(s, q, op))
  {
    hide QueueInv, ClaimStep, DoneStep, FailedStep;
    match op
    case Claim => ClaimKeeps(s, q);
    case Done(reported) => DoneKeeps(s, q, reported);
    case MarkFailed => FailedKeeps(s, q);
    case _ => OtherUploadKeeps(s, q, op);
  }

  lemma DeleteKeeps(s: State, k: (nat, nat))
    requires QueueInv(s) && k in s.chores && (s.chores[k].DeleteDirect? || s.chores[k].ExpireRow?)
    ensures QueueInv(DeleteStep(s, k))
  {
    var t := DeleteStep(s, k);
    forall id | id in t.rows && id in t.mirrored ensures Queued(t.queue, id) <==> !t.rows[id].uploaded {
      if Queued(s.queue, id) {
        var q :| q in s.queue && s.queue[q].email == id;
        assert q in t.queue && t.queue[q].email == id;
      }
    }
  }

  lemma RetainKeeps(s: State, k: (nat, nat), op: RetainOp)
    requires QueueInv(s) && RetainEnabled(s, k, op)
    ensures QueueInv(RetainEffect(s, k, op))
  {
    if op.Delete? {
      DeleteKeeps(s, k);
    }
  }

  lemma ProcessKeeps(s: State, a: Action)
    requires QueueInv(s) && !a.OfSync? && !a.OfUpload? && !a.OfRetention?
    ensures QueueInv(Act(s, a))
  {
  }

  lemma StepKeepsQueue(s: State, a: Action)
    requires QueueInv(s)
    ensures QueueInv(Act(s, a))
  {
    hide QueueInv;
    match a
    case OfSync(p, op) => if SyncEnabled(s, p, op) { SyncKeeps(s, p, op); }
    case OfUpload(q, op) => if UploadEnabled(s, q, op) { UploadKeeps(s, q, op); }
    case OfRetention(pass, id, op) => if RetainEnabled(s, (pass, id), op) { RetainKeeps(s, (pass, id), op); }
    case _ => ProcessKeeps(s, a);
  }

  /** No assumption on the schedule at all. */
  lemma {:induction false} QueueLaw(s: State, acts: seq<Action>)
    requires QueueInv(s)
    ensures QueueInv(Run(s, acts))
    ensures QueueOrEtag(Run(s, acts).rows, Run(s, acts).queue, Run(s, acts).mirrored)
    ensures forall q :: q in Run(s, acts).claims ==> Run(s, acts).claims[q] <= 5
    decreases |acts|
  {
    if acts != [] {
      StepKeepsQueue(s, acts[0]);
      QueueLaw(Act(s, acts[0]), acts[1..]);
    }
  }
}
