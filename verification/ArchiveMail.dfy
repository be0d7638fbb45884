/** Message-IDs: with one sync per account at a time, no two rows of an account ever share a
    non-blank Message-ID, whichever caller of `ArchiveOne` inserted them. */
module ArchiveMail {
  import opened Archive

  const ONE_SYNC := Discipline(false, true, false, false)

  ghost predicate MessagesUnique(rows: map<nat, Row>) {
    forall i, j :: i in rows && j in rows && i != j && rows[i].account == rows[j].account && !Blank(rows[i].mail) ==>
      rows[i].mail.messageId != rows[j].mail.messageId
  }

  ghost predicate AccountsDistinct(syncs: map<nat, Sync>) {
    forall p, q :: p in syncs && q in syncs && p != q ==> syncs[p].account != syncs[q].account
  }

  /** A message past its duplicate check is still absent from its account's rows. */
  ghost predicate PendingAbsent(syncs: map<nat, Sync>, rows: map<nat, Row>) {
    forall p, id :: p in syncs && id in rows && !syncs[p].phase.Idle? && rows[id].account == syncs[p].account ==>
      Blank(syncs[p].phase.mail) || rows[id].mail.messageId != syncs[p].phase.mail.messageId
  }

  ghost predicate MailInv(s: State) {
    && MessagesUnique(s.rows)
    && AccountsDistinct(s.syncs)
    && PendingAbsent(s.syncs, s.rows)
    && forall id :: id in s.rows ==> id < s.nextRow
  }

  /** The checked message was absent; its row is the only one with that Message-ID. */
  lemma PersistKeeps(s: State, p: nat, mirror: bool, today: nat, now: nat)
    requires MailInv(s) && p in s.syncs && s.syncs[p].phase.Renamed?
    ensures MailInv(PersistStep(s, p, mirror, today, now))
  {
    hide NewQueueRow, UidTaken;
  }

  lemma CheckKeeps(s: State, p: nat, mail: Mail, flags: string, uid: nat)
    requires MailInv(s) && p in s.syncs && s.syncs[p].phase.Idle?
    ensures MailInv(CheckStep(s, p, mail, flags, uid))
  {
    hide MessagesUnique;
  }

  lemma FileStepKeeps(s: State, p: nat, op: SyncOp)
    requires MailInv(s) && SyncEnabled(s, p, op) && !op.Persist? && !op.Check?
    ensures MailInv(SyncEffect(s, p, op))
  {
    hide MessagesUnique, Blank, Advanced, NextName;
  }

  lemma SyncKeeps(s: State, p: nat, op: SyncOp)
    requires MailInv(s) && SyncEnabled(s, p, op)
    ensures MailInv(SyncEffect(s, p, op))
  {
    hide MailInv;
    match op
    case Persist(mirror, today, now) => PersistKeeps(s, p, mirror, today, now);
    case Check(mail, flags, uid) => CheckKeeps(s, p, mail, flags, uid);
    case _ => FileStepKeeps(s, p, op);
  }

  lemma UploadKeeps(s: State, q: nat, op: UploadOp)
    requires MailInv(s) && UploadEnabled(s, q, op)
    ensures MailInv(UploadEffect(s, q, op))
  {
  }

  lemma RetainKeeps(s: State, k: (nat, nat), op: RetainOp)
    requires MailInv(s) && RetainEnabled(s, k, op)
    ensures MailInv(RetainEffect(s, k, op))
  {
  }

  lemma StepKeepsMail(s: State, a: Action)
    requires MailInv(s) && Permitted(ONE_SYNC, s, a)
    ensures MailInv(Act(s, a))
  {
    hide SyncEffect, UploadEffect, RetainEffect, MessagesUnique;
    match a
    case OfSync(p, op) => if SyncEnabled(s, p, op) { SyncKeeps(s, p, op); }
    case OfUpload(q, op) => if UploadEnabled(s, q, op) { UploadKeeps(s, q, op); }
    case OfRetention(pass, id, op) => if RetainEnabled(s, (pass, id), op) { RetainKeeps(s, (pass, id), op); }
    case _ =>
  }

  lemma {:induction false} MessagesStayUnique(s: State, acts: seq<Action>)
    requires MailInv(s) && Along(ONE_SYNC, s, acts)
    ensures MailInv(Run(s, acts)) && MessagesUnique(Run(s, acts).rows)
    decreases |acts|
  {
    if acts != [] {
      StepKeepsMail(s, acts[0]);
      MessagesStayUnique(Act(s, acts[0]), acts[1..]);
    }
  }
}
