/** The import command: every message of a walk goes through the duplicate check and
    `ArchiveOne`, under synthetic UIDs counted up from the folder's watermark. */
module MailImport {
  import opened Options
  import opened Archive
  import opened FetchedRows

  /** What goes wrong for one message; `Unreported` is a committed transaction that `Do`
      reports as an error. */
  datatype Fault = NoFault | CheckFails | ArchiveFails | Unreported

  datatype Counts = Counts(processed: nat, archived: nat, duplicates: nat, failed: nat)

  function FaultOf(faults: map<nat, Fault>, i: nat): Fault {
    if i in faults then faults[i] else NoFault
  }

  function Blanks(mails: seq<Mail>): nat {
    if mails == [] then 0 else Blanks(mails[..|mails| - 1]) + (if Blank(mails[|mails| - 1]) then 1 else 0)
  }

  /** No row of the folder has a UID in lo <= uid < hi. */
  ghost predicate UidsFree(rows: map<nat, Row>, account: nat, folder: nat, lo: nat, hi: nat) {
    forall id :: id in rows && rows[id].account == account && rows[id].folder == folder ==>
      rows[id].uid < lo || rows[id].uid >= hi
  }

  /** Every message of the list that has a Message-ID has a row in the account. */
  ghost predicate AllPresent(rows: map<nat, Row>, account: nat, mails: seq<Mail>) {
    forall i :: 0 <= i < |mails| ==> Blank(mails[i]) || HasMessage(rows, account, mails[i].messageId)
  }

  /** Each of the new rows is one of the messages, under its own name and a UID of the range. */
  ghost predicate FromMails(was: Tables, t: Tables, mails: seq<Mail>, dir: nat, writer: nat, serials: nat -> nat,
      uid: nat) {
    forall id :: was.nextRow <= id < t.nextRow && id in t.rows ==> IsMail(t.rows[id], mails, dir, writer, serials, uid)
  }

  ghost predicate IsMail(row: Row, mails: seq<Mail>, dir: nat, writer: nat, serials: nat -> nat, uid: nat) {
    && uid <= row.uid < uid + |mails|
    && exists k :: 0 <= k < |mails| && mails[k] == row.mail && row.path == Some(Path(dir, writer, serials(k), ""))
  }

  lemma NoMailYet(t: Tables, mails: seq<Mail>, dir: nat, writer: nat, serials: nat -> nat, uid: nat)
    ensures FromMails(t, t, mails, dir, writer, serials, uid) && Blanks(mails[..0]) == 0
  {
  }

  lemma BlanksSnoc(mails: seq<Mail>, k: nat)
    requires k < |mails|
    ensures Blanks(mails[..k + 1]) == Blanks(mails[..k]) + (if Blank(mails[k]) then 1 else 0)
  {
    assert mails[..k + 1][..k] == mails[..k];
  }

  lemma OneMoreMail(x: Setting, was: Tables, t: Tables, u: Tables, mails: seq<Mail>, dir: nat, writer: nat,
      serials: nat -> nat, uid: nat,
                    k: nat, next: nat)
    requires FromMails(was, t, mails, dir, writer, serials, uid) && k < |mails| && uid <= next < uid + |mails|
    requires u == t || Gained(x, t, u, next, mails[k], Path(dir, writer, serials(k), ""))
    ensures FromMails(was, u, mails, dir, writer, serials, uid)
  {
    hide Enqueued;
    if u != t {
      assert IsMail(u.rows[t.nextRow], mails, dir, writer, serials, uid);
    }
  }

  lemma GainedFacts(x: Setting, was: Tables, t: Tables, uid: nat, mail: Mail, path: Path)
    requires Gained(x, was, t, uid, mail, path) && was.nextRow !in was.rows
    ensures forall hi: nat ::
      UidsFree(was.rows, x.account, x.folder, uid, hi) ==> UidsFree(t.rows, x.account, x.folder, uid + 1, hi)
    ensures HasMessage(t.rows, x.account, mail.messageId)
  {
    assert t.rows[was.nextRow].mail == mail;
  }

  class Importer {
    const account: nat
    const folder: nat
    const dir: nat
    const writer: nat
    const mirror: bool
    var rows: map<nat, Row>
    var nextRow: nat
    var queue: map<nat, QueueRow>
    var nextQueue: nat
    var nextUid: nat
    var counts: Counts

    ghost predicate Valid()
      reads this
    {
      && (forall id :: id in rows ==> id < nextRow)
      && counts.processed == counts.archived + counts.duplicates + counts.failed
    }

    ghost function Holding(): Tables
      reads this
    {
      Tables(rows, nextRow, queue, nextQueue)
    }

    constructor (account: nat, folder: nat, dir: nat, writer: nat, mirror: bool, t: Tables, lastUid: nat)
      requires forall id :: id in t.rows ==> id < t.nextRow
      ensures Valid() && this.account == account && this.folder == folder
      ensures this.dir == dir && this.writer == writer && this.mirror == mirror
      ensures Holding() == t && nextUid == lastUid + 1 && counts == Counts(0, 0, 0, 0)
    {
      this.account, this.folder, this.dir, this.writer, this.mirror := account, folder, dir, writer, mirror;
      rows, nextRow, queue, nextQueue := t.rows, t.nextRow, t.queue, t.nextQueue;
      nextUid, counts := lastUid + 1, Counts(0, 0, 0, 0);
    }

    /** One call of the walk's callback. */
    method ImportOne(mail: Mail, serial: nat, today: nat, now: nat, fault: Fault)
      requires Valid()
      modifies this
      ensures Valid()
      ensures var repeated := !Blank(mail) && HasMessage(old(rows), account, mail.messageId);
              var unchecked := !Blank(mail) && fault.CheckFails?;
              var inserts := !unchecked && !repeated && !fault.ArchiveFails? &&
                             !UidTaken(old(rows), account, folder, old(nextUid));
              var c := old(counts).(processed := old(counts).processed + 1);
              && (!unchecked && repeated ==> counts == c.(duplicates := c.duplicates + 1))
              && (inserts && !fault.Unreported? ==> counts == c.(archived := c.archived + 1))
              && (unchecked || (!repeated && (!inserts || fault.Unreported?)) ==> counts == c.(failed := c.failed + 1))
              && nextUid == old(nextUid) + (if inserts && !fault.Unreported? then 1 else 0)
              && (!inserts ==> Holding() == old(Holding()))
              && (inserts ==> Gained(Setting(account, folder, dir, writer, mirror, today, now), old(Holding()),
                   Holding(),
                                     old(nextUid), mail, Path(dir, writer, serial, "")))
    {
      var path := Path(dir, writer, serial, "");
      counts := counts.(processed := counts.processed + 1);
      if !Blank(mail) {
        if fault.CheckFails? {
          counts := counts.(failed := counts.failed + 1);
          return;
        }
        if HasMessage(rows, account, mail.messageId) {
          counts := counts.(duplicates := counts.duplicates + 1);
          return;
        }
      }
      var uid := nextUid;
      if fault.ArchiveFails? || UidTaken(rows, account, folder, uid) {
        counts := counts.(failed := counts.failed + 1);
        return;
      }
      rows := rows[nextRow := Row(account, folder, uid, mail, now, Local, Some(path), None, false, None)];
      if mirror {
        queue := queue[nextQueue := QueueRow(nextRow, MailKey(account, mail, today), path, Pending, 0)];
        nextQueue := nextQueue + 1;
      }
      nextRow := nextRow + 1;
      if fault.Unreported? {
        counts := counts.(failed := counts.failed + 1);
        return;
      }
      nextUid := nextUid + 1;
      counts := counts.(archived := counts.archived + 1);
    }

    /** The whole walk. A free range of UIDs and no fault: everything with a Message-ID ends up
        present, and of what was present before only the messages without one are archived
        again. A first UID that is taken: nothing is archived at all, however long the walk. */
    method Import(mails: seq<Mail>, serials: nat -> nat, today: nat, now: nat, faults: map<nat, Fault>)
      requires Valid()
      modifies this
      ensures Valid() && counts.processed == old(counts).processed + |mails|
      ensures UidTaken(old(rows), account, folder, old(nextUid)) ==>
        rows == old(rows) && counts.archived == old(counts).archived
      ensures Free(old(rows), old(nextUid), |mails|, faults) ==>
                (&& counts.failed == old(counts).failed && AllPresent(rows, account, mails)
                 && old(counts).archived <= counts.archived <= old(counts).archived + |mails|
                 && old(counts).duplicates <= counts.duplicates
                 && nextUid == old(nextUid) + counts.archived - old(counts).archived)
      ensures Free(old(rows), old(nextUid), |mails|, faults) && AllPresent(old(rows), account, mails) ==>
                counts.archived == old(counts).archived + Blanks(mails)
      ensures faults == map[] ==>
        forall hi: nat :: hi >= old(nextUid) + |mails| && UidsFree(old(rows), account, folder, old(nextUid), hi) ==>
          UidsFree(rows, account, folder, nextUid, hi)
      ensures Extends(Setting(account, folder, dir, writer, mirror, today, now), old(Holding()), Holding())
      ensures FromMails(old(Holding()), Holding(), mails, dir, writer, serials, old(nextUid))
    {
      hide UidsFree, HasMessage, UidTaken, AllPresent, OnwardFree, Extends, FromMails, Gained, Blanks, Enqueued;
      ghost var beginning := Holding();
      ExtendsNothing(Setting(account, folder, dir, writer, mirror, today, now), beginning);
      ghost var was, uid, start := rows, nextUid, counts;
      NothingYet(rows, account, folder, nextUid, |mails|);
      NoMailYet(beginning, mails, dir, writer, serials, nextUid);
      for k := 0 to |mails|
        invariant Valid() && counts.processed == start.processed + k
        invariant start.archived <= counts.archived <= start.archived + k && start.duplicates <= counts.duplicates
        invariant Extends(Setting(account, folder, dir, writer, mirror, today, now), beginning, Holding())
        invariant FromMails(beginning, Holding(), mails, dir, writer, serials, uid)
        invariant nextUid == uid + counts.archived - start.archived
        invariant forall id :: id in was ==> id in rows && rows[id] == was[id]
        invariant UidTaken(was, account, folder, uid) ==> rows == was && counts.archived == start.archived
        invariant faults == map[] ==> OnwardFree(was, uid, rows, nextUid, account, folder, |mails|)
        invariant Free(was, uid, |mails|, faults) ==>
          counts.failed == start.failed && AllPresent(rows, account, mails[..k])
        invariant Free(was, uid, |mails|, faults) && AllPresent(was, account, mails) ==>
          counts.archived == start.archived + Blanks(mails[..k])
      {
        ghost var before, middle, archived, next := rows, Holding(), counts.archived, nextUid;
        BlanksSnoc(mails, k);
        StillPresent(was, rows, account, mails);
        if Free(was, uid, |mails|, faults) {
          OnwardIs(was, uid, rows, nextUid, account, folder, |mails|, uid + |mails|);
          FreeOne(rows, nextUid, uid + |mails|);
          PresentAt(was, account, mails, k);
        }
        ImportOne(mails[k], serials(k), today, now, FaultOf(faults, k));
        if counts.archived > archived {
          GainedFacts(Setting(account, folder, dir, writer, mirror, today, now), middle, Holding(), next, mails[k],
            Path(dir, writer, serials(k), ""));
          if faults == map[] {
            OnwardStep(was, uid, before, rows, next, account, folder, |mails|);
          }
        }
        ExtendsOne(Setting(account, folder, dir, writer, mirror, today, now), beginning, middle, Holding(), next,
          mails[k], Path(dir, writer, serials(k), ""));
        OneMoreMail(Setting(account, folder, dir, writer, mirror, today, now), beginning, middle, Holding(), mails,
          dir, writer, serials, uid, k, next);
        StillPresent(before, rows, account, mails[..k]);
        PresentSnoc(rows, account, mails, k);
      }
      assert mails[..|mails|] == mails;
      forall hi: nat | faults == map[] && hi >= uid + |mails| && UidsFree(was, account, folder, uid, hi)
        ensures UidsFree(rows, account, folder, nextUid, hi)
      {
        OnwardIs(was, uid, rows, nextUid, account, folder, |mails|, hi);
      }
    }

    /** No fault, and as many free UIDs as there are messages. */
    ghost predicate Free(rows: map<nat, Row>, uid: nat, n: nat, faults: map<nat, Fault>) {
      faults == map[] && UidsFree(rows, account, folder, uid, uid + n)
    }

    lemma FreeOne(rows: map<nat, Row>, uid: nat, hi: nat)
      requires UidsFree(rows, account, folder, uid, hi) && uid < hi
      ensures !UidTaken(rows, account, folder, uid)
    {
    }
  }

  /** UIDs that were free from `uid` on, past the whole list, are still free from `next` on. */
  ghost predicate OnwardFree(was: map<nat, Row>, uid: nat, rows: map<nat, Row>, next: nat, account: nat, folder: nat,
                             n: nat)
  {
    forall hi: nat :: hi >= uid + n && UidsFree(was, account, folder, uid, hi) ==>
      UidsFree(rows, account, folder, next, hi)
  }

  lemma NothingYet(rows: map<nat, Row>, account: nat, folder: nat, uid: nat, n: nat)
    ensures OnwardFree(rows, uid, rows, uid, account, folder, n) && AllPresent(rows, account, [])
  {
  }

  lemma OnwardIs(was: map<nat, Row>, uid: nat, rows: map<nat, Row>, next: nat, account: nat, folder: nat, n: nat,
      hi: nat)
    requires OnwardFree(was, uid, rows, next, account, folder, n)
    requires hi >= uid + n && UidsFree(was, account, folder, uid, hi)
    ensures UidsFree(rows, account, folder, next, hi)
  {
  }

  lemma OnwardStep(was: map<nat, Row>, uid: nat, before: map<nat, Row>, rows: map<nat, Row>, next: nat, account: nat,
                   folder: nat, n: nat)
    requires OnwardFree(was, uid, before, next, account, folder, n)
    requires forall hi: nat :: UidsFree(before, account, folder, next, hi) ==>
      UidsFree(rows, account, folder, next + 1, hi)
    ensures OnwardFree(was, uid, rows, next + 1, account, folder, n)
  {
    hide UidsFree;
  }

  lemma PresentAt(rows: map<nat, Row>, account: nat, mails: seq<Mail>, k: nat)
    requires k < |mails|
    ensures AllPresent(rows, account, mails) ==> Blank(mails[k]) || HasMessage(rows, account, mails[k].messageId)
  {
  }

  lemma PresentSnoc(rows: map<nat, Row>, account: nat, mails: seq<Mail>, k: nat)
    requires k < |mails|
    ensures AllPresent(rows, account, mails[..k + 1]) <==>
            AllPresent(rows, account, mails[..k]) && (Blank(mails[k]) || HasMessage(rows, account, mails[k].messageId))
  {
    hide HasMessage, Blank;
    if AllPresent(rows, account, mails[..k + 1]) {
      assert mails[..k + 1][k] == mails[k] && forall i :: 0 <= i < k ==> mails[..k + 1][i] == mails[..k][i];
    }
  }

  /** Rows are only added, so what is present stays present. */
  lemma StillPresent(was: map<nat, Row>, rows: map<nat, Row>, account: nat, mails: seq<Mail>)
    requires forall id :: id in was ==> id in rows && rows[id] == was[id]
    ensures AllPresent(was, account, mails) ==> AllPresent(rows, account, mails)
  {
    forall i | 0 <= i < |mails| && HasMessage(was, account, mails[i].messageId)
      ensures HasMessage(rows, account, mails[i].messageId) {
      var id :| id in was && was[id].account == account && was[id].mail.messageId == mails[i].messageId;
      assert id in rows && rows[id] == was[id];
    }
  }

  /** The same source imported twice: the second run archives exactly the messages that have
      no Message-ID, and reports every other one as a duplicate. */
  method ImportTwice(importer: Importer, mails: seq<Mail>, serials: nat -> nat, today: nat, now: nat)
      returns (second: Counts)
    requires importer.Valid() && importer.counts == Counts(0, 0, 0, 0)
    requires UidsFree(importer.rows, importer.account, importer.folder, importer.nextUid,
      importer.nextUid + 2 * |mails|)
    modifies importer
    ensures Extends(Setting(importer.account, importer.folder, importer.dir, importer.writer, importer.mirror,
      today, now),
                    old(importer.Holding()), importer.Holding())
    ensures second.archived == Blanks(mails) && second.failed == 0 && second.duplicates == |mails| - Blanks(mails)
  {
    importer.Import(mails, serials, today, now, map[]);
    var first := importer.counts;
    ghost var between := importer.Holding();
    importer.Import(mails, serials, today, now, map[]);
    ExtendsTwice(Setting(importer.account, importer.folder, importer.dir, importer.writer, importer.mirror, today, now),
                 old(importer.Holding()), between, importer.Holding());
    second := Counts(importer.counts.processed - first.processed, importer.counts.archived - first.archived,
                     importer.counts.duplicates - first.duplicates, importer.counts.failed - first.failed);
  }
}
