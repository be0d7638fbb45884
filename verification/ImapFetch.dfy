/** The sync engine in its own form: one folder run that changes Maildir directories and
    tables in place, `ArchiveOne` and the message loop of `FetchNewMessages`, shown to
    perform steps of module `ImapSync` and nothing else, whatever fails. */
module ImapFetch {
  import opened Options
  import opened Archive
  import opened ImapSync
  import opened ImapDrain
  import opened FetchedRows

  /** What goes wrong while one message is handled. */
  datatype Fault =
    | NoFault
    | ContextCancelled
    | BodyUnreadable
    | DuplicateCheckFails
    | SkipFails(committed: bool)
    | StageFails(junk: Mail)
    | SweptBeforeRename
    | RenameFails
    | TransactionFails
    | CommitUnreported

  /** `FetchStats`. */
  datatype Stats = Stats(processed: nat, archived: nat, skipped: nat, duplicates: nat, errors: nat)

  /** How one message ended. */
  datatype Result = Archived | Skipped | Duplicate | Failed

  /** The counters after one more message; a message left alone because the context was
      cancelled counts as nothing. */
  function Counted(stats: Stats, result: Result, fault: Fault): Stats {
    if fault.ContextCancelled? then stats
    else
      var s := stats.(processed := stats.processed + 1);
      match result
      case Archived => s.(archived := s.archived + 1)
      case Skipped => s.(skipped := s.skipped + 1)
      case Duplicate => s.(duplicates := s.duplicates + 1)
      case Failed => s.(errors := s.errors + 1)
  }

  /** The counters after the first i messages, of which `was` to `next` counts the new rows.
      A run has stopped at its first error. */
  ghost predicate Tallied(stats: Stats, ok: bool, messages: seq<(nat, Mail)>, i: nat, rule: Mail -> bool, was: nat,
      next: nat)
    requires i <= |messages|
  {
    && stats.processed == stats.archived + stats.skipped + stats.duplicates + stats.errors
    && stats.errors <= stats.processed <= i && stats.errors <= 1
    && (ok ==> stats.processed == i && stats.errors == 0)
    && stats.skipped == |Skips(messages, stats.processed - stats.errors, rule)|
    && was + stats.archived <= next <= was + stats.archived + stats.errors
  }

  lemma TalliedNothing(messages: seq<(nat, Mail)>, rule: Mail -> bool, next: nat)
    ensures Tallied(Stats(0, 0, 0, 0, 0), true, messages, 0, rule, next, next)
  {
    NoSkips(messages, rule);
  }

  lemma TalliedMeans(stats: Stats, ok: bool, messages: seq<(nat, Mail)>, i: nat, rule: Mail -> bool, was: nat,
      next: nat)
    requires i <= |messages| && Tallied(stats, ok, messages, i, rule, was, next)
    ensures stats.processed == stats.archived + stats.skipped + stats.duplicates + stats.errors
    ensures stats.errors <= stats.processed <= i && stats.errors <= 1
    ensures ok ==> stats.processed == i && stats.errors == 0
    ensures stats.skipped == |Skips(messages, stats.processed - stats.errors, rule)|
    ensures was + stats.archived <= next <= was + stats.archived + stats.errors
  {
  }

  lemma TalliedLater(stats: Stats, messages: seq<(nat, Mail)>, i: nat, rule: Mail -> bool, was: nat, next: nat)
    requires i < |messages| && Tallied(stats, false, messages, i, rule, was, next)
    ensures Tallied(stats, false, messages, i + 1, rule, was, next)
  {
  }

  lemma TalliedOne(stats: Stats, result: Result, fault: Fault, messages: seq<(nat, Mail)>, i: nat, rule: Mail -> bool,
                   was: nat, next: nat, onward: nat)
    requires i < |messages| && Tallied(stats, true, messages, i, rule, was, next)
    requires !result.Failed? ==> !fault.ContextCancelled? && (result.Skipped? <==> rule(messages[i].1))
    requires onward == next + (if result.Archived? then 1 else 0)
             || (result.Failed? && !fault.ContextCancelled? && onward == next + 1)
    ensures Tallied(Counted(stats, result, fault), !result.Failed?, messages, i + 1, rule, was, onward)
  {
    SkipsSnoc(messages, i, rule);
  }

  // ---------------------------------------------------------------- one event, field by field

  /** A file step that fails drops the session's sync. */
  lemma StepEffect(w: Imap, op: SyncOp)
    requires w.session.Some? && w.session.value.pending != [] && SyncEnabled(w.st, w.session.value.p, op)
    requires op.StageTorn? || op.Stage? || op.Rename? || op.Discard?
    ensures Next(w, Own(op, true)) == Stepped(w, op)
  {
  }

  lemma StageEffect(w: Imap, junk: Option<Mail>)
    requires w.session.Some? && w.session.value.pending != [] && w.session.value.p in w.st.syncs &&
      ImapSync.Phase(w).Checked?
    ensures var y := w.st.syncs[w.session.value.p]; var x := NextName(y); var ok := junk.None? && x !in w.st.tmp;
            var t := Next(w, Own(if junk.Some? then StageTorn(junk.value) else Stage, true));
            && t.st.tmp == (if junk.Some? then w.st.tmp[x := junk.value] else if ok then w.st.tmp[x := y.phase.mail]
                 else w.st.tmp)
            && t.st.filed == w.st.filed && SameTables(w, t) && t.done == w.done
            && t.session == (if ok then w.session else None)
            && t.st.syncs == (if ok then w.st.syncs[w.session.value.p :=
                 y.(serial := y.serial + 1, phase := Staged(y.phase.mail, y.phase.uid, x))]
                              else w.st.syncs - {w.session.value.p})
  {
    StepEffect(w, if junk.Some? then StageTorn(junk.value) else Stage);
    hide Next;
    if junk.Some? {
      var st := TornStep(w.st, w.session.value.p, junk.value);
      assert st.syncs - {w.session.value.p} == w.st.syncs - {w.session.value.p};
    } else {
      var st := StageStep(w.st, w.session.value.p);
      assert st.syncs - {w.session.value.p} == w.st.syncs - {w.session.value.p};
    }
  }

  lemma CommitEffect(w: Imap, fails: bool)
    requires w.session.Some? && w.session.value.pending != [] && w.session.value.p in w.st.syncs &&
      ImapSync.Phase(w).Staged?
    ensures var y := w.st.syncs[w.session.value.p]; var x := y.phase.path; var ok := !fails && x in w.st.tmp;
            var t := Next(w, Own(if fails then Discard else Rename, true));
            && t.st.tmp == w.st.tmp - {x} && t.st.filed == (if ok then w.st.filed[x := w.st.tmp[x]] else w.st.filed)
            && SameTables(w, t) && t.done == w.done
            && t.session == (if ok then w.session else None)
            && t.st.syncs == (if ok then w.st.syncs[w.session.value.p :=
                 y.(phase := Renamed(y.phase.mail, y.phase.uid, x))]
                              else w.st.syncs - {w.session.value.p})
  {
    StepEffect(w, if fails then Discard else Rename);
    hide Next;
    if fails {
      var st := DiscardStep(w.st, w.session.value.p);
      assert st.syncs - {w.session.value.p} == w.st.syncs - {w.session.value.p};
    } else {
      var st := RenameStep(w.st, w.session.value.p);
      assert st.syncs - {w.session.value.p} == w.st.syncs - {w.session.value.p};
    }
  }

  lemma PersistEffect(w: Imap, mirror: bool, today: nat, now: nat, reported: bool)
    requires w.session.Some? && w.session.value.pending != [] && w.session.value.p in w.st.syncs &&
      ImapSync.Phase(w).Renamed?
    ensures var y := w.st.syncs[w.session.value.p]; var ok := !UidTaken(w.st.rows, y.account, y.folder, y.phase.uid);
            var t := Next(w, Own(Persist(mirror, today, now), reported)); var (id, q) := (w.st.nextRow, w.st.nextQueue);
            && t.st.tmp == w.st.tmp && t.st.filed == w.st.filed && t.account == w.account && t.folder == w.folder
            && t.st.rows == (if ok then w.st.rows[id :=
                 Row(y.account, y.folder, y.phase.uid, y.phase.mail, now, Local, Some(y.phase.path), None, false,
                   None)] else w.st.rows)
            && t.st.nextRow == (if ok then id + 1 else id)
            && t.st.folders == (if ok then Advanced(w.st.folders, y.folder, y.phase.uid) else w.st.folders)
            && t.st.queue == (if ok && mirror
                 then w.st.queue[q := QueueRow(id, MailKey(y.account, y.phase.mail, today), y.phase.path, Pending, 0)]
                   else w.st.queue)
            && t.st.nextQueue == (if ok && mirror then q + 1 else q)
            && t.done == (if ok then Record(w.done, w.session.value.pending[0].0, Kept(id)) else w.done)
            && t.session == (if ok && reported then Some(Advance(w.session.value)) else None)
            && t.st.syncs == (if ok && reported then w.st.syncs[w.session.value.p := y.(phase := Idle)]
                 else w.st.syncs - {w.session.value.p})
  {
  }

  lemma OpenEffect(w: Imap, p: nat, dir: nat, writer: nat)
    requires w.session.None? && p !in w.st.syncs
    ensures var e := Open(p, dir, writer); var t := Next(w, e); var folders :=
      Upserted(w.st.folders, w.folder, w.validity);
            && t == History(w, [e]) && t.account == w.account && t.folder == w.folder
            && t.st.tmp == w.st.tmp && t.st.filed == w.st.filed && t.st.rows == w.st.rows
            && t.st.nextRow == w.st.nextRow
            && t.st.queue == w.st.queue && t.st.nextQueue == w.st.nextQueue && t.st.folders == folders
            && t.st.syncs == w.st.syncs[p := Sync(w.account, w.folder, dir, writer, 0, Idle)]
            && t.session == Some(Session(p, FetchRange(w.mailbox, w.uidNext, folders[w.folder].lastUid + 1), None))
  {
    HistoryThen(w, [], Open(p, dir, writer));
    assert [] + [Open(p, dir, writer)] == [Open(p, dir, writer)];
  }

  lemma JudgeEffect(w: Imap, skip: bool, flags: string)
    requires w.session.Some? && w.session.value.pending != [] && w.session.value.verdict.None?
    requires w.session.value.p in w.st.syncs && ImapSync.Phase(w).Idle? &&
      w.st.syncs[w.session.value.p].account == w.account
    ensures var t := Next(w, Judge(skip, flags)); var (uid, mail) := w.session.value.pending[0];
            var over := skip || Archive.Duplicate(w.st.rows, w.account, mail);
            && t.st.tmp == w.st.tmp && t.st.filed == w.st.filed && SameTables(w, t) && t.done == w.done
            && t.session.Some?
            && t.session.value.p == w.session.value.p && t.session.value.pending == w.session.value.pending
            && t.session.value.verdict.Some? == over
            && t.st.syncs == (if over then w.st.syncs
                 else w.st.syncs[w.session.value.p :=
                   w.st.syncs[w.session.value.p].(phase := Checked(mail, flags, uid))])
  {
    JudgeHappens(w, skip, flags);
    hide Next, Archive.Duplicate;
    var (uid, mail) := w.session.value.pending[0];
    var y := w.st.syncs[w.session.value.p];
    if !skip && !Archive.Duplicate(w.st.rows, w.account, mail) {
      assert CheckStep(w.st, w.session.value.p, mail, flags, uid) ==
        w.st.(syncs := w.st.syncs[w.session.value.p := y.(phase := Checked(mail, flags, uid))]);
    }
  }

  lemma JudgeHappens(w: Imap, skip: bool, flags: string)
    requires w.session.Some? && w.session.value.pending != [] && w.session.value.verdict.None?
    requires w.session.value.p in w.st.syncs && ImapSync.Phase(w).Idle?
    ensures Next(w, Judge(skip, flags)) == Judged(w, skip, flags)
  {
  }

  /** The end of a run changes nothing that the run's fields hold. */
  lemma EndEffect(w: Imap, e: Event)
    requires w.session.Some? && (e.Fail? || (e.Close? && w.session.value.pending == []))
    ensures var t := Next(w, e);
            && t.st.tmp == w.st.tmp && t.st.filed == w.st.filed && t.st.rows == w.st.rows
            && t.st.nextRow == w.st.nextRow && t.st.folders == w.st.folders && t.st.queue == w.st.queue
            && t.st.nextQueue == w.st.nextQueue && t.account == w.account && t.folder == w.folder
            && t.done == w.done && t.session.None?
  {
  }

  ghost predicate SameTables(w: Imap, t: Imap) {
    && t.st.rows == w.st.rows && t.st.nextRow == w.st.nextRow && t.st.folders == w.st.folders
    && t.st.queue == w.st.queue && t.st.nextQueue == w.st.nextQueue
    && t.account == w.account && t.folder == w.folder
  }

  lemma GainedOneRow(x: Setting, was: Tables, t: Tables, uid: nat, mail: Mail, path: Path)
    requires Gained(x, was, t, uid, mail, path)
    ensures OneRow(was.rows, t.rows, was.nextRow, x.account, x.folder, uid, mail) && t.nextRow == was.nextRow + 1
  {
  }

  /** `rows` is `was` and one more row, for this message. */
  ghost predicate OneRow(was: map<nat, Row>, rows: map<nat, Row>, id: nat, account: nat, folder: nat, uid: nat,
      mail: Mail)
  {
    && id in rows && rows == was[id := rows[id]]
    && rows[id].account == account && rows[id].folder == folder && rows[id].uid == uid && rows[id].mail == mail
  }

  /** Storing the head does not change which later messages are rejected. */
  lemma StoreRejects(was: map<nat, Row>, rows: map<nat, Row>, id: nat, account: nat, folder: nat,
      list: seq<(nat, Mail)>, rule: Mail -> bool)
    requires list != [] && SortedAbove(list) && !rule(list[0].1) && !Archive.Duplicate(was, account, list[0].1)
    requires !UidTaken(was, account, folder, list[0].0) && id !in was &&
      OneRow(was, rows, id, account, folder, list[0].0, list[0].1)
    ensures AnyRejected(was, account, folder, list, rule) <==> AnyRejected(rows, account, folder, list[1..], rule)
    ensures (forall i :: i in was ==> i < id) ==> forall i :: i in rows ==> i < id + 1
  {
    RejectedAfterStore(was, rows, id, account, folder, list, rule);
  }

  lemma FirstRejected(rows: map<nat, Row>, account: nat, folder: nat, list: seq<(nat, Mail)>, rule: Mail -> bool)
    requires list != []
    ensures Rejected(rows, account, folder, list, rule, 0) ==> AnyRejected(rows, account, folder, list, rule)
  {
  }

  lemma NoneRejected(rows: map<nat, Row>, account: nat, folder: nat, list: seq<(nat, Mail)>, rule: Mail -> bool)
    ensures list == [] ==> !AnyRejected(rows, account, folder, list, rule)
  {
  }

  lemma RestOf(list: seq<(nat, Mail)>, i: nat)
    requires i < |list|
    ensures list[i..] != [] && list[i..][0] == list[i] && list[i..][1..] == list[i + 1..]
  {
  }

  lemma SuffixSorted(list: seq<(nat, Mail)>, i: nat)
    requires SortedAbove(list) && i <= |list|
    ensures SortedAbove(list[i..])
  {
  }

  class FolderRun {
    const account: nat
    const folder: nat
    const dir: nat
    const writer: nat
    const mirror: bool
    // Maildir
    var tmp: map<Path, Mail>
    var filed: map<Path, Mail>
    var serial: nat
    // SQLite
    var rows: map<nat, Row>
    var nextRow: nat
    var folders: map<nat, Folder>
    var queue: map<nat, QueueRow>
    var nextQueue: nat
    // the transition system alongside: where it started, its steps so far, where it stands
    ghost var start: Imap
    ghost var steps: seq<Event>
    ghost var world: Imap
    ghost var phase: Phase

    /** A new run: upsert the folder's UIDVALIDITY, a new Maildir writer, SELECT and FETCH. */
    constructor (w: Imap, p: nat, dir: nat, writer: nat, mirror: bool)
      requires w.session.None? && p !in w.st.syncs
      ensures folders == Upserted(w.st.folders, w.folder, w.validity)
      ensures start == w && At(FetchRange(w.mailbox, w.uidNext, folders[w.folder].lastUid + 1))
      ensures account == w.account && folder == w.folder && this.dir == dir && this.writer == writer && serial == 0
      ensures this.mirror == mirror && tmp == w.st.tmp && filed == w.st.filed
      ensures Holding() == Tables(w.st.rows, w.st.nextRow, w.st.queue, w.st.nextQueue)
    {
      hide Next, History, FetchRange;
      account, folder := w.account, w.folder;
      this.dir, this.writer, this.mirror := dir, writer, mirror;
      tmp, filed, rows, nextRow := w.st.tmp, w.st.filed, w.st.rows, w.st.nextRow;
      queue, nextQueue := w.st.queue, w.st.nextQueue;
      folders := if w.folder in w.st.folders && w.st.folders[w.folder].validity == w.validity then w.st.folders
                 else w.st.folders[w.folder := Folder(w.validity, 0)];
      serial, phase := 0, Idle;
      start, steps, world := w, [Open(p, dir, writer)], Next(w, Open(p, dir, writer));
      new;
      OpenEffect(w, p, dir, writer);
    }

    ghost function Holding(): Tables
      reads this
    {
      Tables(rows, nextRow, queue, nextQueue)
    }

    /** The tables and directories of `world` are the fields. */
    ghost predicate Durable()
      reads this
    {
      && world.st.tmp == tmp && world.st.filed == filed && world.st.rows == rows && world.st.nextRow == nextRow
      && world.st.folders == folders && world.st.queue == queue && world.st.nextQueue == nextQueue
      && world.account == account && world.folder == folder
    }

    /** The run goes on. */
    ghost predicate Running()
      reads this
    {
      && Durable() && world.session.Some? && world.session.value.p in world.st.syncs
      && world.st.syncs[world.session.value.p] == Sync(account, folder, dir, writer, serial, phase)
      && world == History(start, steps)
    }

    /** The run is over. */
    ghost predicate Closed()
      reads this
    {
      Durable() && world.session.None? && world == History(start, steps)
    }

    /** At a message: `pending` begins with it and nothing is decided yet. */
    ghost predicate At(list: seq<(nat, Mail)>)
      reads this
    {
      Running() && phase.Idle? && world.session.value.verdict.None? && world.session.value.pending == list
    }

    /** `uid` now has an outcome, and no outcome was lost. */
    static ghost predicate Grew(was: map<nat, Outcome>, done: map<nat, Outcome>, uid: nat) {
      uid in done && forall u :: u in was ==> u in done
    }

    ghost method Step(e: Event)
      requires world == History(start, steps)
      modifies this`world, this`steps
      ensures world == Next(old(world), e) && world == History(start, steps)
    {
      HistoryThen(start, steps, e);
      world := Next(world, e);
      steps := steps + [e];
    }

    /** `maildir.Writer.Stage`; `junk` are the bytes a failing write leaves behind. */
    method Stage(mail: Mail, flags: string, uid: nat, junk: Option<Mail>) returns (ok: bool, path: Path)
      requires Running() && phase == Checked(mail, flags, uid) && world.session.value.pending != []
      modifies this`tmp, this`serial, this`world, this`steps, this`phase
      ensures world == Next(old(world), Own(if junk.Some? then StageTorn(junk.value) else SyncOp.Stage, true))
      ensures if ok then Running() && phase == Staged(mail, uid, path) && tmp == old(tmp)[path := mail] else Closed()
      ensures path == Path(dir, writer, old(serial) + 1, flags)
      ensures ok == (junk.None? && Path(dir, writer, old(serial) + 1, flags) !in old(tmp))
      ensures ok ==> serial == old(serial) + 1 && world.session == old(world).session && world.done == old(world).done
    {
      hide Next, History;
      StageEffect(world, junk);
      serial := serial + 1;
      path := Path(dir, writer, serial, flags);
      ok := path !in tmp && junk.None?;
      if junk.Some? {
        tmp := tmp[path := junk.value];
      } else if path !in tmp {
        tmp := tmp[path := mail];
      }
      Step(Own(if junk.Some? then StageTorn(junk.value) else SyncOp.Stage, true));
      phase := if ok then Staged(mail, uid, path) else Idle;
    }

    /** `maildir.SweepAll`, run by another command. */
    method Sweep()
      requires Running()
      modifies this`tmp, this`world, this`steps
      ensures Running() && tmp == map[] && world == Next(old(world), Background(Action.Sweep))
      ensures world.session == old(world).session && world.done == old(world).done
    {
      tmp := map[];
      Step(Background(Action.Sweep));
    }

    /** `maildir.Writer.Commit`, followed by `Discard` when the rename fails. */
    method Commit(mail: Mail, uid: nat, path: Path, fails: bool) returns (ok: bool)
      requires Running() && phase == Staged(mail, uid, path) && world.session.value.pending != []
      modifies this`tmp, this`filed, this`world, this`steps, this`phase
      ensures world == Next(old(world), Own(if fails then SyncOp.Discard else SyncOp.Rename, true))
      ensures if ok then Running() && phase == Renamed(mail, uid, path) else Closed()
      ensures ok == (!fails && path in old(tmp))
      ensures tmp == old(tmp) - {path} && filed == (if ok then old(filed)[path := old(tmp)[path]] else old(filed))
      ensures ok ==> world.session == old(world).session && world.done == old(world).done
    {
      hide Next, History;
      CommitEffect(world, fails);
      ok := !fails && path in tmp;
      if ok {
        filed := filed[path := tmp[path]];
      }
      tmp := tmp - {path};
      Step(Own(if fails then SyncOp.Discard else SyncOp.Rename, true));
      phase := if ok then Renamed(mail, uid, path) else Idle;
    }

    /** The Single-Writer transaction: insert, enqueue, advance last_uid, or nothing. */
    method Persist(mail: Mail, uid: nat, path: Path, today: nat, now: nat, fault: Fault) returns (ok: bool)
      requires Running() && phase == Renamed(mail, uid, path)
      requires world.session.value.pending != [] && world.session.value.pending[0].0 == uid
      modifies this`rows, this`nextRow, this`folders, this`queue, this`nextQueue, this`world, this`steps, this`phase
      ensures world == Next(old(world), if fault.TransactionFails? then Event.Fail
        else Own(SyncOp.Persist(mirror, today, now), !fault.CommitUnreported?))
      ensures ok == (!fault.TransactionFails? && !fault.CommitUnreported? && !UidTaken(old(rows), account, folder, uid))
      ensures if ok then At(old(world).session.value.pending[1..]) else Closed()
      ensures ok ==> Grew(old(world).done, world.done, uid)
      ensures ok ==> OneRow(old(rows), rows, old(nextRow), account, folder, uid, mail)
      ensures if fault.TransactionFails? || UidTaken(old(rows), account, folder, uid) then Holding() == old(Holding())
              else Gained(Setting(account, folder, dir, writer, mirror, today, now), old(Holding()), Holding(), uid,
                mail, path)
    {
      hide Next, History, Advanced, MailKey, UidTaken, Gained, OneRow;
      if fault.TransactionFails? {
        EndEffect(world, Event.Fail);
        Step(Event.Fail);
        return false;
      }
      PersistEffect(world, mirror, today, now, !fault.CommitUnreported?);
      ghost var was := Holding();
      var committed := Insert(mail, uid, path, today, now);
      ok := committed && !fault.CommitUnreported?;
      Step(Own(SyncOp.Persist(mirror, today, now), !fault.CommitUnreported?));
      phase := Idle;
      if committed {
        GainedOneRow(Setting(account, folder, dir, writer, mirror, today, now), was, Holding(), uid, mail, path);
      }
    }

    /** The statements of that transaction; UNIQUE may reject the first. */
    method Insert(mail: Mail, uid: nat, path: Path, today: nat, now: nat) returns (committed: bool)
      modifies this`rows, this`nextRow, this`folders, this`queue, this`nextQueue
      ensures committed == !UidTaken(old(rows), account, folder, uid)
      ensures if committed then Gained(Setting(account, folder, dir, writer, mirror, today, now), old(Holding()),
        Holding(), uid, mail, path)
              else Holding() == old(Holding())
      ensures var (id, q) := (old(nextRow), old(nextQueue));
              && rows == (if committed then old(rows)[id :=
                   Row(account, folder, uid, mail, now, Local, Some(path), None, false, None)] else old(rows))
              && nextRow == (if committed then id + 1 else id)
              && folders == (if committed then Advanced(old(folders), folder, uid) else old(folders))
              && queue == (if committed && mirror
                   then old(queue)[q := QueueRow(id, MailKey(account, mail, today), path, Pending, 0)] else old(queue))
              && nextQueue == (if committed && mirror then q + 1 else q)
    {
      committed := !UidTaken(rows, account, folder, uid);
      if committed {
        rows := rows[nextRow := Row(account, folder, uid, mail, now, Local, Some(path), None, false, None)];
        if mirror {
          queue := queue[nextQueue := QueueRow(nextRow, MailKey(account, mail, today), path, Pending, 0)];
          nextQueue := nextQueue + 1;
        }
        nextRow := nextRow + 1;
        folders := Advanced(folders, folder, uid);
      }
    }

    /** `skipOne`: advance last_uid past a skipped or duplicate message. */
    method SkipOne(uid: nat, fault: Fault) returns (ok: bool)
      requires Running() && phase.Idle? && world.session.value.verdict.Some?
      requires world.session.value.pending != [] && world.session.value.pending[0].0 == uid
      modifies this`folders, this`world, this`steps
      ensures world == Next(old(world), PassOver(!fault.SkipFails? || fault.committed, !fault.SkipFails?))
      ensures ok == !fault.SkipFails?
      ensures ok ==> Grew(old(world).done, world.done, uid)
      ensures start == old(start)
      ensures if ok then At(old(world).session.value.pending[1..]) else Closed()
    {
      var committed := !fault.SkipFails? || fault.committed;
      if committed && folder in folders && folders[folder].lastUid < uid {
        folders := folders[folder := folders[folder].(lastUid := uid)];
      }
      ok := !fault.SkipFails?;
      Step(PassOver(committed, ok));
    }

    /** The file side of `ArchiveOne`: stage, then rename into new/. */
    method Deliver(mail: Mail, flags: string, uid: nat, fault: Fault) returns (ok: bool, path: Path)
      requires Running() && phase == Checked(mail, flags, uid) && world.session.value.pending != []
      modifies this`tmp, this`filed, this`serial, this`world, this`steps, this`phase
      ensures if ok then Running() && phase == Renamed(mail, uid, path) else Closed()
      ensures ok ==> world.session == old(world).session && world.done == old(world).done && serial == old(serial) + 1
      ensures ok ==> forall x :: x in tmp ==> x in old(tmp)
      ensures ok ==> path == Path(dir, writer, old(serial) + 1, flags) && filed == old(filed)[path := mail]
      ensures fault.NoFault? && Path(dir, writer, old(serial) + 1, flags) !in old(tmp) ==> ok
    {
      hide Next, History;
      ok, path := Stage(mail, flags, uid, if fault.StageFails? then Some(fault.junk) else None);
      if !ok { return; }
      if fault.SweptBeforeRename? {
        Sweep();
      }
      ok := Commit(mail, uid, path, fault.RenameFails?);
    }

    /** `ArchiveOne`: stage, rename, then the transaction. */
    method ArchiveOne(mail: Mail, flags: string, uid: nat, today: nat, now: nat, fault: Fault) returns (ok: bool)
      requires Running() && phase == Checked(mail, flags, uid)
      requires world.session.value.pending != [] && world.session.value.pending[0].0 == uid
      modifies this
      ensures if ok then At(old(world).session.value.pending[1..]) else Closed()
      ensures ok ==> OneRow(old(rows), rows, old(nextRow), account, folder, uid, mail) && nextRow == old(nextRow) + 1
      ensures ok ==> !UidTaken(old(rows), account, folder, uid) && Grew(old(world).done, world.done, uid)
      ensures ok ==> serial == old(serial) + 1
      ensures ok ==> forall x :: x in tmp ==> x in old(tmp)
      ensures !ok && !fault.CommitUnreported? ==> nextRow == old(nextRow)
      ensures old(nextRow) <= nextRow <= old(nextRow) + 1
      ensures var path := Path(dir, writer, old(serial) + 1, flags);
              && (ok ==> filed == old(filed)[path := mail])
              && (ok ==> Gained(Setting(account, folder, dir, writer, mirror, today, now), old(Holding()), Holding(),
                   uid, mail, path))
              && (ok || Holding() == old(Holding()) ||
                  (fault.CommitUnreported? && Gained(Setting(account, folder, dir, writer, mirror, today, now),
                    old(Holding()), Holding(), uid, mail, path)))
      ensures fault.NoFault? && Path(dir, writer, old(serial) + 1, flags) !in old(tmp) ==>
        ok || UidTaken(old(rows), account, folder, uid)
      ensures start == old(start)
    {
      hide Next, History, UidTaken, Grew, OneRow, Gained;
      ghost var was := Holding();
      var path;
      ok, path := Deliver(mail, flags, uid, fault);
      if ok {
        ok := Persist(mail, uid, path, today, now, fault);
      }
      if Gained(Setting(account, folder, dir, writer, mirror, today, now), was, Holding(), uid, mail, path) {
        GainedOneRow(Setting(account, folder, dir, writer, mirror, today, now), was, Holding(), uid, mail, path);
      }
    }

    /** The names this run's writer has not given out are unused in tmp/. */
    ghost predicate NamesFree()
      reads this
    {
      NamesUnused(tmp, Sync(account, folder, dir, writer, serial, Idle))
    }

    /** The duplicate check of a message that no rule skips. */
    method CheckHead(messages: seq<(nat, Mail)>, flags: string, skip: bool) returns (duplicate: bool)
      requires At(messages) && messages != []
      modifies this`world, this`steps, this`phase
      ensures world == Next(old(world), Judge(skip, flags))
      ensures duplicate == (!skip && Archive.Duplicate(rows, account, messages[0].1))
      ensures Running() && world.session.value.pending == messages && world.done == old(world).done
      ensures if skip || duplicate then phase.Idle? && world.session.value.verdict.Some?
              else phase == Checked(messages[0].1, flags, messages[0].0)
    {
      hide Next, History, Archive.Duplicate;
      duplicate := !skip && Archive.Duplicate(rows, account, messages[0].1);
      JudgeEffect(world, skip, flags);
      Step(Judge(skip, flags));
      if !skip && !duplicate {
        phase := Checked(messages[0].1, flags, messages[0].0);
      }
    }

    /** The body of the loop: rule, duplicate check, then `skipOne` or `ArchiveOne`. */
    method HandleMessage(messages: seq<(nat, Mail)>, flags: string, rule: Mail -> bool, fault: Fault, today: nat,
        now: nat)
      returns (result: Result)
      requires At(messages) && messages != [] && SortedAbove(messages)
      requires forall id :: id in rows ==> id < nextRow
      modifies this
      ensures start == old(start)
      ensures if result.Failed? then Closed() else At(messages[1..])
      ensures !result.Failed? ==> Grew(old(world).done, world.done, messages[0].0)
      ensures !result.Failed? ==> forall id :: id in rows ==> id < nextRow
      ensures fault.ContextCancelled? ==> result.Failed? && nextRow == old(nextRow)
      ensures nextRow == old(nextRow) +
        (if result.Archived? then 1 else 0) || (result.Failed? && nextRow == old(nextRow) + 1)
      ensures fault.NoFault? && old(NamesFree()) && result.Failed? ==>
        Rejected(old(rows), account, folder, messages, rule, 0)
      ensures !result.Failed? ==>
                (AnyRejected(old(rows), account, folder, messages, rule) <==>
                  AnyRejected(rows, account, folder, messages[1..], rule))
      ensures old(NamesFree()) && !result.Failed? ==> NamesFree()
      ensures !result.Failed? ==>
        result == if rule(messages[0].1) then Skipped
                  else if Archive.Duplicate(old(rows), account, messages[0].1) then Result.Duplicate else Archived
      ensures var (uid, mail) := messages[0]; var path := Path(dir, writer, old(serial) + 1, flags);
              && (result.Archived? ==> Gained(Setting(account, folder, dir, writer, mirror, today, now),
                   old(Holding()), Holding(), uid, mail, path))
              && (result.Archived? || Holding() == old(Holding()) ||
                  (result.Failed? && Gained(Setting(account, folder, dir, writer, mirror, today, now), old(Holding()),
                    Holding(), uid, mail, path)))
    {
      hide Next, History, AnyRejected, Grew, OneRow, Archive.Duplicate, UidTaken, Gained;
      var (uid, mail) := messages[0];
      var skip := rule(mail);
      if fault.ContextCancelled? || fault.BodyUnreadable? || (!skip && fault.DuplicateCheckFails? && !Blank(mail)) {
        End(true);
        return Result.Failed;
      }
      var duplicate := CheckHead(messages, flags, skip);
      if skip || duplicate {
        RejectedAfterPass(rows, account, folder, messages, rule);
        var ok := SkipOne(uid, fault);
        return if !ok then Result.Failed else if skip then Skipped else Result.Duplicate;
      }
      ghost var before, id := rows, nextRow;
      var ok := ArchiveOne(mail, flags, uid, today, now, fault);
      if ok {
        StoreRejects(before, rows, id, account, folder, messages, rule);
      }
      return if ok then Archived else Result.Failed;
    }

    /** The end of the channel: FETCH failed, or every message was handled. */
    method End(fetchFails: bool)
      requires Running() && (fetchFails || world.session.value.pending == [])
      modifies this`world, this`steps
      ensures world == Next(old(world), if fetchFails then Event.Fail else Close)
      ensures Closed() && world.done == old(world).done
    {
      hide Next, History;
      EndEffect(world, if fetchFails then Event.Fail else Close);
      Step(if fetchFails then Event.Fail else Close);
    }

    /** The loop of `FetchNewMessages`: stop at the first failure, and drain the rest of the
        channel without touching it. Of the range asked for, FETCH delivers the first
        `delivered` messages; if it fails, that is the run's error unless there was one. */
    method FetchNewMessages(messages: seq<(nat, Mail)>, delivered: nat, fetchFails: bool, flagsOf: nat -> string,
                            rule: Mail -> bool, faults: nat -> Fault, today: nat, now: nat)
      returns (stats: Stats, ok: bool)
      requires At(messages) && SortedAbove(messages)
      requires delivered <= |messages| && (delivered < |messages| ==> fetchFails)
      requires forall id :: id in rows ==> id < nextRow
      modifies this
      ensures Closed() && start == old(start)
      ensures stats.processed == stats.archived + stats.skipped + stats.duplicates + stats.errors
      ensures ok ==> stats.processed == |messages| && stats.errors == 0 && !fetchFails
      ensures ok ==> forall i :: 0 <= i < |messages| ==> messages[i].0 in world.done
      ensures old(nextRow) + stats.archived <= nextRow <= old(nextRow) + stats.archived + stats.errors
      ensures (forall i :: faults(i).NoFault?) && !fetchFails && old(NamesFree()) ==>
                (ok <==> !AnyRejected(old(rows), account, folder, messages, rule))
      ensures Extends(Setting(account, folder, dir, writer, mirror, today, now), old(Holding()), Holding())
      ensures FromMessages(old(Holding()), Holding(), messages, flagsOf)
      ensures stats.errors <= stats.processed <= |messages| && stats.errors <= 1
      ensures stats.skipped == |Skips(messages, stats.processed - stats.errors, rule)|
    {
      hide Next, History, AnyRejected, Rejected, SameTables, Extends, IsMessage, Gained, Skips, Counted, Tallied,
        NamesUnused,
        Archive.Duplicate;
      stats, ok := Stats(0, 0, 0, 0, 0), true;
      ghost var was, before, x := rows, Holding(), Setting(account, folder, dir, writer, mirror, today, now);
      ExtendsNothing(x, before);
      TalliedNothing(messages, rule, nextRow);
      for i := 0 to delivered
        invariant start == old(start)
        invariant if ok then At(messages[i..]) else Closed()
        invariant ok ==> forall id :: id in rows ==> id < nextRow
        invariant ok ==> forall j :: 0 <= j < i ==> messages[j].0 in world.done
        invariant ok && old(NamesFree()) ==> NamesFree()
        invariant ok ==> (AnyRejected(was, account, folder, messages, rule) <==>
          AnyRejected(rows, account, folder, messages[i..], rule))
        invariant !ok && (forall i :: faults(i).NoFault?) && old(NamesFree()) ==>
          AnyRejected(was, account, folder, messages, rule)
        invariant Extends(x, before, Holding()) && FromMessages(before, Holding(), messages, flagsOf)
        invariant Tallied(stats, ok, messages, i, rule, before.nextRow, nextRow)
      {
        if !ok {
          TalliedLater(stats, messages, i, rule, before.nextRow, nextRow);
          continue;
        }
        ghost var middle, path := Holding(), Path(dir, writer, serial + 1, flagsOf(i));
        var rest := messages[i..];
        RestOf(messages, i);
        FirstRejected(rows, account, folder, rest, rule);
        SuffixSorted(messages, i);
        var result := HandleMessage(rest, flagsOf(i), rule, faults(i), today, now);
        ok := !result.Failed?;
        TalliedOne(stats, result, faults(i), messages, i, rule, before.nextRow, middle.nextRow, nextRow);
        ExtendsOne(x, before, middle, Holding(), messages[i].0, messages[i].1, path);
        OneMoreMessage(x, before, middle, Holding(), messages, flagsOf, i, path);
        stats := Counted(stats, result, faults(i));
      }
      TalliedMeans(stats, ok, messages, delivered, rule, before.nextRow, nextRow);
      if ok {
        NoneRejected(rows, account, folder, messages[delivered..], rule);
        End(fetchFails);
        ok := !fetchFails;
      }
    }
  }

  /** A whole folder run from any reachable state: it keeps the watermark law whatever fails,
      and without faults it succeeds exactly when UNIQUE rejects nothing FETCH returns. */
  method SyncFolder(w: Imap, p: nat, dir: nat, writer: nat, mirror: bool, delivered: nat, fetchFails: bool,
                    flagsOf: nat -> string, rule: Mail -> bool, faults: nat -> Fault, today: nat, now: nat)
    returns (run: FolderRun, stats: Stats, ok: bool)
    requires ImapInv(w) && w.session.None? && p !in w.st.syncs
    requires var range := FetchRange(w.mailbox, w.uidNext, Watermark(w) + 1);
             delivered <= |range| && (delivered < |range| ==> fetchFails)
    ensures fresh(run) && run.start == w && run.Closed()
    ensures ImapInv(run.world) && NothingPassedBy(run.world)
    ensures var was := Tables(w.st.rows, w.st.nextRow, w.st.queue, w.st.nextQueue);
            && Extends(Setting(w.account, w.folder, dir, writer, mirror, today, now), was, run.Holding())
            && FromMessages(was, run.Holding(), FetchRange(w.mailbox, w.uidNext, Watermark(w) + 1), flagsOf)
    ensures AtRest(w, p, dir, writer) && (forall i :: faults(i).NoFault?) && !fetchFails ==>
              (ok <==> !AnyRejected(w.st.rows, w.account, w.folder,
                FetchRange(w.mailbox, w.uidNext, Watermark(w) + 1), rule))
  {
    hide Next, History, AnyRejected, Extends, IsMessage, SortedAbove, Ascending, Highest;
    run := new FolderRun(w, p, dir, writer, mirror);
    var range := FetchRange(w.mailbox, w.uidNext, Watermark(w) + 1);
    FetchRangeCovers(w, Watermark(w) + 1);
    stats, ok := run.FetchNewMessages(range, delivered, fetchFails, flagsOf, rule, faults, today, now);
    WatermarkNeverPassesMail(w, run.steps);
  }
}
