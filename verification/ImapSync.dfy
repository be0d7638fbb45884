/** One IMAP folder and its UID watermark. A server (arrivals, expunges, a new UIDVALIDITY),
    the folder's fetch session, background uploads, retention and sweeps, and kills are
    interleaved step by step over the archive of module `Archive`. */
module ImapSync {
  import opened Options
  import opened Archive

  /** Why a message needs no further handling. */
  datatype Outcome = Kept(id: nat) | SkippedByRule | FoundDuplicate

  /** A running `FetchNewMessages`: what FETCH returned and was not handled yet, and the
      verdict on its head when that head is to be passed over. */
  datatype Session = Session(p: nat, pending: seq<(nat, Mail)>, verdict: Option<Outcome>)

  /** `done` is history: the outcome of every message of the current UIDVALIDITY. */
  datatype Imap = Imap(st: State, account: nat, folder: nat,
                       validity: nat, mailbox: map<nat, Mail>, uidNext: nat,
                       session: Option<Session>, done: map<nat, Outcome>)

  datatype Event =
    | Arrive(mail: Mail)
    | Gap
    | Expunge(uid: nat)
    | Renumber(validity: nat, mailbox: map<nat, Mail>, uidNext: nat)
    | Background(a: Action)
    | Open(p: nat, dir: nat, writer: nat)
    | Judge(skip: bool, flags: string)
    | PassOver(committed: bool, reported: bool)
    | Own(op: SyncOp, reported: bool)
    | Fail
    | Kill
    | Close

  // ---------------------------------------------------------------- FETCH

  /** The messages with lo <= UID < hi, ascending. */
  function Ascending(mailbox: map<nat, Mail>, lo: nat, hi: nat): seq<(nat, Mail)>
    decreases hi - lo
  {
    if lo >= hi then []
    else (if lo in mailbox then [(lo, mailbox[lo])] else []) + Ascending(mailbox, lo + 1, hi)
  }

  /** The message with the highest UID below hi. */
  function Highest(mailbox: map<nat, Mail>, hi: nat): seq<(nat, Mail)> {
    if hi == 0 then []
    else if hi - 1 in mailbox then [(hi - 1, mailbox[hi - 1])]
    else Highest(mailbox, hi - 1)
  }

  /** "UID FETCH start:*" after the check against UIDNEXT. With nothing at or above `start`,
      the range still names the highest message (RFC 3501, section 9, seq-range). */
  function FetchRange(mailbox: map<nat, Mail>, uidNext: nat, start: nat): seq<(nat, Mail)> {
    if start >= uidNext then []
    else
      var found := Ascending(mailbox, start, uidNext);
      if found == [] then Highest(mailbox, uidNext) else found
  }

  // ---------------------------------------------------------------- steps

  function Phase(w: Imap): Phase
    requires w.session.Some? && w.session.value.p in w.st.syncs
  {
    w.st.syncs[w.session.value.p].phase
  }

  function Ended(st: State, p: nat): State {
    st.(syncs := st.syncs - {p})
  }

  function Stopped(w: Imap, st: State): Imap
    requires w.session.Some?
  {
    w.(st := Ended(st, w.session.value.p), session := None)
  }

  function Record(done: map<nat, Outcome>, uid: nat, o: Outcome): map<nat, Outcome> {
    if uid in done then done else done[uid := o]
  }

  function Advance(s: Session): Session
    requires s.pending != []
  {
    s.(pending := s.pending[1..], verdict := None)
  }

  /** A step of anything but this folder's own sync: uploads, retention, sweeps, and the syncs
      of every other folder, of this account or another. */
  predicate Elsewhere(s: State, folder: nat, a: Action) {
    match a
    case OfUpload(_, _) => true
    case OfRetention(_, _, _) => true
    case Sweep => true
    case Upsert(f, _) => f != folder
    case Begin(_, _, f, _, _) => f != folder
    case OfSync(p, _) => p in s.syncs && s.syncs[p].folder != folder
    case Crash => false
  }

  /** `SyncFolders` (upsert of the folder's UIDVALIDITY), SELECT and FETCH. */
  function Opened(w: Imap, p: nat, dir: nat, writer: nat): Imap {
    var folders := Upserted(w.st.folders, w.folder, w.validity);
    w.(st := Started(w.st.(folders := folders), p, w.account, w.folder, dir, writer),
       session := Some(Session(p, FetchRange(w.mailbox, w.uidNext, folders[w.folder].lastUid + 1), None)))
  }

  /** Rule evaluation, then the duplicate check. */
  function Judged(w: Imap, skip: bool, flags: string): Imap
    requires w.session.Some? && w.session.value.pending != [] && w.session.value.p in w.st.syncs && Phase(w).Idle?
  {
    var s := w.session.value;
    var (uid, mail) := s.pending[0];
    var verdict := if skip then Some(SkippedByRule)
      else if Duplicate(w.st.rows, w.account, mail) then Some(FoundDuplicate) else None;
    w.(st := if verdict.Some? then w.st else CheckStep(w.st, s.p, mail, flags, uid),
       session := Some(s.(verdict := verdict)))
  }

  /** `skipOne`: the watermark transaction of a skipped or duplicate message. */
  function PassedOver(w: Imap, committed: bool, reported: bool): Imap
    requires w.session.Some? && w.session.value.pending != [] && w.session.value.verdict.Some?
  {
    var s := w.session.value;
    var uid := s.pending[0].0;
    var st := if committed then w.st.(folders := Advanced(w.st.folders, w.folder, uid)) else w.st;
    var onward := committed && reported;
    w.(st := if onward then st else Ended(st, s.p),
       done := if committed then Record(w.done, uid, s.verdict.value) else w.done,
       session := if onward then Some(Advance(s)) else None)
  }

  /** A file step of `ArchiveOne` on the head; a failed one ends the session. */
  function Stepped(w: Imap, op: SyncOp): Imap
    requires w.session.Some? && SyncEnabled(w.st, w.session.value.p, op)
  {
    var p := w.session.value.p;
    var st := SyncEffect(w.st, p, op);
    var failed := p in st.syncs && st.syncs[p].phase.Idle?;
    w.(st := if failed then Ended(st, p) else st, session := if failed then None else w.session)
  }

  /** The transaction of `ArchiveOne`. It ends the session when UNIQUE rejects the insert,
      and when it commits but `Do` returns the context's error. */
  function Persisted(w: Imap, op: SyncOp, reported: bool): Imap
    requires w.session.Some? && w.session.value.pending != []
    requires op.Persist? && SyncEnabled(w.st, w.session.value.p, op)
  {
    var s := w.session.value;
    var st := PersistStep(w.st, s.p, op.mirror, op.today, op.now);
    var committed := st.nextRow > w.st.nextRow;
    var onward := committed && reported;
    w.(st := if onward then st else Ended(st, s.p),
       done := if committed then Record(w.done, s.pending[0].0, Kept(w.st.nextRow)) else w.done,
       session := if onward then Some(Advance(s)) else None)
  }

  function Next(w: Imap, e: Event): Imap {
    match e
    case Arrive(mail) => w.(mailbox := w.mailbox[w.uidNext := mail], uidNext := w.uidNext + 1)
    case Gap => w.(uidNext := w.uidNext + 1)
    case Expunge(uid) => w.(mailbox := w.mailbox - {uid})
    case Renumber(validity, mailbox, uidNext) =>
      if w.session.None? && validity > w.validity && uidNext > 0 && forall uid :: uid in mailbox ==> 0 < uid < uidNext
      then w.(validity := validity, mailbox := mailbox, uidNext := uidNext, done := map[]) else w
    case Background(a) => if Elsewhere(w.st, w.folder, a) then w.(st := Act(w.st, a)) else w
    case Open(p, dir, writer) =>
      if w.session.None? && p !in w.st.syncs then Opened(w, p, dir, writer) else w
    case Judge(skip, flags) =>
      if w.session.Some? && w.session.value.pending != [] && w.session.value.verdict.None? &&
         w.session.value.p in w.st.syncs && Phase(w).Idle?
      then Judged(w, skip, flags) else w
    case PassOver(committed, reported) =>
      if w.session.Some? && w.session.value.pending != [] && w.session.value.verdict.Some?
      then PassedOver(w, committed, reported) else w
    case Own(op, reported) =>
      if w.session.Some? && w.session.value.pending != [] && SyncEnabled(w.st, w.session.value.p, op) &&
         (op.StageTorn? || op.Stage? || op.Rename? || op.Discard? || op.Persist?)
      then if op.Persist? then Persisted(w, op, reported) else Stepped(w, op)
      else w
    case Fail => if w.session.Some? then Stopped(w, w.st) else w
    case Kill => w.(st := Act(w.st, Crash), session := None)
    case Close => if w.session.Some? && w.session.value.pending == [] then Stopped(w, w.st) else w
  }

  function History(w: Imap, events: seq<Event>): Imap
    decreases |events|
  {
    if events == [] then w else History(Next(w, events[0]), events[1..])
  }

  lemma {:induction false} HistoryThen(w: Imap, events: seq<Event>, e: Event)
    ensures History(w, events + [e]) == Next(History(w, events), e)
    decreases |events|
  {
    if events == [] {
      assert events + [e] == [e];
      assert History(Next(w, e), []) == Next(w, e);
    } else {
      assert (events + [e])[1..] == events[1..] + [e];
      HistoryThen(Next(w, events[0]), events[1..], e);
    }
  }

  // ---------------------------------------------------------------- the watermark law

  predicate Current(w: Imap) {
    w.folder in w.st.folders && w.st.folders[w.folder].validity == w.validity
  }

  /** The durable last_uid, as far as it speaks about the server's present UIDs. */
  function Watermark(w: Imap): nat {
    if Current(w) then w.st.folders[w.folder].lastUid else 0
  }

  /** Every message at or below the watermark is accounted for. */
  ghost predicate NothingPassedBy(w: Imap) {
    forall uid :: uid in w.mailbox && uid <= Watermark(w) ==> uid in w.done
  }

  /** A stored message's row, while retention keeps it, holds that message under that UID. */
  ghost predicate StoredRows(w: Imap) {
    forall uid :: uid in w.done && w.done[uid].Kept? ==>
      var id := w.done[uid].id;
      && id < w.st.nextRow
      && (id in w.st.rows ==>
            && w.st.rows[id].account == w.account && w.st.rows[id].folder == w.folder && w.st.rows[id].uid == uid
            && (uid in w.mailbox ==> w.st.rows[id].mail == w.mailbox[uid]))
  }

  ghost predicate SortedAbove(pending: seq<(nat, Mail)>) {
    forall i, j :: 0 <= i < j < |pending| ==> pending[i].0 < pending[j].0
  }

  ghost predicate In(pending: seq<(nat, Mail)>, uid: nat) {
    exists i :: 0 <= i < |pending| && pending[i].0 == uid
  }

  /** Every unhandled message of the mailbox is pending or lies beyond everything pending. */
  ghost predicate Covers(w: Imap, pending: seq<(nat, Mail)>) {
    forall uid :: uid in w.mailbox && uid !in w.done ==>
      In(pending, uid) || forall i :: 0 <= i < |pending| ==> pending[i].0 < uid
  }

  ghost predicate SessionAgrees(w: Imap, s: Session) {
    && s.p in w.st.syncs && w.st.syncs[s.p].account == w.account && w.st.syncs[s.p].folder == w.folder
    && Current(w)
    && SortedAbove(s.pending)
    && (forall i :: 0 <= i < |s.pending| ==> 0 < s.pending[i].0 < w.uidNext)
    && (forall i :: 0 <= i < |s.pending| && s.pending[i].0 in w.mailbox ==> w.mailbox[s.pending[i].0] == s.pending[i].1)
    && Covers(w, s.pending)
    && (s.verdict.Some? ==> s.pending != [] && w.st.syncs[s.p].phase.Idle? && !s.verdict.value.Kept?)
    && (!w.st.syncs[s.p].phase.Idle? ==>
          s.pending != [] && w.st.syncs[s.p].phase.uid == s.pending[0].0 &&
            w.st.syncs[s.p].phase.mail == s.pending[0].1)
  }

  /** Ids are given out once, and UNIQUE holds. */
  ghost predicate RowsSound(s: State) {
    (forall id :: id in s.rows ==> id < s.nextRow) && UidsUnique(s.rows)
  }

  ghost predicate ImapInv(w: Imap) {
    && w.uidNext > 0
    && (forall uid :: uid in w.mailbox ==> 0 < uid < w.uidNext)
    && (w.folder in w.st.folders ==> w.st.folders[w.folder].validity <= w.validity)
    && Watermark(w) < w.uidNext
    && (forall uid :: uid in w.done ==> uid <= Watermark(w))
    && RowsSound(w.st)
    && NothingPassedBy(w)
    && StoredRows(w)
    && (w.session.Some? ==> SessionAgrees(w, w.session.value))
  }

  /** A folder that was never synced, on an empty archive, whatever its mailbox holds. */
  lemma FirstSyncIsSound(account: nat, folder: nat, validity: nat, mailbox: map<nat, Mail>, uidNext: nat)
    requires uidNext > 0 && forall uid :: uid in mailbox ==> 0 < uid < uidNext
    ensures ImapInv(Imap(EMPTY, account, folder, validity, mailbox, uidNext, None, map[]))
  {
  }

  lemma {:induction false} AscendingFinds(mailbox: map<nat, Mail>, lo: nat, hi: nat)
    ensures var a := Ascending(mailbox, lo, hi);
            && SortedAbove(a)
            && (forall i :: 0 <= i < |a| ==> lo <= a[i].0 < hi && a[i].0 in mailbox && a[i].1 == mailbox[a[i].0])
            && (forall uid :: uid in mailbox && lo <= uid < hi ==> In(a, uid))
    decreases hi - lo
  {
    if lo < hi {
      AscendingFinds(mailbox, lo + 1, hi);
      var a, rest := Ascending(mailbox, lo, hi), Ascending(mailbox, lo + 1, hi);
      forall uid | uid in mailbox && lo <= uid < hi ensures In(a, uid) {
        if uid == lo {
          assert a[0].0 == lo;
        } else {
          var i :| 0 <= i < |rest| && rest[i].0 == uid;
          assert a[i + |a| - |rest|] == rest[i];
        }
      }
    }
  }

  lemma {:induction false} HighestFinds(mailbox: map<nat, Mail>, hi: nat)
    ensures var a := Highest(mailbox, hi);
            |a| <= 1 && (a != [] ==> a[0].0 < hi && a[0].0 in mailbox && a[0].1 == mailbox[a[0].0])
  {
    if hi > 0 && hi - 1 !in mailbox {
      HighestFinds(mailbox, hi - 1);
    }
  }

  /** The fetched range misses nothing at or above its start and repeats only older mail. */
  lemma FetchRangeCovers(w: Imap, start: nat)
    requires ImapInv(w) && (forall uid :: uid in w.mailbox && uid < start ==> uid in w.done)
    ensures var a := FetchRange(w.mailbox, w.uidNext, start);
            && SortedAbove(a) && Covers(w, a)
            && (forall i :: 0 <= i < |a| ==> a[i].0 in w.mailbox && a[i].1 == w.mailbox[a[i].0])
  {
    AscendingFinds(w.mailbox, start, w.uidNext);
    HighestFinds(w.mailbox, w.uidNext);
    var a := FetchRange(w.mailbox, w.uidNext, start);
    var found := Ascending(w.mailbox, start, w.uidNext);
    forall uid | uid in w.mailbox && uid !in w.done ensures In(a, uid) {
      assert In(found, uid);
    }
  }

  lemma OpenKeeps(w: Imap, p: nat, dir: nat, writer: nat)
    requires ImapInv(w) && w.session.None? && p !in w.st.syncs
    ensures ImapInv(Opened(w, p, dir, writer))
  {
    var t := Opened(w, p, dir, writer);
    assert Watermark(t) == Watermark(w);
    FetchRangeCovers(w, Watermark(w) + 1);
  }

  lemma StoppedKeeps(w: Imap)
    requires ImapInv(w) && w.session.Some?
    ensures ImapInv(Stopped(w, w.st))
  {
  }

  lemma ServerKeeps(w: Imap, e: Event)
    requires ImapInv(w)
    requires e.Arrive? || e.Gap? || e.Expunge? || e.Renumber?
    ensures ImapInv(Next(w, e))
  {
    hide UidsUnique;
    var t := Next(w, e);
    if e.Renumber? && t != w {
      assert !Current(t);
    }
  }

  /** Such a step leaves this folder's watermark and syncs alone; of the rows it removes some,
      changes where others have their content, and adds only rows of other folders. */
  ghost predicate Frame(folder: nat, s: State, t: State) {
    && (folder in t.folders <==> folder in s.folders) &&
         (folder in s.folders ==> t.folders[folder] == s.folders[folder])
    && (forall p :: p in s.syncs && s.syncs[p].folder == folder ==> p in t.syncs && t.syncs[p] == s.syncs[p])
    && s.nextRow <= t.nextRow
    && (forall id :: id in t.rows ==>
          || (id in s.rows && SameMessage(t.rows[id], s.rows[id]))
          || (s.nextRow <= id < t.nextRow && t.rows[id].folder != folder))
  }

  lemma UploadFrame(s: State, folder: nat, q: nat, op: UploadOp)
    requires UploadEnabled(s, q, op) && RowsSound(s)
    ensures Frame(folder, s, UploadEffect(s, q, op)) && RowsSound(UploadEffect(s, q, op))
  {
  }

  lemma RetainFrame(s: State, folder: nat, k: (nat, nat), op: RetainOp)
    requires RetainEnabled(s, k, op) && RowsSound(s)
    ensures Frame(folder, s, RetainEffect(s, k, op)) && RowsSound(RetainEffect(s, k, op))
  {
    hide Cascaded;
  }

  /** The inserted row is the only one under its UID. */
  lemma PersistSound(s: State, p: nat, mirror: bool, today: nat, now: nat)
    requires p in s.syncs && s.syncs[p].phase.Renamed? && RowsSound(s)
    ensures RowsSound(PersistStep(s, p, mirror, today, now))
  {
    hide NewQueueRow, Advanced;
  }

  lemma PersistFrame(s: State, folder: nat, p: nat, mirror: bool, today: nat, now: nat)
    requires p in s.syncs && s.syncs[p].folder != folder && s.syncs[p].phase.Renamed? && RowsSound(s)
    ensures var t := PersistStep(s, p, mirror, today, now); Frame(folder, s, t) && RowsSound(t)
  {
    hide NewQueueRow, UidsUnique, UidTaken;
    PersistSound(s, p, mirror, today, now);
  }

  lemma SyncFrame(s: State, folder: nat, p: nat, op: SyncOp)
    requires SyncEnabled(s, p, op) && s.syncs[p].folder != folder && RowsSound(s)
    ensures Frame(folder, s, SyncEffect(s, p, op)) && RowsSound(SyncEffect(s, p, op))
  {
    hide PersistStep, UidsUnique;
    if op.Persist? {
      PersistFrame(s, folder, p, op.mirror, op.today, op.now);
    }
  }

  /** Steps that touch no row. */
  lemma RowlessFrame(folder: nat, s: State, t: State)
    requires t.rows == s.rows && t.nextRow == s.nextRow
    requires folder in t.folders <==> folder in s.folders
    requires folder in s.folders ==> t.folders[folder] == s.folders[folder]
    requires forall p :: p in s.syncs && s.syncs[p].folder == folder ==> p in t.syncs && t.syncs[p] == s.syncs[p]
    ensures Frame(folder, s, t)
  {
  }

  lemma UpsertFrame(s: State, folder: nat, f: nat, validity: nat)
    requires f != folder
    ensures var t := Act(s, Upsert(f, validity)); Frame(folder, s, t) && t.rows == s.rows && t.nextRow == s.nextRow
  {
    hide Frame;
    RowlessFrame(folder, s, Act(s, Upsert(f, validity)));
  }

  lemma StartedFrame(s: State, folder: nat, p: nat, account: nat, f: nat, dir: nat, writer: nat)
    requires p !in s.syncs
    ensures var t := Started(s, p, account, f, dir, writer);
            Frame(folder, s, t) && t.rows == s.rows && t.nextRow == s.nextRow
  {
    hide Frame;
    RowlessFrame(folder, s, Started(s, p, account, f, dir, writer));
  }

  lemma BeginFrame(s: State, folder: nat, p: nat, account: nat, f: nat, dir: nat, writer: nat)
    requires f != folder
    ensures var t := Act(s, Begin(p, account, f, dir, writer));
            Frame(folder, s, t) && t.rows == s.rows && t.nextRow == s.nextRow
  {
    hide Frame, Started;
    RowlessFrame(folder, s, s);
    if p !in s.syncs && f in s.folders {
      StartedFrame(s, folder, p, account, f, dir, writer);
    }
  }

  lemma SweepFrame(s: State, folder: nat)
    ensures var t := Act(s, Sweep); Frame(folder, s, t) && t.rows == s.rows && t.nextRow == s.nextRow
  {
    hide Frame;
    RowlessFrame(folder, s, Act(s, Sweep));
  }

  lemma BackgroundFrame(s: State, folder: nat, a: Action)
    requires Elsewhere(s, folder, a) && RowsSound(s)
    ensures Frame(folder, s, Act(s, a)) && RowsSound(Act(s, a))
  {
    hide SyncEffect, UploadEffect, RetainEffect, UidsUnique, Frame;
    RowlessFrame(folder, s, s);
    match a
    case Upsert(f, validity) => UpsertFrame(s, folder, f, validity);
    case Begin(p, account, f, dir, writer) => BeginFrame(s, folder, p, account, f, dir, writer);
    case Sweep => SweepFrame(s, folder);
    case OfUpload(q, op) => if UploadEnabled(s, q, op) { UploadFrame(s, folder, q, op); }
    case OfRetention(pass, id, op) => if RetainEnabled(s, (pass, id), op) { RetainFrame(s, folder, (pass, id), op); }
    case OfSync(p, op) => if SyncEnabled(s, p, op) { SyncFrame(s, folder, p, op); }
  }

  lemma BackgroundKeeps(w: Imap, a: Action)
    requires ImapInv(w) && Elsewhere(w.st, w.folder, a)
    ensures ImapInv(w.(st := Act(w.st, a)))
  {
    hide Act, Elsewhere, UidsUnique, SortedAbove;
    BackgroundFrame(w.st, w.folder, a);
  }

  lemma JudgeKeeps(w: Imap, skip: bool, flags: string)
    requires ImapInv(w) && w.session.Some? && w.session.value.pending != [] && w.session.value.verdict.None? &&
      Phase(w).Idle?
    ensures ImapInv(Judged(w, skip, flags))
  {
  }

  /** Handling the head keeps the coverage of the rest. */
  lemma AdvanceCovers(w: Imap, s: Session, o: Outcome)
    requires s.pending != [] && Covers(w, s.pending) && SortedAbove(s.pending)
    ensures Covers(w.(done := Record(w.done, s.pending[0].0, o)), s.pending[1..])
    ensures forall uid :: uid in w.mailbox && uid <= s.pending[0].0 ==> uid in Record(w.done, s.pending[0].0, o)
  {
    var rest := s.pending[1..];
    forall uid | uid in w.mailbox && uid !in w.done && uid != s.pending[0].0
      ensures (In(rest, uid) || forall i :: 0 <= i < |rest| ==> rest[i].0 < uid) && s.pending[0].0 < uid
    {
      if In(s.pending, uid) {
        var i :| 0 <= i < |s.pending| && s.pending[i].0 == uid;
        assert rest[i - 1].0 == uid;
      }
    }
  }

  lemma PassOverKeeps(w: Imap, committed: bool, reported: bool)
    requires ImapInv(w) && w.session.Some? && w.session.value.pending != [] && w.session.value.verdict.Some?
    ensures ImapInv(PassedOver(w, committed, reported))
  {
    var s := w.session.value;
    AdvanceCovers(w, s, s.verdict.value);
    if !committed {
      StoppedKeeps(w);
    }
  }

  lemma PersistRowsKeep(w: Imap, op: SyncOp, reported: bool)
    requires ImapInv(w) && w.session.Some? && w.session.value.pending != []
    requires op.Persist? && SyncEnabled(w.st, w.session.value.p, op)
    ensures RowsSound(Persisted(w, op, reported).st)
  {
    hide Covers, NothingPassedBy, SortedAbove, UidsUnique, UidTaken, StoredRows, Record, NewRow, NewQueueRow;
    PersistSound(w.st, w.session.value.p, op.mirror, op.today, op.now);
  }

  lemma PersistStored(w: Imap, op: SyncOp, reported: bool)
    requires ImapInv(w) && w.session.Some? && w.session.value.pending != []
    requires op.Persist? && SyncEnabled(w.st, w.session.value.p, op)
    ensures StoredRows(Persisted(w, op, reported))
  {
    hide Covers, NothingPassedBy, SortedAbove, UidsUnique, UidTaken, NewQueueRow, Advanced;
  }

  lemma PersistKeeps(w: Imap, op: SyncOp, reported: bool)
    requires ImapInv(w) && w.session.Some? && w.session.value.pending != []
    requires op.Persist? && SyncEnabled(w.st, w.session.value.p, op)
    ensures ImapInv(Persisted(w, op, reported))
  {
    hide Watermark, Current, NothingPassedBy, RowsSound, StoredRows, SessionAgrees;
    PersistSessionKeeps(w, op, reported);
    PersistRowsKeep(w, op, reported);
    PersistStored(w, op, reported);
    PersistWatermarkKeeps(w, op, reported);
  }

  lemma PersistWatermarkKeeps(w: Imap, op: SyncOp, reported: bool)
    requires ImapInv(w) && w.session.Some? && w.session.value.pending != []
    requires op.Persist? && SyncEnabled(w.st, w.session.value.p, op)
    ensures var t := Persisted(w, op, reported);
            && t.mailbox == w.mailbox && t.uidNext == w.uidNext
            && (t.folder in t.st.folders ==> t.st.folders[t.folder].validity <= t.validity)
            && Watermark(t) < t.uidNext && (forall uid :: uid in t.done ==> uid <= Watermark(t)) && NothingPassedBy(t)
  {
    hide UidsUnique, StoredRows, Covers;
    AdvanceCovers(w, w.session.value, Kept(w.st.nextRow));
  }

  lemma PersistSessionKeeps(w: Imap, op: SyncOp, reported: bool)
    requires ImapInv(w) && w.session.Some? && w.session.value.pending != []
    requires op.Persist? && SyncEnabled(w.st, w.session.value.p, op)
    ensures var t := Persisted(w, op, reported); t.session.Some? ==> SessionAgrees(t, t.session.value)
  {
    hide UidsUnique, StoredRows, NothingPassedBy;
    AdvanceCovers(w, w.session.value, Kept(w.st.nextRow));
  }

  lemma FileStepKeeps(w: Imap, op: SyncOp)
    requires ImapInv(w) && w.session.Some? && SyncEnabled(w.st, w.session.value.p, op)
    requires op.StageTorn? || op.Stage? || op.Rename? || op.Discard?
    ensures ImapInv(Stepped(w, op))
  {
  }

  lemma NextKeeps(w: Imap, e: Event)
    requires ImapInv(w)
    ensures ImapInv(Next(w, e))
  {
    if Next(w, e) != w {
      match e
      case Background(a) => BackgroundKeeps(w, a);
      case Open(p, dir, writer) => OpenKeeps(w, p, dir, writer);
      case Judge(skip, flags) => JudgeKeeps(w, skip, flags);
      case PassOver(committed, reported) => PassOverKeeps(w, committed, reported);
      case Own(op, reported) => if op.Persist? { PersistKeeps(w, op, reported); } else { FileStepKeeps(w, op); }
      case Fail => StoppedKeeps(w);
      case Kill =>
      case Close => StoppedKeeps(w);
      case _ => ServerKeeps(w, e);
    }
  }

  /** After any history, each message at or below the durable watermark was stored (its row,
      while kept, being the only one under that UID), skipped by a rule, or a duplicate. */
  lemma {:induction false} WatermarkNeverPassesMail(w: Imap, events: seq<Event>)
    requires ImapInv(w)
    ensures ImapInv(History(w, events))
    ensures NothingPassedBy(History(w, events)) && StoredRows(History(w, events)) &&
      UidsUnique(History(w, events).st.rows)
    decreases |events|
  {
    if events != [] {
      NextKeeps(w, events[0]);
      WatermarkNeverPassesMail(Next(w, events[0]), events[1..]);
    }
  }
}
