/** Fault-free IMAP runs: exactly when a run leaves nothing unhandled, what keeps that so
    within one UIDVALIDITY, and why a new UIDVALIDITY can block a folder for good. */
module ImapDrain {
  import opened Options
  import opened Archive
  import opened ImapSync

  // ---------------------------------------------------------------- a run without faults

  /** The head of the fetched range, handled without any fault. */
  function Handle(w: Imap, rule: Mail -> bool, mirror: bool): Imap
    requires w.session.Some? && w.session.value.pending != []
  {
    var w1 := Next(w, Judge(rule(w.session.value.pending[0].1), ""));
    if w1.session.Some? && w1.session.value.verdict.Some? then Next(w1, PassOver(true, true))
    else Next(Next(Next(w1, Own(Stage, true)), Own(Rename, true)), Own(Persist(mirror, 0, 0), true))
  }

  function Drain(w: Imap, rule: Mail -> bool, mirror: bool): Imap
    decreases if w.session.Some? then |w.session.value.pending| else 0
  {
    if w.session.None? || w.session.value.pending == [] then w
    else
      var w1 := Handle(w, rule, mirror);
      if w1.session.Some? && |w1.session.value.pending| < |w.session.value.pending| then Drain(w1, rule, mirror) else w1
  }

  function FaultFreeRun(w: Imap, p: nat, dir: nat, writer: nat, rule: Mail -> bool, mirror: bool): Imap {
    Drain(Next(w, Open(p, dir, writer)), rule, mirror)
  }

  // ---------------------------------------------------------------- its exact condition

  ghost predicate NamesUnused(tmp: map<Path, Mail>, y: Sync) {
    forall x :: x in tmp && x.dir == y.dir && x.writer == y.writer ==> x.serial <= y.serial
  }

  /** Between two messages of a run. */
  ghost predicate Ready(w: Imap) {
    && w.session.Some? && w.session.value.verdict.None?
    && w.session.value.p in w.st.syncs
    && w.st.syncs[w.session.value.p].phase.Idle?
    && w.st.syncs[w.session.value.p].account == w.account && w.st.syncs[w.session.value.p].folder == w.folder
    && NamesUnused(w.st.tmp, w.st.syncs[w.session.value.p])
    && (forall id :: id in w.st.rows ==> id < w.st.nextRow)
    && SortedAbove(w.session.value.pending)
  }

  /** UNIQUE(account_id, folder_id, uid) will reject message i of the list: it is neither
      skipped nor a duplicate (of a row, or of an earlier message of the list that is not
      skipped), and a row already sits under its UID. */
  ghost predicate Rejected(rows: map<nat, Row>, account: nat, folder: nat, list: seq<(nat, Mail)>, rule: Mail -> bool,
      i: nat)
    requires i < |list|
  {
    var mail := list[i].1;
    && !rule(mail)
    && !Duplicate(rows, account, mail)
    && (Blank(mail) || forall j :: 0 <= j < i && !rule(list[j].1) ==> list[j].1.messageId != mail.messageId)
    && UidTaken(rows, account, folder, list[i].0)
  }

  ghost predicate AnyRejected(rows: map<nat, Row>, account: nat, folder: nat, list: seq<(nat, Mail)>,
      rule: Mail -> bool)
  {
    exists i :: 0 <= i < |list| && Rejected(rows, account, folder, list, rule, i)
  }

  /** The three ways a head can go. */
  lemma HandlePassesOver(w: Imap, rule: Mail -> bool, mirror: bool)
    requires Ready(w) && w.session.value.pending != []
    requires rule(w.session.value.pending[0].1) || Duplicate(w.st.rows, w.account, w.session.value.pending[0].1)
    ensures var t := Handle(w, rule, mirror);
            && Ready(t) && t.session.value.pending == w.session.value.pending[1..]
            && t.st.rows == w.st.rows && t.account == w.account && t.folder == w.folder && t.mailbox == w.mailbox
            && exists o :: t.done == Record(w.done, w.session.value.pending[0].0, o)
  {
    var s := w.session.value;
    var skip := rule(s.pending[0].1);
    var w1 := Judged(w, skip, "");
    assert Next(w, Judge(skip, "")) == w1;
    var t := PassedOver(w1, true, true);
    assert Handle(w, rule, mirror) == t;
    assert t.done == Record(w.done, s.pending[0].0, w1.session.value.verdict.value);
  }

  /** The state just before the transaction of `ArchiveOne`. */
  lemma HandleReachesPersist(w: Imap, rule: Mail -> bool, mirror: bool) returns (w3: Imap)
    requires Ready(w) && w.session.value.pending != []
    requires !rule(w.session.value.pending[0].1) && !Duplicate(w.st.rows, w.account, w.session.value.pending[0].1)
    ensures var s := w.session.value; var y := w.st.syncs[s.p];
            var x := Path(y.dir, y.writer, y.serial + 1, "");
            && w3 == w.(st := w.st.(filed := w.st.filed[x := s.pending[0].1],
                 syncs := w.st.syncs[s.p := y.(serial := y.serial + 1,
                   phase := Renamed(s.pending[0].1, s.pending[0].0, x))]))
            && Handle(w, rule, mirror) == Persisted(w3, Persist(mirror, 0, 0), true)
  {
    var s := w.session.value;
    var (uid, mail) := s.pending[0];
    var y := w.st.syncs[s.p];
    var x := Path(y.dir, y.writer, y.serial + 1, "");
    var w1 := w.(st := w.st.(syncs := w.st.syncs[s.p := y.(phase := Checked(mail, "", uid))]));
    var w2 := w.(st := w.st.(tmp := w.st.tmp[x := mail],
      syncs := w.st.syncs[s.p := y.(serial := y.serial + 1, phase := Staged(mail, uid, x))]));
    w3 := w.(st := w.st.(filed := w.st.filed[x := mail],
      syncs := w.st.syncs[s.p := y.(serial := y.serial + 1, phase := Renamed(mail, uid, x))]));
    JudgeStep(w, w1);
    StageStepped(w, w1, w2, mail, uid, x);
    RenameStepped(w, w2, w3, mail, uid, x);
    assert Next(w3, Own(Persist(mirror, 0, 0), true)) == Persisted(w3, Persist(mirror, 0, 0), true);
    hide Next, Persisted;
  }

  lemma JudgeStep(w: Imap, w1: Imap)
    requires Ready(w) && w.session.value.pending != [] && !Duplicate(w.st.rows, w.account, w.session.value.pending[0].1)
    requires var (uid, mail) := w.session.value.pending[0]; var y := w.st.syncs[w.session.value.p];
             w1 == w.(st := w.st.(syncs := w.st.syncs[w.session.value.p := y.(phase := Checked(mail, "", uid))]))
    ensures Next(w, Judge(false, "")) == w1
  {
    assert Next(w, Judge(false, "")) == Judged(w, false, "");
  }

  lemma StageStepped(w: Imap, w1: Imap, w2: Imap, mail: Mail, uid: nat, x: Path)
    requires Ready(w) && w.session.value.pending != []
    requires var p := w.session.value.p; var y := w.st.syncs[p];
             && x == Path(y.dir, y.writer, y.serial + 1, "")
             && w1 == w.(st := w.st.(syncs := w.st.syncs[p := y.(phase := Checked(mail, "", uid))]))
             && w2 == w.(st := w.st.(tmp := w.st.tmp[x := mail],
                  syncs := w.st.syncs[p := y.(serial := y.serial + 1, phase := Staged(mail, uid, x))]))
    ensures Next(w1, Own(Stage, true)) == w2
  {
    assert Next(w1, Own(Stage, true)) == Stepped(w1, Stage);
    assert SyncEffect(w1.st, w.session.value.p, Stage) == w2.st;
  }

  lemma RenameStepped(w: Imap, w2: Imap, w3: Imap, mail: Mail, uid: nat, x: Path)
    requires Ready(w) && w.session.value.pending != [] && x !in w.st.tmp
    requires var p := w.session.value.p; var y := w.st.syncs[p];
             && w2 == w.(st := w.st.(tmp := w.st.tmp[x := mail],
                  syncs := w.st.syncs[p := y.(serial := y.serial + 1, phase := Staged(mail, uid, x))]))
             && w3 == w.(st := w.st.(filed := w.st.filed[x := mail],
                  syncs := w.st.syncs[p := y.(serial := y.serial + 1, phase := Renamed(mail, uid, x))]))
    ensures Next(w2, Own(Rename, true)) == w3
  {
    assert Next(w2, Own(Rename, true)) == Stepped(w2, Rename);
    assert w2.st.tmp - {x} == w.st.tmp;
    assert SyncEffect(w2.st, w.session.value.p, Rename) == w3.st;
  }

  lemma HandleStores(w: Imap, rule: Mail -> bool, mirror: bool)
    requires Ready(w) && w.session.value.pending != []
    requires !rule(w.session.value.pending[0].1) && !Duplicate(w.st.rows, w.account, w.session.value.pending[0].1)
    requires !UidTaken(w.st.rows, w.account, w.folder, w.session.value.pending[0].0)
    ensures var t := Handle(w, rule, mirror); var s := w.session.value;
            && Ready(t) && t.session.value.pending == s.pending[1..]
            && t.account == w.account && t.folder == w.folder && t.mailbox == w.mailbox
            && w.st.nextRow in t.st.rows && t.st.rows == w.st.rows[w.st.nextRow := t.st.rows[w.st.nextRow]]
            && t.st.rows[w.st.nextRow].account == w.account && t.st.rows[w.st.nextRow].folder == w.folder
            && t.st.rows[w.st.nextRow].uid == s.pending[0].0 && t.st.rows[w.st.nextRow].mail == s.pending[0].1
            && t.done == Record(w.done, s.pending[0].0, Kept(w.st.nextRow))
  {
    var w3 := HandleReachesPersist(w, rule, mirror);
  }

  lemma HandleRejected(w: Imap, rule: Mail -> bool, mirror: bool)
    requires Ready(w) && w.session.value.pending != []
    requires !rule(w.session.value.pending[0].1) && !Duplicate(w.st.rows, w.account, w.session.value.pending[0].1)
    requires UidTaken(w.st.rows, w.account, w.folder, w.session.value.pending[0].0)
    ensures var t := Handle(w, rule, mirror);
            && t.session.None? && t.done == w.done && t.st.rows == w.st.rows && t.st.folders == w.st.folders
            && t.st.tmp == w.st.tmp && t.st.syncs == w.st.syncs - {w.session.value.p}
            && t.mailbox == w.mailbox && t.account == w.account && t.folder == w.folder
            && t.validity == w.validity && t.uidNext == w.uidNext
  {
    var w3 := HandleReachesPersist(w, rule, mirror);
  }

  /** Passing over the head of the list does not change which later messages are rejected. */
  lemma RejectedAfterPass(rows: map<nat, Row>, account: nat, folder: nat, list: seq<(nat, Mail)>, rule: Mail -> bool)
    requires list != [] && (rule(list[0].1) || Duplicate(rows, account, list[0].1))
    ensures AnyRejected(rows, account, folder, list, rule) <==> AnyRejected(rows, account, folder, list[1..], rule)
  {
    var rest := list[1..];
    forall i | 1 <= i < |list|
      ensures Rejected(rows, account, folder, list, rule, i) <==> Rejected(rows, account, folder, rest, rule, i - 1)
    {
      forall j | 0 <= j < i - 1 ensures rest[j] == list[j + 1] {}
      assert forall j :: 1 <= j < i ==> list[j] == rest[j - 1];
    }
    if AnyRejected(rows, account, folder, rest, rule) {
      var i :| 0 <= i < |rest| && Rejected(rows, account, folder, rest, rule, i);
      assert Rejected(rows, account, folder, list, rule, i + 1);
    }
    assert !Rejected(rows, account, folder, list, rule, 0);
  }

  /** Storing the head turns it into a row, and so changes nothing for the later messages. */
  lemma RejectedAfterStore(rows: map<nat, Row>, rows': map<nat, Row>, id: nat, account: nat, folder: nat,
                           list: seq<(nat, Mail)>, rule: Mail -> bool)
    requires list != [] && SortedAbove(list) && !rule(list[0].1) && !Duplicate(rows, account, list[0].1)
    requires !UidTaken(rows, account, folder, list[0].0)
    requires id !in rows && id in rows' && rows' == rows[id := rows'[id]]
    requires rows'[id].account == account && rows'[id].folder == folder && rows'[id].uid == list[0].0 &&
      rows'[id].mail == list[0].1
    ensures AnyRejected(rows, account, folder, list, rule) <==> AnyRejected(rows', account, folder, list[1..], rule)
  {
    var rest := list[1..];
    forall i | 1 <= i < |list|
      ensures Rejected(rows, account, folder, list, rule, i) <==> Rejected(rows', account, folder, rest, rule, i - 1)
    {
      var mail := list[i].1;
      assert rest[i - 1] == list[i];
      assert forall j :: 1 <= j < i ==> list[j] == rest[j - 1];
      assert forall j :: 0 <= j < i - 1 ==> rest[j] == list[j + 1];
      assert HasMessage(rows', account, mail.messageId) <==>
        HasMessage(rows, account, mail.messageId) || mail.messageId == list[0].1.messageId by {
        if HasMessage(rows, account, mail.messageId) {
          var r :| r in rows && rows[r].account == account && rows[r].mail.messageId == mail.messageId;
          assert r in rows' && rows'[r] == rows[r];
        }
      }
      assert UidTaken(rows', account, folder, list[i].0) <==> UidTaken(rows, account, folder, list[i].0) by {
        if UidTaken(rows, account, folder, list[i].0) {
          var r :| r in rows && rows[r].account == account && rows[r].folder == folder && rows[r].uid == list[i].0;
          assert r in rows' && rows'[r] == rows[r];
        }
        assert list[0].0 != list[i].0;
      }
    }
    if AnyRejected(rows', account, folder, rest, rule) {
      var i :| 0 <= i < |rest| && Rejected(rows', account, folder, rest, rule, i);
      assert Rejected(rows, account, folder, list, rule, i + 1);
    }
    assert !Rejected(rows, account, folder, list, rule, 0);
  }

  ghost predicate AllDone(done: map<nat, Outcome>, list: seq<(nat, Mail)>) {
    forall i :: 0 <= i < |list| ==> list[i].0 in done
  }

  /** Draining a list of unhandled messages handles all of them iff none is rejected. */
  lemma {:induction false} DrainHandlesAllIff(w: Imap, rule: Mail -> bool, mirror: bool)
    requires Ready(w)
    requires forall i :: 0 <= i < |w.session.value.pending| ==> w.session.value.pending[i].0 !in w.done
    ensures var t := Drain(w, rule, mirror); var list := w.session.value.pending;
            && (AllDone(t.done, list) <==> !AnyRejected(w.st.rows, w.account, w.folder, list, rule))
            && (AllDone(t.done, list) ==> t.session.Some?)
            && t.mailbox == w.mailbox
            && forall uid :: uid in w.done ==> uid in t.done
    decreases |w.session.value.pending|
  {
    var list := w.session.value.pending;
    if list != [] {
      var w1 := Handle(w, rule, mirror);
      assert w1 == Handle(w, rule, mirror);
      if rule(list[0].1) || Duplicate(w.st.rows, w.account, list[0].1) {
        HandlePassesOver(w, rule, mirror);
        RejectedAfterPass(w.st.rows, w.account, w.folder, list, rule);
        DrainTail(w, w1, rule, mirror);
      } else if !UidTaken(w.st.rows, w.account, w.folder, list[0].0) {
        HandleStores(w, rule, mirror);
        RejectedAfterStore(w.st.rows, w1.st.rows, w.st.nextRow, w.account, w.folder, list, rule);
        DrainTail(w, w1, rule, mirror);
      } else {
        HandleRejected(w, rule, mirror);
        assert Rejected(w.st.rows, w.account, w.folder, list, rule, 0);
        assert list[0].0 !in w1.done;
      }
    }
  }

  /** The induction step shared by the two successful cases. */
  lemma {:induction false} DrainTail(w: Imap, w1: Imap, rule: Mail -> bool, mirror: bool)
    requires Ready(w) && w.session.value.pending != [] && w1 == Handle(w, rule, mirror)
    requires forall i :: 0 <= i < |w.session.value.pending| ==> w.session.value.pending[i].0 !in w.done
    requires Ready(w1) && w1.session.value.pending == w.session.value.pending[1..] && w1.mailbox == w.mailbox
    requires exists o :: w1.done == Record(w.done, w.session.value.pending[0].0, o)
    ensures var t := Drain(w, rule, mirror); var list := w.session.value.pending;
            && (AllDone(t.done, list) <==> !AnyRejected(w1.st.rows, w1.account, w1.folder, list[1..], rule))
            && (AllDone(t.done, list) ==> t.session.Some?)
            && t.mailbox == w.mailbox
            && forall uid :: uid in w.done ==> uid in t.done
    decreases |w.session.value.pending|, 0
  {
    var list := w.session.value.pending;
    assert forall i :: 0 <= i < |list| - 1 ==> list[1..][i] == list[i + 1];
    DrainHandlesAllIff(w1, rule, mirror);
    var t := Drain(w1, rule, mirror);
    assert AllDone(t.done, list) <==> AllDone(t.done, list[1..]) by {
      if AllDone(t.done, list[1..]) {
        forall i | 0 <= i < |list| ensures list[i].0 in t.done {
          if i > 0 { assert list[1..][i - 1] == list[i]; }
        }
      }
    }
  }

  /** A folder at rest, about to be fetched by a writer whose names are unused in tmp/. */
  ghost predicate AtRest(w: Imap, p: nat, dir: nat, writer: nat) {
    ImapInv(w) && w.session.None? && p !in w.st.syncs && forall x :: x in w.st.tmp ==>
      x.dir != dir || x.writer != writer
  }

  /** What FETCH would return of the mail above the watermark. */
  function Waiting(w: Imap): seq<(nat, Mail)> {
    Ascending(w.mailbox, Watermark(w) + 1, w.uidNext)
  }

  lemma OpenedIsReady(w: Imap, p: nat, dir: nat, writer: nat)
    requires AtRest(w, p, dir, writer)
    ensures var o := Opened(w, p, dir, writer);
            && Next(w, Open(p, dir, writer)) == o && Ready(o) && ImapInv(o)
            && o.st.rows == w.st.rows && o.done == w.done && o.mailbox == w.mailbox && Watermark(o) == Watermark(w)
            && o.account == w.account && o.folder == w.folder && o.uidNext == w.uidNext && o.validity == w.validity
            && o.session.value.p == p && o.st.tmp == w.st.tmp && o.st.syncs - {p} == w.st.syncs
            && o.session.value.pending == FetchRange(w.mailbox, w.uidNext, Watermark(w) + 1)
  {
    OpenKeeps(w, p, dir, writer);
    FetchRangeCovers(w, Watermark(w) + 1);
  }

  /** The waiting messages are exactly the unhandled ones. */
  lemma WaitingAreUnhandled(w: Imap)
    requires ImapInv(w)
    ensures SortedAbove(Waiting(w))
    ensures forall i :: 0 <= i < |Waiting(w)| ==> Waiting(w)[i].0 in w.mailbox && Waiting(w)[i].0 !in w.done
    ensures forall uid :: uid in w.mailbox && uid !in w.done ==> In(Waiting(w), uid)
  {
    AscendingFinds(w.mailbox, Watermark(w) + 1, w.uidNext);
  }

  /** A fault-free run leaves nothing unhandled exactly when UNIQUE rejects none of the
      waiting messages, a condition on the stored rows alone. */
  lemma FaultFreeRunHandlesAllIff(w: Imap, p: nat, dir: nat, writer: nat, rule: Mail -> bool, mirror: bool)
    requires AtRest(w, p, dir, writer)
    ensures var t := FaultFreeRun(w, p, dir, writer, rule, mirror);
            (forall uid :: uid in w.mailbox ==> uid in t.done) <==>
            !AnyRejected(w.st.rows, w.account, w.folder, Waiting(w), rule)
  {
    OpenedIsReady(w, p, dir, writer);
    WaitingAreUnhandled(w);
    var o := Opened(w, p, dir, writer);
    var t, list := Drain(o, rule, mirror), Waiting(w);
    DrainKeepsDone(o, rule, mirror);
    if list != [] {
      DrainHandlesAllIff(o, rule, mirror);
      assert AllDone(t.done, list) <==> forall uid :: uid in w.mailbox ==> uid in t.done;
    }
  }

  lemma {:induction false} DrainKeepsDone(w: Imap, rule: Mail -> bool, mirror: bool)
    requires Ready(w)
    ensures forall uid :: uid in w.done ==> uid in Drain(w, rule, mirror).done
    decreases |w.session.value.pending|
  {
    var list := w.session.value.pending;
    if list != [] {
      if rule(list[0].1) || Duplicate(w.st.rows, w.account, list[0].1) {
        HandlePassesOver(w, rule, mirror);
        DrainKeepsDone(Handle(w, rule, mirror), rule, mirror);
      } else if !UidTaken(w.st.rows, w.account, w.folder, list[0].0) {
        HandleStores(w, rule, mirror);
        DrainKeepsDone(Handle(w, rule, mirror), rule, mirror);
      } else {
        HandleRejected(w, rule, mirror);
      }
    }
  }

  // ---------------------------------------------------------------- within one UIDVALIDITY

  /** The folder's rows carry UIDs at or below the watermark, or UIDs given by a folder move. */
  ghost predicate CleanEpoch(w: Imap) {
    forall id :: id in w.st.rows && w.st.rows[id].account == w.account && w.st.rows[id].folder == w.folder ==>
      w.st.rows[id].uid <= Watermark(w) || w.st.rows[id].uid >= MOVE_BASE
  }

  lemma CleanPersist(w: Imap, op: SyncOp, reported: bool)
    requires ImapInv(w) && CleanEpoch(w) && w.session.Some? && w.session.value.pending != []
    requires op.Persist? && SyncEnabled(w.st, w.session.value.p, op)
    ensures CleanEpoch(Persisted(w, op, reported))
  {
  }

  lemma CleanServer(w: Imap, e: Event)
    requires ImapInv(w) && CleanEpoch(w) && !e.Renumber? && !e.Background? && !e.Own? && !e.PassOver?
    ensures CleanEpoch(Next(w, e))
  {
    hide Covers, StoredRows, UidsUnique, NothingPassedBy, SortedAbove;
  }

  lemma CleanPassOver(w: Imap, committed: bool, reported: bool)
    requires CleanEpoch(w) && w.session.Some? && w.session.value.pending != [] && w.session.value.verdict.Some?
    ensures CleanEpoch(PassedOver(w, committed, reported))
  {
  }

  /** Whatever the syncs of other folders insert, it is not a row of this one. */
  lemma CleanBackground(w: Imap, a: Action)
    requires ImapInv(w) && CleanEpoch(w) && Elsewhere(w.st, w.folder, a)
    ensures CleanEpoch(w.(st := Act(w.st, a)))
  {
    hide Act, Elsewhere, UidsUnique, StoredRows, NothingPassedBy, SessionAgrees;
    BackgroundFrame(w.st, w.folder, a);
  }

  lemma CleanFileStep(w: Imap, op: SyncOp)
    requires CleanEpoch(w) && w.session.Some? && SyncEnabled(w.st, w.session.value.p, op)
    requires op.StageTorn? || op.Stage? || op.Rename? || op.Discard?
    ensures CleanEpoch(Stepped(w, op))
  {
  }

  lemma CleanStays(w: Imap, e: Event)
    requires ImapInv(w) && CleanEpoch(w) && !e.Renumber?
    ensures CleanEpoch(Next(w, e))
  {
    hide ImapInv;
    if Next(w, e) != w {
      match e
      case Background(a) => CleanBackground(w, a);
      case Own(op, reported) =>
        if op.Persist? { CleanPersist(w, op, reported); } else { CleanFileStep(w, op); }
      case PassOver(committed, reported) => CleanPassOver(w, committed, reported);
      case _ => CleanServer(w, e);
    }
  }

  lemma CleanRunHandlesAll(w: Imap, p: nat, dir: nat, writer: nat, rule: Mail -> bool, mirror: bool)
    requires AtRest(w, p, dir, writer) && CleanEpoch(w) && w.uidNext <= MOVE_BASE
    ensures forall uid :: uid in w.mailbox ==> uid in FaultFreeRun(w, p, dir, writer, rule, mirror).done
  {
    hide FaultFreeRun, ImapInv;
    FaultFreeRunHandlesAllIff(w, p, dir, writer, rule, mirror);
    AscendingFinds(w.mailbox, Watermark(w) + 1, w.uidNext);
  }

  /** Within one UIDVALIDITY, and below the UIDs of folder moves, every history leaves the
      folder in a state from which one fault-free run handles everything. */
  lemma {:induction false} CleanEpochRecovers(w: Imap, events: seq<Event>, p: nat, dir: nat, writer: nat,
      rule: Mail -> bool, mirror: bool)
    requires ImapInv(w) && CleanEpoch(w)
    requires forall i :: 0 <= i < |events| ==> !events[i].Renumber?
    requires var h := History(w, events); AtRest(h, p, dir, writer) && h.uidNext <= MOVE_BASE
    ensures var h := History(w, events);
            forall uid :: uid in h.mailbox ==> uid in FaultFreeRun(h, p, dir, writer, rule, mirror).done
    decreases |events|
  {
    hide ImapInv, CleanEpoch, Next, FaultFreeRun, AtRest;
    if events == [] {
      CleanRunHandlesAll(w, p, dir, writer, rule, mirror);
    } else {
      NextKeeps(w, events[0]);
      CleanStays(w, events[0]);
      CleanEpochRecovers(Next(w, events[0]), events[1..], p, dir, writer, rule, mirror);
    }
  }

  // ---------------------------------------------------------------- across a new UIDVALIDITY

  /** The message under `uid` waits, and row `id`, perhaps left over from an older UIDVALIDITY,
      sits under the same UID. The duplicate check does not recognise the message. */
  ghost predicate Blocked(w: Imap, id: nat, uid: nat) {
    && uid in w.mailbox && !Duplicate(w.st.rows, w.account, w.mailbox[uid])
    && id in w.st.rows && w.st.rows[id].account == w.account && w.st.rows[id].folder == w.folder
    && w.st.rows[id].uid == uid
  }

  /** Nothing has been decided about that message. */
  ghost predicate Undecided(w: Imap, uid: nat) {
    && uid !in w.done
    && (w.session.Some? && w.session.value.verdict.Some? ==>
          w.session.value.pending != [] && w.session.value.pending[0].0 != uid)
  }

  /** The step is not a rule that skips the message. */
  predicate Unskipped(w: Imap, e: Event, uid: nat) {
    e.Judge? && e.skip && w.session.Some? && w.session.value.pending != [] ==> w.session.value.pending[0].0 != uid
  }

  ghost predicate StaysBlocked(w: Imap, events: seq<Event>, id: nat, uid: nat)
    decreases |events|
  {
    && Blocked(w, id, uid)
    && (events != [] ==> Unskipped(w, events[0], uid) && StaysBlocked(Next(w, events[0]), events[1..], id, uid))
  }

  lemma JudgeUndecided(w: Imap, id: nat, uid: nat, skip: bool, flags: string)
    requires Blocked(w, id, uid) && Undecided(w, uid) && Unskipped(w, Judge(skip, flags), uid)
    requires w.session.Some? && w.session.value.pending != [] && w.session.value.p in w.st.syncs
    requires w.st.syncs[w.session.value.p].phase.Idle?
    requires SessionAgrees(w, w.session.value)
    ensures Undecided(Judged(w, skip, flags), uid)
  {
    hide CheckStep, Duplicate, Covers, SortedAbove;
  }

  /** UNIQUE rejects the blocked message. */
  lemma PersistUndecided(w: Imap, id: nat, uid: nat, op: SyncOp, reported: bool)
    requires Blocked(w, id, uid) && Undecided(w, uid)
    requires w.session.Some? && w.session.value.pending != [] && SessionAgrees(w, w.session.value)
    requires op.Persist? && SyncEnabled(w.st, w.session.value.p, op)
    ensures Undecided(Persisted(w, op, reported), uid)
  {
    hide Duplicate, Covers, SortedAbove;
  }

  lemma NextUndecided(w: Imap, e: Event, id: nat, uid: nat)
    requires ImapInv(w) && Undecided(w, uid) && Blocked(w, id, uid) && Unskipped(w, e, uid)
    ensures Undecided(Next(w, e), uid)
  {
    hide Act, Duplicate, Judged, Persisted, SessionAgrees, StoredRows, NothingPassedBy, UidsUnique, Blocked, Unskipped;
    if Next(w, e) != w {
      match e
      case Judge(skip, flags) => JudgeUndecided(w, id, uid, skip, flags);
      case Own(op, reported) => if op.Persist? { PersistUndecided(w, id, uid, op, reported); }
      case _ =>
    }
  }

  /** While a message is blocked, no history handles it or anything above it, and the watermark
      stays below its UID. */
  lemma {:induction false} BlockedMailStays(w: Imap, events: seq<Event>, id: nat, uid: nat)
    requires ImapInv(w) && Undecided(w, uid) && StaysBlocked(w, events, id, uid)
    ensures var h := History(w, events); ImapInv(h) && Watermark(h) < uid && forall u :: u in h.done ==> u < uid
    decreases |events|
  {
    hide Next, Duplicate, Unskipped, UidsUnique, StoredRows, SessionAgrees;
    if events != [] {
      NextKeeps(w, events[0]);
      NextUndecided(w, events[0], id, uid);
      BlockedMailStays(Next(w, events[0]), events[1..], id, uid);
    }
  }

  /** A new UIDVALIDITY blocks the folder: the row of the old one that has the UID of a new
      message stops every history at that UID, for as long as the row stays, the message stays,
      no rule skips it and no other row has its Message-ID. */
  lemma NewValidityBlocksFolder(w: Imap, id: nat, validity: nat, mailbox: map<nat, Mail>, uidNext: nat,
      events: seq<Event>)
    requires ImapInv(w) && w.session.None? && id in w.st.rows && validity > w.validity && uidNext > 0
    requires forall uid :: uid in mailbox ==> 0 < uid < uidNext
    requires StaysBlocked(Next(w, Renumber(validity, mailbox, uidNext)), events, id, w.st.rows[id].uid)
    ensures var uid := w.st.rows[id].uid;
            var h := History(Next(w, Renumber(validity, mailbox, uidNext)), events);
            ImapInv(h) && Watermark(h) < uid && forall u :: u in h.done ==> u < uid
  {
    NextKeeps(w, Renumber(validity, mailbox, uidNext));
    BlockedMailStays(Next(w, Renumber(validity, mailbox, uidNext)), events, id, w.st.rows[id].uid);
  }

  // ---------------------------------------------------------------- run after run

  lemma HandleKeeps(w: Imap, rule: Mail -> bool, mirror: bool)
    requires ImapInv(w) && w.session.Some? && w.session.value.pending != []
    ensures ImapInv(Handle(w, rule, mirror))
  {
    var skip := rule(w.session.value.pending[0].1);
    var w1 := Next(w, Judge(skip, ""));
    NextKeeps(w, Judge(skip, ""));
    NextKeeps(w1, PassOver(true, true));
    NextKeeps(w1, Own(Stage, true));
    NextKeeps(Next(w1, Own(Stage, true)), Own(Rename, true));
    NextKeeps(Next(Next(w1, Own(Stage, true)), Own(Rename, true)), Own(Persist(mirror, 0, 0), true));
  }

  /** What FETCH returns begins with the lowest unhandled message. */
  lemma LowestFirst(w: Imap, uid: nat)
    requires ImapInv(w) && uid in w.mailbox && uid !in w.done
    requires forall u :: u in w.mailbox && u !in w.done ==> u >= uid
    ensures var list := FetchRange(w.mailbox, w.uidNext, Watermark(w) + 1);
            list != [] && list[0] == (uid, w.mailbox[uid])
  {
    WaitingAreUnhandled(w);
    AscendingFinds(w.mailbox, Watermark(w) + 1, w.uidNext);
    var list := Waiting(w);
    assert In(list, uid);
    var i :| 0 <= i < |list| && list[i].0 == uid;
    assert list[0].0 >= uid;
  }

  /** A fault-free run whose first message is blocked fails, and leaves the folder as it was. */
  lemma BlockedRun(w: Imap, id: nat, uid: nat, p: nat, dir: nat, writer: nat, rule: Mail -> bool, mirror: bool)
    requires AtRest(w, p, dir, writer) && Blocked(w, id, uid) && uid !in w.done && !rule(w.mailbox[uid])
    requires forall u :: u in w.mailbox && u !in w.done ==> u >= uid
    ensures var t := FaultFreeRun(w, p, dir, writer, rule, mirror);
            && ImapInv(t) && t.session.None? && t.done == w.done && t.mailbox == w.mailbox
            && t.account == w.account && t.folder == w.folder
            && t.st.rows == w.st.rows && t.st.tmp == w.st.tmp && t.st.syncs == w.st.syncs
  {
    hide Next, Handle, ImapInv, Opened, Duplicate, FetchRange, NamesUnused;
    OpenedIsReady(w, p, dir, writer);
    LowestFirst(w, uid);
    var o := Opened(w, p, dir, writer);
    assert UidTaken(o.st.rows, o.account, o.folder, uid);
    HandleRejected(o, rule, mirror);
    HandleKeeps(o, rule, mirror);
    assert FaultFreeRun(w, p, dir, writer, rule, mirror) == Handle(o, rule, mirror);
  }

  /** One scheduled run of the folder. */
  datatype Attempt = Attempt(p: nat, dir: nat, writer: nat)

  function Attempts(w: Imap, runs: seq<Attempt>, rule: Mail -> bool, mirror: bool): Imap
    decreases |runs|
  {
    if runs == [] then w
    else Attempts(FaultFreeRun(w, runs[0].p, runs[0].dir, runs[0].writer, rule, mirror), runs[1..], rule, mirror)
  }

  /** However often the folder is synced, without any fault, nothing of it is handled any more
      when its lowest unhandled message is blocked. */
  lemma {:induction false} RunsHandleNothing(w: Imap, id: nat, uid: nat, runs: seq<Attempt>, rule: Mail -> bool,
      mirror: bool)
    requires ImapInv(w) && w.session.None? && Blocked(w, id, uid) && uid !in w.done && !rule(w.mailbox[uid])
    requires forall u :: u in w.mailbox && u !in w.done ==> u >= uid
    requires forall i :: 0 <= i < |runs| ==> AtRest(w, runs[i].p, runs[i].dir, runs[i].writer)
    ensures var t := Attempts(w, runs, rule, mirror);
            t.done == w.done && t.st.rows == w.st.rows && t.mailbox == w.mailbox
    decreases |runs|
  {
    hide ImapInv, Duplicate, FaultFreeRun;
    if runs != [] {
      BlockedRun(w, id, uid, runs[0].p, runs[0].dir, runs[0].writer, rule, mirror);
      RunsHandleNothing(FaultFreeRun(w, runs[0].p, runs[0].dir, runs[0].writer, rule, mirror), id, uid, runs[1..],
        rule, mirror);
    }
  }

  // ---------------------------------------------------------------- a quiet folder

  lemma {:induction false} HighestIs(mailbox: map<nat, Mail>, hi: nat, uid: nat)
    requires uid in mailbox && uid < hi && forall u :: u in mailbox && u < hi ==> u <= uid
    ensures Highest(mailbox, hi) == [(uid, mailbox[uid])]
  {
    if hi - 1 != uid {
      HighestIs(mailbox, hi - 1, uid);
    }
  }

  /** Nothing new has arrived, but UIDNEXT has moved on: FETCH names the highest old message
      again. The run then succeeds exactly when that message is skipped by a rule, or found to
      be a duplicate, or its row is gone; so a stored message without a Message-ID makes every
      run of its quiet folder fail, although nothing is left to handle. */
  lemma QuietRunSucceedsIff(w: Imap, uid: nat, rule: Mail -> bool)
    requires ImapInv(w) && Watermark(w) + 1 < w.uidNext
    requires uid in w.mailbox && (forall u :: u in w.mailbox ==> u <= uid) && uid <= Watermark(w)
    ensures var range := FetchRange(w.mailbox, w.uidNext, Watermark(w) + 1); var mail := w.mailbox[uid];
            !AnyRejected(w.st.rows, w.account, w.folder, range, rule) <==>
            rule(mail) || Duplicate(w.st.rows, w.account, mail) || !UidTaken(w.st.rows, w.account, w.folder, uid)
  {
    AscendingFinds(w.mailbox, Watermark(w) + 1, w.uidNext);
    var found := Ascending(w.mailbox, Watermark(w) + 1, w.uidNext);
    assert found != [] ==> found[0].0 in w.mailbox;
    HighestIs(w.mailbox, w.uidNext, uid);
    var range := FetchRange(w.mailbox, w.uidNext, Watermark(w) + 1);
    assert range == [(uid, w.mailbox[uid])];
    hide AnyRejected;
    LoneRejected(w.st.rows, w.account, w.folder, uid, w.mailbox[uid], rule);
  }

  lemma LoneRejected(rows: map<nat, Row>, account: nat, folder: nat, uid: nat, mail: Mail, rule: Mail -> bool)
    ensures AnyRejected(rows, account, folder, [(uid, mail)], rule) <==>
            !rule(mail) && !Duplicate(rows, account, mail) && UidTaken(rows, account, folder, uid)
  {
    assert Rejected(rows, account, folder, [(uid, mail)], rule, 0) <==>
           !rule(mail) && !Duplicate(rows, account, mail) && UidTaken(rows, account, folder, uid);
  }
}
