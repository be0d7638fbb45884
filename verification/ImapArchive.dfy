/** IMAP histories are archive runs: every event of module `ImapSync` is a list of archive
    steps, so the promises about files, Message-IDs and mirror objects hold through every
    IMAP history as well. */
module ImapArchive {
  import opened Options
  import opened Archive
  import opened ImapSync
  import ArchiveHistory

  /** The archive steps of an event. */
  function Trace(w: Imap, e: Event): seq<Action> {
    if Next(w, e) == w then []
    else
      match e
      case Background(a) => [a]
      case Open(p, dir, writer) => [Upsert(w.folder, w.validity), Begin(p, w.account, w.folder, dir, writer)]
      case Judge(skip, flags) =>
        if w.session.None? || w.session.value.pending == [] || Next(w, e).st == w.st then []
        else [OfSync(w.session.value.p, Check(w.session.value.pending[0].1, flags, w.session.value.pending[0].0))]
      case PassOver(committed, reported) =>
        if w.session.None? || w.session.value.pending == [] then []
        else
          (if committed then [OfSync(w.session.value.p, Skip(w.session.value.pending[0].0))] else [])
          + (if committed && reported then [] else [OfSync(w.session.value.p, Finish)])
      case Own(op, _) =>
        if w.session.None? then []
        else
          [OfSync(w.session.value.p, op)]
          + (if Next(w, e).session.None? then [OfSync(w.session.value.p, Finish)] else [])
      case Fail => if w.session.None? then [] else [OfSync(w.session.value.p, Finish)]
      case Close => if w.session.None? then [] else [OfSync(w.session.value.p, Finish)]
      case Kill => [Crash]
      case _ => []
  }

  /** What the schedule must keep to: the writer of a new session is fresh and no other sync of
      the account is running; whatever happens elsewhere keeps to the same. */
  predicate AllowedEvent(w: Imap, e: Event) {
    && (e.Open? ==> (e.dir, e.writer) !in w.st.writers && forall q :: q in w.st.syncs ==>
         w.st.syncs[q].account != w.account)
    && (e.Background? ==> Permitted(ALL, w.st, e.a))
  }

  predicate Allowed(w: Imap, events: seq<Event>)
    decreases |events|
  {
    events == [] || (AllowedEvent(w, events[0]) && Allowed(Next(w, events[0]), events[1..]))
  }

  /** The archive steps of a history. */
  function HistoryTrace(w: Imap, events: seq<Event>): seq<Action>
    decreases |events|
  {
    if events == [] then [] else Trace(w, events[0]) + HistoryTrace(Next(w, events[0]), events[1..])
  }

  /** The event is the archive run of its trace, and a permitted one. */
  ghost predicate IsRun(w: Imap, e: Event) {
    Next(w, e).st == Run(w.st, Trace(w, e)) && Along(ALL, w.st, Trace(w, e))
  }

  lemma RunOne(s: State, a: Action)
    ensures Run(s, [a]) == Act(s, a) && (Along(ALL, s, [a]) <==> Permitted(ALL, s, a))
  {
    hide Act, Permitted;
    assert [a][1..] == [];
    assert Run(Act(s, a), []) == Act(s, a) && Along(ALL, Act(s, a), []);
  }

  lemma RunTwo(s: State, a: Action, b: Action)
    ensures Run(s, [a, b]) == Act(Act(s, a), b)
    ensures Along(ALL, s, [a, b]) <==> Permitted(ALL, s, a) && Permitted(ALL, Act(s, a), b)
  {
    hide Act, Permitted;
    assert [a, b][1..] == [b];
    RunOne(Act(s, a), b);
  }

  lemma OpenIsRun(w: Imap, e: Event)
    requires e.Open? && AllowedEvent(w, e) && Next(w, e) != w
    ensures IsRun(w, e)
  {
    RunTwo(w.st, Upsert(w.folder, w.validity), Begin(e.p, w.account, w.folder, e.dir, e.writer));
  }

  lemma JudgeIsRun(w: Imap, e: Event)
    requires ImapInv(w) && e.Judge? && Next(w, e) != w
    ensures IsRun(w, e)
  {
    if Trace(w, e) != [] {
      RunOne(w.st, Trace(w, e)[0]);
    }
  }

  lemma SkipAct(s: State, p: nat, uid: nat)
    requires p in s.syncs && s.syncs[p].phase.Idle?
    ensures Act(s, OfSync(p, Skip(uid))) == s.(folders := Advanced(s.folders, s.syncs[p].folder, uid))
  {
  }

  lemma PassOverIsRun(w: Imap, e: Event)
    requires ImapInv(w) && e.PassOver? && Next(w, e) != w
    ensures IsRun(w, e)
  {
    hide Run, Along;
    var p, uid := w.session.value.p, w.session.value.pending[0].0;
    var a, b := OfSync(p, Skip(uid)), OfSync(p, Finish);
    assert [a] + [] == [a] && [a] + [b] == [a, b] && [] + [b] == [b];
    if e.committed {
      SkipAct(w.st, p, uid);
      RunOne(w.st, OfSync(p, Skip(uid)));
      RunTwo(w.st, OfSync(p, Skip(uid)), OfSync(p, Finish));
    } else {
      RunOne(w.st, OfSync(p, Finish));
    }
  }

  lemma FinishAct(s: State, p: nat)
    requires p in s.syncs
    ensures Act(s, OfSync(p, Finish)) == Ended(s, p) && Permitted(ALL, s, OfSync(p, Finish))
  {
  }

  lemma FileStepAct(w: Imap, op: SyncOp)
    requires w.session.Some? && SyncEnabled(w.st, w.session.value.p, op)
    requires op.StageTorn? || op.Stage? || op.Rename? || op.Discard?
    ensures var (s, p, t) := (Act(w.st, OfSync(w.session.value.p, op)), w.session.value.p, Stepped(w, op));
            p in s.syncs && t.st == if t.session.None? then Ended(s, p) else s
  {
    hide Next;
  }

  lemma PersistAct(w: Imap, op: SyncOp, reported: bool)
    requires w.session.Some? && w.session.value.pending != [] && op.Persist? && SyncEnabled(w.st, w.session.value.p, op)
    ensures var (s, p, t) := (Act(w.st, OfSync(w.session.value.p, op)), w.session.value.p, Persisted(w, op, reported));
            p in s.syncs && t.st == if t.session.None? then Ended(s, p) else s
  {
    hide Next, UidTaken, Advanced, NewRow, NewQueueRow;
    assert Act(w.st, OfSync(w.session.value.p, op)) ==
      PersistStep(w.st, w.session.value.p, op.mirror, op.today, op.now);
  }

  lemma OwnHappens(w: Imap, e: Event)
    requires e.Own? && Next(w, e) != w
    ensures w.session.Some? && w.session.value.pending != [] && SyncEnabled(w.st, w.session.value.p, e.op)
    ensures if e.op.Persist? then Next(w, e) == Persisted(w, e.op, e.reported)
            else (e.op.StageTorn? || e.op.Stage? || e.op.Rename? || e.op.Discard?) && Next(w, e) == Stepped(w, e.op)
  {
    hide Persisted, Stepped, SyncEnabled;
  }

  lemma OwnAct(w: Imap, e: Event)
    requires e.Own? && Next(w, e) != w
    ensures w.session.Some? && w.session.value.p in w.st.syncs && Permitted(ALL, w.st, OfSync(w.session.value.p, e.op))
    ensures var (s, p) := (Act(w.st, OfSync(w.session.value.p, e.op)), w.session.value.p);
            p in s.syncs && Next(w, e).st == if Next(w, e).session.None? then Ended(s, p) else s
  {
    hide Next, Act, Persisted, Stepped;
    OwnHappens(w, e);
    if e.op.Persist? {
      PersistAct(w, e.op, e.reported);
    } else {
      FileStepAct(w, e.op);
    }
  }

  lemma OwnIsRun(w: Imap, e: Event)
    requires ImapInv(w) && e.Own? && Next(w, e) != w
    ensures IsRun(w, e)
  {
    hide Next, Run, Along, Act, ImapInv, Permitted;
    OwnAct(w, e);
    var p := w.session.value.p;
    var s := Act(w.st, OfSync(p, e.op));
    RunOne(w.st, OfSync(p, e.op));
    RunTwo(w.st, OfSync(p, e.op), OfSync(p, Finish));
    FinishAct(s, p);
    var a, b := OfSync(p, e.op), OfSync(p, Finish);
    assert [a] + [] == [a] && [a] + [b] == [a, b];
  }

  lemma EndIsRun(w: Imap, e: Event)
    requires ImapInv(w) && (e.Fail? || e.Close?) && Next(w, e) != w
    ensures IsRun(w, e)
  {
    RunOne(w.st, OfSync(w.session.value.p, Finish));
  }

  lemma ServerIsRun(w: Imap, e: Event)
    requires e.Arrive? || e.Gap? || e.Expunge? || e.Renumber?
    ensures IsRun(w, e)
  {
  }

  lemma OutsideIsRun(w: Imap, e: Event)
    requires AllowedEvent(w, e) && (e.Background? || e.Kill?) && Next(w, e) != w
    ensures IsRun(w, e)
  {
    RunOne(w.st, if e.Background? then e.a else Crash);
  }

  lemma EventIsRun(w: Imap, e: Event)
    requires ImapInv(w) && AllowedEvent(w, e)
    ensures Next(w, e).st == Run(w.st, Trace(w, e)) && Along(ALL, w.st, Trace(w, e))
  {
    hide Next, ImapInv, AllowedEvent;
    if Next(w, e) != w {
      match e
      case Open(_, _, _) => OpenIsRun(w, e);
      case Judge(_, _) => JudgeIsRun(w, e);
      case PassOver(_, _) => PassOverIsRun(w, e);
      case Own(_, _) => OwnIsRun(w, e);
      case Background(_) => OutsideIsRun(w, e);
      case Kill => OutsideIsRun(w, e);
      case Fail => EndIsRun(w, e);
      case Close => EndIsRun(w, e);
      case _ => ServerIsRun(w, e);
    }
  }

  /** An IMAP history, as the archive sees it. */
  lemma {:induction false} HistoryIsRun(w: Imap, events: seq<Event>)
    requires ImapInv(w) && Allowed(w, events)
    ensures History(w, events).st == Run(w.st, HistoryTrace(w, events)) && Along(ALL, w.st, HistoryTrace(w, events))
    decreases |events|
  {
    hide Next, Trace, Act, Permitted, ImapInv, AllowedEvent;
    if events != [] {
      EventIsRun(w, events[0]);
      NextKeeps(w, events[0]);
      var rest := HistoryTrace(Next(w, events[0]), events[1..]);
      HistoryIsRun(Next(w, events[0]), events[1..]);
      RunConcat(w.st, Trace(w, events[0]), rest);
      AlongConcat(ALL, w.st, Trace(w, events[0]), rest);
    }
  }

  // ---------------------------------------------------------------- nothing is lost

  /** Somewhere in the history, Stage A without a mirror deleted this email. */
  predicate HistoryDeletes(w: Imap, events: seq<Event>, id: nat)
    decreases |events|
  {
    events != [] &&
    (|| (events[0].Background? && ArchiveHistory.DeletesDirectly(w.st, events[0].a, id))
     || HistoryDeletes(Next(w, events[0]), events[1..], id))
  }

  /** It says so exactly when some event of the history is that deletion. */
  lemma {:induction false} HistoryDeletesIff(w: Imap, events: seq<Event>, id: nat)
    ensures HistoryDeletes(w, events, id) <==>
            exists k :: 0 <= k < |events| && events[k].Background? &&
              ArchiveHistory.DeletesDirectly(History(w, events[..k]).st, events[k].a, id)
    decreases |events|
  {
    hide Next, ArchiveHistory.DeletesDirectly;
    if events != [] {
      var u, rest := Next(w, events[0]), events[1..];
      HistoryDeletesIff(u, rest, id);
      assert events[..0] == [];
      forall k | 0 < k <= |events| ensures History(w, events[..k]) == History(u, rest[..k - 1]) {
        assert events[..k][0] == events[0] && events[..k][1..] == rest[..k - 1];
      }
      if k :| 0 <= k < |rest| && rest[k].Background? &&
              ArchiveHistory.DeletesDirectly(History(u, rest[..k]).st, rest[k].a, id) {
        assert events[k + 1] == rest[k] && History(w, events[..k + 1]) == History(u, rest[..k]);
      }
      if k :| 0 <= k < |events| && events[k].Background? &&
              ArchiveHistory.DeletesDirectly(History(w, events[..k]).st, events[k].a, id) {
        if k > 0 {
          assert rest[k - 1] == events[k];
        }
      }
    }
  }

  /** The schedule excludes no run of a single sync: with a fresh writer and no other sync of the
      account, whatever happens to it, the server and the mail is allowed. */
  lemma {:induction false} OneSyncIsAllowed(w: Imap, p: nat, dir: nat, writer: nat, events: seq<Event>)
    requires (dir, writer) !in w.st.writers && forall q :: q in w.st.syncs ==> w.st.syncs[q].account != w.account
    requires forall k :: 0 <= k < |events| ==> !events[k].Open? && !events[k].Background?
    ensures Allowed(w, [Open(p, dir, writer)] + events)
  {
    hide Next;
    var all := [Open(p, dir, writer)] + events;
    assert all[0] == Open(p, dir, writer) && all[1..] == events;
    UnopenedIsAllowed(Next(w, Open(p, dir, writer)), events);
  }

  lemma {:induction false} UnopenedIsAllowed(w: Imap, events: seq<Event>)
    requires forall k :: 0 <= k < |events| ==> !events[k].Open? && !events[k].Background?
    ensures Allowed(w, events)
    decreases |events|
  {
    hide Next;
    if events != [] {
      UnopenedIsAllowed(Next(w, events[0]), events[1..]);
    }
  }

  lemma {:induction false} DeletedConcat(s: State, a: seq<Action>, b: seq<Action>, id: nat)
    requires ArchiveHistory.DeletedDirectly(s, a + b, id)
    ensures ArchiveHistory.DeletedDirectly(s, a, id) || ArchiveHistory.DeletedDirectly(Run(s, a), b, id)
    decreases |a|
  {
    hide Act, ArchiveHistory.DeletesDirectly;
    if a == [] {
      assert a + b == b;
    } else {
      assert (a + b)[0] == a[0] && (a + b)[1..] == a[1..] + b;
      if !ArchiveHistory.DeletesDirectly(s, a[0], id) {
        DeletedConcat(Act(s, a[0]), a[1..], b, id);
      }
    }
  }

  lemma {:induction false} SyncsDeleteNothing(s: State, acts: seq<Action>, id: nat)
    requires forall i :: 0 <= i < |acts| ==> !acts[i].OfRetention?
    ensures !ArchiveHistory.DeletedDirectly(s, acts, id)
    decreases |acts|
  {
    hide Act;
    if acts != [] {
      SyncsDeleteNothing(Act(s, acts[0]), acts[1..], id);
    }
  }

  lemma TraceDeletes(w: Imap, e: Event, id: nat)
    requires ArchiveHistory.DeletedDirectly(w.st, Trace(w, e), id)
    ensures e.Background? && ArchiveHistory.DeletesDirectly(w.st, e.a, id)
  {
    hide Next, Act, ArchiveHistory.DeletesDirectly;
    if e.Background? {
      assert [e.a][1..] == [];
    } else {
      SyncsDeleteNothing(w.st, Trace(w, e), id);
    }
  }

  lemma {:induction false} TraceIsHonest(w: Imap, events: seq<Event>, id: nat)
    requires ImapInv(w) && Allowed(w, events) && ArchiveHistory.DeletedDirectly(w.st, HistoryTrace(w, events), id)
    ensures HistoryDeletes(w, events, id)
    decreases |events|
  {
    hide Next, Trace, Act, Run, ImapInv, AllowedEvent, ArchiveHistory.DeletesDirectly;
    if events != [] {
      var w1 := Next(w, events[0]);
      EventIsRun(w, events[0]);
      NextKeeps(w, events[0]);
      DeletedConcat(w.st, Trace(w, events[0]), HistoryTrace(w1, events[1..]), id);
      if ArchiveHistory.DeletedDirectly(w.st, Trace(w, events[0]), id) {
        TraceDeletes(w, events[0], id);
      } else {
        TraceIsHonest(w1, events[1..], id);
      }
    }
  }

  lemma {:induction false} HistoryConcat(w: Imap, a: seq<Event>, b: seq<Event>)
    requires ImapInv(w) && Allowed(w, a + b)
    ensures var h := History(w, a);
            && ImapInv(h) && Allowed(w, a) && Allowed(h, b) && History(w, a + b) == History(h, b)
            && HistoryTrace(w, a + b) == HistoryTrace(w, a) + HistoryTrace(h, b)
    decreases |a|
  {
    hide Next, Trace, ImapInv, AllowedEvent;
    if a == [] {
      assert a + b == b;
    } else {
      assert (a + b)[0] == a[0] && (a + b)[1..] == a[1..] + b;
      NextKeeps(w, a[0]);
      HistoryConcat(Next(w, a[0]), a[1..], b);
    }
  }

  /** From an empty archive, with fresh writers, one sync per account and one retention pass at
      a time: a message with a Message-ID that was archived stays archived and readable through
      every further history, unless Stage A deletes it where there is no mirror, or Stage C
      begins for it. */
  lemma ImapHistoriesLoseNothing(w: Imap, before: seq<Event>, after: seq<Event>, id: nat)
    requires ImapInv(w) && w.st == EMPTY && Allowed(w, before + after)
    requires id in History(w, before).st.rows && !Blank(History(w, before).st.rows[id].mail)
    ensures var (h, t) := (History(w, before), History(w, before + after));
            id in t.st.begun || HistoryDeletes(h, after, id) || ArchiveHistory.StillReadable(t.st, id, h.st.rows[id])
  {
    hide Next, Trace, HistoryTrace, History, Run, Along, Allowed, ImapInv, ArchiveHistory.DeletedDirectly,
      ArchiveHistory.StillReadable, HistoryDeletes;
    var h := History(w, before);
    HistoryConcat(w, before, after);
    HistoryIsRun(w, before);
    HistoryIsRun(w, before + after);
    var a, b := HistoryTrace(w, before), HistoryTrace(h, after);
    ArchiveHistory.HabitsSuffice(a + b);
    ArchiveHistory.NothingArchivedIsLost(a, b, id);
    if ArchiveHistory.DeletedDirectly(h.st, b, id) {
      TraceIsHonest(h, after, id);
    }
  }
}
