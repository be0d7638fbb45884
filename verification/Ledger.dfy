/** What it means that a connector has handled a message: a book of outcomes kept over an
    archive run. Every outcome names the row that stands for the message, and the rows of the
    archive bear it out. */
module Ledger {
  import opened Archive
  import ArchiveHistory

  datatype Outcome = SkippedByRule | FoundDuplicate(id: nat) | Kept(id: nat)

  /** The archive with its history so far, the rows that Stage A deleted without a mirror, and
      the outcome of every handled message. */
  datatype Book<K> = Book(acts: seq<Action>, st: State, dropped: set<nat>, outcome: map<K, Outcome>)

  /** How the message loop gets past a message: a rule skips it, a row has its Message-ID, or
      the transaction of `ArchiveOne` commits and reports success. */
  datatype Verdict = Skip | Pass(id: nat) | Commit(p: nat, mirror: bool, today: nat, now: nat)

  ghost function Stepped<K>(b: Book<K>, a: Action): Book<K> {
    b.(acts := b.acts + [a], st := Act(b.st, a),
       dropped := b.dropped + set id | id in b.st.rows && ArchiveHistory.DeletesDirectly(b.st, a, id))
  }

  predicate Justified(s: State, account: nat, mail: Mail, v: Verdict) {
    match v
    case Skip => true
    case Pass(id) => !Blank(mail) && id in s.rows && SameId(s.rows[id], account, mail)
    case Commit(p, _, _, _) =>
      && p in s.syncs && s.syncs[p].account == account
      && s.syncs[p].phase.Renamed? && s.syncs[p].phase.mail == mail
      && !UidTaken(s.rows, account, s.syncs[p].folder, s.syncs[p].phase.uid)
  }

  predicate SameId(row: Row, account: nat, mail: Mail) {
    row.account == account && row.mail.messageId == mail.messageId
  }

  /** The loop can pass over a message as known exactly when the duplicate check finds it. */
  lemma KnownIff(s: State, account: nat, mail: Mail)
    ensures (exists id :: Justified(s, account, mail, Pass(id))) <==> Duplicate(s.rows, account, mail)
  {
    if Duplicate(s.rows, account, mail) {
      var id :| id in s.rows && s.rows[id].account == account && s.rows[id].mail.messageId == mail.messageId;
      assert Justified(s, account, mail, Pass(id));
    }
    if id :| Justified(s, account, mail, Pass(id)) {
      assert s.rows[id].account == account && s.rows[id].mail.messageId == mail.messageId;
    }
  }

  /** And any other message can be archived: undisturbed, under a free UID and an unused name,
      the three steps before the transaction bring about its commit. A rule may skip any. */
  lemma UnknownCanCommit(s: State, p: nat, mail: Mail, flags: string, uid: nat, v: Verdict)
    requires p in s.syncs && s.syncs[p].phase.Idle? && v.Commit? && v.p == p
    requires !Duplicate(s.rows, s.syncs[p].account, mail)
    requires !UidTaken(s.rows, s.syncs[p].account, s.syncs[p].folder, uid)
    requires Path(s.syncs[p].dir, s.syncs[p].writer, s.syncs[p].serial + 1, flags) !in s.tmp
    ensures var t := Act(Act(Act(s, OfSync(p, Check(mail, flags, uid))), OfSync(p, Stage)), OfSync(p, Rename));
            Justified(t, s.syncs[p].account, mail, v)
    ensures Justified(s, s.syncs[p].account, mail, Verdict.Skip)
  {
    hide Duplicate, UidTaken;
    var a := CheckStep(s, p, mail, flags, uid);
    assert Act(s, OfSync(p, Check(mail, flags, uid))) == a;
    var b := StageStep(a, p);
    assert Act(a, OfSync(p, Stage)) == b;
    assert Act(b, OfSync(p, Rename)) == RenameStep(b, p);
  }

  ghost function Settled<K>(b: Book<K>, k: K, v: Verdict): Book<K> {
    match v
    case Skip => b.(outcome := b.outcome[k := SkippedByRule])
    case Pass(id) => b.(outcome := b.outcome[k := FoundDuplicate(id)])
    case Commit(p, mirror, today, now) =>
      Stepped(b, OfSync(p, Persist(mirror, today, now))).(outcome := b.outcome[k := Kept(b.st.nextRow)])
  }

  /** The row was given out, and nothing but retention has taken it away. */
  ghost predicate Accounted<K>(b: Book<K>, id: nat) {
    id < b.st.nextRow && (id in b.st.rows || id in b.st.begun || id in b.dropped)
  }

  ghost predicate Backed<K>(b: Book<K>, account: nat, mail: Mail, o: Outcome) {
    match o
    case SkippedByRule => true
    case Kept(id) =>
      && Accounted(b, id)
      && (id in b.st.rows ==> b.st.rows[id].account == account && b.st.rows[id].mail == mail)
    case FoundDuplicate(id) =>
      && !Blank(mail) && Accounted(b, id)
      && (id in b.st.rows ==> SameId(b.st.rows[id], account, mail))
  }

  ghost predicate BookInv<K(!new)>(b: Book<K>, account: nat, mails: K -> Mail) {
    && b.st == Run(EMPTY, b.acts) && ArchiveHistory.IdsInv(b.st)
    && forall k :: k in b.outcome ==> Backed(b, account, mails(k), b.outcome[k])
  }

  function NewBook<K>(): Book<K> {
    Book([], EMPTY, {}, map[])
  }

  lemma EmptyIsSound<K(!new)>(account: nat, mails: K -> Mail)
    ensures BookInv(NewBook(), account, mails)
  {
  }

  /** No archive step takes the ground from under an outcome. */
  lemma BackedStays<K>(b: Book<K>, a: Action, account: nat, mail: Mail, o: Outcome)
    requires ArchiveHistory.IdsInv(b.st) && Backed(b, account, mail, o)
    ensures b.st.nextRow <= Act(b.st, a).nextRow && Backed(Stepped(b, a), account, mail, o)
  {
    hide Act, Blank, ArchiveHistory.IdsInv;
    RowsOnlyGo(b, a);
  }

  /** The rows after one step, as far as old ids are concerned. */
  lemma RowsOnlyGo<K>(b: Book<K>, a: Action)
    requires ArchiveHistory.IdsInv(b.st)
    ensures var t := Stepped(b, a);
            && b.st.nextRow <= t.st.nextRow && b.st.begun <= t.st.begun && b.dropped <= t.dropped
            && (forall id :: id in b.st.rows ==> id in t.st.rows || id in t.st.begun || id in t.dropped)
            && forall id :: id in t.st.rows && id < b.st.nextRow ==>
                 id in b.st.rows && SameMessage(t.st.rows[id], b.st.rows[id])
  {
    hide Act;
    ArchiveHistory.RowsStep(b.st, a);
    forall id | id in b.st.rows && !ArchiveHistory.RowKept(b.st, Act(b.st, a), id)
      ensures id !in Act(b.st, a).rows && (id in b.st.begun || ArchiveHistory.DeletesDirectly(b.st, a, id))
    {
      ArchiveHistory.DeletedIsGone(b.st, a, id);
    }
  }

  lemma SteppedKeeps<K(!new)>(b: Book<K>, a: Action, account: nat, mails: K -> Mail)
    requires BookInv(b, account, mails)
    ensures BookInv(Stepped(b, a), account, mails)
  {
    hide Act, Run, Backed, ArchiveHistory.IdsInv;
    var longer := Then(EMPTY, b.acts, a);
    ArchiveHistory.RowsStep(b.st, a);
    forall k | k in b.outcome ensures Backed(Stepped(b, a), account, mails(k), b.outcome[k]) {
      BackedStays(b, a, account, mails(k), b.outcome[k]);
    }
  }

  lemma CommitAdds(s: State, account: nat, mail: Mail, v: Verdict)
    requires v.Commit? && Justified(s, account, mail, v)
    ensures var t := Act(s, OfSync(v.p, Persist(v.mirror, v.today, v.now)));
            && t.nextRow == s.nextRow + 1 && s.nextRow in t.rows
            && t.rows[s.nextRow].account == account && t.rows[s.nextRow].mail == mail
  {
    hide NewQueueRow;
  }

  /** A justified verdict is a sound outcome. */
  lemma SettledKeeps<K(!new)>(b: Book<K>, k: K, v: Verdict, account: nat, mails: K -> Mail)
    requires BookInv(b, account, mails) && Justified(b.st, account, mails(k), v)
    ensures BookInv(Settled(b, k, v), account, mails)
  {
    hide Act, Run, UidTaken;
    if v.Commit? {
      SteppedKeeps(b, OfSync(v.p, Persist(v.mirror, v.today, v.now)), account, mails);
      CommitAdds(b.st, account, mails(k), v);
    }
  }

  /** The message is stored or known, and what stands for it can still be read, unless Stage A
      deleted it where there is no mirror, or Stage C began for it. */
  ghost predicate Safe<K>(b: Book<K>, account: nat, mail: Mail, o: Outcome) {
    match o
    case SkippedByRule => true
    case Kept(id) =>
      id in b.st.begun || id in b.dropped ||
      (id in b.st.rows && b.st.rows[id].account == account && b.st.rows[id].mail == mail &&
       (Blank(mail) || ArchiveHistory.Retrievable(b.st, id)))
    case FoundDuplicate(id) =>
      id in b.st.begun || id in b.dropped ||
      (id in b.st.rows && b.st.rows[id].account == account && b.st.rows[id].mail.messageId == mail.messageId &&
       ArchiveHistory.Retrievable(b.st, id))
  }

  lemma BackedIsSafe<K(!new)>(b: Book<K>, k: K, account: nat, mails: K -> Mail)
    requires BookInv(b, account, mails) && k in b.outcome && Along(ArchiveHistory.FRESH_KEYS, EMPTY, b.acts)
    ensures Safe(b, account, mails(k), b.outcome[k])
  {
    hide Run, Along, ArchiveHistory.Retrievable, ArchiveHistory.IdsInv;
    var o := b.outcome[k];
    if !o.SkippedByRule? && o.id in b.st.rows && o.id !in b.st.begun && !Blank(b.st.rows[o.id].mail) {
      ArchiveHistory.ReachedAreReadable(b.acts, o.id);
    }
  }
}
