/** Where the archive's promises stop: concrete runs and exact conditions for the assumptions
    (fresh names, one sync per account, one retention pass, Message-IDs present), and the
    reason for renaming before the SQL transaction. */
module ArchiveLimits {
  import opened Options
  import opened Archive
  import opened ArchiveFiles
  import ArchiveMail

  /** A sync about to archive `mail` under a free name and UID. */
  ghost predicate Archivable(t: State, p: nat, mail: Mail, uid: nat) {
    && p in t.syncs && t.syncs[p].phase.Idle?
    && !Duplicate(t.rows, t.syncs[p].account, mail)
    && FreshName(t.syncs[p]) !in t.tmp
    && !UidTaken(t.rows, t.syncs[p].account, t.syncs[p].folder, uid)
  }

  function FreshName(y: Sync): Path {
    Path(y.dir, y.writer, y.serial + 1, "")
  }

  lemma ThenStage(t: State, p: nat, y: Sync, mail: Mail, uid: nat)
    requires p in t.syncs && t.syncs[p] == y.(phase := Checked(mail, "", uid)) && FreshName(y) !in t.tmp
    ensures var x := FreshName(y);
            Act(t, OfSync(p, Stage)) == t.(tmp := t.tmp[x := mail],
              syncs := t.syncs[p := y.(serial := y.serial + 1, phase := Staged(mail, uid, x))])
  {
    assert Act(t, OfSync(p, Stage)) == StageStep(t, p);
  }

  lemma CheckAndStage(t: State, p: nat, mail: Mail, uid: nat)
    requires Archivable(t, p, mail, uid)
    ensures var y := t.syncs[p]; var x := FreshName(y);
            Act(Act(t, OfSync(p, Check(mail, "", uid))), OfSync(p, Stage)) ==
            t.(tmp := t.tmp[x := mail], syncs :=
              t.syncs[p := y.(serial := y.serial + 1, phase := Staged(mail, uid, x))])
  {
    var y := t.syncs[p];
    var t1 := t.(syncs := t.syncs[p := y.(phase := Checked(mail, "", uid))]);
    assert Act(t, OfSync(p, Check(mail, "", uid))) == CheckStep(t, p, mail, "", uid) == t1;
    ThenStage(t1, p, y, mail, uid);
  }

  lemma ThenRename(t: State, p: nat, y: Sync, mail: Mail, uid: nat, x: Path)
    requires x !in t.tmp && p in t.syncs
    ensures Act(t.(tmp := t.tmp[x := mail], syncs := t.syncs[p := y.(phase := Staged(mail, uid, x))]),
      OfSync(p, Rename)) ==
            t.(filed := t.filed[x := mail], syncs := t.syncs[p := y.(phase := Renamed(mail, uid, x))])
  {
    var u := t.(tmp := t.tmp[x := mail], syncs := t.syncs[p := y.(phase := Staged(mail, uid, x))]);
    assert u.tmp - {x} == t.tmp;
    assert Act(u, OfSync(p, Rename)) == RenameStep(u, p);
  }

  /** What the transaction leaves behind when UNIQUE accepts the row. */
  lemma ThenPersist(t: State, p: nat, mirror: bool)
    requires p in t.syncs && t.syncs[p].phase.Renamed? &&
      !UidTaken(t.rows, t.syncs[p].account, t.syncs[p].folder, t.syncs[p].phase.uid)
    ensures var u := Act(t, OfSync(p, Persist(mirror, 0, 0))); var y := t.syncs[p];
            && u.rows == t.rows[t.nextRow :=
                 Row(y.account, y.folder, y.phase.uid, y.phase.mail, 0, Local, Some(y.phase.path), None, false, None)]
            && u.filed == t.filed && u.tmp == t.tmp && u.nextRow == t.nextRow + 1
            && u.syncs == t.syncs[p := y.(phase := Idle)] && u.writers == t.writers
            && u.folders == Advanced(t.folders, y.folder, y.phase.uid)
            && u.queue == (if mirror then t.queue[t.nextQueue :=
                 QueueRow(t.nextRow, MailKey(y.account, y.phase.mail, 0), y.phase.path, Pending, 0)] else t.queue)
            && u.nextQueue == (if mirror then t.nextQueue + 1 else t.nextQueue)
            && u.jobs == t.jobs && u.objects == t.objects && u.chores == t.chores && u.begun == t.begun
  {
  }

  function WholeActs(p: nat, mail: Mail, uid: nat, mirror: bool): seq<Action> {
    [OfSync(p, Check(mail, "", uid)), OfSync(p, Stage), OfSync(p, Rename), OfSync(p, Persist(mirror, 0, 0))]
  }

  /** One undisturbed `ArchiveOne` call at the end of a run. */
  lemma ArchiveWhole(s: State, acts: seq<Action>, p: nat, mail: Mail, uid: nat, mirror: bool)
      returns (longer: seq<Action>)
    requires Archivable(Run(s, acts), p, mail, uid)
    ensures longer == acts + WholeActs(p, mail, uid, mirror)
    ensures var t, u := Run(s, acts), Run(s, longer);
            var y := t.syncs[p];
            var x := FreshName(y);
            && u.rows == t.rows[t.nextRow := Row(y.account, y.folder, uid, mail, 0, Local, Some(x), None, false, None)]
            && u.filed == t.filed[x := mail] && u.tmp == t.tmp && u.nextRow == t.nextRow + 1
            && u.syncs == t.syncs[p := y.(serial := y.serial + 1)] && u.writers == t.writers
            && u.folders == Advanced(t.folders, y.folder, uid)
            && (!mirror ==> u.queue == t.queue)
            && (mirror ==> u.queue == t.queue[t.nextQueue := QueueRow(t.nextRow,
                  Key(y.account, if mail.day.Some? then mail.day.value else 0, mail), x, Pending, 0)])
            && u.nextQueue == (if mirror then t.nextQueue + 1 else t.nextQueue)
            && u.jobs == t.jobs && u.objects == t.objects && u.chores == t.chores && u.begun == t.begun
  {
    hide Run, Act, Advanced, Duplicate, UidTaken;
    var t := Run(s, acts);
    var y := t.syncs[p];
    var x := FreshName(y);
    longer := Then(s, acts, OfSync(p, Check(mail, "", uid)));
    longer := Then(s, longer, OfSync(p, Stage));
    CheckAndStage(t, p, mail, uid);
    ThenRename(t, p, y.(serial := y.serial + 1), mail, uid, x);
    longer := Then(s, longer, OfSync(p, Rename));
    ThenPersist(Run(s, longer), p, mirror);
    longer := Then(s, longer, OfSync(p, Persist(mirror, 0, 0)));
  }

  /** A running sync of folder 0 in directory 0, at the start of history. */
  lemma FirstSync() returns (acts: seq<Action>)
    ensures acts == [Upsert(0, 7), Begin(0, 0, 0, 0, 0)]
    ensures Run(EMPTY, acts) == EMPTY.(folders := map[0 := Folder(7, 0)],
      syncs := map[0 := Sync(0, 0, 0, 0, 0, Idle)], writers := {(0, 0)})
  {
    acts := Then(EMPTY, [], Upsert(0, 7));
    acts := Then(EMPTY, acts, Begin(0, 0, 0, 0, 0));
  }

  /** Two writers on one directory that give out the same names (same second, same process):
      the second message's file replaces the first one's. */
  lemma SameNamesLoseMail() returns (acts: seq<Action>)
    ensures !LocalFilesKept(Run(EMPTY, acts).rows, Run(EMPTY, acts).filed)
  {
    hide Run;
    var m1, m2 := Mail("a@x", None, "one"), Mail("b@x", None, "two");
    acts := FirstSync();
    acts := ArchiveWhole(EMPTY, acts, 0, m1, 1, false);
    acts := Then(EMPTY, acts, OfSync(0, Finish));
    acts := Then(EMPTY, acts, Begin(1, 0, 0, 0, 0));
    acts := ArchiveWhole(EMPTY, acts, 1, m2, 2, false);
    assert Run(EMPTY, acts).rows[0].mail == m1 && Run(EMPTY, acts).filed[Path(0, 0, 1, "")] == m2;
  }

  /** Two syncs of one account at the same time: both pass the duplicate check, both insert. */
  lemma OverlappingSyncsDuplicate() returns (acts: seq<Action>)
    ensures !ArchiveMail.MessagesUnique(Run(EMPTY, acts).rows)
  {
    hide Run;
    var m := Mail("a@x", None, "one");
    acts := FirstSync();
    acts := Then(EMPTY, acts, Begin(1, 0, 0, 0, 1));
    acts := Then(EMPTY, acts, OfSync(1, Check(m, "", 2)));
    var y := Sync(0, 0, 0, 1, 0, Idle);
    assert Run(EMPTY, acts).syncs[1] == y.(phase := Checked(m, "", 2));
    hide Act;
    acts := ArchiveWhole(EMPTY, acts, 0, m, 1, false);
    ThenStage(Run(EMPTY, acts), 1, y, m, 2);
    ThenRename(Run(EMPTY, acts), 1, y.(serial := 1), m, 2, FreshName(y));
    acts := Then(EMPTY, acts, OfSync(1, Stage));
    acts := Then(EMPTY, acts, OfSync(1, Rename));
    ThenPersist(Run(EMPTY, acts), 1, false);
    acts := Then(EMPTY, acts, OfSync(1, Persist(false, 0, 0)));
    assert Run(EMPTY, acts).rows[0].mail == m && Run(EMPTY, acts).rows[1].mail == m;
  }

  /** A message without a Message-ID is archived again on a retry, and the two rows share
      one S3 key. */
  lemma BlankTwinsShareKey() returns (acts: seq<Action>)
    ensures var s := Run(EMPTY, acts);
            0 in s.queue && 1 in s.queue && s.queue[0].email != s.queue[1].email && s.queue[0].key == s.queue[1].key
  {
    hide Run;
    var m := Mail("", None, "no id");
    acts := FirstSync();
    acts := ArchiveWhole(EMPTY, acts, 0, m, 1, true);
    acts := ArchiveWhole(EMPTY, acts, 0, m, 2, true);
  }

  /** Every uploaded row has its object, Message-ID or not, unless Stage C began for it. */
  ghost predicate AllObjectsKept(rows: map<nat, Row>, objects: map<Key, Mail>, begun: set<nat>) {
    forall id :: id in rows && rows[id].uploaded && id !in begun ==> rows[id].key.Some? && rows[id].key.value in objects
  }

  /** Stage C on one email removes another email's object exactly when the two share the key:
      twins without a Message-ID, or a row re-archived under an overlapping pass. */
  lemma ExpireKeepsOthersIff(s: State, k: (nat, nat))
    requires AllObjectsKept(s.rows, s.objects, s.begun)
    requires k in s.chores && s.chores[k].Expire?
    ensures var t := ExpireStep(s, k);
            AllObjectsKept(t.rows, t.objects, t.begun) <==>
            forall id :: id in s.rows && id != k.1 && id !in s.begun && s.rows[id].uploaded ==>
              s.rows[id].key != s.chores[k].key
  {
    var t := ExpireStep(s, k);
    if id :| id in s.rows && id != k.1 && id !in s.begun && s.rows[id].uploaded && s.rows[id].key == s.chores[k].key {
      assert id in t.rows && id !in t.begun;
    }
  }

  /** The abandoned order: inserting the row while the file is still in tmp/. A kill and the
      next start-up sweep then leave a committed row, and a watermark past the message, with
      no content anywhere. */
  lemma SqlBeforeRenameLosesMail(s: State, p: nat, mirror: bool, today: nat, now: nat)
    requires FilesInv(s) && p in s.syncs && s.syncs[p].phase.Staged? && s.syncs[p].phase.path !in s.filed
    requires !UidTaken(s.rows, s.syncs[p].account, s.syncs[p].folder, s.syncs[p].phase.uid)
    ensures var y := s.syncs[p];
            var early := s.(syncs := s.syncs[p := y.(phase := Renamed(y.phase.mail, y.phase.uid, y.phase.path))]);
            var t := Act(Act(PersistStep(early, p, mirror, today, now), Crash), Sweep);
            && !LocalFilesKept(t.rows, t.filed)
            && t.folders == Advanced(s.folders, y.folder, y.phase.uid)
            && y.phase.path !in t.filed && y.phase.path !in t.tmp
  {
    var y := s.syncs[p];
    var early := s.(syncs := s.syncs[p := y.(phase := Renamed(y.phase.mail, y.phase.uid, y.phase.path))]);
    var t := PersistStep(early, p, mirror, today, now);
    assert t.rows[s.nextRow].location.Local? && t.rows[s.nextRow].path == Some(y.phase.path);
  }
}
