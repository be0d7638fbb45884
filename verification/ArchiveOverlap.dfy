/** Two retention passes at the same time: a run in which one of them deletes an object that
    has meanwhile become another email's, and that email's only copy. */
module ArchiveOverlap {
  import opened Options
  import opened Archive
  import ArchiveLimits
  import ArchiveMirror

  /** Fresh writer names and one sync per account, but any number of passes. */
  const OVERLAPPING := Discipline(true, true, false, false)

  /** One more step that starts no sync. */
  lemma Go(acts: seq<Action>, a: Action) returns (longer: seq<Action>)
    requires Along(OVERLAPPING, EMPTY, acts) && !a.Begin?
    ensures longer == acts + [a] && Run(EMPTY, longer) == Act(Run(EMPTY, acts), a) && Along(OVERLAPPING, EMPTY, longer)
  {
    hide Run, Along, Act;
    longer := Then(EMPTY, acts, a);
    AlongThen(OVERLAPPING, EMPTY, acts, a);
  }

  lemma {:induction false} AlongFree(s: State, more: seq<Action>)
    requires forall i :: 0 <= i < |more| ==> !more[i].Begin?
    ensures Along(OVERLAPPING, s, more)
    decreases |more|
  {
    hide Act;
    if more != [] {
      AlongFree(Act(s, more[0]), more[1..]);
    }
  }

  // ---------------------------------------------------------------- whole stages

  /** The row after its upload. */
  function Uploaded(row: Row, key: Key): Row {
    row.(key := Some(key), uploaded := true)
  }

  lemma ClaimAndRead(s: State, q: nat, w: QueueRow)
    requires q in s.queue && s.queue[q] == w && w.status.Pending? && w.path in s.filed
    ensures var t := Act(Act(s, OfUpload(q, Claim)), OfUpload(q, Read));
            t == s.(queue := s.queue[q := w.(status := Uploading)], claims := t.claims,
                    jobs := s.jobs[q := Job(w.email, w.key, w.path, w.retries, Fetched(s.filed[w.path]))])
  {
    var t := ClaimStep(s, q);
    assert Act(s, OfUpload(q, Claim)) == t;
    assert Act(t, OfUpload(q, Read)) == WithWork(t, q, Fetched(s.filed[w.path]));
  }

  lemma PutAndDone(s: State, q: nat, j: Job)
    requires q in s.jobs && s.jobs[q] == j && j.work.Fetched? && j.email in s.rows
    ensures Act(Act(s, OfUpload(q, UploadOp.Put(true))), OfUpload(q, Done(true))) ==
            s.(rows := s.rows[j.email := Uploaded(s.rows[j.email], j.key)], queue := s.queue - {q},
               objects := s.objects[j.key := j.work.content], jobs := s.jobs - {q})
  {
    var t := PutStep(s, q, true);
    assert Act(s, OfUpload(q, UploadOp.Put(true))) == t;
    assert Act(t, OfUpload(q, Done(true))) == DoneStep(t, q, true);
    assert s.jobs[q := j.(work := Stored)] - {q} == s.jobs - {q};
  }

  /** One email mirrored, from a pending queue row to the recorded etag. */
  lemma Mirror(acts: seq<Action>, q: nat, w: QueueRow) returns (longer: seq<Action>)
    requires Along(OVERLAPPING, EMPTY, acts)
    requires var s := Run(EMPTY, acts);
             q in s.queue && s.queue[q] == w && w.status.Pending? && w.path in s.filed && w.email in s.rows &&
               q !in s.jobs
    ensures Along(OVERLAPPING, EMPTY, longer)
    ensures var (s, t) := (Run(EMPTY, acts), Run(EMPTY, longer));
            t == s.(rows := s.rows[w.email := Uploaded(s.rows[w.email], w.key)], queue := s.queue - {q},
                    objects := s.objects[w.key := s.filed[w.path]], claims := t.claims)
  {
    hide Run, Along, Act;
    var s := Run(EMPTY, acts);
    var j := Job(w.email, w.key, w.path, w.retries, Fetched(s.filed[w.path]));
    longer := Go(acts, OfUpload(q, Claim));
    longer := Go(longer, OfUpload(q, Read));
    ClaimAndRead(s, q, w);
    PutAndDone(Run(EMPTY, longer), q, j);
    longer := Go(longer, OfUpload(q, UploadOp.Put(true)));
    longer := Go(longer, OfUpload(q, Done(true)));
    assert s.queue[q := w.(status := Uploading)] - {q} == s.queue - {q};
    assert s.jobs[q := j] - {q} == s.jobs;
  }

  function Evicted(row: Row): Row {
    row.(location := S3Only, path := None, since := Some(0))
  }

  lemma ListMarkUnlink(s: State, pass: nat, id: nat, x: Path)
    requires (pass, id) !in s.chores && id in s.rows
    requires s.rows[id].location.Local? && s.rows[id].uploaded && s.rows[id].path == Some(x)
    ensures Act(Act(Act(s, OfRetention(pass, id, ListEvict)), OfRetention(pass, id, MarkEvicted(0))),
      OfRetention(pass, id, Unlink)) ==
            s.(rows := s.rows[id := Evicted(s.rows[id])], filed := s.filed - {x})
  {
    var k := (pass, id);
    var t := Listed(s, k, Evict(Some(x)));
    assert Act(s, OfRetention(pass, id, ListEvict)) == t;
    var u := EvictStep(t, k, 0);
    assert Act(t, OfRetention(pass, id, MarkEvicted(0))) == u;
    assert Act(u, OfRetention(pass, id, Unlink)) == UnlinkStep(u, k);
    assert s.chores[k := Evict(Some(x))][k := Unlinking(x)] - {k} == s.chores;
  }

  /** Stage A to B for one email. */
  lemma EvictOne(acts: seq<Action>, pass: nat, id: nat, x: Path) returns (longer: seq<Action>)
    requires Along(OVERLAPPING, EMPTY, acts)
    requires var s := Run(EMPTY, acts);
             && (pass, id) !in s.chores && id in s.rows
             && s.rows[id].location.Local? && s.rows[id].uploaded && s.rows[id].path == Some(x)
    ensures Along(OVERLAPPING, EMPTY, longer)
    ensures var s := Run(EMPTY, acts);
            Run(EMPTY, longer) == s.(rows := s.rows[id := Evicted(s.rows[id])], filed := s.filed - {x})
  {
    hide Run, Along, Act;
    longer := Go(acts, OfRetention(pass, id, ListEvict));
    longer := Go(longer, OfRetention(pass, id, MarkEvicted(0)));
    longer := Go(longer, OfRetention(pass, id, Unlink));
    ListMarkUnlink(Run(EMPTY, acts), pass, id, x);
  }

  lemma ListExpireAct(s: State, pass: nat, id: nat, key: Key)
    requires (pass, id) !in s.chores && id in s.rows
    requires s.rows[id].location.S3Only? && s.rows[id].since.Some? && s.rows[id].key == Some(key)
    ensures Act(s, OfRetention(pass, id, ListExpire)) == s.(chores := s.chores[(pass, id) := Expire(Some(key))])
  {
  }

  lemma DeleteObjectAct(s: State, pass: nat, id: nat, key: Key)
    requires (pass, id) in s.chores && s.chores[(pass, id)] == Expire(Some(key))
    ensures Act(s, OfRetention(pass, id, DeleteObject)) ==
            s.(objects := s.objects - {key}, begun := s.begun + {id}, chores := s.chores[(pass, id) := ExpireRow])
  {
  }

  lemma DeleteRowAct(s: State, pass: nat, id: nat)
    requires (pass, id) in s.chores && s.chores[(pass, id)] == ExpireRow
    ensures Act(s, OfRetention(pass, id, RetainOp.Delete)) ==
            s.(rows := s.rows - {id}, queue := Cascaded(s.queue, id), chores := s.chores - {(pass, id)})
  {
  }

  // ---------------------------------------------------------------- the run

  const MAIL := Mail("a@x", Some(0), "one")

  const KEY := Key(0, 0, MAIL)

  function FileOf(serial: nat): Path {
    Path(0, 0, serial, "")
  }

  /** What the run looks at. The sync has given out `serial` names. */
  ghost predicate Looks(s: State, rows: map<nat, Row>, serial: nat, queue: map<nat, QueueRow>, nextQueue: nat,
                        objects: map<Key, Mail>, chores: map<(nat, nat), Chore>)
  {
    && s.rows == rows && s.queue == queue && s.nextQueue == nextQueue && s.objects == objects && s.chores == chores
    && s.tmp == map[] && s.jobs == map[] && s.nextRow == nextQueue
    && s.syncs == map[0 := Sync(0, 0, 0, 0, serial, Idle)]
  }

  function LocalRow(uid: nat, serial: nat): Row {
    Row(0, 0, uid, MAIL, 0, Local, Some(FileOf(serial)), None, false, None)
  }

  function GoneToS3(uid: nat, serial: nat): Row {
    Evicted(Uploaded(LocalRow(uid, serial), KEY))
  }

  /** Archive, mirror and evict MAIL as row n, when no other row is there. */
  lemma OneLife(acts: seq<Action>, n: nat, pass: nat, objects: map<Key, Mail>, chores: map<(nat, nat), Chore>)
    returns (longer: seq<Action>)
    requires Along(OVERLAPPING, EMPTY, acts)
    requires Looks(Run(EMPTY, acts), map[], n, map[], n, objects, chores) && (pass, n) !in chores
    ensures Along(OVERLAPPING, EMPTY, longer) && Run(EMPTY, longer).begun == Run(EMPTY, acts).begun
    ensures Looks(Run(EMPTY, longer), map[n := GoneToS3(n + 1, n + 1)], n + 1, map[], n + 1, objects[KEY := MAIL],
      chores)
  {
    hide Run, Along, Act, Advanced;
    var x := FileOf(n + 1);
    longer := ArchiveLimits.ArchiveWhole(EMPTY, acts, 0, MAIL, n + 1, true);
    AlongWhole(acts, n + 1);
    var w := QueueRow(n, KEY, x, Pending, 0);
    var s := Run(EMPTY, longer);
    assert s.rows == map[n := LocalRow(n + 1, n + 1)] && s.queue == map[n := w];
    longer := Mirror(longer, n, w);
    assert map[n := w] - {n} == map[];
    longer := EvictOne(longer, pass, n, x);
  }

  lemma AlongWhole(acts: seq<Action>, uid: nat)
    requires Along(OVERLAPPING, EMPTY, acts)
    ensures Along(OVERLAPPING, EMPTY, acts + ArchiveLimits.WholeActs(0, MAIL, uid, true))
  {
    hide Act, Along, Run;
    var more := ArchiveLimits.WholeActs(0, MAIL, uid, true);
    AlongFree(Run(EMPTY, acts), more);
    AlongConcat(OVERLAPPING, EMPTY, acts, more);
  }

  lemma FirstSyncLooks() returns (acts: seq<Action>)
    ensures Along(OVERLAPPING, EMPTY, acts) && Looks(Run(EMPTY, acts), map[], 0, map[], 0, map[], map[])
    ensures Run(EMPTY, acts).begun == {}
  {
    acts := ArchiveLimits.FirstSync();
    var s := Act(EMPTY, acts[0]);
    assert acts[1..] == [Begin(0, 0, 0, 0, 0)] && acts[1..][1..] == [];
    assert Along(OVERLAPPING, s, acts[1..]);
  }

  /** Pass 1 lists row 0 for Stage C and is slow. Pass 2 lists it too and finishes: object and
      row are gone. The same message comes back, is archived as row 1, mirrored and evicted.
      Now pass 1 deletes the object it has in hand: row 1 has lost its only copy, although
      Stage C never began for it. */
  lemma OverlappingPassesLoseMail() returns (acts: seq<Action>)
    ensures Along(OVERLAPPING, EMPTY, acts)
    ensures var s := Run(EMPTY, acts);
            && 1 in s.rows && s.rows[1] == GoneToS3(2, 2) && 1 !in s.begun && KEY !in s.objects
            && !ArchiveMirror.S3RowsSafe(s)
  {
    hide Run, Along, Act, Advanced;
    acts := FirstSyncLooks();
    acts := OneLife(acts, 0, 2, map[], map[]);
    var s := Run(EMPTY, acts);
    ListExpireAct(s, 1, 0, KEY);
    acts := Go(acts, OfRetention(1, 0, ListExpire));
    ListExpireAct(Run(EMPTY, acts), 2, 0, KEY);
    acts := Go(acts, OfRetention(2, 0, ListExpire));
    DeleteObjectAct(Run(EMPTY, acts), 2, 0, KEY);
    acts := Go(acts, OfRetention(2, 0, DeleteObject));
    DeleteRowAct(Run(EMPTY, acts), 2, 0);
    acts := Go(acts, OfRetention(2, 0, RetainOp.Delete));
    var chores := map[(1, 0) := Expire(Some(KEY))];
    Emptied();
    assert chores[(2, 0) := Expire(Some(KEY))][(2, 0) := ExpireRow] - {(2, 0)} == chores;
    acts := OneLife(acts, 1, 2, map[], chores);
    DeleteObjectAct(Run(EMPTY, acts), 1, 0, KEY);
    acts := Go(acts, OfRetention(1, 0, DeleteObject));
    Lost(Run(EMPTY, acts));
  }

  lemma Emptied()
    ensures map[0 := GoneToS3(1, 1)] - {0} == map[] && Cascaded(map[], 0) == map[] && map[KEY := MAIL] - {KEY} == map[]
  {
  }

  lemma Lost(s: State)
    requires 1 in s.rows && s.rows[1] == GoneToS3(2, 2) && 1 !in s.begun && KEY !in s.objects
    ensures !ArchiveMirror.S3RowsSafe(s)
  {
    assert !Blank(s.rows[1].mail);
  }
}
