/** A retention pass in its own form: policies resolved per account, rows moved local -> S3
    -> gone, files and objects removed, whatever fails. The pass performs steps of module
    `Archive` and nothing else, so the archive's promises hold through it. */
module Retention {
  import opened Options
  import opened Archive

  /** Days; None is "not set". */
  datatype Policy = Policy(localDays: Option<int>, moveToS3Days: Option<int>, s3Days: Option<int>)

  datatype Account = Account(id: nat, retention: Policy)

  function Either(own: Option<int>, global: Option<int>): Option<int> {
    if own.Some? then own else global
  }

  /** `resolveEffectivePolicy`; no global settings are settings with nothing set. */
  function Resolve(own: Policy, global: Policy): Policy {
    Policy(Either(own.localDays, global.localDays), Either(own.moveToS3Days, global.moveToS3Days),
      Either(own.s3Days, global.s3Days))
  }

  /** The pass's clock: `stamp` is what s3_only_since records for now, and `back` the cutoff
      that lies so many days before now. */
  datatype Clock = Clock(stamp: nat, back: int -> int)

  /** What goes wrong for one row in one stage. */
  datatype Fault = NoFault | ObjectFails(deleted: bool) | TxFails | TxUnreported | FileStuck

  type Faults = map<nat, Fault>

  function FaultOf(faults: Faults, id: nat): Fault {
    if id in faults then faults[id] else NoFault
  }

  /** One run's settings. */
  datatype Settings = Settings(s3: bool, clock: Clock, stageA: Faults, stageC: Faults)

  predicate Passed(clock: Clock, days: Option<int>, t: nat) {
    days.Some? && t <= clock.back(days.value)
  }

  predicate DueEvict(row: Row, account: nat, days: Option<int>, clock: Clock) {
    row.account == account && row.location.Local? && row.uploaded && Passed(clock, days, row.created)
  }

  predicate DueDirect(row: Row, account: nat, days: Option<int>, clock: Clock) {
    row.account == account && row.location.Local? && Passed(clock, days, row.created)
  }

  predicate DueExpire(row: Row, account: nat, days: Option<int>, clock: Clock) {
    row.account == account && row.location.S3Only? && row.since.Some? && Passed(clock, days, row.since.value)
  }

  function EvictionList(rows: map<nat, Row>, account: nat, days: Option<int>, clock: Clock): (due: set<nat>)
    ensures forall id :: id in due <==> id in rows && DueEvict(rows[id], account, days, clock)
  {
    set id | id in rows && DueEvict(rows[id], account, days, clock)
  }

  function DirectList(rows: map<nat, Row>, account: nat, days: Option<int>, clock: Clock): (due: set<nat>)
    ensures forall id :: id in due <==> id in rows && DueDirect(rows[id], account, days, clock)
  {
    set id | id in rows && DueDirect(rows[id], account, days, clock)
  }

  function ExpiryList(rows: map<nat, Row>, account: nat, days: Option<int>, clock: Clock): (due: set<nat>)
    ensures forall id :: id in due <==> id in rows && DueExpire(rows[id], account, days, clock)
  {
    set id | id in rows && DueExpire(rows[id], account, days, clock)
  }

  // ---------------------------------------------------------------- the fate of a row

  function Evicted(row: Row, stamp: nat): Row {
    row.(location := S3Only, path := None, since := Some(stamp))
  }

  function AfterA(row: Row, id: nat, p: Policy, g: Settings): Option<Row> {
    var fails := FaultOf(g.stageA, id).TxFails?;
    if g.s3 then
      if DueEvict(row, row.account, p.moveToS3Days, g.clock) && !fails then Some(Evicted(row, g.clock.stamp))
        else Some(row)
    else if DueDirect(row, row.account, p.localDays, g.clock) && !fails then None else Some(row)
  }

  function AfterC(row: Row, id: nat, p: Policy, g: Settings): Option<Row> {
    var f := FaultOf(g.stageC, id);
    if g.s3 && DueExpire(row, row.account, p.s3Days, g.clock) && !f.TxFails? && !f.ObjectFails? then None else Some(row)
  }

  /** What one pass does to a row. */
  function Fate(row: Row, id: nat, p: Policy, g: Settings): Option<Row> {
    var r := AfterA(row, id, p, g);
    if r.None? then None else AfterC(r.value, id, p, g)
  }

  /** The rows of one account after a pass over it. */
  ghost predicate Treated(was: map<nat, Row>, rows: map<nat, Row>, account: nat, p: Policy, g: Settings) {
    forall id :: id in was ==>
      var fate := if was[id].account == account then Fate(was[id], id, p, g) else Some(was[id]);
      (id in rows <==> fate.Some?) && (id in rows ==> rows[id] == fate.value)
  }

  /** The rows after a pass over all accounts. */
  function Settle(rows: map<nat, Row>, policies: map<nat, Policy>, g: Settings): map<nat, Row> {
    map id | id in rows && FateIn(rows[id], id, policies, g).Some? :: FateIn(rows[id], id, policies, g).value
  }

  function FateIn(row: Row, id: nat, policies: map<nat, Policy>, g: Settings): Option<Row> {
    if row.account in policies then Fate(row, id, policies[row.account], g) else Some(row)
  }

  /** A row is touched exactly when the threshold that applies to it has passed: the account's
      own, or where that is not set the global one; where neither is set, never. */
  lemma TouchedIff(row: Row, id: nat, own: Policy, global: Policy, g: Settings)
    requires id !in g.stageA && id !in g.stageC
    ensures g.s3 && row.location.Local? ==>
      (Fate(row, id, Resolve(own, global), g) != Some(row) <==>
       && row.uploaded
       && (|| (own.moveToS3Days.Some? && row.created <= g.clock.back(own.moveToS3Days.value))
           || (own.moveToS3Days.None? && global.moveToS3Days.Some? &&
               row.created <= g.clock.back(global.moveToS3Days.value))))
    ensures !g.s3 && row.location.Local? ==>
      (Fate(row, id, Resolve(own, global), g) != Some(row) <==>
       || (own.localDays.Some? && row.created <= g.clock.back(own.localDays.value))
       || (own.localDays.None? && global.localDays.Some? && row.created <= g.clock.back(global.localDays.value)))
    ensures g.s3 && row.location.S3Only? ==>
      (Fate(row, id, Resolve(own, global), g) != Some(row) <==>
       && row.since.Some?
       && (|| (own.s3Days.Some? && row.since.value <= g.clock.back(own.s3Days.value))
           || (own.s3Days.None? && global.s3Days.Some? && row.since.value <= g.clock.back(global.s3Days.value))))
    ensures !g.s3 && row.location.S3Only? ==> Fate(row, id, Resolve(own, global), g) == Some(row)
  {
  }

  /** Whatever fails: a row that a stage takes is evicted or deleted, and a row whose
      transaction, or in Stage C whose object, could not be dealt with stays as it is. */
  lemma FateIs(row: Row, id: nat, p: Policy, g: Settings)
    ensures g.s3 && row.location.Local? ==>
      var taken := row.uploaded && p.moveToS3Days.Some? && row.created <= g.clock.back(p.moveToS3Days.value) &&
                   !(id in g.stageA && g.stageA[id].TxFails?);
      var evicted := row.(location := S3Only, path := None, since := Some(g.clock.stamp));
      var onward := p.s3Days.Some? && g.clock.stamp <= g.clock.back(p.s3Days.value) &&
                    !(id in g.stageC && (g.stageC[id].TxFails? || g.stageC[id].ObjectFails?));
      Fate(row, id, p, g) == if !taken then Some(row) else if onward then None else Some(evicted)
    ensures !g.s3 && row.location.Local? ==>
      var taken := p.localDays.Some? && row.created <= g.clock.back(p.localDays.value) &&
                   !(id in g.stageA && g.stageA[id].TxFails?);
      Fate(row, id, p, g) == if taken then None else Some(row)
    ensures g.s3 && row.location.S3Only? ==>
      var taken := row.since.Some? && p.s3Days.Some? && row.since.value <= g.clock.back(p.s3Days.value) &&
                   !(id in g.stageC && (g.stageC[id].TxFails? || g.stageC[id].ObjectFails?));
      Fate(row, id, p, g) == if taken then None else Some(row)
  {
  }

  /** If a row is touched, so is every older one in the same state. */
  lemma OlderIsTouchedToo(row: Row, id: nat, older: Row, other: nat, own: Policy, global: Policy, g: Settings)
    requires id !in g.stageA && id !in g.stageC && other !in g.stageA && other !in g.stageC
    requires row.location == older.location && row.uploaded == older.uploaded && older.created <= row.created
    requires row.since.Some? ==> older.since.Some? && older.since.value <= row.since.value
    requires Fate(row, id, Resolve(own, global), g) != Some(row)
    ensures Fate(older, other, Resolve(own, global), g) != Some(older)
  {
    hide Fate;
    TouchedIff(row, id, own, global, g);
    TouchedIff(older, other, own, global, g);
  }

  /** Rows only move forward, and only an uploaded row becomes S3-only, whatever fails. */
  lemma FateMovesForward(row: Row, id: nat, p: Policy, g: Settings)
    ensures match Fate(row, id, p, g)
            case None => true
            case Some(r) => r == row || (row.location.Local? && row.uploaded && r == Evicted(row, g.clock.stamp))
  {
  }

  /** A fault-free pass repeated at the same clock and settings changes nothing, also for the
      rows that the first pass has just moved. */
  lemma SettleTwice(rows: map<nat, Row>, policies: map<nat, Policy>, g: Settings)
    requires g.stageA == map[] && g.stageC == map[]
    ensures Settle(Settle(rows, policies, g), policies, g) == Settle(rows, policies, g)
  {
    var once := Settle(rows, policies, g);
    forall id | id in once ensures FateIn(once[id], id, policies, g) == Some(once[id]) {
      FateMovesForward(rows[id], id, if rows[id].account in policies then policies[rows[id].account]
        else Policy(None, None, None), g);
    }
  }

  // ---------------------------------------------------------------- archive steps of one row

  /** Two or three steps of a pass on one row, from rest. */
  lemma ThreeActs(s: State, pass: nat, id: nat, a: RetainOp, b: RetainOp, c: RetainOp)
    requires s.chores == map[] && (a.ListEvict? || a.ListDirect? || a.ListExpire?)
    requires !(b.ListEvict? || b.ListDirect? || b.ListExpire?) && !(c.ListEvict? || c.ListDirect? || c.ListExpire?)
    ensures var x, y, z := OfRetention(pass, id, a), OfRetention(pass, id, b), OfRetention(pass, id, c);
            && Run(s, [x, y]) == Act(Act(s, x), y) && Run(s, [x, y, z]) == Act(Act(Act(s, x), y), z)
            && Along(ALL, s, [x, y]) && Along(ALL, s, [x, y, z])
  {
    var x, y, z := OfRetention(pass, id, a), OfRetention(pass, id, b), OfRetention(pass, id, c);
    PermittedAct(s, pass, id, a);
    PermittedAct(Act(s, x), pass, id, b);
    PermittedAct(Act(Act(s, x), y), pass, id, c);
    hide Act, Permitted;
    assert [x, y, z][1..] == [y, z] && [y, z][1..] == [z] && [z][1..] == [] && [x, y][1..] == [y] && [y][1..] == [];
    var t := Act(s, x);
    assert Run(t, [y]) == Run(Act(t, y), []);
    assert Run(t, [y, z]) == Run(Act(t, y), [z]) == Run(Act(Act(t, y), z), []);
    assert Along(ALL, Act(t, y), []) && Along(ALL, Act(Act(t, y), z), []);
    assert Along(ALL, Act(t, y), [z]);
  }

  function Removed(filed: map<Path, Mail>, path: Option<Path>, f: Fault): map<Path, Mail> {
    if path.Some? && f.NoFault? then filed - {path.value} else filed
  }

  function Listing(s: State, k: (nat, nat), c: Chore): State {
    s.(chores := map[k := c])
  }

  /** Listing a row for one stage, from rest. */
  lemma ListAct(s: State, pass: nat, id: nat)
    requires s.chores == map[] && id in s.rows
    ensures s.rows[id].location.Local? && s.rows[id].uploaded ==>
              Act(s, OfRetention(pass, id, ListEvict)) == Listing(s, (pass, id), Evict(s.rows[id].path))
    ensures s.rows[id].location.Local? ==>
              Act(s, OfRetention(pass, id, ListDirect)) == Listing(s, (pass, id), DeleteDirect(s.rows[id].path))
    ensures s.rows[id].location.S3Only? && s.rows[id].since.Some? ==>
              Act(s, OfRetention(pass, id, ListExpire)) == Listing(s, (pass, id), Expire(s.rows[id].key))
  {
  }

  lemma GiveUpAct(s: State, pass: nat, id: nat, c: Chore)
    ensures Act(Listing(s, (pass, id), c), OfRetention(pass, id, GiveUp)) == s.(chores := map[])
  {
    assert map[(pass, id) := c] - {(pass, id)} == map[];
  }

  /** The file of a treated row: removed, or left behind. */
  lemma LastAct(s: State, t: State, pass: nat, id: nat, path: Option<Path>, f: Fault)
    requires t == if path.Some? then Listing(s, (pass, id), Unlinking(path.value)) else s.(chores := map[])
    ensures Act(t, OfRetention(pass, id, if f.NoFault? then Unlink else GiveUp)) ==
            s.(chores := map[], filed := Removed(s.filed, path, f))
  {
    if path.Some? {
      assert map[(pass, id) := Unlinking(path.value)] - {(pass, id)} == map[];
    }
  }

  /** MarkEvicted and Delete on a freshly listed row. */
  lemma MarkAct(s: State, pass: nat, id: nat, path: Option<Path>, stamp: nat)
    requires id in s.rows
    ensures var u := s.(rows := s.rows[id := Evicted(s.rows[id], stamp)]);
            Act(Listing(s, (pass, id), Evict(path)), OfRetention(pass, id, MarkEvicted(stamp))) ==
            if path.Some? then Listing(u, (pass, id), Unlinking(path.value)) else u.(chores := map[])
  {
    hide SyncEffect, UploadEffect;
    var t := Listing(s, (pass, id), Evict(path));
    assert Act(t, OfRetention(pass, id, MarkEvicted(stamp))) == EvictStep(t, (pass, id), stamp);
    assert map[(pass, id) := Evict(path)] - {(pass, id)} == map[];
  }

  lemma DeleteAct(s: State, pass: nat, id: nat, c: Chore)
    requires c.DeleteDirect? || c.ExpireRow?
    ensures var u := s.(rows := s.rows - {id}, queue := Cascaded(s.queue, id));
            Act(Listing(s, (pass, id), c), OfRetention(pass, id, RetainOp.Delete)) ==
            if c.DeleteDirect? && c.path.Some? then Listing(u, (pass, id), Unlinking(c.path.value))
              else u.(chores := map[])
  {
    hide SyncEffect, UploadEffect, Cascaded;
    var t := Listing(s, (pass, id), c);
    assert Act(t, OfRetention(pass, id, RetainOp.Delete)) == DeleteStep(t, (pass, id));
    assert map[(pass, id) := c] - {(pass, id)} == map[];
    assert c.DeleteDirect? && c.path.Some? ==>
      map[(pass, id) := c][(pass, id) := Unlinking(c.path.value)] == map[(pass, id) := Unlinking(c.path.value)];
  }

  function WithoutObject(objects: map<Key, Mail>, key: Option<Key>): map<Key, Mail> {
    if key.Some? then objects - {key.value} else objects
  }

  lemma ExpireAct(s: State, pass: nat, id: nat, key: Option<Key>)
    ensures Act(Listing(s, (pass, id), Expire(key)), OfRetention(pass, id, DeleteObject)) ==
            Listing(s.(objects := WithoutObject(s.objects, key), begun := s.begun + {id}), (pass, id), ExpireRow)
  {
    hide SyncEffect, UploadEffect;
    var t := Listing(s, (pass, id), Expire(key));
    assert Act(t, OfRetention(pass, id, DeleteObject)) == ExpireStep(t, (pass, id));
  }

  /** Under ALL, only listings are restricted, and from rest they are free. */
  lemma PermittedAct(s: State, pass: nat, id: nat, op: RetainOp)
    requires s.chores == map[] || !(op.ListEvict? || op.ListDirect? || op.ListExpire?)
    ensures Permitted(ALL, s, OfRetention(pass, id, op))
  {
  }

  function EvictActs(pass: nat, id: nat, stamp: nat, f: Fault): seq<Action> {
    if f.TxFails? then [OfRetention(pass, id, ListEvict), OfRetention(pass, id, GiveUp)]
    else [OfRetention(pass, id, ListEvict), OfRetention(pass, id, MarkEvicted(stamp)),
          OfRetention(pass, id, if f.NoFault? then Unlink else GiveUp)]
  }

  lemma EvictEffect(s: State, pass: nat, id: nat, stamp: nat, f: Fault)
    requires s.chores == map[] && id in s.rows && s.rows[id].location.Local? && s.rows[id].uploaded
    ensures var t := Run(s, EvictActs(pass, id, stamp, f));
            && t.chores == map[] && t.objects == s.objects && t.queue == s.queue
            && Along(ALL, s, EvictActs(pass, id, stamp, f))
            && t.rows == (if f.TxFails? then s.rows else s.rows[id := Evicted(s.rows[id], stamp)])
            && t.filed == Removed(s.filed, s.rows[id].path, f)
  {
    hide Run, Along, Act, Evicted;
    var path := s.rows[id].path;
    if f.TxFails? {
      ListAct(s, pass, id);
      ThreeActs(s, pass, id, ListEvict, GiveUp, GiveUp);
      GiveUpAct(s, pass, id, Evict(path));
    } else {
      EvictGoes(s, pass, id, stamp, f);
    }
  }

  lemma EvictGoes(s: State, pass: nat, id: nat, stamp: nat, f: Fault)
    requires s.chores == map[] && id in s.rows && s.rows[id].location.Local? && s.rows[id].uploaded && !f.TxFails?
    ensures var path := s.rows[id].path; var acts := EvictActs(pass, id, stamp, f);
            && Along(ALL, s, acts)
            && Run(s, acts) == s.(rows := s.rows[id := Evicted(s.rows[id], stamp)], chores := map[],
                 filed := Removed(s.filed, path, f))
  {
    hide Run, Along, Act, Evicted, Removed;
    var path := s.rows[id].path;
    ListAct(s, pass, id);
    ThreeActs(s, pass, id, ListEvict, MarkEvicted(stamp), if f.NoFault? then Unlink else GiveUp);
    MarkAct(s, pass, id, path, stamp);
    var u := s.(rows := s.rows[id := Evicted(s.rows[id], stamp)]);
    LastAct(u, if path.Some? then Listing(u, (pass, id), Unlinking(path.value))
      else u.(chores := map[]), pass, id, path, f);
  }

  function DirectActs(pass: nat, id: nat, f: Fault): seq<Action> {
    if f.TxFails? then [OfRetention(pass, id, ListDirect), OfRetention(pass, id, GiveUp)]
    else [OfRetention(pass, id, ListDirect), OfRetention(pass, id, RetainOp.Delete),
          OfRetention(pass, id, if f.NoFault? then Unlink else GiveUp)]
  }

  lemma DirectEffect(s: State, pass: nat, id: nat, f: Fault)
    requires s.chores == map[] && id in s.rows && s.rows[id].location.Local?
    ensures var t := Run(s, DirectActs(pass, id, f));
            && t.chores == map[] && t.objects == s.objects && Along(ALL, s, DirectActs(pass, id, f))
            && t.rows == (if f.TxFails? then s.rows else s.rows - {id})
            && t.queue == (if f.TxFails? then s.queue else Cascaded(s.queue, id))
            && t.filed == Removed(s.filed, s.rows[id].path, f)
  {
    hide Run, Along, Act, Cascaded;
    var path := s.rows[id].path;
    if f.TxFails? {
      ListAct(s, pass, id);
      ThreeActs(s, pass, id, ListDirect, GiveUp, GiveUp);
      GiveUpAct(s, pass, id, DeleteDirect(path));
    } else {
      DirectGoes(s, pass, id, f);
    }
  }

  lemma DirectGoes(s: State, pass: nat, id: nat, f: Fault)
    requires s.chores == map[] && id in s.rows && s.rows[id].location.Local? && !f.TxFails?
    ensures var path := s.rows[id].path; var acts := DirectActs(pass, id, f);
            && Along(ALL, s, acts)
            && Run(s, acts) == s.(rows := s.rows - {id}, queue := Cascaded(s.queue, id), chores := map[],
                                  filed := Removed(s.filed, path, f))
  {
    hide Run, Along, Act, Cascaded, Removed;
    var path := s.rows[id].path;
    ListAct(s, pass, id);
    ThreeActs(s, pass, id, ListDirect, RetainOp.Delete, if f.NoFault? then Unlink else GiveUp);
    DeleteAct(s, pass, id, DeleteDirect(path));
    var u := s.(rows := s.rows - {id}, queue := Cascaded(s.queue, id));
    LastAct(u, if path.Some? then Listing(u, (pass, id), Unlinking(path.value))
      else u.(chores := map[]), pass, id, path, f);
  }

  predicate ObjectKept(f: Fault) {
    f.ObjectFails? && !f.deleted
  }

  function ExpireActs(pass: nat, id: nat, f: Fault): seq<Action> {
    if ObjectKept(f) then [OfRetention(pass, id, ListExpire), OfRetention(pass, id, GiveUp)]
    else [OfRetention(pass, id, ListExpire), OfRetention(pass, id, DeleteObject),
          OfRetention(pass, id, if f.TxFails? || f.ObjectFails? then GiveUp else RetainOp.Delete)]
  }

  lemma ExpireEffect(s: State, pass: nat, id: nat, f: Fault)
    requires s.chores == map[] && id in s.rows && s.rows[id].location.S3Only? && s.rows[id].since.Some?
    ensures var t := Run(s, ExpireActs(pass, id, f)); var gone := !f.TxFails? && !f.ObjectFails?;
            && t.chores == map[] && t.filed == s.filed && Along(ALL, s, ExpireActs(pass, id, f))
            && t.rows == (if gone then s.rows - {id} else s.rows)
            && t.queue == (if gone then Cascaded(s.queue, id) else s.queue)
            && t.objects == (if ObjectKept(f) then s.objects else WithoutObject(s.objects, s.rows[id].key))
  {
    hide Run, Along, Act, WithoutObject, Cascaded;
    var key := s.rows[id].key;
    ListAct(s, pass, id);
    if ObjectKept(f) {
      ThreeActs(s, pass, id, ListExpire, GiveUp, GiveUp);
      GiveUpAct(s, pass, id, Expire(key));
    } else {
      ExpireAct(s, pass, id, key);
      var u := s.(objects := WithoutObject(s.objects, key), begun := s.begun + {id});
      if f.TxFails? || f.ObjectFails? {
        ThreeActs(s, pass, id, ListExpire, DeleteObject, GiveUp);
        GiveUpAct(u, pass, id, ExpireRow);
      } else {
        ThreeActs(s, pass, id, ListExpire, DeleteObject, RetainOp.Delete);
        DeleteAct(u, pass, id, ExpireRow);
      }
    }
  }

  // ---------------------------------------------------------------- the program

  /** `Stats` */
  datatype Stats = Stats(movedToS3Only: nat, deletedDirect: nat, deletedFromS3: nat, errors: nat)

  function EvictedIfDue(row: Row, id: nat, account: nat, days: Option<int>, g: Settings): Row {
    if DueEvict(row, account, days, g.clock) && !FaultOf(g.stageA, id).TxFails? then Evicted(row, g.clock.stamp)
      else row
  }

  predicate Expires(row: Row, id: nat, account: nat, days: Option<int>, g: Settings) {
    DueExpire(row, account, days, g.clock) && !FaultOf(g.stageC, id).TxFails? && !FaultOf(g.stageC, id).ObjectFails?
  }

  /** Which counter a stage counts up. */
  datatype Stage = Moved | Direct | FromS3

  function Counted(stats: Stats, done: nat, errors: nat, stage: Stage): Stats {
    Stats(stats.movedToS3Only + (if stage.Moved? then done else 0),
          stats.deletedDirect + (if stage.Direct? then done else 0),
          stats.deletedFromS3 + (if stage.FromS3? then done else 0),
          stats.errors + errors)
  }

  /** The row counts as an error of its stage; only Stage C deletes objects. */
  predicate Errs(f: Fault, withObject: bool) {
    f.TxFails? || f.TxUnreported? || (withObject && f.ObjectFails?)
  }

  function Stuck(due: set<nat>, faults: Faults, withObject: bool): set<nat> {
    set id | id in due && Errs(FaultOf(faults, id), withObject)
  }

  /** The counters after these rows of a stage. */
  function After(before: Stats, handled: set<nat>, faults: Faults, withObject: bool, stage: Stage): Stats {
    var stuck := Stuck(handled, faults, withObject);
    Counted(before, |handled - stuck|, |stuck|, stage)
  }

  lemma AfterNothing(before: Stats, all: set<nat>, faults: Faults, withObject: bool, stage: Stage)
    ensures After(before, all - all, faults, withObject, stage) == before
  {
    assert Stuck(all - all, faults, withObject) == {};
  }

  lemma CountedIs(stats: Stats, done: nat, errors: nat)
    ensures var e := stats.errors + errors;
            && Counted(stats, done, errors, Moved) == stats.(movedToS3Only := stats.movedToS3Only + done, errors := e)
            && Counted(stats, done, errors, Direct) == stats.(deletedDirect := stats.deletedDirect + done, errors := e)
            && Counted(stats, done, errors, FromS3) == stats.(deletedFromS3 := stats.deletedFromS3 + done, errors := e)
  {
  }

  lemma StuckOne(handled: set<nat>, id: nat, faults: Faults, withObject: bool)
    requires id !in handled
    ensures var stuck, now := Stuck(handled, faults, withObject), Stuck(handled + {id}, faults, withObject);
            if Errs(FaultOf(faults, id), withObject)
            then |now| == |stuck| + 1 && |handled + {id} - now| == |handled - stuck|
            else |now| == |stuck| && |handled + {id} - now| == |handled - stuck| + 1
  {
    hide Errs, FaultOf;
    var stuck, now := Stuck(handled, faults, withObject), Stuck(handled + {id}, faults, withObject);
    if Errs(FaultOf(faults, id), withObject) {
      assert now == stuck + {id};
      assert handled + {id} - now == handled - stuck;
    } else {
      assert now == stuck;
      assert handled + {id} - now == handled - stuck + {id};
    }
  }

  lemma AfterOne(before: Stats, all: set<nat>, due: set<nat>, id: nat, faults: Faults, withObject: bool, stage: Stage)
    requires id in due && due <= all
    ensures var stuck := Errs(FaultOf(faults, id), withObject);
            After(before, all - (due - {id}), faults, withObject, stage) ==
            Counted(After(before, all - due, faults, withObject, stage),
                    if stuck then 0 else 1, if stuck then 1 else 0, stage)
  {
    hide Stuck, Errs, FaultOf;
    assert all - (due - {id}) == all - due + {id};
    StuckOne(all - due, id, faults, withObject);
  }

  lemma AfterAll(all: set<nat>)
    ensures all - {} == all
  {
  }

  class Runner {
    const pass: nat
    var rows: map<nat, Row>
    var queue: map<nat, QueueRow>
    var filed: map<Path, Mail>
    var objects: map<Key, Mail>
    var stats: Stats
    // the transition system alongside
    ghost var start: State
    ghost var acts: seq<Action>
    ghost var world: State

    /** The fields are those of `world`, a state that a permitted archive run has reached. */
    ghost predicate Agrees()
      reads this
    {
      && world.rows == rows && world.queue == queue && world.filed == filed && world.objects == objects
      && world.chores == map[] && world == Run(start, acts) && Along(ALL, start, acts)
    }

    constructor (s: State, pass: nat)
      requires s.chores == map[]
      ensures Agrees() && start == s && rows == s.rows && stats == Stats(0, 0, 0, 0)
    {
      this.pass, rows, queue, filed, objects := pass, s.rows, s.queue, s.filed, s.objects;
      stats, start, acts, world := Stats(0, 0, 0, 0), s, [], s;
    }

    ghost method Perform(more: seq<Action>)
      requires world == Run(start, acts) && Along(ALL, start, acts) && Along(ALL, world, more)
      modifies this`world, this`acts
      ensures world == Run(old(world), more) && world == Run(start, acts) && Along(ALL, start, acts)
    {
      RunConcat(start, acts, more);
      AlongConcat(ALL, start, acts, more);
      world := Run(world, more);
      acts := acts + more;
    }

    /** Stage A -> B for one row. */
    method EvictOne(id: nat, stamp: nat, f: Fault)
      requires Agrees() && id in rows && rows[id].location.Local? && rows[id].uploaded
      modifies this`rows, this`filed, this`stats, this`acts, this`world
      ensures Agrees() && start == old(start)
      ensures rows == if f.TxFails? then old(rows) else old(rows)[id := Evicted(old(rows)[id], stamp)]
      ensures stats == if f.TxFails? || f.TxUnreported? then Counted(old(stats), 0, 1, Moved)
        else Counted(old(stats), 1, 0, Moved)
      ensures filed == Removed(old(filed), old(rows)[id].path, f)
    {
      hide Run, Along, EvictActs;
      EvictEffect(world, pass, id, stamp, f);
      Perform(EvictActs(pass, id, stamp, f));
      var path := rows[id].path;
      if !f.TxFails? {
        rows := rows[id := rows[id].(location := S3Only, path := None, since := Some(stamp))];
      }
      if f.TxFails? || f.TxUnreported? {
        stats := stats.(errors := stats.errors + 1);
        return;
      }
      filed := Removed(filed, path, f);
      stats := stats.(movedToS3Only := stats.movedToS3Only + 1);
    }

    /** The transaction of `DeleteCompletely`; queue rows of the email go with it. */
    method DropRow(id: nat, f: Fault) returns (ok: bool)
      modifies this`rows, this`queue
      ensures ok == !(f.TxFails? || f.TxUnreported?)
      ensures rows == (if f.TxFails? then old(rows) else old(rows) - {id})
      ensures queue == (if f.TxFails? then old(queue) else Cascaded(old(queue), id))
    {
      if !f.TxFails? {
        rows, queue := rows - {id}, Cascaded(queue, id);
      }
      ok := !f.TxFails? && !f.TxUnreported?;
    }

    /** Stage A without a mirror: the row goes, then the file. */
    method DeleteOne(id: nat, f: Fault)
      requires Agrees() && id in rows && rows[id].location.Local?
      modifies this`rows, this`queue, this`filed, this`stats, this`acts, this`world
      ensures Agrees() && start == old(start)
      ensures rows == if f.TxFails? then old(rows) else old(rows) - {id}
      ensures stats == if f.TxFails? || f.TxUnreported? then Counted(old(stats), 0, 1, Direct)
        else Counted(old(stats), 1, 0, Direct)
      ensures filed == Removed(old(filed), old(rows)[id].path, f)
    {
      hide Run, Along, DirectActs, Cascaded;
      DirectEffect(world, pass, id, f);
      Perform(DirectActs(pass, id, f));
      var path := rows[id].path;
      var ok := DropRow(id, f);
      if !ok {
        stats := stats.(errors := stats.errors + 1);
        return;
      }
      filed := Removed(filed, path, f);
      stats := stats.(deletedDirect := stats.deletedDirect + 1);
    }

    /** Stage B -> C: the object goes, then the row. */
    method ExpireOne(id: nat, f: Fault)
      requires Agrees() && id in rows && rows[id].location.S3Only? && rows[id].since.Some?
      modifies this`rows, this`queue, this`objects, this`stats, this`acts, this`world
      ensures Agrees() && start == old(start)
      ensures rows == if f.TxFails? || f.ObjectFails? then old(rows) else old(rows) - {id}
      ensures stats == if f.TxFails? || f.ObjectFails? || f.TxUnreported? then Counted(old(stats), 0, 1, FromS3)
                       else Counted(old(stats), 1, 0, FromS3)
      ensures objects == if ObjectKept(f) then old(objects) else WithoutObject(old(objects), old(rows)[id].key)
      ensures (f.ObjectFails? && !f.deleted) || old(rows)[id].key.None? ==> objects == old(objects)
      ensures !(f.ObjectFails? && !f.deleted) && old(rows)[id].key.Some? ==>
        objects == old(objects) - {old(rows)[id].key.value}
    {
      hide Run, Along, ExpireActs, Cascaded;
      ExpireEffect(world, pass, id, f);
      Perform(ExpireActs(pass, id, f));
      if !ObjectKept(f) {
        objects := WithoutObject(objects, rows[id].key);
      }
      var ok := !f.ObjectFails?;
      if ok {
        ok := DropRow(id, f);
      }
      if !ok {
        stats := stats.(errors := stats.errors + 1);
        return;
      }
      stats := stats.(deletedFromS3 := stats.deletedFromS3 + 1);
    }

    method EvictToS3Only(account: nat, days: Option<int>, g: Settings)
      requires Agrees()
      modifies this`rows, this`filed, this`stats, this`acts, this`world
      ensures Agrees() && start == old(start) && rows.Keys == old(rows).Keys
      ensures forall id :: id in rows ==> rows[id] == EvictedIfDue(old(rows)[id], id, account, days, g)
      ensures var due := EvictionList(old(rows), account, days, g.clock);
              stats == After(old(stats), due, g.stageA, false, Moved)
    {
      ghost var was := rows;
      var due := EvictionList(rows, account, days, g.clock);
      hide Run, Along, After, EvictionList, DirectList, ExpiryList;
      ghost var all, before := due, stats;
      AfterNothing(stats, due, g.stageA, false, Moved);
      while due != {}
        invariant Agrees() && start == old(start) && rows.Keys == was.Keys && due <= rows.Keys
        invariant forall id :: id in due ==> rows[id] == was[id] && DueEvict(rows[id], account, days, g.clock)
        invariant forall id :: id in rows && id !in due ==> rows[id] == EvictedIfDue(was[id], id, account, days, g)
        invariant due <= all && stats == After(before, all - due, g.stageA, false, Moved)
        decreases |due|
      {
        var id :| id in due;
        EvictOne(id, g.clock.stamp, FaultOf(g.stageA, id));
        AfterOne(before, all, due, id, g.stageA, false, Moved);
        due := due - {id};
      }
      AfterAll(all);
    }

    method DeleteDirectNoBackup(account: nat, days: Option<int>, g: Settings)
      requires Agrees()
      modifies this`rows, this`queue, this`filed, this`stats, this`acts, this`world
      ensures Agrees() && start == old(start)
      ensures forall id :: id in rows <==>
        id in old(rows) && !(DueDirect(old(rows)[id], account, days, g.clock) && !FaultOf(g.stageA, id).TxFails?)
      ensures forall id :: id in rows ==> rows[id] == old(rows)[id]
      ensures var due := DirectList(old(rows), account, days, g.clock);
              stats == After(old(stats), due, g.stageA, false, Direct)
    {
      ghost var was := rows;
      var due := DirectList(rows, account, days, g.clock);
      hide Run, Along, After, EvictionList, DirectList, ExpiryList;
      ghost var all, before := due, stats;
      AfterNothing(stats, due, g.stageA, false, Direct);
      while due != {}
        invariant Agrees() && start == old(start) && due <= rows.Keys
        invariant forall id :: id in due ==> id in was && DueDirect(was[id], account, days, g.clock)
        invariant forall id :: id in rows ==> id in was && rows[id] == was[id]
        invariant forall id :: id in was && id !in due ==>
                    (id in rows <==> !(DueDirect(was[id], account, days, g.clock) && !FaultOf(g.stageA, id).TxFails?))
        invariant due <= all && stats == After(before, all - due, g.stageA, false, Direct)
        decreases |due|
      {
        var id :| id in due;
        DeleteOne(id, FaultOf(g.stageA, id));
        AfterOne(before, all, due, id, g.stageA, false, Direct);
        due := due - {id};
      }
      AfterAll(all);
    }

    method DeleteFromS3(account: nat, days: Option<int>, g: Settings)
      requires Agrees()
      modifies this`rows, this`queue, this`objects, this`stats, this`acts, this`world
      ensures Agrees() && start == old(start)
      ensures forall id :: id in rows <==> id in old(rows) && !Expires(old(rows)[id], id, account, days, g)
      ensures forall id :: id in rows ==> rows[id] == old(rows)[id]
      ensures var due := ExpiryList(old(rows), account, days, g.clock);
              stats == After(old(stats), due, g.stageC, true, FromS3)
    {
      ghost var was := rows;
      var due := ExpiryList(rows, account, days, g.clock);
      hide Run, Along, After, EvictionList, DirectList, ExpiryList;
      ghost var all, before := due, stats;
      AfterNothing(stats, due, g.stageC, true, FromS3);
      while due != {}
        invariant Agrees() && start == old(start) && due <= rows.Keys
        invariant forall id :: id in due ==> id in was && DueExpire(was[id], account, days, g.clock)
        invariant forall id :: id in rows ==> id in was && rows[id] == was[id]
        invariant forall id :: id in was && id !in due ==>
                    (id in rows <==> !Expires(was[id], id, account, days, g))
        invariant due <= all && stats == After(before, all - due, g.stageC, true, FromS3)
        decreases |due|
      {
        var id :| id in due;
        ExpireOne(id, FaultOf(g.stageC, id));
        AfterOne(before, all, due, id, g.stageC, true, FromS3);
        due := due - {id};
      }
      AfterAll(all);
    }

    /** The body of the account loop. */
    method TreatAccount(account: nat, p: Policy, g: Settings)
      requires Agrees()
      modifies this
      ensures Agrees() && start == old(start)
      ensures Treated(old(rows), rows, account, p, g) && rows.Keys <= old(rows).Keys
    {
      hide Run, Along, After, EvictionList, DirectList, ExpiryList;
      if g.s3 && p.moveToS3Days.Some? {
        EvictToS3Only(account, p.moveToS3Days, g);
      } else if !g.s3 && p.localDays.Some? {
        DeleteDirectNoBackup(account, p.localDays, g);
      }
      if g.s3 && p.s3Days.Some? {
        DeleteFromS3(account, p.s3Days, g);
      }
    }

    /** `Run`: whatever fails, every row meets the fate its account's effective policy gives
        it, through steps of the archive. */
    method Pass(accounts: seq<Account>, global: Policy, g: Settings)
      requires Agrees()
      requires forall i, j :: 0 <= i < j < |accounts| ==> accounts[i].id != accounts[j].id
      modifies this
      ensures Agrees() && start == old(start)
      ensures rows == Settle(old(rows), Policies(accounts, global), g)
    {
      ghost var was := rows;
      hide Run, Along, Fate;
      for k := 0 to |accounts|
        invariant Agrees() && start == old(start)
        invariant rows.Keys <= was.Keys && rows == Settle(was, Policies(accounts[..k], global), g)
      {
        var a := accounts[k];
        ghost var before := rows;
        TreatAccount(a.id, Resolve(a.retention, global), g);
        PoliciesSnoc(accounts, k, global);
        SettleOneMore(was, before, rows, Policies(accounts[..k], global), a.id, Resolve(a.retention, global), g);
      }
      assert accounts[..|accounts|] == accounts;
    }
  }

  function Policies(accounts: seq<Account>, global: Policy): map<nat, Policy> {
    if accounts == [] then map[]
    else
      var a := accounts[|accounts| - 1];
      Policies(accounts[..|accounts| - 1], global)[a.id := Resolve(a.retention, global)]
  }

  /** What a pass makes of a row: the fate under its account's own settings and the global
      ones, and nothing at all when no listed account has it. */
  lemma SettleIs(rows: map<nat, Row>, id: nat, accounts: seq<Account>, global: Policy, g: Settings)
    requires id in rows && forall i, j :: 0 <= i < j < |accounts| ==> accounts[i].id != accounts[j].id
    ensures forall k :: 0 <= k < |accounts| && accounts[k].id == rows[id].account ==>
      var fate := Fate(rows[id], id, Resolve(accounts[k].retention, global), g);
      var after := Settle(rows, Policies(accounts, global), g);
      (id in after <==> fate.Some?) && (id in after ==> after[id] == fate.value)
    ensures (forall k :: 0 <= k < |accounts| ==> accounts[k].id != rows[id].account) ==>
      var after := Settle(rows, Policies(accounts, global), g); id in after && after[id] == rows[id]
  {
    hide Fate;
    PolicyKeys(accounts, global);
    forall k | 0 <= k < |accounts| && accounts[k].id == rows[id].account
      ensures accounts[k].id in Policies(accounts, global)
      ensures Policies(accounts, global)[accounts[k].id] == Resolve(accounts[k].retention, global)
    {
      PolicyOf(accounts, global, k);
    }
  }

  lemma {:induction false} PolicyOf(accounts: seq<Account>, global: Policy, k: nat)
    requires k < |accounts| && forall i, j :: 0 <= i < j < |accounts| ==> accounts[i].id != accounts[j].id
    ensures accounts[k].id in Policies(accounts, global)
    ensures Policies(accounts, global)[accounts[k].id] == Resolve(accounts[k].retention, global)
    decreases |accounts|
  {
    var n := |accounts| - 1;
    if k < n {
      PolicyOf(accounts[..n], global, k);
      assert accounts[n].id != accounts[k].id;
    }
  }

  lemma PoliciesSnoc(accounts: seq<Account>, k: nat, global: Policy)
    requires k < |accounts| && forall i, j :: 0 <= i < j < |accounts| ==> accounts[i].id != accounts[j].id
    ensures Policies(accounts[..k + 1], global) ==
      Policies(accounts[..k], global)[accounts[k].id := Resolve(accounts[k].retention, global)]
    ensures accounts[k].id !in Policies(accounts[..k], global)
  {
    assert accounts[..k + 1][..k] == accounts[..k];
    PolicyKeys(accounts[..k], global);
  }

  lemma {:induction false} PolicyKeys(accounts: seq<Account>, global: Policy)
    ensures forall id :: id in Policies(accounts, global) ==> exists i :: 0 <= i < |accounts| && accounts[i].id == id
  {
    if accounts != [] {
      var front := accounts[..|accounts| - 1];
      PolicyKeys(front, global);
      forall id | id in Policies(accounts, global) ensures exists i :: 0 <= i < |accounts| && accounts[i].id == id {
        if id in Policies(front, global) {
          var i :| 0 <= i < |front| && front[i].id == id;
          assert accounts[i].id == id;
        } else {
          assert accounts[|accounts| - 1].id == id;
        }
      }
    }
  }

  /** Accounts are independent: treating one more settles its rows only. */
  lemma SettleOneMore(was: map<nat, Row>, before: map<nat, Row>, rows: map<nat, Row>, policies: map<nat, Policy>,
                      account: nat, p: Policy, g: Settings)
    requires before == Settle(was, policies, g) && account !in policies
    requires Treated(before, rows, account, p, g) && rows.Keys <= before.Keys
    ensures rows == Settle(was, policies[account := p], g)
  {
    forall id | id in was
      ensures (id in rows <==> FateIn(was[id], id, policies[account := p], g).Some?) &&
        (id in rows ==> rows[id] == FateIn(was[id], id, policies[account := p], g).value)
    {
      if was[id].account in policies {
        FateMovesForward(was[id], id, policies[was[id].account], g);
      }
    }
    assert forall id :: id in rows ==> id in was;
  }
}
