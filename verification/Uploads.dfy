/** The upload queue in its own form: claiming a batch, and one worker processing one claimed
    row. Both perform steps of module `Archive` and nothing else, whatever fails. */
module Uploads {
  import opened Options
  import opened Archive
  import ArchiveQueue

  /** How a Single-Writer transaction went, as the caller sees it. */
  datatype Tx = Fine | Refused | Unreported

  /** What goes wrong while one item is processed. */
  datatype Fault = NoFault | ReadFails | EncryptFails | PutFails(stored: bool) | DoneFails(committed: bool)

  /** A claimed row, as the worker holds it. */
  datatype Item = Item(id: nat, email: nat, key: Key, path: Path, retries: nat)

  function JobOf(item: Item, work: Work): Job {
    Job(item.email, item.key, item.path, item.retries, work)
  }

  // ---------------------------------------------------------------- one step, field by field

  ghost predicate Same(s: State, t: State) {
    t.rows == s.rows && t.queue == s.queue && t.objects == s.objects && t.filed == s.filed && t.mirrored == s.mirrored
  }

  lemma ClaimAct(s: State, q: nat)
    requires q in s.queue && s.queue[q].status.Pending?
    ensures var t := Act(s, OfUpload(q, Claim)); var w := s.queue[q];
            && Same(s, t.(queue := s.queue)) && t.queue == s.queue[q := w.(status := Uploading)]
            && t.jobs == s.jobs[q := Job(w.email, w.key, w.path, w.retries, Claimed)]
  {
    assert Act(s, OfUpload(q, Claim)) == ClaimStep(s, q);
  }

  lemma ReadAct(s: State, item: Item)
    requires item.id in s.jobs && s.jobs[item.id] == JobOf(item, Claimed)
    ensures var t := Act(s, OfUpload(item.id, Read));
            Same(s, t) && t.jobs == s.jobs[item.id :=
              JobOf(item, if item.path in s.filed then Fetched(s.filed[item.path]) else Failing)]
  {
  }

  lemma FailAct(s: State, item: Item, work: Work)
    requires item.id in s.jobs && s.jobs[item.id] == JobOf(item, work)
    ensures var t := Act(s, OfUpload(item.id, Fail));
            Same(s, t) && t.jobs == s.jobs[item.id := JobOf(item, Failing)]
  {
  }

  lemma PutAct(s: State, item: Item, content: Mail, reported: bool)
    requires item.id in s.jobs && s.jobs[item.id] == JobOf(item, Fetched(content))
    ensures var t := Act(s, OfUpload(item.id, UploadOp.Put(reported)));
            && Same(s, t.(objects := s.objects)) && t.objects == s.objects[item.key := content]
            && t.jobs == s.jobs[item.id := JobOf(item, if reported then Stored else Failing)]
  {
    assert Act(s, OfUpload(item.id, UploadOp.Put(reported))) == PutStep(s, item.id, reported);
  }

  function WithEtag(rows: map<nat, Row>, email: nat, key: Key): map<nat, Row> {
    if email in rows then rows[email := rows[email].(key := Some(key), uploaded := true)] else rows
  }

  lemma DoneAct(s: State, item: Item, reported: bool)
    requires item.id in s.jobs && s.jobs[item.id] == JobOf(item, Stored)
    ensures var t := Act(s, OfUpload(item.id, Done(reported)));
            && t.objects == s.objects && t.filed == s.filed && t.mirrored == s.mirrored
            && t.rows == WithEtag(s.rows, item.email, item.key) && t.queue == s.queue - {item.id}
            && t.jobs == (if reported then s.jobs - {item.id} else s.jobs[item.id := JobOf(item, Failing)])
  {
    assert Act(s, OfUpload(item.id, Done(reported))) == DoneStep(s, item.id, reported);
  }

  /** The status after a failed attempt. */
  function AfterFailure(queue: map<nat, QueueRow>, item: Item): map<nat, QueueRow> {
    var tries := item.retries + 1;
    if item.id in queue then queue[item.id :=
      queue[item.id].(retries := tries, status := if tries >= MAX_ATTEMPTS then Failed else Pending)] else queue
  }

  lemma MarkFailedAct(s: State, item: Item)
    requires item.id in s.jobs && s.jobs[item.id] == JobOf(item, Failing)
    ensures var t := Act(s, OfUpload(item.id, UploadOp.MarkFailed));
            Same(s, t.(queue := s.queue)) && t.queue == AfterFailure(s.queue, item) && t.jobs == s.jobs - {item.id}
  {
    assert Act(s, OfUpload(item.id, UploadOp.MarkFailed)) == FailedStep(s, item.id);
  }

  lemma DropAct(s: State, item: Item)
    requires item.id in s.jobs
    ensures var t := Act(s, OfUpload(item.id, Drop)); Same(s, t) && t.jobs == s.jobs - {item.id}
  {
  }

  // ---------------------------------------------------------------- the program

  class Uploader {
    var rows: map<nat, Row>
    var queue: map<nat, QueueRow>
    var objects: map<Key, Mail>
    var filed: map<Path, Mail>
    // the transition system alongside
    ghost var start: State
    ghost var acts: seq<Action>
    ghost var world: State

    ghost predicate Agrees()
      reads this
    {
      && world.rows == rows && world.queue == queue && world.objects == objects && world.filed == filed
      && world == Run(start, acts)
    }

    /** A worker holds `item` at this point of its work. */
    ghost predicate Holds(item: Item, work: Work)
      reads this
    {
      Agrees() && item.id in world.jobs && world.jobs[item.id] == JobOf(item, work)
    }

    constructor (s: State)
      ensures Agrees() && start == s && world == s
    {
      rows, queue, objects, filed := s.rows, s.queue, s.objects, s.filed;
      start, acts, world := s, [], s;
    }

    ghost method Perform(a: Action)
      requires world == Run(start, acts)
      modifies this`world, this`acts
      ensures world == Act(old(world), a) && world == Run(start, acts)
    {
      var longer := Then(start, acts, a);
      world := Act(world, a);
      acts := longer;
    }

    /** `ClaimBatch`: up to `limit` pending rows that are due, the oldest first, all in one
        transaction. `created` is the rows' created_at. */
    method ClaimBatch(limit: nat, due: set<nat>, created: nat -> nat) returns (items: seq<Item>)
      requires Agrees()
      modifies this`queue, this`world, this`acts
      ensures Agrees() && start == old(start) && |items| <= limit
      ensures Held(items, old(queue), due) && Batch(old(queue), queue, items)
      ensures |items| < limit ==> forall q :: q in queue && q in due ==> !queue[q].status.Pending?
      ensures InOrder(items, created)
      ensures forall i, q :: 0 <= i < |items| && q in queue && q in due && queue[q].status.Pending? ==>
        created(items[i].id) <= created(q)
    {
      hide Run, Act, Batch, Waiting, InOrder;
      ghost var was := queue;
      var todo := set q | q in due && q in queue && queue[q].status.Pending?;
      items := [];
      NobodyClaimed(queue, todo, created);
      while |items| < limit && todo != {}
        invariant Agrees() && start == old(start) && |items| <= limit
        invariant Held(items, was, due) && Batch(was, queue, items) && Waiting(queue, items, todo)
        invariant todo <= due && forall q :: q in queue && q in due && queue[q].status.Pending? ==> q in todo
        invariant InOrder(items, created) && BeforeAll(items, todo, created)
        decreases |todo|
      {
        OldestExists(todo, created);
        var q: nat :| q in todo && forall r :: r in todo ==> created(q) <= created(r);
        ghost var before := items;
        items := ClaimOne(items, q, todo, was, due);
        InOrderMore(before, items, q, todo, created);
        todo := todo - {q};
      }
    }

    /** The claimed items: due rows that were pending, each once, each held by a worker. */
    ghost predicate Held(items: seq<Item>, was: map<nat, QueueRow>, due: set<nat>)
      reads this
    {
      && (forall i :: 0 <= i < |items| ==>
            (var q := items[i].id; q in due && q in was && was[q].status.Pending? && Holds(items[i], Claimed)))
      && (forall i, j :: 0 <= i < j < |items| ==> items[i].id != items[j].id)
    }

    method ClaimOne(before: seq<Item>, q: nat, ghost todo: set<nat>, ghost was: map<nat, QueueRow>, ghost due: set<nat>)
      returns (items: seq<Item>)
      requires Agrees() && Waiting(queue, before, todo) && q in todo && q in due
      requires Held(before, was, due) && Batch(was, queue, before)
      modifies this`queue, this`world, this`acts
      ensures Agrees() && queue == old(queue)[q := old(queue)[q].(status := Uploading)]
      ensures |items| == |before| + 1 && before <= items && items[|before|].id == q
      ensures Held(items, was, due) && Batch(was, queue, items) && Waiting(queue, items, todo - {q})
    {
      hide Run, Act, ClaimedIn;
      var w := queue[q];
      items := before + [Item(q, w.email, w.key, w.path, w.retries)];
      ClaimedMore(before, items);
      ClaimAct(world, q);
      EachClaimed(before);
      Perform(OfUpload(q, Claim));
      queue := queue[q := w.(status := Uploading)];
    }

    /** `MarkDone`: etag and queue row in one transaction. */
    method MarkDone(item: Item, tx: Tx) returns (ok: bool)
      requires Holds(item, Stored)
      modifies this`rows, this`queue, this`world, this`acts
      ensures ok == tx.Fine? && start == old(start)
      ensures if ok then Agrees() && item.id !in world.jobs else Holds(item, Failing)
      ensures rows == if tx.Refused? then old(rows) else WithEtag(old(rows), item.email, item.key)
      ensures queue == if tx.Refused? then old(queue) else old(queue) - {item.id}
    {
      ok := tx.Fine?;
      if tx.Refused? {
        FailAct(world, item, Stored);
        hide Run, Act;
        Perform(OfUpload(item.id, Fail));
        return;
      }
      DoneAct(world, item, ok);
      hide Run, Act;
      Perform(OfUpload(item.id, Done(ok)));
      if item.email in rows {
        rows := rows[item.email := rows[item.email].(key := Some(item.key), uploaded := true)];
      }
      queue := queue - {item.id};
    }

    /** `MarkFailed`: back to pending, or failed for good at the last attempt. When even that
        fails, the row stays `uploading`. */
    method MarkFailed(item: Item, tx: Tx)
      requires Holds(item, Failing)
      modifies this`queue, this`world, this`acts
      ensures Agrees() && item.id !in world.jobs && start == old(start)
      ensures queue == if tx.Refused? then old(queue) else AfterFailure(old(queue), item)
    {
      MarkFailedAct(world, item);
      DropAct(world, item);
      hide Run, Act;
      Perform(OfUpload(item.id, if tx.Refused? then Drop else UploadOp.MarkFailed));
      if !tx.Refused? {
        queue := AfterFailure(queue, item);
      }
    }

    /** `upload`: read, encrypt, PUT, record. */
    method Upload(item: Item, fault: Fault) returns (ok: bool)
      requires Holds(item, Claimed)
      modifies this
      ensures ok == (fault.NoFault? && item.path in filed) && filed == old(filed) && start == old(start)
      ensures if ok then Agrees() && item.id !in world.jobs else Holds(item, Failing)
      ensures ok ==> rows == WithEtag(old(rows), item.email, item.key) && queue == old(queue) - {item.id}
      ensures ok ==> objects == old(objects)[item.key := filed[item.path]]
      ensures !ok ==> (queue == old(queue) && rows == old(rows)) || (fault.DoneFails? && fault.committed)
    {
      if fault.ReadFails? {
        FailAct(world, item, Claimed);
        hide Run, Act;
        Perform(OfUpload(item.id, Fail));
        return false;
      }
      ReadAct(world, item);
      hide Run, Act;
      Perform(OfUpload(item.id, Read));
      if item.path !in filed { return false; }
      var content := filed[item.path];
      if fault.EncryptFails? || (fault.PutFails? && !fault.stored) {
        FailAct(world, item, Fetched(content));
        Perform(OfUpload(item.id, Fail));
        return false;
      }
      PutAct(world, item, content, !fault.PutFails?);
      Perform(OfUpload(item.id, UploadOp.Put(!fault.PutFails?)));
      objects := objects[item.key := content];
      if fault.PutFails? { return false; }
      ok := MarkDone(item, if !fault.DoneFails? then Fine else if fault.committed then Unreported else Refused);
    }

    /** `process`: upload; on an error count the attempt. The queue's law holds afterwards. */
    method Process(item: Item, fault: Fault, mark: Tx)
      requires Holds(item, Claimed)
      modifies this
      ensures Agrees() && item.id !in world.jobs && start == old(start)
      ensures fault.NoFault? && item.path in filed ==>
        rows == WithEtag(old(rows), item.email, item.key) && queue == old(queue) - {item.id}
      ensures !(fault.NoFault? && item.path in filed) && !(fault.DoneFails? && fault.committed) ==>
                rows == old(rows) && queue == if mark.Refused? then old(queue) else AfterFailure(old(queue), item)
      ensures ArchiveQueue.QueueInv(start) ==> ArchiveQueue.QueueOrEtag(rows, queue, world.mirrored)
    {
      var ok := Upload(item, fault);
      if !ok {
        MarkFailed(item, mark);
      }
      if ArchiveQueue.QueueInv(start) {
        ArchiveQueue.QueueLaw(start, acts);
      }
    }
  }

  ghost predicate InOrder(items: seq<Item>, created: nat -> nat) {
    forall i, j :: 0 <= i < j < |items| ==> created(items[i].id) <= created(items[j].id)
  }

  ghost predicate BeforeAll(items: seq<Item>, todo: set<nat>, created: nat -> nat) {
    forall i, r :: 0 <= i < |items| && r in todo ==> created(items[i].id) <= created(r)
  }

  lemma {:induction false} OldestExists(todo: set<nat>, created: nat -> nat)
    requires todo != {}
    ensures exists q :: q in todo && forall r :: r in todo ==> created(q) <= created(r)
    decreases |todo|
  {
    var q :| q in todo;
    var rest := todo - {q};
    assert forall r :: r in todo ==> r == q || r in rest;
    if rest != {} {
      OldestExists(rest, created);
      var p :| p in rest && forall r :: r in rest ==> created(p) <= created(r);
      var oldest := if created(q) <= created(p) then q else p;
      assert oldest in todo && forall r :: r in todo ==> created(oldest) <= created(r);
    }
  }

  lemma InOrderMore(before: seq<Item>, items: seq<Item>, q: nat, todo: set<nat>, created: nat -> nat)
    requires |items| == |before| + 1 && before <= items && items[|before|].id == q
    requires InOrder(before, created) && BeforeAll(before, todo, created)
    requires q in todo && forall r :: r in todo ==> created(q) <= created(r)
    ensures InOrder(items, created) && BeforeAll(items, todo - {q}, created)
  {
  }

  /** The queue after a batch: the claimed rows are uploading, the others as they were. */
  ghost predicate Batch(was: map<nat, QueueRow>, queue: map<nat, QueueRow>, items: seq<Item>) {
    && (forall q :: q in queue <==> q in was)
    && (forall q :: q in queue ==> queue[q] == if ClaimedIn(items, q) then was[q].(status := Uploading) else was[q])
  }

  /** Rows still to be claimed. */
  ghost predicate Waiting(queue: map<nat, QueueRow>, items: seq<Item>, todo: set<nat>) {
    forall q :: q in todo ==> q in queue && queue[q].status.Pending? && !ClaimedIn(items, q)
  }

  lemma NobodyClaimed(queue: map<nat, QueueRow>, todo: set<nat>, created: nat -> nat)
    ensures Batch(queue, queue, []) && InOrder([], created)
    ensures (forall q :: q in todo ==> q in queue && queue[q].status.Pending?) ==> Waiting(queue, [], todo)
  {
  }

  lemma ClaimedMore(before: seq<Item>, items: seq<Item>)
    requires |items| == |before| + 1 && before <= items
    ensures forall r :: ClaimedIn(items, r) <==> ClaimedIn(before, r) || r == items[|before|].id
  {
    forall r ensures ClaimedIn(items, r) <==> ClaimedIn(before, r) || r == items[|before|].id {
      if ClaimedIn(before, r) {
        var i :| 0 <= i < |before| && before[i].id == r;
        assert items[i].id == r;
      }
    }
  }

  lemma EachClaimed(items: seq<Item>)
    ensures forall i :: 0 <= i < |items| ==> ClaimedIn(items, items[i].id)
  {
  }

  predicate ClaimedIn(items: seq<Item>, q: nat) {
    exists i :: 0 <= i < |items| && items[i].id == q
  }
}
