/** What a folder run adds to the tables: the rows it inserts and their queue rows, column by
    column. */
module FetchedRows {
  import opened Options
  import opened Archive

  /** The part of the tables that archiving adds to. */
  datatype Tables = Tables(rows: map<nat, Row>, nextRow: nat, queue: map<nat, QueueRow>, nextQueue: nat)

  /** A run's folder, Maildir writer and mirror setting, and its clock: `today` in days and
      `now` as created_at has it. */
  datatype Setting = Setting(account: nat, folder: nat, dir: nat, writer: nat, mirror: bool, today: nat, now: nat)

  /** One more email: its row, and with mirroring its queue row, under the message's own day
      or else today's. */
  ghost predicate Gained(x: Setting, was: Tables, t: Tables, uid: nat, mail: Mail, path: Path) {
    && t.nextRow == was.nextRow + 1
    && t.rows == was.rows[was.nextRow :=
         Row(x.account, x.folder, uid, mail, x.now, Local, Some(path), None, false, None)]
    && t.nextQueue == (if x.mirror then was.nextQueue + 1 else was.nextQueue)
    && t.queue == (if x.mirror
         then was.queue[was.nextQueue := Enqueued(x, was.nextRow, mail, path)] else was.queue)
  }

  ghost function Enqueued(x: Setting, id: nat, mail: Mail, path: Path): QueueRow {
    QueueRow(id, Key(x.account, if mail.day.Some? then mail.day.value else x.today, mail), path, Pending, 0)
  }

  /** A row as archiving inserts it, under some UID, for some message and name. */
  ghost predicate NewRow(x: Setting, row: Row) {
    && row.path.Some? && row.path.value.dir == x.dir && row.path.value.writer == x.writer
    && row == Row(x.account, x.folder, row.uid, row.mail, x.now, Local, row.path, None, false, None)
  }

  /** What archiving adds: new rows under the next ids, with mirroring as many queue rows under
      the next queue ids, one for each; everything else is as before. */
  ghost predicate Extends(x: Setting, was: Tables, t: Tables) {
    && was.nextRow <= t.nextRow
    && (forall id :: id < was.nextRow || id >= t.nextRow ==>
          (id in t.rows <==> id in was.rows) && (id in t.rows ==> t.rows[id] == was.rows[id]))
    && (forall id :: was.nextRow <= id < t.nextRow ==> id in t.rows && NewRow(x, t.rows[id]))
    && t.nextQueue == was.nextQueue + (if x.mirror then t.nextRow - was.nextRow else 0)
    && (forall q :: q < was.nextQueue || q >= t.nextQueue ==>
          (q in t.queue <==> q in was.queue) && (q in t.queue ==> t.queue[q] == was.queue[q]))
    && (forall q :: was.nextQueue <= q < t.nextQueue ==>
          var id := was.nextRow + (q - was.nextQueue);
          q in t.queue && t.queue[q] == Enqueued(x, id, t.rows[id].mail, t.rows[id].path.value))
  }

  lemma ExtendsNothing(x: Setting, t: Tables)
    ensures Extends(x, t, t)
  {
  }

  lemma ExtendsOne(x: Setting, was: Tables, t: Tables, u: Tables, uid: nat, mail: Mail, path: Path)
    requires Extends(x, was, t) && (u == t || Gained(x, t, u, uid, mail, path))
    requires path.dir == x.dir && path.writer == x.writer
    ensures Extends(x, was, u)
  {
    hide Enqueued;
    if u != t {
      assert NewRow(x, u.rows[t.nextRow]);
    }
  }

  lemma ExtendsTwice(x: Setting, was: Tables, t: Tables, u: Tables)
    requires Extends(x, was, t) && Extends(x, t, u)
    ensures Extends(x, was, u)
  {
    hide Enqueued, NewRow;
  }

  /** Each of the new rows is one of the messages, under its UID and its flags. */
  ghost predicate FromMessages(was: Tables, t: Tables, messages: seq<(nat, Mail)>, flagsOf: nat -> string) {
    forall id :: was.nextRow <= id < t.nextRow && id in t.rows ==> IsMessage(t.rows[id], messages, flagsOf)
  }

  ghost predicate IsMessage(row: Row, messages: seq<(nat, Mail)>, flagsOf: nat -> string) {
    exists i :: 0 <= i < |messages| && messages[i] == (row.uid, row.mail) &&
      row.path.Some? && row.path.value.flags == flagsOf(i)
  }

  lemma OneMoreMessage(x: Setting, was: Tables, t: Tables, u: Tables, messages: seq<(nat, Mail)>,
      flagsOf: nat -> string,
                       i: nat, path: Path)
    requires FromMessages(was, t, messages, flagsOf) && i < |messages| && path.flags == flagsOf(i)
    requires u == t || Gained(x, t, u, messages[i].0, messages[i].1, path)
    ensures FromMessages(was, u, messages, flagsOf)
  {
    hide Enqueued;
    if u != t {
      assert messages[i] == (messages[i].0, messages[i].1);
      assert IsMessage(u.rows[t.nextRow], messages, flagsOf);
    }
  }

  /** The first n messages that a rule skips. */
  function Skips(messages: seq<(nat, Mail)>, n: nat, rule: Mail -> bool): set<nat>
    requires n <= |messages|
  {
    set i | 0 <= i < n && rule(messages[i].1)
  }

  lemma NoSkips(messages: seq<(nat, Mail)>, rule: Mail -> bool)
    ensures |Skips(messages, 0, rule)| == 0
  {
  }

  lemma SkipsSnoc(messages: seq<(nat, Mail)>, n: nat, rule: Mail -> bool)
    requires n < |messages|
    ensures |Skips(messages, n + 1, rule)| == |Skips(messages, n, rule)| + (if rule(messages[n].1) then 1 else 0)
  {
    if rule(messages[n].1) {
      assert Skips(messages, n + 1, rule) == Skips(messages, n, rule) + {n};
    } else {
      assert Skips(messages, n + 1, rule) == Skips(messages, n, rule);
    }
  }
}
