/** The bulk move between folders: synthetic UIDs high above server UIDs, and the file that
    is renamed along with the row. */
module FolderMove {
  import opened Options
  import opened Archive
  import opened ArchiveFiles

  const TWO_32 := 0x1_0000_0000

  // ---------------------------------------------------------------- UIDs

  /** Rows of `folder` with a move UID. */
  function MoveUids(rows: map<nat, Row>, folder: nat): set<nat> {
    set id | id in rows && rows[id].folder == folder && rows[id].uid >= MOVE_BASE :: rows[id].uid
  }

  predicate IsMax(uids: set<nat>, m: nat) {
    m in uids && forall u :: u in uids ==> u <= m
  }

  lemma {:induction false} MaxExists(uids: set<nat>) returns (m: nat)
    requires uids != {}
    ensures IsMax(uids, m)
    decreases uids
  {
    m :| m in uids;
    var rest := uids - {m};
    assert forall u :: u in uids ==> u == m || u in rest;
    if rest != {} {
      var n := MaxExists(rest);
      m := if n > m then n else m;
    }
  }

  /** `NextManualMoveUID`: MAX(uid) + 1 in 32 bits, or the base. */
  method NextManualMoveUid(rows: map<nat, Row>, folder: nat) returns (uid: nat)
    ensures MoveUids(rows, folder) == {} ==> uid == MOVE_BASE
    ensures MoveUids(rows, folder) != {} ==>
      exists m: nat :: IsMax(MoveUids(rows, folder), m) && uid == (m % TWO_32 + 1) % TWO_32
  {
    var todo := MoveUids(rows, folder);
    ghost var all := todo;
    if todo == {} { return MOVE_BASE; }
    var max: nat :| max in todo;
    todo := todo - {max};
    while todo != {}
      invariant max in all && todo <= all && forall u :: u in all && u !in todo ==> u <= max
      decreases todo
    {
      var u: nat :| u in todo;
      todo := todo - {u};
      if u > max { max := u; }
    }
    uid := (max % TWO_32 + 1) % TWO_32;
    assert IsMax(all, max);
  }

  predicate UidUsed(rows: map<nat, Row>, folder: nat, uid: nat) {
    exists id :: id in rows && rows[id].folder == folder && rows[id].uid == uid
  }

  /** The promise "guaranteed unused" holds exactly until the increment wraps around onto a row
      with UID 0, which the first wrap puts there. */
  lemma NextUidUnusedIff(rows: map<nat, Row>, folder: nat, m: nat)
    requires IsMax(MoveUids(rows, folder), m) && forall id :: id in rows ==> rows[id].uid < TWO_32
    ensures (forall id :: id in rows && rows[id].folder == folder ==> rows[id].uid != (m % TWO_32 + 1) % TWO_32) <==>
            m != TWO_32 - 1 || forall id :: id in rows && rows[id].folder == folder ==> rows[id].uid != 0
  {
    var id :| id in rows && rows[id].folder == folder && rows[id].uid == m;
    assert forall j :: j in rows && rows[j].folder == folder && rows[j].uid >= MOVE_BASE ==>
      rows[j].uid in MoveUids(rows, folder);
    assert m != TWO_32 - 1 ==> (m % TWO_32 + 1) % TWO_32 == m + 1;
  }

  /** The tables under sync inserts and manual moves; `lastUid` per folder. */
  datatype Tables = Tables(rows: map<nat, Row>, next: nat, lastUid: map<nat, nat>)

  datatype Event =
    | SyncInsert(row: Row)
    | SyncSkip(folder: nat, uid: nat)
    | Move(id: nat, folder: nat, uid: nat)
    | Remove(id: nat)

  function Last(t: Tables, folder: nat): nat {
    if folder in t.lastUid then t.lastUid[folder] else 0
  }

  /** UNIQUE(account_id, folder_id, uid); a folder belongs to one account. */
  predicate Refused(t: Tables, e: Event) {
    match e
    case SyncInsert(row) => UidUsed(t.rows, row.folder, row.uid)
    case Move(id, folder, uid) =>
      exists other :: other in t.rows && other != id && t.rows[other].folder == folder && t.rows[other].uid == uid
    case _ => false
  }

  /** What syncing and moving offer: server UIDs above the watermark and below the move range
      (one UIDVALIDITY), the computed move UID, and move UIDs that have not reached the end. */
  ghost predicate Offered(t: Tables, e: Event) {
    match e
    case SyncInsert(row) => Last(t, row.folder) < row.uid < MOVE_BASE
    case SyncSkip(_, uid) => uid < MOVE_BASE
    case Move(id, folder, uid) =>
      && (forall m: nat :: IsMax(MoveUids(t.rows, folder), m) ==> m < TWO_32 - 1 && uid == m + 1)
      && (MoveUids(t.rows, folder) == {} ==> uid == MOVE_BASE)
    case Remove(_) => true
  }

  function Next(t: Tables, e: Event): Tables {
    if Refused(t, e) then t
    else
      match e
      case SyncInsert(row) =>
        Tables(t.rows[t.next := row], t.next + 1,
          t.lastUid[row.folder := if Last(t, row.folder) < row.uid then row.uid else Last(t, row.folder)])
      case SyncSkip(folder, uid) => t.(lastUid :=
          t.lastUid[folder := if Last(t, folder) < uid then uid else Last(t, folder)])
      case Move(id, folder, uid) =>
        if id in t.rows then t.(rows := t.rows[id := t.rows[id].(folder := folder, uid := uid)]) else t
      case Remove(id) => t.(rows := t.rows - {id})
  }

  ghost predicate AllOffered(t: Tables, events: seq<Event>)
    decreases |events|
  {
    events == [] || (Offered(t, events[0]) && AllOffered(Next(t, events[0]), events[1..]))
  }

  ghost predicate NoneRefused(t: Tables, events: seq<Event>)
    decreases |events|
  {
    events == [] || (!Refused(t, events[0]) && NoneRefused(Next(t, events[0]), events[1..]))
  }

  ghost predicate FolderUidsUnique(rows: map<nat, Row>) {
    forall i, j :: i in rows && j in rows && i != j && rows[i].folder == rows[j].folder ==> rows[i].uid != rows[j].uid
  }

  ghost predicate UidInv(t: Tables) {
    && FolderUidsUnique(t.rows)
    && (forall id :: id in t.rows ==> id < t.next)
    && (forall id :: id in t.rows ==> t.rows[id].uid <= Last(t, t.rows[id].folder) || t.rows[id].uid >= MOVE_BASE)
    && (forall f :: f in t.lastUid ==> t.lastUid[f] < MOVE_BASE)
  }

  lemma NextKeeps(t: Tables, e: Event)
    requires UidInv(t) && Offered(t, e)
    ensures !Refused(t, e) && UidInv(Next(t, e))
  {
    if e.Move? {
      if MoveUids(t.rows, e.folder) != {} {
        var m := MaxExists(MoveUids(t.rows, e.folder));
      }
      forall other | other in t.rows && t.rows[other].folder == e.folder ensures t.rows[other].uid != e.uid {
        if t.rows[other].uid >= MOVE_BASE {
          assert t.rows[other].uid in MoveUids(t.rows, e.folder);
        }
      }
    }
  }

  /** What is offered happens: no row stands in its way, and it changes that one row. */
  lemma OfferedHappens(t: Tables, e: Event)
    requires UidInv(t) && Offered(t, e)
    ensures e.SyncInsert? ==>
      && (forall id :: id in t.rows && t.rows[id].folder == e.row.folder ==> t.rows[id].uid != e.row.uid)
      && Next(t, e).rows == t.rows[t.next := e.row] && Last(Next(t, e), e.row.folder) == e.row.uid
    ensures e.SyncSkip? ==> Next(t, e).rows == t.rows && Last(Next(t, e), e.folder) >= e.uid
    ensures e.Move? && e.id in t.rows ==>
      && (forall id :: id in t.rows && id != e.id && t.rows[id].folder == e.folder ==> t.rows[id].uid != e.uid)
      && Next(t, e).rows == t.rows[e.id := t.rows[e.id].(folder := e.folder, uid := e.uid)]
    ensures e.Remove? ==> Next(t, e).rows == t.rows - {e.id}
  {
    NextKeeps(t, e);
  }

  function Run(t: Tables, events: seq<Event>): Tables
    decreases |events|
  {
    if events == [] then t else Run(Next(t, events[0]), events[1..])
  }

  lemma {:induction false} RunThen(t: Tables, events: seq<Event>, e: Event)
    ensures Run(t, events + [e]) == Next(Run(t, events), e)
    decreases |events|
  {
    if events == [] {
      assert events + [e] == [e];
      assert Run(Next(t, e), []) == Next(t, e);
    } else {
      assert (events + [e])[1..] == events[1..] + [e];
      RunThen(Next(t, events[0]), events[1..], e);
    }
  }

  /** Under any interleaving of syncing, moving and deleting, neither a sync insert nor a move
      is ever refused, and no two rows of a folder share a UID. */
  lemma {:induction false} UidsNeverCollide(t: Tables, events: seq<Event>)
    requires UidInv(t) && AllOffered(t, events)
    ensures NoneRefused(t, events) && FolderUidsUnique(Run(t, events).rows) && UidsUnique(Run(t, events).rows)
    decreases |events|
  {
    if events != [] {
      NextKeeps(t, events[0]);
      UidsNeverCollide(Next(t, events[0]), events[1..]);
    }
  }

  // ---------------------------------------------------------------- the file

  /** How moving one email may go wrong: the rename fails; the process is killed after it; the
      transaction fails, and renaming back works or fails too; or the transaction commits but
      `Do` reports the context's error, and the file is renamed back. */
  datatype Fault = NoFault | RenameFails | KilledBetween | TxFails(backFails: bool) | TxUnreported

  /** The same base name in the target folder's directory. */
  function Destination(x: Path, dir: nat): Path {
    Path(dir, x.writer, x.serial, x.flags)
  }

  function RenamedTo(filed: Files, from: Path, to: Path): Files
    requires from in filed
  {
    (filed - {from})[to := filed[from]]
  }

  /** The tables and files after a move, and whether it reported success. */
  function Moved(rows: map<nat, Row>, filed: Files, id: nat, folder: nat, dir: nat, uid: nat, fault: Fault)
    : (map<nat, Row>, Files, bool)
    requires id in rows
  {
    var e := rows[id];
    if e.path.Some? && (fault.RenameFails? || e.path.value !in filed) then (rows, filed, false)
    else
      var path := if e.path.Some? then Some(Destination(e.path.value, dir)) else None;
      var there := if e.path.Some? then RenamedTo(filed, e.path.value, path.value) else filed;
      if fault.KilledBetween? then (rows, there, false)
      else
        var committed := Commits(rows, id, folder, uid, fault);
        var rows' := if committed then rows[id := e.(folder := folder, uid := uid, path := path)] else rows;
        if committed && !fault.TxUnreported? then (rows', there, true)
        else if path == e.path || (fault.TxFails? && fault.backFails) then (rows', there, false)
        else (rows', RenamedTo(there, path.value, e.path.value), false)
  }

  predicate Commits(rows: map<nat, Row>, id: nat, folder: nat, uid: nat, fault: Fault) {
    !fault.TxFails? && !TakenByOther(rows, id, folder, uid)
  }

  /** Another local row has its file at `x`, with content other than `but`. */
  ghost predicate OtherAt(rows: map<nat, Row>, id: nat, x: Path, but: Option<Mail>) {
    exists other :: other in rows && other != id && rows[other].location.Local? && rows[other].path == Some(x) &&
      Some(rows[other].mail) != but
  }

  /** A move of a local email leaves every local row with its file exactly when nothing was
      renamed, or it stays in the same directory, or it succeeds onto a free name (or one with
      the same content), or it fails, is undone in full, and no other row owned the target
      name. A kill between the rename and the transaction, a failing undo, and an undo after
      a commit that was reported as an error each leave the row without its file. */
  lemma MoveKeepsFilesIff(rows: map<nat, Row>, filed: Files, id: nat, folder: nat, dir: nat, uid: nat, fault: Fault)
    requires LocalFilesKept(rows, filed) && id in rows && rows[id].location.Local?
    ensures var (x, e) := (rows[id].path.value, rows[id]); var y := Path(dir, x.writer, x.serial, x.flags);
            var (rows', filed', _) := Moved(rows, filed, id, folder, dir, uid, fault);
            LocalFilesKept(rows', filed') <==>
            || fault.RenameFails? || x == y
            || (fault.NoFault? && Commits(rows, id, folder, uid, fault) && !OtherAt(rows, id, x, None) &&
                !OtherAt(rows, id, y, Some(e.mail)))
            || (!Commits(rows, id, folder, uid, fault) && !fault.KilledBetween? &&
                !(fault.TxFails? && fault.backFails) && !OtherAt(rows, id, y, None))
  {
    var x := rows[id].path.value;
    var y := Destination(x, dir);
    var (rows', filed', _) := Moved(rows, filed, id, folder, dir, uid, fault);
    if x != y && !fault.RenameFails? {
      assert y in RenamedTo(filed, x, y) && x !in RenamedTo(filed, x, y);
      if fault.KilledBetween? || (fault.TxFails? && fault.backFails) {
        assert rows'[id] == rows[id] && x !in filed';
      } else if Commits(rows, id, folder, uid, fault) {
        assert rows'[id].path == Some(y);
        CommittedMove(rows, filed, id, folder, uid, y, fault);
      } else {
        UndoneMove(rows, filed, id, y);
      }
    }
  }

  lemma CommittedMove(rows: map<nat, Row>, filed: Files, id: nat, folder: nat, uid: nat, y: Path, fault: Fault)
    requires LocalFilesKept(rows, filed) && id in rows && rows[id].location.Local? && rows[id].path.value != y
    ensures var x, e := rows[id].path.value, rows[id];
            var moved := rows[id := e.(folder := folder, uid := uid, path := Some(y))];
            && (LocalFilesKept(moved, RenamedTo(filed, x, y)) <==>
                 !OtherAt(rows, id, x, None) && !OtherAt(rows, id, y, Some(e.mail)))
            && !LocalFilesKept(moved, RenamedTo(RenamedTo(filed, x, y), y, x))
  {
    var x, e := rows[id].path.value, rows[id];
    var moved, there := rows[id := e.(folder := folder, uid := uid, path := Some(y))], RenamedTo(filed, x, y);
    assert moved[id].path == Some(y) && y !in RenamedTo(there, y, x);
    if other :| other in rows && other != id && rows[other].location.Local? && rows[other].path == Some(x) {
      assert moved[other] == rows[other];
    }
    if OtherAt(rows, id, y, Some(e.mail)) {
      var other :| other in rows && other != id && rows[other].location.Local? && rows[other].path == Some(y) &&
                   rows[other].mail != e.mail;
      assert moved[other] == rows[other] && there[y] == e.mail;
    }
  }

  lemma UndoneMove(rows: map<nat, Row>, filed: Files, id: nat, y: Path)
    requires LocalFilesKept(rows, filed) && id in rows && rows[id].location.Local? && rows[id].path.value != y
    ensures var x := rows[id].path.value;
            LocalFilesKept(rows, RenamedTo(RenamedTo(filed, x, y), y, x)) <==> !OtherAt(rows, id, y, None)
  {
    var x := rows[id].path.value;
    var back := RenamedTo(RenamedTo(filed, x, y), y, x);
    assert forall z :: z in back <==> (z in filed && z != y) || z == x;
    if other :| other in rows && other != id && rows[other].location.Local? && rows[other].path == Some(y) {
      assert y !in back;
    }
  }

  /** The mailbox directories and the emails table, as `moveEmailToFolder` changes them: the
      file first, then the row, and the file back again if that fails. */
  class Mailboxes {
    var rows: map<nat, Row>
    var filed: Files

    method MoveEmail(id: nat, folder: nat, dir: nat, uid: nat, fault: Fault) returns (ok: bool)
      requires id in rows
      modifies this
      ensures (rows, filed, ok) == Moved(old(rows), old(filed), id, folder, dir, uid, fault)
      ensures if ok then rows[id].folder == folder && rows[id].uid == uid && !TakenByOther(old(rows), id, folder, uid)
              else rows == old(rows) || fault.TxUnreported?
      ensures ok <==>
        && (old(rows)[id].path.Some? ==> !fault.RenameFails? && old(rows)[id].path.value in old(filed))
        && !fault.KilledBetween? && !fault.TxFails? && !fault.TxUnreported?
        && forall other :: other in old(rows) && other != id && old(rows)[other].folder == folder ==>
             old(rows)[other].uid != uid
      ensures ok && old(rows)[id].path.Some? ==>
        var x := old(rows)[id].path.value; var y := Path(dir, x.writer, x.serial, x.flags);
        && x in old(filed) && filed == (old(filed) - {x})[y := old(filed)[x]]
        && rows == old(rows)[id := old(rows)[id].(folder := folder, uid := uid, path := Some(y))]
      ensures ok && old(rows)[id].path.None? ==>
        filed == old(filed) && rows == old(rows)[id := old(rows)[id].(folder := folder, uid := uid)]
    {
      var e := rows[id];
      var path := e.path;
      if e.path.Some? {
        if fault.RenameFails? || e.path.value !in filed { return false; }
        path := Some(Destination(e.path.value, dir));
        filed := RenamedTo(filed, e.path.value, path.value);
      }
      if fault.KilledBetween? { return false; }
      if Commits(rows, id, folder, uid, fault) {
        rows := rows[id := e.(folder := folder, uid := uid, path := path)];
        if !fault.TxUnreported? { return true; }
      }
      if path != e.path && !(fault.TxFails? && fault.backFails) {
        filed := RenamedTo(filed, path.value, e.path.value);
      }
      ok := false;
    }
  }

  predicate TakenByOther(rows: map<nat, Row>, id: nat, folder: nat, uid: nat) {
    exists other :: other in rows && other != id && rows[other].folder == folder && rows[other].uid == uid
  }
}
