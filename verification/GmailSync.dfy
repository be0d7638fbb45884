/** The Gmail connector's history cursor. Messages arrive, or leave the mailbox, between any
    two API calls; runs fail or are killed anywhere; cursors expire. */
module GmailSync {
  import opened Options

  /** The run of `SyncAccountGmailAPI` in progress: which call comes next, and what the
      earlier calls returned. Message i is the i-th arrival, so history id h stands for "the
      first h arrivals". */
  datatype Stage =
    | Resting
    | WalkingHistory(start: nat, covered: nat, ids: seq<nat>, latest: nat)
    | AskingProfile
    | ListingAll(nextCursor: nat, arrived: nat, ids: seq<nat>)
    | Processing(nextCursor: nat, ids: seq<nat>, k: nat)

  /** `gone`: left the listing's scope (deleted, or moved to Trash or Spam) for good;
      `deleted`: of those, the ones `messages.get` no longer knows. `handled` is history:
      archived, skipped by a rule, or found to be a duplicate. */
  datatype Gmail = Gmail(arrived: nat, gone: set<nat>, deleted: set<nat>, cursor: Option<nat>, handled: set<nat>,
      stage: Stage)

  datatype Event =
    | Arrive
    | Leave(message: nat, forGood: bool)
    | Start
    | HistoryPage(upTo: nat, historyId: Option<nat>, last: bool)
    | HistoryExpired
    | Profile
    | ListPage(ids: seq<nat>, last: bool)
    | HandleNext(ok: bool)
    | Persist(committed: bool)
    | Stop

  /** The arrivals lo <= i < hi, in order: one page of `messagesAdded` records. */
  function Added(lo: nat, hi: nat): seq<nat> {
    if lo >= hi then [] else Added(lo, hi - 1) + [hi - 1]
  }

  /** What the last page of a history walk must contain for its history id to be usable:
      every arrival up to that id. Gmail's answer, not Marchi's doing. */
  predicate WalkComplete(upTo: nat, latest: nat) {
    latest <= upTo
  }

  /** A finished full listing has every message that arrived before it began and is in scope. */
  ghost predicate ListingComplete(s: Gmail, arrived: nat, ids: seq<nat>) {
    forall i :: 0 <= i < arrived && i !in s.gone ==> i in ids
  }

  function Latest(latest: nat, historyId: Option<nat>): nat {
    if historyId.Some? then historyId.value else latest
  }

  /** One API answer, or one local step. Answers that break the API's contract are excluded. */
  ghost function Next(s: Gmail, e: Event): Gmail {
    match e
    case Arrive => s.(arrived := s.arrived + 1)
    case Leave(i, forGood) =>
      if i < s.arrived then s.(gone := s.gone + {i}, deleted := if forGood then s.deleted + {i} else s.deleted) else s
    case Start =>
      if !s.stage.Resting? then s
      else if s.cursor.Some? then s.(stage := WalkingHistory(s.cursor.value, s.cursor.value, [], s.cursor.value))
      else s.(stage := AskingProfile)
    case HistoryPage(upTo, historyId, last) =>
      if !s.stage.WalkingHistory? then s
      else
        var w := s.stage;
        var latest := Latest(w.latest, historyId);
        var ids := w.ids + Added(w.covered, upTo);
        if upTo < w.covered || upTo > s.arrived || latest > s.arrived then s
        else if !last then s.(stage := WalkingHistory(w.start, upTo, ids, latest))
        else if WalkComplete(upTo, latest) then s.(stage := Processing(latest, ids, 0))
        else s
    case HistoryExpired => if s.stage.WalkingHistory? then s.(stage := AskingProfile) else s
    case Profile => if s.stage.AskingProfile? then s.(stage := ListingAll(s.arrived, s.arrived, [])) else s
    case ListPage(ids, last) =>
      if !s.stage.ListingAll? then s
      else
        var all := s.stage.ids + ids;
        if !last then s.(stage := ListingAll(s.stage.nextCursor, s.stage.arrived, all))
        else if ListingComplete(s, s.stage.arrived, all) then s.(stage := Processing(s.stage.nextCursor, all, 0))
        else s
    case HandleNext(ok) =>
      if !s.stage.Processing? || s.stage.k >= |s.stage.ids| then s
      else
        var i := s.stage.ids[s.stage.k];
        if ok && i !in s.deleted then s.(handled := s.handled + {i},
          stage := Processing(s.stage.nextCursor, s.stage.ids, s.stage.k + 1))
        else s.(stage := Resting)
    case Persist(committed) =>
      if !s.stage.Processing? || s.stage.k < |s.stage.ids| then s
      else s.(cursor := if committed then Some(s.stage.nextCursor) else s.cursor, stage := Resting)
    case Stop => s.(stage := Resting)
  }

  ghost function Run(s: Gmail, events: seq<Event>): Gmail
    decreases |events|
  {
    if events == [] then s else Run(Next(s, events[0]), events[1..])
  }

  // ---------------------------------------------------------------- the cursor law

  /** Everything in scope that arrived at or before the stored cursor has been handled. */
  ghost predicate CursorSafe(s: Gmail) {
    s.cursor.Some? ==> s.cursor.value <= s.arrived && forall i :: 0 <= i < s.cursor.value && i !in s.gone ==>
      i in s.handled
  }

  ghost predicate StageAgrees(s: Gmail) {
    match s.stage
    case Resting => true
    case AskingProfile => true
    case WalkingHistory(start, covered, ids, latest) =>
      && s.cursor == Some(start) && start <= covered <= s.arrived && latest <= s.arrived
      && forall i :: start <= i < covered ==> i in ids
    case ListingAll(nextCursor, arrived, ids) => nextCursor <= arrived <= s.arrived
    case Processing(nextCursor, ids, k) =>
      && nextCursor <= s.arrived && k <= |ids|
      && (forall j :: 0 <= j < k ==> ids[j] in s.handled)
      && forall i :: 0 <= i < nextCursor && i !in s.gone ==> i in s.handled || i in ids
  }

  ghost predicate GmailInv(s: Gmail) {
    CursorSafe(s) && StageAgrees(s)
  }

  /** An account that was never synced, whatever its mailbox holds. */
  lemma FirstSyncIsSound(arrived: nat, gone: set<nat>, deleted: set<nat>)
    ensures GmailInv(Gmail(arrived, gone, deleted, None, {}, Resting))
  {
  }

  lemma {:induction false} AddedHolds(lo: nat, hi: nat)
    ensures forall i :: lo <= i < hi ==> i in Added(lo, hi)
    ensures forall i :: i in Added(lo, hi) ==> lo <= i < hi
    ensures lo <= hi ==> |Added(lo, hi)| == hi - lo && forall j :: 0 <= j < hi - lo ==> Added(lo, hi)[j] == lo + j
  {
    if lo < hi {
      AddedHolds(lo, hi - 1);
    }
  }

  lemma HistoryPageKeeps(s: Gmail, upTo: nat, historyId: Option<nat>, last: bool)
    requires GmailInv(s)
    ensures GmailInv(Next(s, HistoryPage(upTo, historyId, last)))
  {
    if s.stage.WalkingHistory? {
      AddedHolds(s.stage.covered, upTo);
    }
  }

  lemma NextKeeps(s: Gmail, e: Event)
    requires GmailInv(s)
    ensures GmailInv(Next(s, e))
  {
    if e.HistoryPage? {
      HistoryPageKeeps(s, e.upTo, e.historyId, e.last);
    }
  }

  /** With arrivals between any two calls, failed or killed runs and expired cursors: what
      arrived up to the stored history id and is still in scope has been handled. */
  lemma {:induction false} CursorNeverPassesMail(s: Gmail, events: seq<Event>)
    requires GmailInv(s)
    ensures GmailInv(Run(s, events)) && CursorSafe(Run(s, events))
    decreases |events|
  {
    if events != [] {
      NextKeeps(s, events[0]);
      CursorNeverPassesMail(Next(s, events[0]), events[1..]);
    }
  }

  /** The other side of the law: whatever is still unhandled is on the next run's list, be it
      a history walk from the cursor or a full listing. */
  lemma UnhandledIsListed(s: Gmail, e: Event, i: nat)
    requires GmailInv(s) && i !in s.gone && i !in s.handled
    requires !s.stage.Processing? && Next(s, e).stage.Processing?
    requires i < Next(s, e).stage.nextCursor
    ensures i in Next(s, e).stage.ids
  {
    NextKeeps(s, e);
  }

  // ---------------------------------------------------------------- when a run gets through

  /** Handle the rest of the list without any fault of the network or the disk. */
  ghost function Process(s: Gmail): Gmail
    requires s.stage.Processing? && s.stage.k <= |s.stage.ids|
    decreases |s.stage.ids| - s.stage.k
  {
    if s.stage.k == |s.stage.ids| then Next(s, Persist(true))
    else if s.stage.ids[s.stage.k] in s.deleted then Next(s, HandleNext(true))
    else Process(Next(s, HandleNext(true)))
  }

  lemma {:induction false} ProcessFinishesIff(s: Gmail)
    requires s.stage.Processing? && s.stage.k <= |s.stage.ids| && s.cursor != Some(s.stage.nextCursor)
    ensures Process(s).cursor == Some(s.stage.nextCursor) <==>
            forall j :: s.stage.k <= j < |s.stage.ids| ==> s.stage.ids[j] !in s.deleted
    ensures Process(s).cursor != Some(s.stage.nextCursor) ==> Process(s).cursor == s.cursor
    ensures Process(s).deleted == s.deleted && Process(s).arrived == s.arrived && Process(s).stage.Resting?
    decreases |s.stage.ids| - s.stage.k
  {
    if s.stage.k < |s.stage.ids| && s.stage.ids[s.stage.k] !in s.deleted {
      ProcessFinishesIff(Next(s, HandleNext(true)));
    }
  }

  lemma {:induction false} AddedConcat(lo: nat, mid: nat, hi: nat)
    requires lo <= mid <= hi
    ensures Added(lo, mid) + Added(mid, hi) == Added(lo, hi)
    decreases hi - mid
  {
    if mid < hi {
      AddedConcat(lo, mid, hi - 1);
    }
  }

  /** What happens during a history walk without faults: pages of any size, messages handled
      one by one, and at any moment arrivals and messages leaving. */
  predicate Faultless(e: Event) {
    e.Arrive? || e.Leave? || e.HistoryPage? || e == HandleNext(true)
  }

  /** How far such a run from cursor c has come: its list is exactly what arrived from c on,
      and it has stopped only at a deleted message. */
  ghost predicate OnWalk(s: Gmail, c: nat) {
    && s.cursor == Some(c) && c <= s.arrived
    && match s.stage
       case WalkingHistory(start, covered, ids, latest) => start == c && c <= covered <= s.arrived &&
           ids == Added(c, covered)
       case Processing(next, ids, k) =>
         k <= |ids| && c + |ids| <= s.arrived && next <= c + |ids| && ids == Added(c, c + |ids|)
       case Resting => exists i :: c <= i < s.arrived && i in s.deleted
       case _ => false
  }

  lemma PageOnWalk(s: Gmail, c: nat, e: Event)
    requires OnWalk(s, c) && e.HistoryPage? && s.stage.WalkingHistory?
    ensures OnWalk(Next(s, e), c)
  {
    if s.stage.covered <= e.upTo {
      AddedConcat(c, s.stage.covered, e.upTo);
      AddedHolds(c, e.upTo);
    }
  }

  lemma HandleOnWalk(s: Gmail, c: nat)
    requires OnWalk(s, c) && s.stage.Processing?
    ensures OnWalk(Next(s, HandleNext(true)), c)
  {
    AddedHolds(c, c + |s.stage.ids|);
  }

  lemma OutsideOnWalk(s: Gmail, c: nat, e: Event)
    requires OnWalk(s, c) && (e.Arrive? || e.Leave?)
    ensures OnWalk(Next(s, e), c)
  {
    if s.stage.Resting? {
      var i :| c <= i < s.arrived && i in s.deleted;
      assert i in Next(s, e).deleted;
    }
  }

  lemma {:induction false} RunOnWalk(s: Gmail, c: nat, events: seq<Event>)
    requires OnWalk(s, c) && forall i :: 0 <= i < |events| ==> Faultless(events[i])
    ensures OnWalk(Run(s, events), c)
    decreases |events|
  {
    if events != [] {
      var t := Next(s, events[0]);
      match events[0] {
        case Arrive => OutsideOnWalk(s, c, events[0]);
        case Leave(_, _) => OutsideOnWalk(s, c, events[0]);
        case HistoryPage(_, _, _) => if s.stage.WalkingHistory? { PageOnWalk(s, c, events[0]); }
        case HandleNext(_) => if s.stage.Processing? { HandleOnWalk(s, c); }
      }
      RunOnWalk(t, c, events[1..]);
    }
  }

  /** The history log keeps naming a message after it was deleted, and fetching it fails. So a
      run without faults, at any point after its walk of any number of pages, moves the cursor
      on exactly when none of the messages it still has to fetch has been deleted; otherwise
      the cursor stays. */
  lemma RunReachesPresentIff(s: Gmail, events: seq<Event>)
    requires s.stage.Resting? && s.cursor.Some? && s.cursor.value <= s.arrived
    requires forall i :: 0 <= i < |events| ==> Faultless(events[i])
    ensures var (t, c) := (Run(Next(s, Start), events), s.cursor.value);
            match t.stage
            case Processing(next, ids, k) =>
              && k <= |ids| && next <= c + |ids| <= t.arrived && ids == Added(c, c + |ids|)
              && (next != c ==>
                    (Process(t).cursor == Some(next) <==> forall i :: c + k <= i < c + |ids| ==> i !in t.deleted))
              && (Process(t).cursor == Some(next) || Process(t).cursor == Some(c))
            case Resting => t.cursor == Some(c) && exists i :: c <= i < t.arrived && i in t.deleted
            case _ => t.cursor == Some(c)
  {
    hide Process, Next;
    var c := s.cursor.value;
    StartOnWalk(s);
    RunOnWalk(Next(s, Start), c, events);
    var t := Run(Next(s, Start), events);
    if t.stage.Processing? {
      FinishOnWalk(t, c);
    }
  }

  lemma StartOnWalk(s: Gmail)
    requires s.stage.Resting? && s.cursor.Some? && s.cursor.value <= s.arrived
    ensures OnWalk(Next(s, Start), s.cursor.value)
  {
    AddedHolds(s.cursor.value, s.cursor.value);
  }

  lemma FinishOnWalk(t: Gmail, c: nat)
    requires OnWalk(t, c) && t.stage.Processing?
    ensures var (next, ids, k) := (t.stage.nextCursor, t.stage.ids, t.stage.k);
            && (next != c ==>
                  (Process(t).cursor == Some(next) <==> forall i :: c + k <= i < c + |ids| ==> i !in t.deleted))
            && (Process(t).cursor == Some(next) || Process(t).cursor == Some(c))
  {
    hide Process, Next;
    var ids, k := t.stage.ids, t.stage.k;
    AddedHolds(c, c + |ids|);
    ProcessEnds(t);
    if t.stage.nextCursor != c {
      ProcessFinishesIff(t);
      assert forall j :: k <= j < |ids| ==> ids[j] == c + j;
      if forall j :: k <= j < |ids| ==> ids[j] !in t.deleted {
        forall i | c + k <= i < c + |ids| ensures i !in t.deleted {
          assert ids[i - c] == i;
        }
      }
    }
  }

  lemma {:induction false} ProcessEnds(s: Gmail)
    requires s.stage.Processing? && s.stage.k <= |s.stage.ids|
    ensures Process(s).cursor == Some(s.stage.nextCursor) || Process(s).cursor == s.cursor
    decreases |s.stage.ids| - s.stage.k
  {
    if s.stage.k < |s.stage.ids| && s.stage.ids[s.stage.k] !in s.deleted {
      ProcessEnds(Next(s, HandleNext(true)));
    }
  }

  /** A deleted message at or beyond the cursor: no run has got past it. */
  ghost predicate HeldUp(s: Gmail, i: nat) {
    && i in s.deleted && i < s.arrived && s.cursor.Some? && s.cursor.value <= i
    && match s.stage
       case Resting => true
       case WalkingHistory(start, covered, ids, latest) =>
         start <= covered && start <= i && latest <= s.arrived && (i < covered ==> i in ids)
       case Processing(next, ids, k) => k <= |ids| && (next <= i || i in ids[k..])
       case _ => false
  }

  lemma PageHeldUp(s: Gmail, e: Event, i: nat)
    requires HeldUp(s, i) && e.HistoryPage? && s.stage.WalkingHistory?
    ensures HeldUp(Next(s, e), i)
  {
    AddedHolds(s.stage.covered, e.upTo);
    var t := Next(s, e);
    if t.stage.Processing? {
      assert t.stage.ids[0..] == t.stage.ids;
    }
  }

  lemma HandleHeldUp(s: Gmail, e: Event, i: nat)
    requires HeldUp(s, i) && e.HandleNext? && s.stage.Processing?
    ensures HeldUp(Next(s, e), i)
  {
    var ids, k := s.stage.ids, s.stage.k;
    if k < |ids| {
      assert ids[k..] == [ids[k]] + ids[k + 1..];
    }
  }

  /** Such a message holds up the cursor through every history, with any runs, faults and
      arrivals, until the cursor expires. */
  lemma {:induction false} DeletedMailHoldsCursor(s: Gmail, events: seq<Event>, i: nat)
    requires HeldUp(s, i) && forall j :: 0 <= j < |events| ==> !events[j].HistoryExpired?
    ensures HeldUp(Run(s, events), i) && Run(s, events).cursor.value <= i
    decreases |events|
  {
    if events != [] {
      var e := events[0];
      match e {
        case HistoryPage(_, _, _) => if s.stage.WalkingHistory? { PageHeldUp(s, e, i); }
        case HandleNext(_) => if s.stage.Processing? { HandleHeldUp(s, e, i); }
        case _ =>
      }
      DeletedMailHoldsCursor(Next(s, e), events[1..], i);
    }
  }

  // ---------------------------------------------------------------- a full listing

  /** How many messages arrive in a history. */
  function Arrivals(events: seq<Event>): nat {
    if events == [] then 0 else (if events[0].Arrive? then 1 else 0) + Arrivals(events[1..])
  }

  /** The mailbox changes by arrivals and by messages leaving, and by nothing the runs do. */
  lemma {:induction false} MailboxIs(s: Gmail, events: seq<Event>, i: nat)
    requires i < s.arrived
    ensures var t := Run(s, events);
            && t.arrived == s.arrived + Arrivals(events)
            && (i in t.gone <==> i in s.gone || Leave(i, true) in events || Leave(i, false) in events)
            && (i in t.deleted <==> i in s.deleted || Leave(i, true) in events)
    decreases |events|
  {
    if events != [] {
      MailboxIs(Next(s, events[0]), events[1..], i);
      assert forall e :: e in events <==> e == events[0] || e in events[1..];
    }
  }

  /** The answers of a full listing of these pages. */
  function ListPages(pages: seq<seq<nat>>): seq<Event> {
    if pages == [] then [] else [ListPage(pages[0], |pages| == 1)] + ListPages(pages[1..])
  }

  function Joined(pages: seq<seq<nat>>): seq<nat> {
    if pages == [] then [] else pages[0] + Joined(pages[1..])
  }

  lemma {:induction false} ListingRuns(s: Gmail, pages: seq<seq<nat>>)
    requires pages != [] && s.stage.ListingAll? && ListingComplete(s, s.stage.arrived, s.stage.ids + Joined(pages))
    ensures Run(s, ListPages(pages)) == s.(stage := Processing(s.stage.nextCursor, s.stage.ids + Joined(pages), 0))
    decreases |pages|
  {
    var e, rest := ListPage(pages[0], |pages| == 1), pages[1..];
    var t := Next(s, e);
    assert ListPages(pages)[0] == e && ListPages(pages)[1..] == ListPages(rest);
    assert s.stage.ids + Joined(pages) == s.stage.ids + pages[0] + Joined(rest);
    if rest == [] {
      assert s.stage.ids + pages[0] + [] == s.stage.ids + pages[0];
      assert Run(t, []) == t;
    } else {
      ListingRuns(t, rest);
    }
  }

  lemma {:induction false} ProcessHandlesAll(s: Gmail)
    requires s.stage.Processing? && s.stage.k <= |s.stage.ids|
    requires forall j :: s.stage.k <= j < |s.stage.ids| ==> s.stage.ids[j] !in s.deleted
    ensures Process(s).cursor == Some(s.stage.nextCursor) && s.handled <= Process(s).handled
    ensures forall j :: s.stage.k <= j < |s.stage.ids| ==> s.stage.ids[j] in Process(s).handled
    decreases |s.stage.ids| - s.stage.k
  {
    if s.stage.k < |s.stage.ids| {
      ProcessHandlesAll(Next(s, HandleNext(true)));
    }
  }

  /** When the cursor has expired, the run asks for the profile and lists everything: if nothing
      listed is deleted meanwhile, all that is in scope is handled, and the cursor is set to the
      moment before the listing began. */
  lemma ExpiredCursorRecovers(s: Gmail, pages: seq<seq<nat>>)
    requires s.stage.WalkingHistory? && pages != [] && ListingComplete(s, s.arrived, Joined(pages))
    requires forall i :: i in Joined(pages) ==> i !in s.deleted
    ensures var t := Run(s, [HistoryExpired, Profile] + ListPages(pages));
            && t.stage == Processing(s.arrived, Joined(pages), 0) && Process(t).cursor == Some(s.arrived)
            && forall i :: 0 <= i < s.arrived && i !in s.gone ==> i in Process(t).handled
  {
    hide Process;
    var events := ListPages(pages);
    var a, b := Next(s, HistoryExpired), Next(Next(s, HistoryExpired), Profile);
    var all := [HistoryExpired, Profile] + events;
    assert all[0] == HistoryExpired && all[1..][0] == Profile && all[1..][1..] == events;
    assert Run(s, all) == Run(a, all[1..]) == Run(b, events);
    assert [] + Joined(pages) == Joined(pages);
    ListingRuns(b, pages);
    var t := Run(b, events);
    assert forall j :: 0 <= j < |t.stage.ids| ==> t.stage.ids[j] in Joined(pages);
    ProcessHandlesAll(t);
    forall i | 0 <= i < s.arrived && i !in s.gone ensures i in Process(t).handled {
      var j :| 0 <= j < |t.stage.ids| && t.stage.ids[j] == i;
    }
  }

  /** Why the contract on the last page matters: `listHistoryMessageIDs` keeps the newest
      history id of any page. If the pages were a snapshot taken at the first call while the
      ids they carry are current, an arrival in between would be passed over. */
  lemma SnapshotPagesWouldLoseMail(s: Gmail, c: nat)
    requires s == Gmail(c, {}, {}, Some(c), {}, WalkingHistory(c, c, [], c))
    ensures var late := Next(s, Arrive);
            var id := Latest(late.stage.latest, Some(late.arrived));
            && !WalkComplete(c, id)
            && !CursorSafe(Next(late.(stage := Processing(id, Added(c, c), 0)), Persist(true)))
  {
    var late := Next(s, Arrive);
    var t := Next(late.(stage := Processing(c + 1, Added(c, c), 0)), Persist(true));
    assert t.cursor == Some(c + 1) && c !in t.handled;
  }

  // ---------------------------------------------------------------- the listing loops

  /** One page of `users.history.list`: its `messagesAdded` ids and its history id, if any. */
  datatype Page = Page(ids: seq<nat>, historyId: Option<nat>)

  function IdsOf(pages: seq<Page>): seq<nat> {
    if pages == [] then [] else IdsOf(pages[..|pages| - 1]) + pages[|pages| - 1].ids
  }

  /** The history id of the last page that carries one. */
  function LatestOf(start: nat, pages: seq<Page>): nat {
    if pages == [] then start
    else Latest(LatestOf(start, pages[..|pages| - 1]), pages[|pages| - 1].historyId)
  }

  /** How many ids the first k pages hold. */
  function Before(pages: seq<Page>, k: nat): nat
    requires k <= |pages|
  {
    if k == 0 then 0 else Before(pages, k - 1) + |pages[k - 1].ids|
  }

  lemma {:induction false} BeforePrefix(pages: seq<Page>, m: nat, k: nat)
    requires k <= m <= |pages|
    ensures Before(pages[..m], k) == Before(pages, k)
    decreases k
  {
    if k > 0 {
      BeforePrefix(pages, m, k - 1);
    }
  }

  /** Every page's ids, at the place that the pages before it leave for them. */
  ghost predicate HasPage(ids: seq<nat>, pages: seq<Page>, k: nat)
    requires k < |pages|
  {
    Before(pages, k + 1) <= |ids| && ids[Before(pages, k)..Before(pages, k + 1)] == pages[k].ids
  }

  lemma {:induction false} IdsCount(pages: seq<Page>)
    ensures |IdsOf(pages)| == Before(pages, |pages|)
    decreases |pages|
  {
    if pages != [] {
      var n := |pages| - 1;
      IdsCount(pages[..n]);
      BeforePrefix(pages, n, n);
    }
  }

  lemma {:induction false} IdsInOrder(pages: seq<Page>, k: nat)
    requires k < |pages|
    ensures HasPage(IdsOf(pages), pages, k)
    decreases |pages|
  {
    var n := |pages| - 1;
    IdsCount(pages);
    IdsCount(pages[..n]);
    BeforePrefix(pages, n, n);
    if k < n {
      IdsInOrder(pages[..n], k);
      BeforePrefix(pages, n, k);
      BeforePrefix(pages, n, k + 1);
      assert pages[..n][k] == pages[k];
    }
  }

  lemma {:induction false} IdsAreAll(pages: seq<Page>, i: nat)
    ensures i in IdsOf(pages) <==> exists k :: 0 <= k < |pages| && i in pages[k].ids
    decreases |pages|
  {
    if pages != [] {
      var n := |pages| - 1;
      IdsAreAll(pages[..n], i);
      if k :| 0 <= k < |pages| && i in pages[k].ids {
        if k < n {
          assert i in pages[..n][k].ids;
        }
      }
      if k :| 0 <= k < n && i in pages[..n][k].ids {
        assert i in pages[k].ids;
      }
    }
  }

  /** Page k is the last one that carries a history id. */
  predicate LastDated(pages: seq<Page>, k: nat)
    requires k < |pages|
  {
    pages[k].historyId.Some? && forall l :: k < l < |pages| ==> pages[l].historyId.None?
  }

  lemma {:induction false} LatestIsLast(start: nat, pages: seq<Page>)
    ensures forall k :: 0 <= k < |pages| && LastDated(pages, k) ==> LatestOf(start, pages) == pages[k].historyId.value
    ensures (forall k :: 0 <= k < |pages| ==> pages[k].historyId.None?) ==> LatestOf(start, pages) == start
    decreases |pages|
  {
    if pages != [] {
      var n := |pages| - 1;
      LatestIsLast(start, pages[..n]);
      assert forall k :: 0 <= k < n ==> pages[..n][k] == pages[k];
      forall k | 0 <= k < |pages| && LastDated(pages, k) ensures LatestOf(start, pages) == pages[k].historyId.value {
        if k < n {
          assert LastDated(pages[..n], k);
        }
      }
    }
  }

  /** `listHistoryMessageIDs`: pages until the last one; a failing page discards everything.
      Otherwise all ids of all pages, in their order, and the last history id that any page
      carries. */
  method ListHistoryMessageIDs(start: nat, pages: seq<Page>, fails: nat -> bool)
    returns (ids: seq<nat>, latest: nat, ok: bool)
    ensures ok <==> forall k :: 0 <= k < |pages| ==> !fails(k)
    ensures ok ==> forall i :: i in ids <==> exists k :: 0 <= k < |pages| && i in pages[k].ids
    ensures ok ==> |ids| == Before(pages, |pages|)
    ensures ok ==> forall k :: 0 <= k < |pages| ==> HasPage(ids, pages, k)
    ensures ok ==> forall k :: 0 <= k < |pages| && LastDated(pages, k) ==> latest == pages[k].historyId.value
    ensures ok ==> (forall k :: 0 <= k < |pages| ==> pages[k].historyId.None?) ==> latest == start
    ensures ok ==> ids == IdsOf(pages) && latest == LatestOf(start, pages)
  {
    ids, latest := [], start;
    for k := 0 to |pages|
      invariant forall l :: 0 <= l < k ==> !fails(l)
      invariant ids == IdsOf(pages[..k]) && latest == LatestOf(start, pages[..k])
    {
      if fails(k) { return [], 0, false; }
      ids := ids + pages[k].ids;
      if pages[k].historyId.Some? {
        latest := pages[k].historyId.value;
      }
      assert pages[..k + 1][..k] == pages[..k];
    }
    assert pages[..|pages|] == pages;
    ok := true;
    IdsCount(pages);
    LatestIsLast(start, pages);
    forall k | 0 <= k < |pages| ensures HasPage(ids, pages, k) {
      IdsInOrder(pages, k);
    }
    forall i ensures i in ids <==> exists k :: 0 <= k < |pages| && i in pages[k].ids {
      IdsAreAll(pages, i);
    }
  }

  // ---------------------------------------------------------------- pages as steps of the walk

  /** The pages report what arrived between successive cuts, from `start` on. */
  ghost predicate Reports(pages: seq<Page>, cuts: seq<nat>, start: nat) {
    && |cuts| == |pages| + 1 && cuts[0] == start
    && forall k :: 0 <= k < |pages| ==> cuts[k] <= cuts[k + 1] && pages[k].ids == Added(cuts[k], cuts[k + 1])
  }

  /** The first k answers of a walk of these pages, none of them the last one. */
  function Answers(pages: seq<Page>, cuts: seq<nat>, k: nat): seq<Event>
    requires k <= |pages| && |cuts| == |pages| + 1
  {
    if k == 0 then [] else Answers(pages, cuts, k - 1) + [HistoryPage(cuts[k], pages[k - 1].historyId, false)]
  }

  lemma {:induction false} RunThen(s: Gmail, events: seq<Event>, e: Event)
    ensures Run(s, events + [e]) == Next(Run(s, events), e)
    decreases |events|
  {
    if events == [] {
      assert events + [e] == [e];
      assert Run(Next(s, e), []) == Next(s, e);
    } else {
      assert (events + [e])[1..] == events[1..] + [e];
      RunThen(Next(s, events[0]), events[1..], e);
    }
  }

  /** The loop keeps in step with the walk: after k pages both have the same ids and the same
      history id, and the ids are exactly what arrived up to the k-th cut. */
  lemma {:induction false} ListingIsWalk(s: Gmail, pages: seq<Page>, cuts: seq<nat>, k: nat)
    requires s.stage.Resting? && s.cursor.Some? && Reports(pages, cuts, s.cursor.value) && k <= |pages|
    requires (forall l :: 0 <= l <= |pages| ==> cuts[l] <= s.arrived) && s.cursor.value <= s.arrived
    requires forall l :: 0 <= l < |pages| && pages[l].historyId.Some? ==> pages[l].historyId.value <= s.arrived
    ensures s.cursor.value <= cuts[k]
    ensures IdsOf(pages[..k]) == Added(s.cursor.value, cuts[k]) && LatestOf(s.cursor.value, pages[..k]) <= s.arrived
    ensures Run(Next(s, Start), Answers(pages, cuts, k)) ==
            s.(stage := WalkingHistory(s.cursor.value, cuts[k], IdsOf(pages[..k]),
              LatestOf(s.cursor.value, pages[..k])))
    decreases k
  {
    if k > 0 {
      ListingIsWalk(s, pages, cuts, k - 1);
      RunThen(Next(s, Start), Answers(pages, cuts, k - 1), HistoryPage(cuts[k], pages[k - 1].historyId, false));
      AddedConcat(s.cursor.value, cuts[k - 1], cuts[k]);
      assert pages[..k][..k - 1] == pages[..k - 1];
    }
  }

  lemma LatestStep(start: nat, pages: seq<Page>)
    requires pages != []
    ensures LatestOf(start, pages) == Latest(LatestOf(start, pages[..|pages| - 1]), pages[|pages| - 1].historyId)
  {
  }

  /** So when the last page covers its history id, the walk goes on to handle exactly the list
      that `listHistoryMessageIDs` returns, towards the history id that it returns. */
  lemma ListingEndsWalk(s: Gmail, pages: seq<Page>, cuts: seq<nat>)
    requires s.stage.Resting? && s.cursor.Some? && Reports(pages, cuts, s.cursor.value) && pages != []
    requires (forall l :: 0 <= l <= |pages| ==> cuts[l] <= s.arrived) && s.cursor.value <= s.arrived
    requires forall l :: 0 <= l < |pages| && pages[l].historyId.Some? ==> pages[l].historyId.value <= s.arrived
    requires LatestOf(s.cursor.value, pages) <= cuts[|pages|]
    ensures var (c, n) := (s.cursor.value, |pages|);
            && IdsOf(pages) == Added(c, cuts[n])
            && Next(Run(Next(s, Start), Answers(pages, cuts, n - 1)),
                 HistoryPage(cuts[n], pages[n - 1].historyId, true)) ==
               s.(stage := Processing(LatestOf(c, pages), IdsOf(pages), 0))
  {
    hide Run, IdsOf, LatestOf, Answers, Added;
    var n := |pages|;
    ListingIsWalk(s, pages, cuts, n - 1);
    ListingIsWalk(s, pages, cuts, n);
    assert pages[..n] == pages;
    LatestStep(s.cursor.value, pages);
    AddedConcat(s.cursor.value, cuts[n - 1], cuts[n]);
  }

  /** The account as `SyncAccountGmailAPI` changes it, with the transition system alongside. */
  class Account {
    var cursor: Option<nat>
    var handled: set<nat>
    ghost var world: Gmail

    ghost predicate Agrees()
      reads this
    {
      world.cursor == cursor && world.handled == handled
    }

    constructor (s: Gmail)
      ensures Agrees() && world == s
    {
      cursor, handled, world := s.cursor, s.handled, s;
    }

    /** The message loop: the first failure ends the batch with the cursor untouched; only a
        clean batch writes it, in a transaction that may commit and still report an error. */
    method ProcessBatch(ids: seq<nat>, next: nat, gets: nat -> bool, committed: bool, reported: bool) returns (ok: bool)
      requires Agrees() && GmailInv(world) && world.stage == Processing(next, ids, 0)
      requires forall k :: 0 <= k < |ids| && ids[k] in world.deleted ==> !gets(k)
      modifies this
      ensures Agrees() && GmailInv(world) && world.stage.Resting?
      ensures ok <==> reported && forall k :: 0 <= k < |ids| ==> gets(k)
      ensures cursor == (if committed && (forall k :: 0 <= k < |ids| ==> gets(k)) then Some(next) else old(cursor))
      ensures (forall k :: 0 <= k < |ids| ==> gets(k)) ==> handled == old(handled) + set i | i in ids
      ensures old(handled) <= handled
    {
      for k := 0 to |ids|
        invariant Agrees() && GmailInv(world) && world.deleted == old(world).deleted
        invariant cursor == old(cursor)
        invariant handled == old(handled) + set j | 0 <= j < k :: ids[j]
        invariant world.stage == Processing(next, ids, k)
        invariant forall l :: 0 <= l < k ==> gets(l)
      {
        NextKeeps(world, HandleNext(gets(k)));
        world := Next(world, HandleNext(gets(k)));
        if !gets(k) { return false; }
        handled := handled + {ids[k]};
      }
      NextKeeps(world, Persist(committed));
      world := Next(world, Persist(committed));
      if committed {
        cursor := Some(next);
      }
      ok := reported;
    }
  }
}
