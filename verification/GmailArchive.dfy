/** The Gmail connector over the archive: handling a message is a verdict of its message loop,
    justified by the archive at that moment, and the archive goes on in between, with the
    connector's own steps and everybody else's. */
module GmailArchive {
  import opened Archive
  import opened Ledger
  import ArchiveHistory
  import GmailSync

  datatype World = World(gmail: GmailSync.Gmail, book: Book<nat>)

  /** An API answer or cursor step, an archive step, or the message loop getting past the
      message it is at. */
  datatype Event = Api(e: GmailSync.Event) | Step(a: Action) | Handle(v: Verdict)

  predicate AtMessage(g: GmailSync.Gmail) {
    g.stage.Processing? && g.stage.k < |g.stage.ids| && g.stage.ids[g.stage.k] !in g.deleted
  }

  ghost function Next(w: World, account: nat, mails: nat -> Mail, e: Event): World {
    match e
    case Api(e) => if e == GmailSync.HandleNext(true) then w else w.(gmail := GmailSync.Next(w.gmail, e))
    case Step(a) => w.(book := Stepped(w.book, a))
    case Handle(v) =>
      if !AtMessage(w.gmail) then w
      else
        var i := w.gmail.stage.ids[w.gmail.stage.k];
        if Justified(w.book.st, account, mails(i), v)
        then World(GmailSync.Next(w.gmail, GmailSync.HandleNext(true)), Settled(w.book, i, v)) else w
  }

  ghost function Run(w: World, account: nat, mails: nat -> Mail, events: seq<Event>): World
    decreases |events|
  {
    if events == [] then w else Run(Next(w, account, mails, events[0]), account, mails, events[1..])
  }

  ghost predicate Inv(w: World, account: nat, mails: nat -> Mail) {
    && GmailSync.GmailInv(w.gmail) && BookInv(w.book, account, mails)
    && forall i :: i in w.gmail.handled ==> i in w.book.outcome
  }

  /** The connector's first run, on an empty archive. */
  function Fresh(g: GmailSync.Gmail): World {
    World(g, NewBook())
  }

  lemma FreshIsSound(g: GmailSync.Gmail, account: nat, mails: nat -> Mail)
    requires g.cursor.None? && g.handled == {} && g.stage.Resting?
    ensures Inv(Fresh(g), account, mails)
  {
    hide BookInv;
    EmptyIsSound(account, mails);
  }

  lemma HandledGrows(g: GmailSync.Gmail, e: GmailSync.Event)
    ensures e != GmailSync.HandleNext(true) ==> GmailSync.Next(g, e).handled == g.handled
    ensures AtMessage(g) ==>
      GmailSync.Next(g, GmailSync.HandleNext(true)).handled == g.handled + {g.stage.ids[g.stage.k]}
  {
  }

  lemma NextKeeps(w: World, account: nat, mails: nat -> Mail, e: Event)
    requires Inv(w, account, mails)
    ensures Inv(Next(w, account, mails, e), account, mails)
  {
    hide GmailSync.GmailInv, GmailSync.Next, BookInv, Justified;
    match e
    case Api(e) =>
      GmailSync.NextKeeps(w.gmail, e);
      HandledGrows(w.gmail, e);
    case Step(a) => SteppedKeeps(w.book, a, account, mails);
    case Handle(v) =>
      if Next(w, account, mails, e) != w {
        GmailSync.NextKeeps(w.gmail, GmailSync.HandleNext(true));
        HandledGrows(w.gmail, GmailSync.HandleNext(true));
        SettledKeeps(w.book, w.gmail.stage.ids[w.gmail.stage.k], v, account, mails);
      }
  }

  lemma {:induction false} RunKeeps(w: World, account: nat, mails: nat -> Mail, events: seq<Event>)
    requires Inv(w, account, mails)
    ensures Inv(Run(w, account, mails, events), account, mails)
    decreases |events|
  {
    hide Next, Inv;
    if events != [] {
      NextKeeps(w, account, mails, events[0]);
      RunKeeps(Next(w, account, mails, events[0]), account, mails, events[1..]);
    }
  }

  /** What the cursor system sees of a history. */
  ghost function CursorEvents(w: World, account: nat, mails: nat -> Mail, events: seq<Event>): seq<GmailSync.Event>
    decreases |events|
  {
    if events == [] then []
    else
      var g, rest := w.gmail, CursorEvents(Next(w, account, mails, events[0]), account, mails, events[1..]);
      match events[0]
      case Api(e) => if e == GmailSync.HandleNext(true) then rest else [e] + rest
      case Step(_) => rest
      case Handle(v) =>
        if g.stage.Processing? && g.stage.k < |g.stage.ids| && g.stage.ids[g.stage.k] !in g.deleted &&
           Justified(w.book.st, account, mails(g.stage.ids[g.stage.k]), v)
        then [GmailSync.HandleNext(true)] + rest else rest
  }

  /** What the archive sees of it: all its steps, and the commits of the message loop. */
  ghost function ArchiveActs(w: World, account: nat, mails: nat -> Mail, events: seq<Event>): seq<Action>
    decreases |events|
  {
    if events == [] then []
    else
      var g, rest := w.gmail, ArchiveActs(Next(w, account, mails, events[0]), account, mails, events[1..]);
      match events[0]
      case Api(_) => rest
      case Step(a) => [a] + rest
      case Handle(v) =>
        if v.Commit? && g.stage.Processing? && g.stage.k < |g.stage.ids| && g.stage.ids[g.stage.k] !in g.deleted &&
           Justified(w.book.st, account, mails(g.stage.ids[g.stage.k]), v)
        then [OfSync(v.p, Persist(v.mirror, v.today, v.now))] + rest else rest
  }

  /** Every history is a history of the cursor and a run of the archive at once. */
  lemma {:induction false} HistoryIsBoth(w: World, account: nat, mails: nat -> Mail, events: seq<Event>)
    ensures var t := Run(w, account, mails, events);
            && t.gmail == GmailSync.Run(w.gmail, CursorEvents(w, account, mails, events))
            && t.book.st == Archive.Run(w.book.st, ArchiveActs(w, account, mails, events))
            && t.book.acts == w.book.acts + ArchiveActs(w, account, mails, events)
    decreases |events|
  {
    hide Justified, GmailSync.Next, Act;
    if events == [] {
      assert w.book.acts + [] == w.book.acts;
    } else {
      var u := Next(w, account, mails, events[0]);
      HistoryIsBoth(u, account, mails, events[1..]);
      var c, a := CursorEvents(u, account, mails, events[1..]), ArchiveActs(u, account, mails, events[1..]);
      assert forall e :: ([e] + c)[1..] == c;
      assert forall x: Action :: ([x] + a)[1..] == a;
      assert forall x: Action :: w.book.acts + ([x] + a) == w.book.acts + [x] + a;
    }
  }

  /** After any history: every message that arrived up to the stored history id and is still in
      scope was skipped by a rule, or a row stands for it: its own, or one with its Message-ID.
      That row is there and can be read, unless retention's deletion reached it. */
  lemma CursorLosesNothing(g: GmailSync.Gmail, account: nat, mails: nat -> Mail, events: seq<Event>, i: nat)
    requires g.cursor.None? && g.handled == {} && g.stage.Resting?
    requires var t := Run(Fresh(g), account, mails, events);
             && t.gmail.cursor.Some? && i < t.gmail.cursor.value && i !in t.gmail.gone
             && Along(ArchiveHistory.FRESH_KEYS, EMPTY, t.book.acts)
    ensures var t := Run(Fresh(g), account, mails, events);
            i in t.book.outcome && Safe(t.book, account, mails(i), t.book.outcome[i])
  {
    hide Run, Next, BookInv, Safe, Along, Fresh;
    FreshIsSound(g, account, mails);
    RunKeeps(Fresh(g), account, mails, events);
    BackedIsSafe(Run(Fresh(g), account, mails, events).book, i, account, mails);
  }
}
