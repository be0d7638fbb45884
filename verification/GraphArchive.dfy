/** The Microsoft Graph connector over the archive, in the same way: a message is a position of
    a folder's delta feed. */
module GraphArchive {
  import opened Options
  import opened Archive
  import opened Ledger
  import ArchiveHistory
  import GraphSync

  datatype World = World(graph: GraphSync.Graph, book: Book<(nat, nat)>)

  datatype Event = Api(e: GraphSync.Event) | Step(a: Action) | Handle(v: Verdict, rule: Option<nat>)

  /** The pass stands at a message, not at a deletion stub or the end of the page. */
  predicate AtMessage(g: GraphSync.Graph) {
    && g.stage.InFolder? && g.stage.f in g.folders && g.stage.at < g.stage.pageEnd
    && g.stage.at !in g.folders[g.stage.f].removed
  }

  ghost function Next(w: World, account: nat, mails: ((nat, nat)) -> Mail, e: Event): World {
    match e
    case Api(e) =>
      if e.HandleNext? && e.ok && AtMessage(w.graph) then w else w.(graph := GraphSync.Next(w.graph, e))
    case Step(a) => w.(book := Stepped(w.book, a))
    case Handle(v, rule) =>
      if !AtMessage(w.graph) then w
      else
        var m := (w.graph.stage.f, w.graph.stage.at);
        if Justified(w.book.st, account, mails(m), v)
        then World(GraphSync.Next(w.graph, GraphSync.HandleNext(rule, true)), Settled(w.book, m, v)) else w
  }

  ghost function Run(w: World, account: nat, mails: ((nat, nat)) -> Mail, events: seq<Event>): World
    decreases |events|
  {
    if events == [] then w else Run(Next(w, account, mails, events[0]), account, mails, events[1..])
  }

  ghost predicate HandledHere(g: GraphSync.Graph, m: (nat, nat)) {
    m.0 in g.folders && m.1 in g.folders[m.0].handled
  }

  ghost predicate Inv(w: World, account: nat, mails: ((nat, nat)) -> Mail) {
    && GraphSync.GraphInv(w.graph) && BookInv(w.book, account, mails)
    && forall m :: HandledHere(w.graph, m) ==> m in w.book.outcome
  }

  /** The connector's first run, on an empty archive. */
  const FRESH := World(GraphSync.Graph(map[], map[], GraphSync.Resting, []), NewBook())

  lemma FreshIsSound(account: nat, mails: ((nat, nat)) -> Mail)
    ensures Inv(FRESH, account, mails)
  {
    hide GraphSync.GraphInv, BookInv;
    EmptyIsSound(account, mails);
    GraphSync.FirstSyncIsSound();
  }

  lemma HandledGrows(g: GraphSync.Graph, e: GraphSync.Event, m: (nat, nat))
    requires HandledHere(GraphSync.Next(g, e), m) && !HandledHere(g, m)
    ensures e.HandleNext? && e.ok && AtMessage(g) && m == (g.stage.f, g.stage.at)
  {
  }

  lemma NextKeeps(w: World, account: nat, mails: ((nat, nat)) -> Mail, e: Event)
    requires Inv(w, account, mails)
    ensures Inv(Next(w, account, mails, e), account, mails)
  {
    hide GraphSync.GraphInv, GraphSync.Next, BookInv, Justified, HandledHere;
    var t := Next(w, account, mails, e);
    match e
    case Api(e) =>
      GraphSync.NextKeeps(w.graph, e);
      forall m | HandledHere(t.graph, m) ensures HandledHere(w.graph, m) {
        if !HandledHere(w.graph, m) { HandledGrows(w.graph, e, m); }
      }
    case Step(a) => SteppedKeeps(w.book, a, account, mails);
    case Handle(v, rule) =>
      if t != w {
        var at := (w.graph.stage.f, w.graph.stage.at);
        GraphSync.NextKeeps(w.graph, GraphSync.HandleNext(rule, true));
        SettledKeeps(w.book, at, v, account, mails);
        forall m | HandledHere(t.graph, m) ensures m == at || HandledHere(w.graph, m) {
          if !HandledHere(w.graph, m) { HandledGrows(w.graph, GraphSync.HandleNext(rule, true), m); }
        }
      }
  }

  lemma {:induction false} RunKeeps(w: World, account: nat, mails: ((nat, nat)) -> Mail, events: seq<Event>)
    requires Inv(w, account, mails)
    ensures Inv(Run(w, account, mails, events), account, mails)
    decreases |events|
  {
    hide Next, Inv;
    if events != [] {
      NextKeeps(w, account, mails, events[0]);
      RunKeeps(Next(w, account, mails, events[0]), account, mails, events[1..]);
    }
  }

  /** What the delta links see of a history. */
  ghost function LinkEvents(w: World, account: nat, mails: ((nat, nat)) -> Mail, events: seq<Event>)
    : seq<GraphSync.Event>
    decreases |events|
  {
    if events == [] then []
    else
      var rest := LinkEvents(Next(w, account, mails, events[0]), account, mails, events[1..]);
      match events[0]
      case Api(e) => if e.HandleNext? && e.ok && Standing(w.graph) then rest else [e] + rest
      case Step(_) => rest
      case Handle(v, rule) =>
        if Standing(w.graph) && Justified(w.book.st, account, mails((w.graph.stage.f, w.graph.stage.at)), v)
        then [GraphSync.HandleNext(rule, true)] + rest else rest
  }

  /** The pass has a message before it. */
  ghost predicate Standing(g: GraphSync.Graph) {
    && g.stage.InFolder? && g.stage.f in g.folders && g.stage.pageEnd > g.stage.at
    && !(g.stage.at in g.folders[g.stage.f].removed)
  }

  /** What the archive sees of it: all its steps, and the commits of the message loop. */
  ghost function ArchiveActs(w: World, account: nat, mails: ((nat, nat)) -> Mail, events: seq<Event>): seq<Action>
    decreases |events|
  {
    if events == [] then []
    else
      var rest := ArchiveActs(Next(w, account, mails, events[0]), account, mails, events[1..]);
      match events[0]
      case Api(_) => rest
      case Step(a) => [a] + rest
      case Handle(v, _) =>
        if v.Commit? && Standing(w.graph) &&
           Justified(w.book.st, account, mails((w.graph.stage.f, w.graph.stage.at)), v)
        then [OfSync(v.p, Persist(v.mirror, v.today, v.now))] + rest else rest
  }

  /** Every history is a history of the links and a run of the archive at once. */
  lemma {:induction false} HistoryIsBoth(w: World, account: nat, mails: ((nat, nat)) -> Mail, events: seq<Event>)
    ensures var t := Run(w, account, mails, events);
            && t.graph == GraphSync.Run(w.graph, LinkEvents(w, account, mails, events))
            && t.book.st == Archive.Run(w.book.st, ArchiveActs(w, account, mails, events))
            && t.book.acts == w.book.acts + ArchiveActs(w, account, mails, events)
    decreases |events|
  {
    hide Justified, GraphSync.Next, Act;
    if events == [] {
      assert w.book.acts + [] == w.book.acts;
    } else {
      var u := Next(w, account, mails, events[0]);
      HistoryIsBoth(u, account, mails, events[1..]);
      var c, a := LinkEvents(u, account, mails, events[1..]), ArchiveActs(u, account, mails, events[1..]);
      assert forall e :: ([e] + c)[1..] == c;
      assert forall x: Action :: ([x] + a)[1..] == a;
      assert forall x: Action :: w.book.acts + ([x] + a) == w.book.acts + [x] + a;
    }
  }

  /** After any history: every message reported before a folder's stored delta link was skipped
      by a rule, or a row stands for it, there and readable unless retention's deletion
      reached it. */
  lemma LinksLoseNothing(account: nat, mails: ((nat, nat)) -> Mail, events: seq<Event>, f: nat, i: nat)
    requires var t := Run(FRESH, account, mails, events);
             && f in t.graph.folders && i < t.graph.folders[f].link && i !in t.graph.folders[f].removed
             && Along(ArchiveHistory.FRESH_KEYS, EMPTY, t.book.acts)
    ensures var t := Run(FRESH, account, mails, events);
            (f, i) in t.book.outcome && Safe(t.book, account, mails((f, i)), t.book.outcome[(f, i)])
  {
    hide Run, Next, BookInv, Safe, Along;
    FreshIsSound(account, mails);
    RunKeeps(FRESH, account, mails, events);
    assert HandledHere(Run(FRESH, account, mails, events).graph, (f, i));
    BackedIsSafe(Run(FRESH, account, mails, events).book, (f, i), account, mails);
  }
}
