/** The Microsoft Graph connector: per-folder delta links and the match statistics of rules.
    A folder's delta feed grows at any time; passes fail or are killed anywhere. */
module GraphSync {
  import opened Options

  /** A folder's delta feed as positions 0, 1, ...; a delta link is a position ("" is 0).
      `removed` are deletion stubs, which carry no message. */
  datatype Folder = Folder(length: nat, removed: set<nat>, link: nat, handled: set<nat>)

  /** One recorded or pending rule match: the rule matched the message at this position. */
  datatype Match = Match(folder: nat, at: nat, rule: nat)

  /** A run of `SyncAccountMSGraph`: its folded-in matches, and the folder being passed over
      (`at` is the next position, `pageEnd` where the current page stops, `last` whether that
      page ends the chain). */
  datatype Stage =
    | Resting
    | BetweenFolders(matches: seq<Match>)
    | InFolder(f: nat, at: nat, pageEnd: nat, last: bool, found: seq<Match>, matches: seq<Match>)
    | Recording(matches: seq<Match>)

  /** `counts` is rules.match_count; `recorded` is history. */
  datatype Graph = Graph(folders: map<nat, Folder>, counts: map<nat, nat>, stage: Stage, recorded: seq<Match>)

  datatype Event =
    | Report(f: nat, removal: bool)
    | Start
    | Enter(f: nat)
    | DeltaPage(upTo: nat, last: bool)
    | HandleNext(rule: Option<nat>, ok: bool)
    | Persist(committed: bool, reported: bool)
    | FolderFails
    | FinishFolders
    | RecordMatches(committed: bool)
    | Kill

  /** What the counters become when a batch of matches is recorded. */
  function Counted(counts: map<nat, nat>, matches: seq<Match>): map<nat, nat> {
    if matches == [] then counts
    else
      var m := matches[|matches| - 1];
      var c := Counted(counts, matches[..|matches| - 1]);
      c[m.rule := (if m.rule in c then c[m.rule] else 0) + 1]
  }

  function Next(s: Graph, e: Event): Graph {
    match e
    case Report(f, removal) =>
      if f !in s.folders then s
      else
        var d := s.folders[f];
        s.(folders := s.folders[f := d.(length := d.length + 1, removed := if removal then d.removed + {d.length}
          else d.removed)])
    case Start => if s.stage.Resting? then s.(stage := BetweenFolders([])) else s
    case Enter(f) =>
      if !s.stage.BetweenFolders? then s
      else
        var d := if f in s.folders then s.folders[f] else Folder(0, {}, 0, {});
        s.(folders := s.folders[f := d], stage := InFolder(f, d.link, d.link, false, [], s.stage.matches))
    case DeltaPage(upTo, last) =>
      if !s.stage.InFolder? || s.stage.f !in s.folders || s.stage.last || s.stage.at != s.stage.pageEnd ||
         upTo < s.stage.pageEnd || upTo > s.folders[s.stage.f].length
      then s else s.(stage := InFolder(s.stage.f, s.stage.at, upTo, last, s.stage.found, s.stage.matches))
    case HandleNext(rule, ok) =>
      if !s.stage.InFolder? || s.stage.f !in s.folders || s.stage.at >= s.stage.pageEnd then s
      else
        var g, d := s.stage, s.folders[s.stage.f];
        var skip := g.at in d.removed;
        var found := if rule.Some? && !skip then g.found + [Match(g.f, g.at, rule.value)] else g.found;
        if ok || skip then
          s.(folders := s.folders[g.f := if skip then d else d.(handled := d.handled + {g.at})],
             stage := InFolder(g.f, g.at + 1, g.pageEnd, g.last, found, g.matches))
        else s.(stage := Recording(g.matches))
    case Persist(committed, reported) =>
      if !s.stage.InFolder? || s.stage.f !in s.folders || !s.stage.last || s.stage.at != s.stage.pageEnd then s
      else
        var g, d := s.stage, s.folders[s.stage.f];
        s.(folders := s.folders[g.f := if committed then d.(link := g.at) else d],
           stage := if committed && reported then BetweenFolders(g.matches + g.found) else Recording(g.matches))
    case FolderFails => if s.stage.InFolder? then s.(stage := Recording(s.stage.matches)) else s
    case FinishFolders => if s.stage.BetweenFolders? then s.(stage := Recording(s.stage.matches)) else s
    case RecordMatches(committed) =>
      if !s.stage.Recording? then s
      else s.(counts := if committed then Counted(s.counts, s.stage.matches) else s.counts,
              recorded := if committed then s.recorded + s.stage.matches else s.recorded, stage := Resting)
    case Kill => s.(stage := Resting)
  }

  function Run(s: Graph, events: seq<Event>): Graph
    decreases |events|
  {
    if events == [] then s else Run(Next(s, events[0]), events[1..])
  }

  // ---------------------------------------------------------------- laws

  /** Everything reported before a folder's stored link, deletions aside, is handled. */
  ghost predicate LinksSafe(folders: map<nat, Folder>) {
    forall f :: f in folders ==>
      && folders[f].link <= folders[f].length
      && forall i :: 0 <= i < folders[f].link && i !in folders[f].removed ==> i in folders[f].handled
  }

  ghost predicate SamePlace(a: Match, b: Match) {
    a.folder == b.folder && a.at == b.at
  }

  ghost predicate NoRepeats(ms: seq<Match>) {
    forall i, j :: 0 <= i < j < |ms| ==> !SamePlace(ms[i], ms[j])
  }

  ghost predicate BeforeLink(folders: map<nat, Folder>, ms: seq<Match>) {
    forall i :: 0 <= i < |ms| ==> ms[i].folder in folders && ms[i].at < folders[ms[i].folder].link
  }

  /** Matches of this run that will still be recorded: folded in by earlier folders. */
  function Pending(stage: Stage): seq<Match> {
    match stage
    case Resting => []
    case BetweenFolders(matches) => matches
    case InFolder(_, _, _, _, _, matches) => matches
    case Recording(matches) => matches
  }

  /** The counters say how often each rule was recorded. */
  function Tally(ms: seq<Match>, rule: nat): nat {
    if ms == [] then 0 else Tally(ms[..|ms| - 1], rule) + (if ms[|ms| - 1].rule == rule then 1 else 0)
  }

  ghost predicate CountsTally(counts: map<nat, nat>, recorded: seq<Match>) {
    forall r :: (if r in counts then counts[r] else 0) == Tally(recorded, r)
  }

  ghost predicate FolderPass(s: Graph) {
    s.stage.InFolder? ==>
      var g := s.stage;
      && g.f in s.folders && s.folders[g.f].link <= g.at <= g.pageEnd <= s.folders[g.f].length
      && (forall i :: s.folders[g.f].link <= i < g.at && i !in s.folders[g.f].removed ==> i in s.folders[g.f].handled)
      && NoRepeats(g.found)
      && (forall i :: 0 <= i < |g.found| ==> g.found[i].folder == g.f && s.folders[g.f].link <= g.found[i].at < g.at)
  }

  ghost predicate GraphInv(s: Graph) {
    && LinksSafe(s.folders)
    && FolderPass(s)
    && NoRepeats(s.recorded + Pending(s.stage))
    && BeforeLink(s.folders, s.recorded + Pending(s.stage))
    && CountsTally(s.counts, s.recorded)
  }

  /** An account none of whose folders was ever entered. */
  lemma FirstSyncIsSound()
    ensures GraphInv(Graph(map[], map[], Resting, []))
  {
  }

  lemma {:induction false} CountedTallies(counts: map<nat, nat>, recorded: seq<Match>, ms: seq<Match>)
    requires CountsTally(counts, recorded)
    ensures CountsTally(Counted(counts, ms), recorded + ms)
    decreases |ms|
  {
    if ms == [] {
      assert recorded + ms == recorded;
    } else {
      var front := ms[..|ms| - 1];
      CountedTallies(counts, recorded, front);
      assert (recorded + ms)[..|recorded + ms| - 1] == recorded + front;
    }
  }

  lemma PersistKeeps(s: Graph, committed: bool, reported: bool)
    requires GraphInv(s)
    ensures GraphInv(Next(s, Persist(committed, reported)))
  {
    var t := Next(s, Persist(committed, reported));
    if t != s {
      var all := s.recorded + s.stage.matches;
      if committed && reported {
        assert t.recorded + Pending(t.stage) == all + s.stage.found;
      } else {
        assert t.recorded + Pending(t.stage) == all;
      }
    }
  }

  lemma HandleKeeps(s: Graph, rule: Option<nat>, ok: bool)
    requires GraphInv(s)
    ensures GraphInv(Next(s, HandleNext(rule, ok)))
  {
  }

  /** Matches that were recorded stay recorded when a run's own matches are dropped. */
  lemma DroppedKeeps(folders: map<nat, Folder>, recorded: seq<Match>, pending: seq<Match>)
    requires NoRepeats(recorded + pending) && BeforeLink(folders, recorded + pending)
    ensures NoRepeats(recorded + []) && BeforeLink(folders, recorded + [])
  {
    assert forall i :: 0 <= i < |recorded| ==> (recorded + [])[i] == (recorded + pending)[i];
  }

  lemma RecordKeeps(s: Graph, committed: bool)
    requires GraphInv(s) && s.stage.Recording?
    ensures GraphInv(Next(s, RecordMatches(committed)))
  {
    if committed {
      CountedTallies(s.counts, s.recorded, s.stage.matches);
      assert s.recorded + s.stage.matches + [] == s.recorded + s.stage.matches;
    } else {
      DroppedKeeps(s.folders, s.recorded, s.stage.matches);
    }
  }

  lemma NextKeeps(s: Graph, e: Event)
    requires GraphInv(s)
    ensures GraphInv(Next(s, e))
  {
    match e
    case Persist(committed, reported) => PersistKeeps(s, committed, reported);
    case HandleNext(rule, ok) => HandleKeeps(s, rule, ok);
    case RecordMatches(committed) => if s.stage.Recording? { RecordKeeps(s, committed); }
    case Kill => DroppedKeeps(s.folders, s.recorded, Pending(s.stage));
    case _ =>
  }

  /** After any history: links never pass unhandled mail, no report is counted twice, counted
      reports lie before their folder's link, and every counter is exact. */
  lemma {:induction false} LinksAndCountsHold(s: Graph, events: seq<Event>)
    requires GraphInv(s)
    ensures var t := Run(s, events);
            GraphInv(t) && LinksSafe(t.folders) && NoRepeats(t.recorded + Pending(t.stage)) &&
            BeforeLink(t.folders, t.recorded) && CountsTally(t.counts, t.recorded)
    decreases |events|
  {
    if events == [] {
      assert forall i :: 0 <= i < |s.recorded| ==> (s.recorded + Pending(s.stage))[i] == s.recorded[i];
    } else {
      NextKeeps(s, events[0]);
      LinksAndCountsHold(Next(s, events[0]), events[1..]);
    }
  }

  /** A feed's next reports, in order. */
  function ReportsOf(f: nat, removals: seq<bool>): seq<Event> {
    if removals == [] then [] else [Report(f, removals[0])] + ReportsOf(f, removals[1..])
  }

  /** A feed grows by its reports, each at the next position, and by nothing else. */
  lemma {:induction false} FeedIs(s: Graph, f: nat, removals: seq<bool>)
    requires f in s.folders && forall i :: i in s.folders[f].removed ==> i < s.folders[f].length
    ensures var t := Run(s, ReportsOf(f, removals)); var d := s.folders[f];
            && f in t.folders && t.folders[f].length == d.length + |removals| && t.folders[f].link == d.link
            && forall i :: i in t.folders[f].removed <==>
                 i in d.removed || (d.length <= i < d.length + |removals| && removals[i - d.length])
    decreases |removals|
  {
    if removals != [] {
      var all := ReportsOf(f, removals);
      assert all[0] == Report(f, removals[0]) && all[1..] == ReportsOf(f, removals[1..]);
      FeedIs(Next(s, all[0]), f, removals[1..]);
    }
  }

  // ---------------------------------------------------------------- one folder's pass

  function MatchAt(f: nat, at: nat, removed: set<nat>, rules: map<nat, nat>): seq<Match> {
    if at !in removed && at in rules then [Match(f, at, rules[at])] else []
  }

  /** The matches among the messages reported at lo <= i < hi. */
  function MatchesIn(f: nat, lo: nat, hi: nat, removed: set<nat>, rules: map<nat, nat>): seq<Match> {
    if lo >= hi then []
    else MatchesIn(f, lo, hi - 1, removed, rules) + MatchAt(f, hi - 1, removed, rules)
  }

  /** Exactly the messages that are still there and that a rule matches. */
  lemma {:induction false} MatchesAre(f: nat, lo: nat, hi: nat, removed: set<nat>, rules: map<nat, nat>, m: Match)
    ensures m in MatchesIn(f, lo, hi, removed, rules) <==>
            m.folder == f && lo <= m.at < hi && m.at !in removed && m.at in rules && rules[m.at] == m.rule
    decreases hi
  {
    if lo < hi {
      MatchesAre(f, lo, hi - 1, removed, rules, m);
    }
  }

  lemma FoundAre(f: nat, lo: nat, hi: nat, removed: set<nat>, rules: map<nat, nat>)
    ensures NoRepeats(MatchesIn(f, lo, hi, removed, rules))
    ensures forall m: Match :: m in MatchesIn(f, lo, hi, removed, rules) <==>
      m.folder == f && lo <= m.at < hi && m.at !in removed && m.at in rules && rules[m.at] == m.rule
  {
    MatchesOnce(f, lo, hi, removed, rules);
    forall m: Match ensures m in MatchesIn(f, lo, hi, removed, rules) <==>
        m.folder == f && lo <= m.at < hi && m.at !in removed && m.at in rules && rules[m.at] == m.rule
    {
      MatchesAre(f, lo, hi, removed, rules, m);
    }
  }

  /** Each of them once. */
  lemma {:induction false} MatchesOnce(f: nat, lo: nat, hi: nat, removed: set<nat>, rules: map<nat, nat>)
    ensures NoRepeats(MatchesIn(f, lo, hi, removed, rules))
    decreases hi
  {
    if lo < hi {
      MatchesOnce(f, lo, hi - 1, removed, rules);
      var front := MatchesIn(f, lo, hi - 1, removed, rules);
      forall i | 0 <= i < |front| ensures front[i].at < hi - 1 {
        MatchesAre(f, lo, hi - 1, removed, rules, front[i]);
      }
    }
  }

  /** The messages of lo <= i < hi that rule r matches. */
  function Hits(lo: nat, hi: nat, removed: set<nat>, rules: map<nat, nat>, r: nat): set<nat> {
    set i | lo <= i < hi && i !in removed && i in rules && rules[i] == r
  }

  lemma {:induction false} MatchesTally(f: nat, lo: nat, hi: nat, removed: set<nat>, rules: map<nat, nat>, r: nat)
    ensures Tally(MatchesIn(f, lo, hi, removed, rules), r) == |Hits(lo, hi, removed, rules, r)|
    decreases hi
  {
    if lo >= hi {
      assert Hits(lo, hi, removed, rules, r) == {};
    } else {
      MatchesTally(f, lo, hi - 1, removed, rules, r);
      var front, i := MatchesIn(f, lo, hi - 1, removed, rules), hi - 1;
      if i !in removed && i in rules {
        assert (front + [Match(f, i, rules[i])])[..|front|] == front;
      } else {
        assert front + [] == front;
      }
      HitsSnoc(lo, hi, removed, rules, r);
    }
  }

  lemma HitsSnoc(lo: nat, hi: nat, removed: set<nat>, rules: map<nat, nat>, r: nat)
    requires lo < hi
    ensures |Hits(lo, hi, removed, rules, r)| == |Hits(lo, hi - 1, removed, rules, r)| +
              (if hi - 1 !in removed && hi - 1 in rules && rules[hi - 1] == r then 1 else 0)
  {
    var i := hi - 1;
    if i !in removed && i in rules && rules[i] == r {
      assert Hits(lo, hi, removed, rules, r) == Hits(lo, i, removed, rules, r) + {i};
    } else {
      assert Hits(lo, hi, removed, rules, r) == Hits(lo, i, removed, rules, r);
    }
  }

  lemma {:induction false} TallyConcat(a: seq<Match>, b: seq<Match>, r: nat)
    ensures Tally(a + b, r) == Tally(a, r) + Tally(b, r)
    decreases |b|
  {
    if b == [] {
      assert a + b == a;
    } else {
      assert (a + b)[..|a + b| - 1] == a + b[..|b| - 1];
      TallyConcat(a, b[..|b| - 1], r);
    }
  }

  /** Recording a run whose last folder pass went from lo to hi raises a rule's counter by what
      the earlier folders noted for it, and by the number of messages it matched in this one. */
  lemma RecordingRaises(s: Graph, earlier: seq<Match>, f: nat, lo: nat, hi: nat, removed: set<nat>,
                        rules: map<nat, nat>, r: nat)
    requires GraphInv(s) && s.stage == BetweenFolders(earlier + MatchesIn(f, lo, hi, removed, rules))
    ensures var t := Next(Next(s, FinishFolders), RecordMatches(true));
            (if r in t.counts then t.counts[r] else 0) ==
            (if r in s.counts then s.counts[r] else 0) + Tally(earlier, r) + |Hits(lo, hi, removed, rules, r)|
  {
    hide MatchesIn, Hits, GraphInv, Counted, Tally, CountsTally;
    var found := MatchesIn(f, lo, hi, removed, rules);
    CountsAre(s);
    CountedTallies(s.counts, s.recorded, earlier + found);
    CountIs(s.counts, s.recorded, r);
    CountIs(Counted(s.counts, earlier + found), s.recorded + (earlier + found), r);
    TallyConcat(s.recorded, earlier + found, r);
    TallyConcat(earlier, found, r);
    MatchesTally(f, lo, hi, removed, rules, r);
  }

  lemma CountIs(counts: map<nat, nat>, recorded: seq<Match>, r: nat)
    requires CountsTally(counts, recorded)
    ensures (if r in counts then counts[r] else 0) == Tally(recorded, r)
  {
  }

  lemma CountsAre(s: Graph)
    requires GraphInv(s)
    ensures CountsTally(s.counts, s.recorded)
  {
  }

  predicate AllGet(lo: nat, hi: nat, removed: set<nat>, readable: set<nat>) {
    forall i :: lo <= i < hi && i !in removed ==> i in readable
  }

  lemma OneMore(f: nat, link: nat, start: nat, at: nat, removed: set<nat>, rules: map<nat, nat>, readable: set<nat>)
    requires link <= start <= at && AllGet(start, at, removed, readable)
    ensures AllGet(start, at + 1, removed, readable) <==> at in removed || at in readable
    ensures MatchesIn(f, link, at + 1, removed, rules) ==
            MatchesIn(f, link, at, removed, rules) + MatchAt(f, at, removed, rules)
  {
  }

  /** A folder as `syncOneMSGraphFolder` changes it, with the transition system alongside. */
  class FolderPassRun {
    const f: nat
    var link: nat
    var handled: set<nat>
    ghost var world: Graph

    ghost predicate Agrees(at: nat, pageEnd: nat, last: bool, found: seq<Match>, matches: seq<Match>)
      reads this
    {
      && GraphInv(world) && world.stage == InFolder(f, at, pageEnd, last, found, matches) && f in world.folders
      && world.folders[f].link == link && world.folders[f].handled == handled
    }

    /** The pass begins at the folder's stored link. */
    constructor (s: Graph, f: nat)
      requires GraphInv(s) && s.stage.BetweenFolders?
      ensures this.f == f && Agrees(link, link, false, [], s.stage.matches)
      ensures f in world.folders && (f in s.folders ==> world.folders[f] == s.folders[f])
    {
      this.f := f;
      link := if f in s.folders then s.folders[f].link else 0;
      handled := if f in s.folders then s.folders[f].handled else {};
      world := Next(s, Enter(f));
      new;
      NextKeeps(s, Enter(f));
    }

    /** What the run relies on the server for: the feed's reports do not change meanwhile. */
    ghost predicate Feed(removed: set<nat>, length: nat)
      reads this
    {
      f in world.folders && world.folders[f].removed == removed && world.folders[f].length == length
    }

    ghost method Step(e: Event)
      requires GraphInv(world)
      modifies this`world
      ensures GraphInv(world) && world == Next(old(world), e)
    {
      NextKeeps(world, e);
      world := Next(world, e);
    }

    /** One stub of a page. */
    method HandleOne(at: nat, end: nat, last: bool, before: seq<Match>, removed: set<nat>,
                     rules: map<nat, nat>, readable: set<nat>, ghost matches: seq<Match>)
      returns (found: seq<Match>, ok: bool)
      requires at < end && Agrees(at, end, last, before, matches) && Feed(removed, world.folders[f].length)
      modifies this`handled, this`world
      ensures ok == (at in removed || at in readable) && Feed(removed, old(world.folders[f].length))
      ensures ok ==> found == before + MatchAt(f, at, removed, rules)
      ensures handled == old(handled) + (if ok && at !in removed then {at} else {})
      ensures if ok then Agrees(at + 1, end, last, found, matches)
        else GraphInv(world) && world.stage == Recording(matches) && world.folders[f].link == link
    {
      found, ok := before, at in removed || at in readable;
      Step(HandleNext(if at !in removed && at in rules then Some(rules[at]) else None, ok));
      if at !in removed && at in readable {
        if at in rules {
          found := found + [Match(f, at, rules[at])];
        }
        handled := handled + {at};
      }
    }

    /** One page: handle every message that is not a deletion stub; the first failure ends it. */
    method HandlePage(start: nat, end: nat, last: bool, before: seq<Match>, removed: set<nat>,
                      rules: map<nat, nat>, readable: set<nat>, ghost matches: seq<Match>)
      returns (found: seq<Match>, ok: bool)
      requires Agrees(start, start, false, before, matches) && Feed(removed, world.folders[f].length)
      requires link <= start <= end <= world.folders[f].length
      requires before == MatchesIn(f, link, start, removed, rules)
      modifies this`handled, this`world
      ensures ok <==> forall i :: start <= i < end && i !in removed ==> i in readable
      ensures old(handled) <= handled
      ensures ok ==> Agrees(end, end, last, found, matches) && found == MatchesIn(f, link, end, removed, rules)
      ensures !ok ==> GraphInv(world) && world.stage == Recording(matches)
      ensures !ok ==> f in world.folders && world.folders[f].link == link
      ensures Feed(removed, old(world.folders[f].length))
    {
      ghost var length := world.folders[f].length;
      found := before;
      Step(DeltaPage(end, last));
      var at := start;
      while at < end
        invariant start <= at <= end && Agrees(at, end, last, found, matches) && Feed(removed, length)
        invariant old(handled) <= handled
        invariant found == MatchesIn(f, link, at, removed, rules) && AllGet(start, at, removed, readable)
      {
        OneMore(f, link, start, at, removed, rules, readable);
        found, ok := HandleOne(at, end, last, found, removed, rules, readable, matches);
        if !ok { return; }
        at := at + 1;
      }
      ok := true;
    }

    /** Follow the page chain (`ends[k]` is where page k stops), then persist the delta link;
        any failure leaves the link alone. */
    method SyncOneFolder(ends: seq<nat>, removed: set<nat>, rules: map<nat, nat>, readable: set<nat>,
                         committed: bool, reported: bool, ghost matches: seq<Match>)
      returns (found: seq<Match>, ok: bool)
      requires Agrees(link, link, false, [], matches) && Feed(removed, world.folders[f].length)
      requires ends != [] && Ascend(ends, link, world.folders[f].length)
      modifies this
      ensures var all := forall i :: old(link) <= i < ends[|ends| - 1] && i !in removed ==> i in readable;
              && ok == (all && committed && reported)
              && link == (if all && committed then ends[|ends| - 1] else old(link))
              && (ok ==> found == MatchesIn(f, old(link), link, removed, rules))
              && (ok ==> forall m: Match :: m in found <==>
                    m.folder == f && old(link) <= m.at < link && m.at !in removed &&
                    m.at in rules && rules[m.at] == m.rule)
              && (ok ==> NoRepeats(found))
              && (ok ==> forall i :: old(link) <= i < link && i !in removed ==> i in handled)
      ensures GraphInv(world) && world.stage == (if ok then BetweenFolders(matches + found) else Recording(matches))
      ensures f in world.folders && world.folders[f].link == link && old(handled) <= handled
    {
      hide BeforeLink, NoRepeats, CountsTally;
      ghost var length := world.folders[f].length;
      found := [];
      var at := link;
      for k := 0 to |ends|
        invariant Agrees(at, at, k == |ends|, found, matches) && Feed(removed, length)
        invariant link == old(link) && old(handled) <= handled
        invariant at == (if k == 0 then link else ends[k - 1])
        invariant found == MatchesIn(f, link, at, removed, rules) && AllGet(link, at, removed, readable)
      {
        EndsAscend(ends, k, link, length);
        found, ok := HandlePage(at, ends[k], k + 1 == |ends|, found, removed, rules, readable, matches);
        if !ok { return; }
        at := ends[k];
      }
      Step(Persist(committed, reported));
      if committed {
        link := at;
      }
      ok := committed && reported;
      FoundAre(f, old(link), at, removed, rules);
    }
  }

  ghost predicate Ascend(ends: seq<nat>, link: nat, length: nat) {
    forall k :: 0 <= k < |ends| ==> (if k == 0 then link else ends[k - 1]) <= ends[k] <= length
  }

  lemma {:induction false} EndsAscend(ends: seq<nat>, k: nat, link: nat, length: nat)
    requires k < |ends|
    requires Ascend(ends, link, length)
    ensures (if k == 0 then link else ends[k - 1]) <= ends[k] <= ends[|ends| - 1] <= length
    decreases |ends| - k
  {
    if k + 1 < |ends| {
      EndsAscend(ends, k + 1, link, length);
    }
  }
}
