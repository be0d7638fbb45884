/** Which rule wins: priority order, the first match, and the reordering of the whole list. */
module RuleOrder {
  import opened Options
  import opened Rules

  datatype Rule = Rule(id: nat, priority: int, active: bool, conditions: RuleNode)

  /** Rows by id. */
  type Table = map<nat, Rule>

  ghost predicate Sound(table: Table) {
    forall id :: id in table ==> table[id].id == id
  }

  /** ORDER BY priority, id */
  predicate Before(a: Rule, b: Rule) {
    a.priority < b.priority || (a.priority == b.priority && a.id < b.id)
  }

  /** The contract of `ListActive`: exactly the active rules, in order. */
  ghost predicate IsListing(list: seq<Rule>, table: Table) {
    && (forall i, j :: 0 <= i < j < |list| ==> Before(list[i], list[j]))
    && (forall i :: 0 <= i < |list| ==> list[i].id in table && table[list[i].id] == list[i] && list[i].active)
    && (forall id :: id in table && table[id].active ==> table[id] in list)
  }

  function FirstMatch(lib: Lib, list: seq<Rule>, c: Candidate): Option<Rule> {
    if list == [] then None
    else if Evaluate(lib, list[0].conditions, c) then Some(list[0])
    else FirstMatch(lib, list[1..], c)
  }

  ghost predicate Matching(lib: Lib, table: Table, id: nat, c: Candidate) {
    id in table && table[id].active && Evaluate(lib, table[id].conditions, c)
  }

  lemma {:induction false} FirstMatchIndex(lib: Lib, list: seq<Rule>, c: Candidate) returns (k: nat)
    ensures k <= |list| && forall i :: 0 <= i < k ==> !Evaluate(lib, list[i].conditions, c)
    ensures if k < |list| then Evaluate(lib, list[k].conditions, c) && FirstMatch(lib, list, c) == Some(list[k])
      else FirstMatch(lib, list, c).None?
  {
    if list == [] || Evaluate(lib, list[0].conditions, c) {
      k := 0;
    } else {
      k := FirstMatchIndex(lib, list[1..], c);
      k := k + 1;
    }
  }

  /** The winner is the active matching rule least by (priority, id), if there is one. */
  lemma WinnerIsLeast(lib: Lib, list: seq<Rule>, table: Table, c: Candidate)
    requires IsListing(list, table) && Sound(table)
    ensures FirstMatch(lib, list, c).None? <==> forall id :: !Matching(lib, table, id, c)
    ensures forall r :: FirstMatch(lib, list, c) == Some(r) <==>
              r.id in table && table[r.id] == r && Matching(lib, table, r.id, c) &&
              forall id :: Matching(lib, table, id, c) && id != r.id ==>
                r.priority < table[id].priority || (r.priority == table[id].priority && r.id < id)
  {
    var k := FirstMatchIndex(lib, list, c);
    forall id | Matching(lib, table, id, c) ensures k < |list| && (id == list[k].id || Before(list[k], table[id])) {
      var i :| 0 <= i < |list| && list[i] == table[id];
    }
    if k < |list| {
      assert Matching(lib, table, list[k].id, c);
    }
  }

  /** There is such a listing of every table. */
  lemma {:induction false} ListingExists(table: Table) returns (list: seq<Rule>)
    requires Sound(table)
    ensures IsListing(list, table)
    decreases |table|
  {
    if table == map[] {
      list := [];
    } else {
      var id :| id in table;
      var rest := table - {id};
      assert |rest| < |table| by {
        assert rest.Keys == table.Keys - {id};
      }
      list := ListingExists(rest);
      if table[id].active {
        list := Insert(list, rest, table[id], table);
      } else {
        forall other | other in table && table[other].active ensures table[other] in list {
          assert other in rest && rest[other] in list;
        }
      }
    }
  }

  lemma Insert(list: seq<Rule>, rest: Table, r: Rule, table: Table) returns (longer: seq<Rule>)
    requires IsListing(list, rest) && Sound(table) && r.id !in rest && table == rest[r.id := r] && r.active
    ensures IsListing(longer, table)
  {
    var k := 0;
    while k < |list| && Before(list[k], r)
      invariant k <= |list| && forall i :: 0 <= i < k ==> Before(list[i], r)
    {
      k := k + 1;
    }
    longer := list[..k] + [r] + list[k..];
    InsertSorted(list, rest, r, k);
    assert forall i :: 0 <= i < |longer| ==> longer[i] == Spliced(list, r, k, i);
    hide Before;
    forall id | id in table && table[id].active ensures table[id] in longer {
      if id != r.id {
        var i :| 0 <= i < |list| && list[i] == rest[id];
        assert longer[if i < k then i else i + 1] == rest[id];
      } else {
        assert longer[k] == r;
      }
    }
  }

  function Spliced(list: seq<Rule>, r: Rule, k: nat, i: nat): Rule
    requires k <= |list| && i <= |list|
  {
    if i < k then list[i] else if i == k then r else list[i - 1]
  }

  lemma InsertSorted(list: seq<Rule>, rest: Table, r: Rule, k: nat)
    requires IsListing(list, rest) && r.id !in rest
    requires k <= |list| && (forall i :: 0 <= i < k ==> Before(list[i], r)) && (k < |list| ==> !Before(list[k], r))
    ensures forall i, j :: 0 <= i < j <= |list| ==> Before(Spliced(list, r, k, i), Spliced(list, r, k, j))
  {
    assert k < |list| ==> list[k].id != r.id && Before(r, list[k]);
  }

  // ---------------------------------------------------------------- reordering

  /** The last position of an id in the list of a reorder request. */
  function LastIndex(ids: seq<nat>, id: nat): Option<nat> {
    if ids == [] then None
    else if ids[|ids| - 1] == id then Some(|ids| - 1)
    else LastIndex(ids[..|ids| - 1], id)
  }

  /** Listed rules get their last position as priority; all other rules stay as they are. */
  function Reordered(table: Table, ids: seq<nat>): Table {
    map id | id in table :: if LastIndex(ids, id).Some? then table[id].(priority := LastIndex(ids, id).value)
      else table[id]
  }

  class RulesTable {
    var rules: Table

    /** The loop of `handleRulesReorder`: unknown ids are passed over; the first failing
        update ends it, with the earlier ones in place. */
    method Reorder(ids: seq<nat>, failsAt: nat) returns (ok: bool, done: nat)
      modifies this
      ensures done <= |ids| && rules == Reordered(old(rules), ids[..done])
      ensures ok <==> done == |ids|
      ensures !ok ==> done == failsAt && ids[done] in rules
      ensures failsAt >= |ids| ==> ok
      ensures rules.Keys == old(rules).Keys
      ensures forall id :: id in rules && id !in ids[..done] ==> rules[id] == old(rules)[id]
      ensures forall i :: 0 <= i < done && ids[i] in rules && ids[i] !in ids[i + 1..done] ==>
        rules[ids[i]] == old(rules)[ids[i]].(priority := i)
    {
      done, ok := 0, true;
      assert Reordered(rules, []) == rules;
      while done < |ids|
        invariant done <= |ids| && rules == Reordered(old(rules), ids[..done])
      {
        var id := ids[done];
        assert ids[..done + 1][..done] == ids[..done];
        if id in rules {
          if done == failsAt {
            ReorderedIs(old(rules), ids[..done]);
            SliceAgain(ids, done);
            return false, done;
          }
          rules := rules[id := rules[id].(priority := done)];
        }
        done := done + 1;
      }
      ReorderedIs(old(rules), ids[..done]);
      SliceAgain(ids, done);
    }
  }

  /** Each listed rule has its last position for its priority; the others are as before. */
  lemma ReorderedIs(table: Table, ids: seq<nat>)
    ensures Reordered(table, ids).Keys == table.Keys
    ensures forall id :: id in table && id !in ids ==> Reordered(table, ids)[id] == table[id]
    ensures forall i :: 0 <= i < |ids| && ids[i] in table && ids[i] !in ids[i + 1..] ==>
      Reordered(table, ids)[ids[i]] == table[ids[i]].(priority := i)
  {
    forall id | id in table && id !in ids ensures Reordered(table, ids)[id] == table[id] {
      LastIndexIs(ids, id);
    }
    forall i | 0 <= i < |ids| && ids[i] in table && ids[i] !in ids[i + 1..]
      ensures Reordered(table, ids)[ids[i]] == table[ids[i]].(priority := i)
    {
      LastIndexIs(ids, ids[i]);
      assert forall k :: i < k < |ids| ==> ids[k] in ids[i + 1..];
    }
  }

  lemma SliceAgain(ids: seq<nat>, n: nat)
    requires n <= |ids|
    ensures forall i :: 0 <= i < n ==> ids[..n][i] == ids[i] && ids[..n][i + 1..] == ids[i + 1..n]
  {
  }

  lemma {:induction false} LastIndexIs(ids: seq<nat>, id: nat)
    ensures match LastIndex(ids, id)
            case None => id !in ids
            case Some(k) => k < |ids| && ids[k] == id && forall i :: k < i < |ids| ==> ids[i] != id
  {
    if ids != [] && ids[|ids| - 1] != id {
      LastIndexIs(ids[..|ids| - 1], id);
    }
  }

  /** After reordering by a duplicate-free list of all rules, the winner is the first rule of
      that list that is active and matches. */
  lemma ReorderedWinner(lib: Lib, table: Table, ids: seq<nat>, list: seq<Rule>, c: Candidate, k: nat)
    requires Sound(table) && IsListing(list, Reordered(table, ids))
    requires (forall id :: id in table ==> id in ids) && (forall i, j :: 0 <= i < j < |ids| ==> ids[i] != ids[j])
    requires k < |ids| && Matching(lib, table, ids[k], c) && forall i :: 0 <= i < k ==> !Matching(lib, table, ids[i], c)
    ensures FirstMatch(lib, list, c) == Some(table[ids[k]].(priority := k))
  {
    var t := Reordered(table, ids);
    forall i | 0 <= i < |ids| && ids[i] in table ensures t[ids[i]] == table[ids[i]].(priority := i) {
      LastIndexIs(ids, ids[i]);
    }
    forall id ensures Matching(lib, t, id, c) <==> Matching(lib, table, id, c) {
    }
    var r := t[ids[k]];
    forall id | Matching(lib, t, id, c) && id != r.id ensures Before(r, t[id]) {
      var i :| 0 <= i < |ids| && ids[i] == id;
    }
    WinnerIsLeast(lib, list, t, c);
  }
}
