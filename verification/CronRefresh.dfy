/** The scheduler's `refresh`: reconciling the cron schedule with the active accounts,
    whatever order the maps are iterated in. */
module CronRefresh {
  datatype Account = Account(id: nat, active: bool, syncCron: string)

  /** What a cron entry runs: an account's sync, or something else (retention). */
  datatype Target = Sync(account: nat) | Other

  datatype Job = Job(spec: string, target: Target)

  datatype Entry = Entry(entryId: nat, spec: string)

  /** `wanted`: the schedule of every active account; a later account of the same id wins. */
  function Wanted(accounts: seq<Account>, default: string): map<nat, string> {
    if accounts == [] then map[]
    else
      var a, before := accounts[|accounts| - 1], Wanted(accounts[..|accounts| - 1], default);
      if a.active then before[a.id := Schedule(a, default)] else before
  }

  function Schedule(a: Account, default: string): string {
    if a.syncCron == "" then default else a.syncCron
  }

  predicate SomeActive(accounts: seq<Account>, id: nat) {
    exists k :: 0 <= k < |accounts| && accounts[k].active && accounts[k].id == id
  }

  lemma SomeActiveSplits(accounts: seq<Account>, id: nat)
    requires accounts != []
    ensures var n := |accounts| - 1;
            SomeActive(accounts, id) <==> (accounts[n].active && accounts[n].id == id) || SomeActive(accounts[..n], id)
  {
    var n := |accounts| - 1;
    if k :| 0 <= k < n && accounts[..n][k].active && accounts[..n][k].id == id {
      assert accounts[k].active && accounts[k].id == id;
    }
    if k :| 0 <= k < n && accounts[k].active && accounts[k].id == id {
      assert accounts[..n][k].active && accounts[..n][k].id == id;
    }
  }

  /** An account is wanted exactly when it is active. */
  lemma {:induction false} WantedIff(accounts: seq<Account>, default: string, id: nat)
    ensures id in Wanted(accounts, default) <==>
            exists k :: 0 <= k < |accounts| && accounts[k].active && accounts[k].id == id
    decreases |accounts|
  {
    hide SomeActive;
    if accounts != [] {
      WantedIff(accounts[..|accounts| - 1], default, id);
      SomeActiveSplits(accounts, id);
    } else {
      NoneActive(accounts, id);
    }
  }

  lemma NoneActive(accounts: seq<Account>, id: nat)
    requires accounts == []
    ensures !SomeActive(accounts, id)
  {
  }

  /** It is wanted under its own schedule, or the default one. */
  lemma {:induction false} WantedUnder(accounts: seq<Account>, default: string, k: nat)
    requires k < |accounts| && accounts[k].active
    requires forall l :: k < l < |accounts| && accounts[l].id == accounts[k].id ==> !accounts[l].active
    ensures var id := accounts[k].id;
            && id in Wanted(accounts, default)
            && (accounts[k].syncCron != "" ==> Wanted(accounts, default)[id] == accounts[k].syncCron)
            && (accounts[k].syncCron == "" ==> Wanted(accounts, default)[id] == default)
    decreases |accounts|
  {
    var n := |accounts| - 1;
    if k < n {
      assert accounts[..n][k] == accounts[k];
      assert forall l :: k < l < n ==> accounts[..n][l] == accounts[l];
      WantedUnder(accounts[..n], default, k);
    }
  }

  /** The bookkeeping and the cron schedule describe the same account entries, one each. */
  ghost predicate Agree(entries: map<nat, Entry>, cron: map<nat, Job>, valid: set<string>, next: nat) {
    && (forall id :: id in entries ==>
          && entries[id].spec in valid && entries[id].entryId in cron
          && cron[entries[id].entryId] == Job(entries[id].spec, Sync(id)))
    && (forall e :: e in cron && cron[e].target.Sync? ==>
          cron[e].target.account in entries && entries[cron[e].target.account].entryId == e)
    && (forall e :: e in cron ==> e < next)
  }

  /** Exactly the wanted accounts with a valid expression are scheduled, as wanted. */
  ghost predicate Settled(entries: map<nat, Entry>, wanted: map<nat, string>, valid: set<string>) {
    && (forall id :: id in entries <==> id in wanted && wanted[id] in valid)
    && (forall id :: id in entries ==> entries[id].spec == wanted[id])
  }

  /** An account whose schedule did not change keeps its entry. */
  ghost predicate KeptUnchanged(was: map<nat, Entry>, entries: map<nat, Entry>, wanted: map<nat, string>) {
    forall id :: id in was && id in wanted && wanted[id] == was[id].spec ==> id in entries && entries[id] == was[id]
  }

  /** Cron entries that are not account syncs are left alone, and none appears. */
  ghost predicate OthersUntouched(was: map<nat, Job>, cron: map<nat, Job>) {
    && (forall e :: e in was && was[e].target.Other? ==> e in cron && cron[e] == was[e])
    && (forall e :: e in cron && cron[e].target.Other? ==> e in was && was[e] == cron[e])
  }

  /** In a settled schedule, the account syncs in cron are exactly the wanted ones, each once
      and under its wanted expression. */
  lemma ScheduleIsExact(entries: map<nat, Entry>, cron: map<nat, Job>, wanted: map<nat, string>, valid: set<string>,
      next: nat, id: nat)
    requires Agree(entries, cron, valid, next) && Settled(entries, wanted, valid)
    ensures (exists e :: e in cron && cron[e].target == Sync(id)) <==> id in wanted && wanted[id] in valid
    ensures forall e :: e in cron && cron[e].target == Sync(id) ==> cron[e].spec == wanted[id]
    ensures forall e, f :: e in cron && f in cron && cron[e].target == Sync(id) && cron[f].target == Sync(id) ==> e == f
  {
    if id in entries {
      assert cron[entries[id].entryId].target == Sync(id);
    }
  }

  class Scheduler {
    const valid: set<string>
    var entries: map<nat, Entry>
    var cron: map<nat, Job>
    var next: nat

    ghost predicate Valid()
      reads this
    {
      Agree(entries, cron, valid, next)
    }

    constructor (valid: set<string>)
      ensures Valid() && this.valid == valid && entries == map[] && cron == map[]
    {
      this.valid, entries, cron, next := valid, map[], map[], 0;
    }

    /** Schedule one wanted account: keep, replace, add, or drop on an invalid expression. */
    method Want(id: nat, spec: string)
      requires Valid()
      modifies this`entries, this`cron, this`next
      ensures Valid() && OthersUntouched(old(cron), cron)
      ensures forall i :: i != id ==>
        (i in entries <==> i in old(entries)) && (i in entries ==> entries[i] == old(entries)[i])
      ensures id in entries <==> spec in valid
      ensures id in entries ==> entries[id].spec == spec
      ensures id in old(entries) && old(entries)[id].spec == spec ==>
        entries == old(entries) && cron == old(cron) && next == old(next)
      ensures id !in old(entries) && spec !in valid ==>
        entries == old(entries) && cron == old(cron) && next == old(next)
    {
      if id in entries {
        if entries[id].spec == spec { return; }
        cron := cron - {entries[id].entryId};
      }
      if spec !in valid {
        entries := entries - {id};
        return;
      }
      cron := cron[next := Job(spec, Sync(id))];
      entries := entries[id := Entry(next, spec)];
      next := next + 1;
    }

    /** Unschedule an account that is no longer wanted. */
    method Drop(id: nat)
      requires Valid() && id in entries
      modifies this`entries, this`cron
      ensures Valid() && OthersUntouched(old(cron), cron) && entries == old(entries) - {id}
    {
      cron := cron - {entries[id].entryId};
      entries := entries - {id};
    }

    /** The first loop of `refresh`, over the wanted accounts. */
    method ScheduleWanted(wanted: map<nat, string>)
      requires Valid()
      modifies this`entries, this`cron, this`next
      ensures Valid() && OthersUntouched(old(cron), cron) && Progress(old(entries), entries, wanted, valid, {})
      ensures old(Settled(entries, wanted, valid)) ==> entries == old(entries) && cron == old(cron) && next == old(next)
    {
      hide Agree, OthersUntouched, Progress;
      ghost var was, jobs, start := entries, cron, next;
      var todo := wanted.Keys;
      Untouched(cron);
      ProgressStarts(entries, wanted, valid);
      while todo != {}
        invariant todo <= wanted.Keys && Valid() && OthersUntouched(jobs, cron)
        invariant Progress(was, entries, wanted, valid, todo)
        invariant Settled(was, wanted, valid) ==> entries == was && cron == jobs && next == start
        decreases |todo|
      {
        var id :| id in todo;
        ghost var before, of := cron, entries;
        Want(id, wanted[id]);
        OthersChain(jobs, before, cron);
        ProgressOne(was, of, entries, wanted, valid, todo, id);
        todo := todo - {id};
      }
    }

    /** The second loop, over the scheduled accounts that are not wanted. */
    method DropUnwanted(wanted: map<nat, string>)
      requires Valid()
      modifies this`entries, this`cron
      ensures Valid() && OthersUntouched(old(cron), cron)
      ensures OnlyWanted(old(entries), entries, wanted, {})
      ensures (forall id :: id in old(entries) ==> id in wanted) ==> entries == old(entries) && cron == old(cron)
    {
      ghost var was, jobs := entries, cron;
      var todo := entries.Keys - wanted.Keys;
      hide Agree, OthersUntouched, OnlyWanted;
      Untouched(cron);
      AllLeft(entries, wanted);
      while todo != {}
        invariant (forall id :: id in todo ==> id in entries && id !in wanted) && Valid() && OthersUntouched(jobs, cron)
        invariant OnlyWanted(was, entries, wanted, todo)
        invariant (forall id :: id in was ==> id in wanted) ==> entries == was && cron == jobs && todo == {}
        decreases |todo|
      {
        var id :| id in todo;
        ghost var before := cron;
        OneLess(was, entries, wanted, todo, id);
        Drop(id);
        OthersChain(jobs, before, cron);
        todo := todo - {id};
      }
    }

    /** `refresh`, given the listed accounts. */
    method Refresh(accounts: seq<Account>, default: string)
      requires Valid()
      modifies this`entries, this`cron, this`next
      ensures var wanted := Wanted(accounts, default);
              && Valid() && Settled(entries, wanted, valid)
              && KeptUnchanged(old(entries), entries, wanted) && OthersUntouched(old(cron), cron)
              && (old(Settled(entries, wanted, valid)) ==>
                   entries == old(entries) && cron == old(cron) && next == old(next))
    {
      hide OthersUntouched, Wanted, Agree, Settled, KeptUnchanged, Progress, OnlyWanted;
      var wanted := CollectWanted(accounts, default);
      ghost var was, jobs := entries, cron;
      SpecsValid(was, cron, valid, next);
      ScheduleWanted(wanted);
      ghost var between, before := entries, cron;
      DropUnwanted(wanted);
      OthersChain(jobs, before, cron);
      Reconciled(was, between, entries, wanted, valid);
    }
  }

  /** Accounts off the to-do list are as wanted; the others, and those unchanged, as before. */
  ghost predicate Progress(was: map<nat, Entry>, entries: map<nat, Entry>, wanted: map<nat, string>,
      valid: set<string>, todo: set<nat>)
  {
    && (forall id :: id in wanted && id !in todo ==>
          (id in entries <==> wanted[id] in valid) && (id in entries ==> entries[id].spec == wanted[id]))
    && (forall id :: id !in wanted || id in todo || (id in was && was[id].spec == wanted[id]) ==>
          (id in entries <==> id in was) && (id in entries ==> entries[id] == was[id]))
  }

  ghost predicate OnlyWanted(was: map<nat, Entry>, entries: map<nat, Entry>, wanted: map<nat, string>, todo: set<nat>) {
    && (forall id :: id in entries <==> id in was && (id in wanted || id in todo))
    && (forall id :: id in entries ==> entries[id] == was[id])
  }

  lemma ProgressStarts(was: map<nat, Entry>, wanted: map<nat, string>, valid: set<string>)
    ensures Progress(was, was, wanted, valid, wanted.Keys)
  {
  }

  lemma ProgressOne(was: map<nat, Entry>, before: map<nat, Entry>, entries: map<nat, Entry>, wanted: map<nat, string>,
                    valid: set<string>, todo: set<nat>, id: nat)
    requires Progress(was, before, wanted, valid, todo) && id in todo && id in wanted
    requires forall i :: i != id ==> (i in entries <==> i in before) && (i in entries ==> entries[i] == before[i])
    requires (id in entries <==> wanted[id] in valid) && (id in entries ==> entries[id].spec == wanted[id])
    requires id in before && before[id].spec == wanted[id] ==> entries == before
    ensures Progress(was, entries, wanted, valid, todo - {id})
  {
  }

  lemma SpecsValid(entries: map<nat, Entry>, cron: map<nat, Job>, valid: set<string>, next: nat)
    requires Agree(entries, cron, valid, next)
    ensures forall id :: id in entries ==> entries[id].spec in valid
  {
  }

  /** Both loops together settle the bookkeeping. */
  lemma Reconciled(was: map<nat, Entry>, between: map<nat, Entry>, entries: map<nat, Entry>, wanted: map<nat, string>,
                   valid: set<string>)
    requires Progress(was, between, wanted, valid, {}) && OnlyWanted(between, entries, wanted, {})
    requires forall id :: id in was ==> was[id].spec in valid
    ensures Settled(entries, wanted, valid) && KeptUnchanged(was, entries, wanted)
    ensures Settled(was, wanted, valid) ==> forall id :: id in was ==> id in wanted
  {
  }

  lemma OneLess(was: map<nat, Entry>, entries: map<nat, Entry>, wanted: map<nat, string>, todo: set<nat>, id: nat)
    requires OnlyWanted(was, entries, wanted, todo) && id in todo && id !in wanted
    ensures OnlyWanted(was, entries - {id}, wanted, todo - {id})
  {
  }

  lemma AllLeft(entries: map<nat, Entry>, wanted: map<nat, string>)
    ensures OnlyWanted(entries, entries, wanted, entries.Keys - wanted.Keys)
    ensures (forall id :: id in entries ==> id in wanted) ==> entries.Keys - wanted.Keys == {}
  {
  }

  lemma Untouched(cron: map<nat, Job>)
    ensures OthersUntouched(cron, cron)
  {
  }

  lemma OthersChain(a: map<nat, Job>, b: map<nat, Job>, c: map<nat, Job>)
    requires OthersUntouched(a, b) && OthersUntouched(b, c)
    ensures OthersUntouched(a, c)
  {
  }

  method CollectWanted(accounts: seq<Account>, default: string) returns (wanted: map<nat, string>)
    ensures wanted == Wanted(accounts, default)
  {
    wanted := map[];
    for k := 0 to |accounts|
      invariant wanted == Wanted(accounts[..k], default)
    {
      assert accounts[..k + 1][..k] == accounts[..k];
      if accounts[k].active {
        var spec := accounts[k].syncCron;
        if spec == "" {
          spec := default;
        }
        wanted := wanted[accounts[k].id := spec];
      }
    }
    assert accounts[..|accounts|] == accounts;
  }
}
