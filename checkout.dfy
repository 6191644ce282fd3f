/** The inventory store as an object whose maps the fixture helpers and the
    `POST /vm` checkout update in place. */
module Checkout {
  import opened Wrappers
  import opened Requests
  import opened PoolConfig
  import opened Inventory

  class Store {
    /** pool name -> ids of its ready machines */
    var ready: ReadySets
    /** machine id -> its attribute record */
    var vms: map<string, MachineRecord>
    /** token -> {user, created} */
    var tokens: map<string, TokenRecord>

    /** An empty store, as after `flushdb`. */
    constructor ()
      ensures ready == map[] && vms == map[] && tokens == map[]
    {
      ready := map[];
      vms := map[];
      tokens := map[];
    }

    /** No machine is ready in two pools at once. */
    ghost predicate ReadySetsDisjoint()
      reads this
    {
      Disjoint(ready)
    }

    /** `create_token`: stores the token's user and creation time. */
    method CreateToken(token: string, user: string, created: nat)
      modifies this
      ensures tokens == old(tokens)[token := TokenRecord(user, created)]
      ensures ready == old(ready) && vms == old(vms)
    {
      tokens := tokens[token := TokenRecord(user, created)];
    }

    /** `create_vm`: adds `name` to the ready set of `pool`; the only way a
        machine enters a ready set. */
    method CreateVm(pool: string, name: string)
      modifies this
      ensures ready == old(ready)[pool := ReadyOf(old(ready), pool) + {name}]
      ensures ReadyOf(ready, pool) == ReadyOf(old(ready), pool) + {name}
      ensures forall q :: q != pool ==> ReadyOf(ready, q) == ReadyOf(old(ready), q)
      ensures old(ReadySetsDisjoint()) && (forall q :: q != pool ==> name !in ReadyOf(old(ready), q))
              ==> ReadySetsDisjoint()
      ensures vms == old(vms) && tokens == old(tokens)
    {
      ready := ready[pool := ReadyOf(ready, pool) + {name}];
    }

    /** `clear_pool`: deletes the ready set of `pool`. */
    method ClearPool(pool: string)
      modifies this
      ensures ready == old(ready) - {pool}
      ensures ReadyOf(ready, pool) == {}
      ensures forall q :: q != pool ==> ReadyOf(ready, q) == ReadyOf(old(ready), q)
      ensures old(ReadySetsDisjoint()) ==> ReadySetsDisjoint()
      ensures vms == old(vms) && tokens == old(tokens)
    {
      ready := ready - {pool};
    }

    /** `fetch_vm`: the attribute record of machine `id`; a machine never
        written reads back with no attributes. */
    function FetchVm(id: string): (r: MachineRecord)
      reads this
      ensures id !in vms ==> r == EmptyRecord
      ensures id in vms ==> r == vms[id]
    {
      RecordOf(vms, id)
    }

    /** Writes the `lifetime` attribute of each machine in `hosts`. */
    method WriteLifetime(hosts: seq<string>, hours: nat)
      modifies this
      ensures vms == StampAll(old(vms), hosts, hours)
      ensures ready == old(ready) && tokens == old(tokens)
    {
      var j := 0;
      while j < |hosts|
        invariant 0 <= j <= |hosts|
        invariant ready == old(ready) && tokens == old(tokens)
        invariant vms == StampAll(old(vms), hosts[..j], hours)
      {
        assert hosts[..j + 1][..j] == hosts[..j];
        vms := vms[hosts[j] := RecordOf(vms, hosts[j]).(lifetime := Some(hours))];
        j := j + 1;
      }
      assert hosts[..j] == hosts;
    }

    /** `POST /vm`. Phase 1 resolves every token and refuses the whole request
        if one is unknown. Phase 2 pops the requested machines from a working
        copy of the ready sets and commits it only when every claim was met,
        so a refused request changes nothing. On success each machine handed
        out gets the lifetime the policy decides, if any. */
    method Checkout(cfg: Config, req: seq<PoolRequest>, authToken: Option<string>) returns (resp: Response)
      modifies this
      ensures tokens == old(tokens)
      ensures resp.Failure? ==> ready == old(ready) && vms == old(vms)
      ensures ResolveAll(cfg, req).None? ==> resp == Failure(UnknownPool)
      ensures ResolveAll(cfg, req).Some? ==>
                (resp.Success? <==> Fits(ResolveAll(cfg, req).value, old(ready)))
      ensures ResolveAll(cfg, req).Some? && resp.Failure? ==> resp.reason == Shortfall
      ensures resp.Success? ==>
                ResolveAll(cfg, req).Some? && Answers(resp.entries, ResolveAll(cfg, req).value, old(ready))
      ensures resp.Success? ==> ready == TakeAll(old(ready), resp.entries)
      ensures resp.Success? ==>
                vms == Stamp(old(vms), Hostnames(resp.entries), LifetimeFor(cfg, old(tokens), authToken))
      ensures resp.Success? ==> DistinctPerPool(resp.entries)
      ensures resp.Success? && old(ReadySetsDisjoint()) ==> Distinct(Hostnames(resp.entries))
      ensures old(ReadySetsDisjoint()) ==> ReadySetsDisjoint()
    {
      var resolved := ResolveAll(cfg, req);
      if resolved.None? {
        return Failure(UnknownPool);
      }
      var reserved, rest := Reserve(ready, resolved.value);
      if reserved.None? {
        return Failure(Shortfall);
      }
      var entries := reserved.value;
      if Disjoint(ready) {
        TakeAllKeepsDisjoint(ready, entries);
      }
      ready := rest;
      var lifetime := LifetimeFor(cfg, tokens, authToken);
      var handed := Hostnames(entries);
      if lifetime.Some? {
        WriteLifetime(handed, lifetime.value);
      }
      resp := Success(entries);
    }
  }

  /** Pops `count` machines, one at a time, from `pool`'s ready set in the
      working copy `pending`; `ok` is false when the pool runs dry first. */
  method TakeFromPool(pending: ReadySets, pool: string, count: nat)
    returns (ok: bool, hosts: seq<string>, rest: ReadySets)
    ensures ok <==> count <= |ReadyOf(pending, pool)|
    ensures ok ==> |hosts| == count && Distinct(hosts)
    ensures ok ==> forall h :: h in hosts ==> h in ReadyOf(pending, pool)
    ensures ok ==> rest == TakeHosts(pending, pool, hosts)
  {
    hosts, rest := [], pending;
    var k := 0;
    while k < count
      invariant 0 <= k <= count && |hosts| == k
      invariant rest == TakeHosts(pending, pool, hosts)
      invariant ReadyOf(rest, pool) == ReadyOf(pending, pool) - (set h | h in hosts)
      invariant forall h :: h in hosts ==> h in ReadyOf(pending, pool)
      invariant |ReadyOf(rest, pool)| == |ReadyOf(pending, pool)| - k
      invariant Distinct(hosts)
    {
      var avail := ReadyOf(rest, pool);
      if avail == {} {
        return false, hosts, rest;
      }
      var id :| id in avail;
      rest := Without(rest, pool, id);
      hosts := hosts + [id];
      k := k + 1;
    }
    ok := true;
  }

  /** Phase 2 of a checkout on a working copy of the ready sets: takes every
      claim's machines in claim order, or reports that some pool falls
      short. */
  method Reserve(ready: ReadySets, claims: seq<Claim>)
    returns (entries: Option<seq<Entry>>, rest: ReadySets)
    ensures entries.Some? <==> Fits(claims, ready)
    ensures entries.Some? ==> Answers(entries.value, claims, ready)
    ensures entries.Some? ==> rest == TakeAll(ready, entries.value)
    ensures entries.Some? ==> DistinctPerPool(entries.value)
    ensures entries.Some? && Disjoint(ready) ==> Distinct(Hostnames(entries.value))
  {
    var taken: seq<Entry> := [];
    rest := ready;
    var i := 0;
    while i < |claims|
      invariant 0 <= i <= |claims|
      invariant Answers(taken, claims[..i], ready)
      invariant rest == TakeAll(ready, taken)
      invariant forall q :: ReadyOf(rest, q) <= ReadyOf(ready, q)
      invariant forall q :: |ReadyOf(rest, q)| == |ReadyOf(ready, q)| - Demand(claims[..i], q)
      invariant DistinctPerPool(taken)
      invariant forall j, h :: 0 <= j < |taken| && h in taken[j].hostnames ==> h !in ReadyOf(rest, taken[j].pool)
      invariant Disjoint(ready) ==> Distinct(Hostnames(taken))
      invariant Disjoint(ready) ==> forall q, h :: h in Hostnames(taken) ==> h !in ReadyOf(rest, q)
    {
      var pool := claims[i].pool;
      var ok, hosts, next := TakeFromPool(rest, pool, claims[i].count);
      if !ok {
        ShortfallFound(claims, i, ready, |ReadyOf(rest, pool)|);
        return None, ready;
      }
      AnswersStep(ready, claims, i, taken, rest, hosts);
      CountStep(ready, claims, i, rest, hosts, next);
      PerPoolStep(taken, rest, pool, hosts, next);
      if Disjoint(ready) {
        DistinctStep(ready, claims, i, taken, rest, hosts, next);
      }
      taken := taken + [Entry(pool, hosts)];
      rest := next;
      i := i + 1;
    }
    assert claims[..i] == claims;
    entries := Some(taken);
  }

  /** One claim met: the answer so far still answers the claims so far,
      and the working copy is still what it leaves of the ready sets. */
  lemma AnswersStep(ready: ReadySets, claims: seq<Claim>, i: nat, taken: seq<Entry>,
                    rest: ReadySets, hosts: seq<string>)
    requires i < |claims|
    requires Answers(taken, claims[..i], ready)
    requires forall q :: ReadyOf(rest, q) <= ReadyOf(ready, q)
    requires |hosts| == claims[i].count
    requires forall h :: h in hosts ==> h in ReadyOf(rest, claims[i].pool)
    ensures Answers(taken + [Entry(claims[i].pool, hosts)], claims[..i + 1], ready)
    ensures TakeAll(ready, taken + [Entry(claims[i].pool, hosts)])
            == TakeHosts(TakeAll(ready, taken), claims[i].pool, hosts)
  {
  }

  /** One claim met: machines stay distinct within each pool, and none
      handed out is still in its pool's working set. */
  lemma PerPoolStep(taken: seq<Entry>, rest: ReadySets, pool: string, hosts: seq<string>, next: ReadySets)
    requires DistinctPerPool(taken)
    requires forall j, h :: 0 <= j < |taken| && h in taken[j].hostnames ==> h !in ReadyOf(rest, taken[j].pool)
    requires Distinct(hosts)
    requires forall h :: h in hosts ==> h in ReadyOf(rest, pool)
    requires next == TakeHosts(rest, pool, hosts)
    ensures DistinctPerPool(taken + [Entry(pool, hosts)])
    ensures forall j, h :: 0 <= j < |taken| + 1 && h in (taken + [Entry(pool, hosts)])[j].hostnames
              ==> h !in ReadyOf(next, (taken + [Entry(pool, hosts)])[j].pool)
  {
    var taken' := taken + [Entry(pool, hosts)];
    forall q ensures ReadyOf(next, q) <= ReadyOf(rest, q)
      ensures q == pool ==> forall h :: h in hosts ==> h !in ReadyOf(next, q)
    {
      TakeHostsEffect(rest, pool, hosts, q);
    }
    forall i, j, h | 0 <= i < j < |taken'| && taken'[i].pool == taken'[j].pool && h in taken'[i].hostnames
      ensures h !in taken'[j].hostnames
    {
      if j == |taken| {
        assert h !in ReadyOf(rest, taken[i].pool);
      }
    }
  }

  /** One claim met: each pool's working set is its ready set less what the
      claims so far ask of it. */
  lemma CountStep(ready: ReadySets, claims: seq<Claim>, i: nat,
                  rest: ReadySets, hosts: seq<string>, next: ReadySets)
    requires i < |claims|
    requires forall q :: ReadyOf(rest, q) <= ReadyOf(ready, q)
    requires forall q :: |ReadyOf(rest, q)| == |ReadyOf(ready, q)| - Demand(claims[..i], q)
    requires |hosts| == claims[i].count && Distinct(hosts)
    requires forall h :: h in hosts ==> h in ReadyOf(rest, claims[i].pool)
    requires next == TakeHosts(rest, claims[i].pool, hosts)
    ensures forall q :: ReadyOf(next, q) <= ReadyOf(ready, q)
    ensures forall q :: |ReadyOf(next, q)| == |ReadyOf(ready, q)| - Demand(claims[..i + 1], q)
  {
    var pool := claims[i].pool;
    assert claims[..i + 1][..i] == claims[..i];
    forall q
      ensures ReadyOf(next, q) <= ReadyOf(ready, q)
      ensures |ReadyOf(next, q)| == |ReadyOf(ready, q)| - Demand(claims[..i + 1], q)
    {
      TakeHostsEffect(rest, pool, hosts, q);
      if q == pool {
        DistinctCard(hosts);
      }
    }
  }

  /** One claim met: when no machine is ready in two pools, nothing is
      handed out twice and nothing handed out is still ready anywhere. */
  lemma DistinctStep(ready: ReadySets, claims: seq<Claim>, i: nat, taken: seq<Entry>,
                     rest: ReadySets, hosts: seq<string>, next: ReadySets)
    requires i < |claims| && Disjoint(ready)
    requires forall q :: ReadyOf(rest, q) <= ReadyOf(ready, q)
    requires Distinct(Hostnames(taken))
    requires forall q, h :: h in Hostnames(taken) ==> h !in ReadyOf(rest, q)
    requires Distinct(hosts)
    requires forall h :: h in hosts ==> h in ReadyOf(rest, claims[i].pool)
    requires next == TakeHosts(rest, claims[i].pool, hosts)
    ensures Distinct(Hostnames(taken + [Entry(claims[i].pool, hosts)]))
    ensures forall q, h :: h in Hostnames(taken + [Entry(claims[i].pool, hosts)]) ==> h !in ReadyOf(next, q)
  {
    var pool := claims[i].pool;
    var taken' := taken + [Entry(pool, hosts)];
    assert taken'[..|taken'| - 1] == taken;
    var all := Hostnames(taken');
    assert all == Hostnames(taken) + hosts;
    var n := |Hostnames(taken)|;
    forall a, b | 0 <= a < b < |all| ensures all[a] != all[b] {
      if a < n && b >= n {
        assert all[a] in Hostnames(taken);
        assert all[b] == hosts[b - n];
      } else if a >= n {
        assert all[a] == hosts[a - n] && all[b] == hosts[b - n];
      }
    }
    forall q, h | h in all ensures h !in ReadyOf(next, q) {
      TakeHostsEffect(rest, pool, hosts, q);
      if h in hosts && q != pool {
        assert h in ReadyOf(ready, pool);
      }
    }
  }

  /** A list without repeats has as many distinct members as entries. */
  lemma {:induction false} DistinctCard(s: seq<string>)
    requires Distinct(s)
    ensures |set h | h in s| == |s|
  {
    if s != [] {
      var init := s[..|s| - 1];
      DistinctCard(init);
      assert s == init + [s[|s| - 1]];
      assert (set h | h in s) == (set h | h in init) + {s[|s| - 1]};
    }
  }

  /** A claim that finds only `left` machines where it asks for more asks
      for more than the pool held. */
  lemma ShortfallFound(claims: seq<Claim>, i: nat, ready: ReadySets, left: nat)
    requires i < |claims| && left < claims[i].count
    requires left == |ReadyOf(ready, claims[i].pool)| - Demand(claims[..i], claims[i].pool)
    ensures !Fits(claims, ready)
  {
    assert claims[..i + 1][..i] == claims[..i];
    DemandPrefix(claims, i + 1, claims[i].pool);
  }
}
