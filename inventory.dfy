/** The inventory store's contents as values: per pool the set of ready
    machine ids, per machine its attribute record, per token its record.
    The functions here say what a checkout does to these values; the class
    in `Checkout` changes them in place. */
module Inventory {
  import opened Wrappers
  import opened Requests
  import opened PoolConfig

  type ReadySets = map<string, set<string>>

  /** The attributes of a machine that the checkout path writes. */
  datatype MachineRecord = MachineRecord(lifetime: Option<nat>)

  /** The record of an issued token; `created` is a timestamp supplied by
      the caller of the store. */
  datatype TokenRecord = TokenRecord(user: string, created: nat)

  /** A machine with no stored attributes reads back as an empty record. */
  const EmptyRecord := MachineRecord(None)

  /** The ready set of `pool`; a pool with no stored set has none ready. */
  function ReadyOf(ready: ReadySets, pool: string): set<string>
  {
    if pool in ready then ready[pool] else {}
  }

  /** The stored record of machine `id`, or the empty record. */
  function RecordOf(vms: map<string, MachineRecord>, id: string): MachineRecord
  {
    if id in vms then vms[id] else EmptyRecord
  }

  /** The ready sets after `id` is popped from `pool`'s ready set. */
  function Without(ready: ReadySets, pool: string, id: string): (r: ReadySets)
    ensures ReadyOf(r, pool) == ReadyOf(ready, pool) - {id}
    ensures forall q :: q != pool ==> ReadyOf(r, q) == ReadyOf(ready, q)
  {
    ready[pool := ReadyOf(ready, pool) - {id}]
  }

  /** The ready sets after each of `hosts` is popped from `pool`. */
  function TakeHosts(ready: ReadySets, pool: string, hosts: seq<string>): ReadySets
  {
    if hosts == [] then ready
    else Without(TakeHosts(ready, pool, hosts[..|hosts| - 1]), pool, hosts[|hosts| - 1])
  }

  /** The ready sets after every machine of a checkout answer is popped from
      the pool it is listed under. */
  function TakeAll(ready: ReadySets, entries: seq<Entry>): ReadySets
  {
    if entries == [] then ready
    else
      var last := entries[|entries| - 1];
      TakeHosts(TakeAll(ready, entries[..|entries| - 1]), last.pool, last.hostnames)
  }

  /** The machines an answer lists under `pool`. */
  function HostsOf(entries: seq<Entry>, pool: string): set<string>
  {
    if entries == [] then {}
    else
      var last := entries[|entries| - 1];
      HostsOf(entries[..|entries| - 1], pool)
        + (if last.pool == pool then set h | h in last.hostnames else {})
  }

  /** Every machine an answer hands out, in answer order. */
  function Hostnames(entries: seq<Entry>): seq<string>
  {
    if entries == [] then []
    else Hostnames(entries[..|entries| - 1]) + entries[|entries| - 1].hostnames
  }

  ghost predicate Distinct(s: seq<string>)
  {
    forall i, j :: 0 <= i < j < |s| ==> s[i] != s[j]
  }

  /** No machine is listed twice under one pool, neither within an entry
      nor across two entries for the same pool. */
  ghost predicate DistinctPerPool(entries: seq<Entry>)
  {
    && (forall i :: 0 <= i < |entries| ==> Distinct(entries[i].hostnames))
    && (forall i, j, h ::
          (0 <= i < j < |entries| && entries[i].pool == entries[j].pool && h in entries[i].hostnames)
          ==> h !in entries[j].hostnames)
  }

  /** No machine id is ready in two pools at once. */
  ghost predicate Disjoint(ready: ReadySets)
  {
    forall p, q, id :: p != q && id in ReadyOf(ready, p) ==> id !in ReadyOf(ready, q)
  }

  /** How many machines the claims ask of `pool` in all. */
  function Demand(claims: seq<Claim>, pool: string): nat
  {
    if claims == [] then 0
    else
      var last := claims[|claims| - 1];
      Demand(claims[..|claims| - 1], pool) + (if last.pool == pool then last.count else 0)
  }

  /** Every pool holds enough ready machines for what the claims ask of it. */
  ghost predicate Fits(claims: seq<Claim>, ready: ReadySets)
  {
    forall pool :: Demand(claims, pool) <= |ReadyOf(ready, pool)|
  }

  /** A successful answer to `claims`, drawn from `ready`: one entry per claim
      in claim order, under the claim's pool, with as many machines as it
      asks, each of them ready in that same pool. */
  ghost predicate Answers(entries: seq<Entry>, claims: seq<Claim>, ready: ReadySets)
  {
    && |entries| == |claims|
    && (forall i :: 0 <= i < |claims| ==>
          entries[i].pool == claims[i].pool && |entries[i].hostnames| == claims[i].count)
    && (forall i, h :: 0 <= i < |claims| && h in entries[i].hostnames ==>
          h in ReadyOf(ready, claims[i].pool))
  }

  /** The lifetime policy: a machine's lifetime is set to `vm_lifetime_auth`
      only when auth is enabled and the caller presents a stored token;
      otherwise it is left unset, also for a presented token that is not
      stored. The token store is consulted only when
      auth is enabled. */
  function LifetimeFor(cfg: Config, tokens: map<string, TokenRecord>, header: Option<string>): Option<nat>
  {
    if cfg.auth && header.Some? && header.value in tokens then Some(cfg.vmLifetimeAuth)
    else None
  }

  /** The three rows of the lifetime decision table. What a checkout writes
      with this verdict is stated by `Store.Checkout` (through `Stamp`), and
      what reads back is stated by the `VmSpec` examples. */
  lemma LifetimeDecisionTable(cfg: Config, tokens: map<string, TokenRecord>, header: Option<string>)
    ensures !cfg.auth ==> LifetimeFor(cfg, tokens, header) == None
    ensures cfg.auth && (header.None? || header.value !in tokens) ==> LifetimeFor(cfg, tokens, header) == None
    ensures cfg.auth && header.Some? && header.value in tokens ==>
              LifetimeFor(cfg, tokens, header) == Some(cfg.vmLifetimeAuth)
  {
  }

  /** The machine records after `lifetime` is written on each of `hosts`. */
  function StampAll(vms: map<string, MachineRecord>, hosts: seq<string>, lifetime: nat): map<string, MachineRecord>
  {
    if hosts == [] then vms
    else
      var before := StampAll(vms, hosts[..|hosts| - 1], lifetime);
      var id := hosts[|hosts| - 1];
      before[id := RecordOf(before, id).(lifetime := Some(lifetime))]
  }

  /** The machine records after a checkout handing out `hosts` applies the
      lifetime policy's verdict: nothing is written when it is unset. */
  function Stamp(vms: map<string, MachineRecord>, hosts: seq<string>, lifetime: Option<nat>): map<string, MachineRecord>
  {
    match lifetime
    case None => vms
    case Some(hours) => StampAll(vms, hosts, hours)
  }

  // ---------------------------------------------------------------------
  // Properties of the specification functions

  /** Popping a list of machines from a pool removes exactly those machines
      from that pool and leaves every other pool alone. */
  lemma {:induction false} TakeHostsEffect(ready: ReadySets, pool: string, hosts: seq<string>, q: string)
    ensures ReadyOf(TakeHosts(ready, pool, hosts), q)
            == if q == pool then ReadyOf(ready, q) - (set h | h in hosts) else ReadyOf(ready, q)
  {
    if hosts != [] {
      var init := hosts[..|hosts| - 1];
      TakeHostsEffect(ready, pool, init, q);
      assert (set h | h in hosts) == (set h | h in init) + {hosts[|hosts| - 1]} by {
        assert hosts == init + [hosts[|hosts| - 1]];
      }
    }
  }

  /** What a checkout removes from the ready sets is exactly what its answer
      lists, pool by pool. */
  lemma {:induction false} TakeAllEffect(ready: ReadySets, entries: seq<Entry>, q: string)
    ensures ReadyOf(TakeAll(ready, entries), q) == ReadyOf(ready, q) - HostsOf(entries, q)
  {
    if entries != [] {
      var last := entries[|entries| - 1];
      TakeAllEffect(ready, entries[..|entries| - 1], q);
      TakeHostsEffect(TakeAll(ready, entries[..|entries| - 1]), last.pool, last.hostnames, q);
    }
  }

  /** The machines an answer lists under a pool were ready in that pool. */
  lemma {:induction false} HostsOfReady(entries: seq<Entry>, claims: seq<Claim>, ready: ReadySets, q: string)
    requires Answers(entries, claims, ready)
    ensures HostsOf(entries, q) <= ReadyOf(ready, q)
  {
    if entries != [] {
      var n := |entries| - 1;
      assert Answers(entries[..n], claims[..n], ready);
      HostsOfReady(entries[..n], claims[..n], ready, q);
      assert entries[n].pool == claims[n].pool;
    }
  }

  /** No machine is lost by a checkout: the pool's new ready set and the
      machines handed out under it partition its old ready set. */
  lemma CheckoutConserves(entries: seq<Entry>, claims: seq<Claim>, ready: ReadySets, q: string)
    requires Answers(entries, claims, ready)
    ensures ReadyOf(TakeAll(ready, entries), q) + HostsOf(entries, q) == ReadyOf(ready, q)
    ensures ReadyOf(TakeAll(ready, entries), q) !! HostsOf(entries, q)
  {
    TakeAllEffect(ready, entries, q);
    HostsOfReady(entries, claims, ready, q);
  }

  /** Demand only grows as claims are added. */
  lemma {:induction false} DemandPrefix(claims: seq<Claim>, n: nat, pool: string)
    requires n <= |claims|
    ensures Demand(claims[..n], pool) <= Demand(claims, pool)
  {
    if n < |claims| {
      var init := claims[..|claims| - 1];
      assert claims[..n] == init[..n];
      DemandPrefix(init, n, pool);
    } else {
      assert claims[..n] == claims;
    }
  }

  /** When every claim asks for one machine of a different pool, as the
      `/vm` examples do, a request fits exactly when every requested pool
      has a ready machine. */
  lemma {:induction false} SingleClaimsFit(claims: seq<Claim>, ready: ReadySets)
    requires forall i :: 0 <= i < |claims| ==> claims[i].count == 1
    requires forall i, j :: 0 <= i < j < |claims| ==> claims[i].pool != claims[j].pool
    ensures Fits(claims, ready) <==> forall i :: 0 <= i < |claims| ==> ReadyOf(ready, claims[i].pool) != {}
  {
    forall pool
      ensures Demand(claims, pool) == if exists i :: 0 <= i < |claims| && claims[i].pool == pool then 1 else 0
    {
      SingleDemand(claims, pool);
    }
    if Fits(claims, ready) {
      forall i | 0 <= i < |claims| ensures ReadyOf(ready, claims[i].pool) != {} {
        assert Demand(claims, claims[i].pool) == 1;
      }
    }
  }

  lemma {:induction false} SingleDemand(claims: seq<Claim>, pool: string)
    requires forall i :: 0 <= i < |claims| ==> claims[i].count == 1
    requires forall i, j :: 0 <= i < j < |claims| ==> claims[i].pool != claims[j].pool
    ensures Demand(claims, pool) == if exists i :: 0 <= i < |claims| && claims[i].pool == pool then 1 else 0
  {
    if claims != [] {
      var n := |claims| - 1;
      SingleDemand(claims[..n], pool);
      if claims[n].pool == pool {
        assert !exists i :: 0 <= i < n && claims[..n][i].pool == pool;
      } else if exists i :: 0 <= i < |claims| && claims[i].pool == pool {
        var i :| 0 <= i < |claims| && claims[i].pool == pool;
        assert claims[..n][i].pool == pool;
      }
    }
  }

  /** Writing the lifetime sets it on every machine handed out and touches no
      other record. */
  lemma {:induction false} StampAllEffect(vms: map<string, MachineRecord>, hosts: seq<string>, hours: nat, id: string)
    ensures id in hosts ==> RecordOf(StampAll(vms, hosts, hours), id).lifetime == Some(hours)
    ensures id !in hosts ==> RecordOf(StampAll(vms, hosts, hours), id) == RecordOf(vms, id)
  {
    if hosts != [] {
      var init := hosts[..|hosts| - 1];
      StampAllEffect(vms, init, hours, id);
      assert hosts == init + [hosts[|hosts| - 1]];
    }
  }

  /** A checkout keeps machine ids unique across pools. */
  lemma TakeAllKeepsDisjoint(ready: ReadySets, entries: seq<Entry>)
    requires Disjoint(ready)
    ensures Disjoint(TakeAll(ready, entries))
  {
    forall p, q, id | p != q && id in ReadyOf(TakeAll(ready, entries), p)
      ensures id !in ReadyOf(TakeAll(ready, entries), q)
    {
      TakeAllEffect(ready, entries, p);
      TakeAllEffect(ready, entries, q);
    }
  }
}
