/** The `POST /vm` examples: each starts from an empty store holding one
    token, prepares the pools, checks out and states the answer (and, where
    the example reads it back, the machine's lifetime). */
module VmSpec {
  import opened Wrappers
  import opened Requests
  import opened PoolConfig
  import opened Inventory
  import opened Checkout

  const Token := "abcdefghijklmnopqrstuvwxyz012345"
  const Vm1 := "abcdefghijklmnop"
  const Vm2 := "qrstuvwxyz012345"

  /** The per-example setup: an empty store holding the token of `jdoe`,
      created at `now`. */
  method Setup(now: nat) returns (store: Store)
    ensures fresh(store)
    ensures store.ready == map[] && store.vms == map[]
    ensures store.tokens == map[Token := TokenRecord("jdoe", now)]
  {
    store := new Store();
    store.CreateToken(Token, "jdoe", now);
  }

  /** A store after the setup, `clear_pool 'pool1'` and
      `create_vm 'pool1', Vm1`. */
  method SetupPool1(now: nat) returns (store: Store)
    ensures fresh(store)
    ensures store.ready == map["pool1" := {Vm1}] && store.vms == map[]
    ensures store.tokens == map[Token := TokenRecord("jdoe", now)]
  {
    store := Setup(now);
    store.ClearPool("pool1");
    assert store.ready == map[];
    store.CreateVm("pool1", Vm1);
    assert store.ready == map["pool1" := {} + {Vm1}];
    assert {} + {Vm1} == {Vm1};
    assert store.ready == map["pool1" := {Vm1}];
    assert store.vms == map[];
  }

  /** `pool1` and `pool2` are configured pools, `poolone` an alias of
      `pool1` and `poolpoolpool` neither. */
  lemma TestConfigResolves(auth: bool)
    ensures Resolve(TestConfig(auth), "pool1") == Some("pool1")
    ensures Resolve(TestConfig(auth), "pool2") == Some("pool2")
    ensures Resolve(TestConfig(auth), "poolone") == Some("pool1")
    ensures Resolve(TestConfig(auth), "poolpoolpool") == None
  {
    var cfg := TestConfig(auth);
    assert cfg.pools[0].name == "pool1";
    assert cfg.pools[1].name == "pool2";
    assert !IsPool(cfg, "poolone") by {
      forall i | 0 <= i < |cfg.pools| ensures cfg.pools[i].name != "poolone" {
        assert cfg.pools[i].name[4] != 'o';
      }
    }
    assert !IsPool(cfg, "poolpoolpool") by {
      forall i | 0 <= i < |cfg.pools| ensures cfg.pools[i].name != "poolpoolpool" {
        assert |cfg.pools[i].name| == 5;
      }
    }
  }

  /** A one-pool, one-machine checkout from a pool holding only `id` answers
      with exactly `id`. */
  lemma SingleAnswer(entries: seq<Entry>, pool: string, ready: ReadySets, id: string)
    requires ReadyOf(ready, pool) == {id}
    requires Answers(entries, [Claim(pool, 1)], ready)
    ensures entries == [Entry(pool, [id])]
    ensures Hostnames(entries) == [id]
  {
    assert entries[0].hostnames[0] in ReadyOf(ready, pool);
    assert entries[0] == Entry(pool, [id]);
    assert Hostnames(entries) == Hostnames(entries[..0]) + [id];
  }

  /** Checks out `{"pool1":"1"}` from a store whose `pool1` holds only Vm1,
      with auth set to `auth` and the header `header`. */
  method CheckoutPool1(now: nat, token: string, auth: bool, header: Option<string>)
    returns (resp: Response, lifetime: Option<nat>)
    requires token == "pool1" || token == "poolone"
    ensures resp == Success([Entry("pool1", [Vm1])])
    ensures lifetime == LifetimeFor(TestConfig(auth), map[Token := TokenRecord("jdoe", now)], header)
  {
    var store := SetupPool1(now);
    ghost var ready0 := store.ready;
    ghost var tokens0 := store.tokens;
    TestConfigResolves(auth);
    var cfg := TestConfig(auth);
    var req := [PoolRequest(token, 1)];
    assert Resolve(cfg, req[0].token) == Some("pool1");
    assert ResolveAll(cfg, req).Some?;
    assert |ResolveAll(cfg, req).value| == 1;
    assert ResolveAll(cfg, req).value[0] == Claim("pool1", 1);
    assert ResolveAll(cfg, req).value == [Claim("pool1", 1)];
    assert ResolveAll(cfg, req) == Some([Claim("pool1", 1)]);
    SingleClaimsFit([Claim("pool1", 1)], ready0);
    resp := store.Checkout(cfg, req, header);
    SingleAnswer(resp.entries, "pool1", ready0, Vm1);
    lifetime := store.FetchVm(Vm1).lifetime;
    match LifetimeFor(cfg, tokens0, header)
    case None =>
    case Some(hours) => StampAllEffect(map[], [Vm1], hours, Vm1);
  }

  /** 'returns a single VM' */
  method ReturnsSingleVm(now: nat) returns (resp: Response)
    ensures Ok(resp) && Status(resp) == 200
    ensures resp == Success([Entry("pool1", [Vm1])])
  {
    var lifetime;
    resp, lifetime := CheckoutPool1(now, "pool1", false, None);
  }

  /** 'returns a single VM for an alias': the answer is keyed by `pool1`. */
  method ReturnsSingleVmForAlias(now: nat) returns (resp: Response)
    ensures Ok(resp) && Status(resp) == 200
    ensures resp == Success([Entry("pool1", [Vm1])])
  {
    var lifetime;
    resp, lifetime := CheckoutPool1(now, "poolone", false, None);
  }

  /** 'fails on nonexistant pools': the store is left as it was. */
  method FailsOnNonexistentPools(now: nat) returns (resp: Response, readyAfter: ReadySets)
    ensures !Ok(resp) && Status(resp) == 404
    ensures resp == Failure(UnknownPool)
    ensures readyAfter == map[]
  {
    var store := Setup(now);
    store.ClearPool("poolpoolpool");
    assert store.ready == map[];
    TestConfigResolves(false);
    resp := store.Checkout(TestConfig(false), [PoolRequest("poolpoolpool", 1)], None);
    readyAfter := store.ready;
  }

  /** The request `{"pool1":"1","pool2":"1"}` resolves to one claim on each
      pool, in that order. */
  lemma BothPoolsResolve(auth: bool)
    ensures ResolveAll(TestConfig(auth), [PoolRequest("pool1", 1), PoolRequest("pool2", 1)])
            == Some([Claim("pool1", 1), Claim("pool2", 1)])
  {
    var cfg := TestConfig(auth);
    var req := [PoolRequest("pool1", 1), PoolRequest("pool2", 1)];
    TestConfigResolves(auth);
    assert Resolve(cfg, req[0].token) == Some("pool1");
    assert Resolve(cfg, req[1].token) == Some("pool2");
    assert ResolveAll(cfg, req).value == [Claim("pool1", 1), Claim("pool2", 1)];
  }

  /** A two-pool answer drawn from pools holding one machine each lists
      each pool's own machine. */
  lemma BothPoolsAnswer(entries: seq<Entry>, ready: ReadySets)
    requires ReadyOf(ready, "pool1") == {Vm1} && ReadyOf(ready, "pool2") == {Vm2}
    requires Answers(entries, [Claim("pool1", 1), Claim("pool2", 1)], ready)
    ensures entries == [Entry("pool1", [Vm1]), Entry("pool2", [Vm2])]
  {
    assert entries[0].hostnames[0] in ReadyOf(ready, "pool1");
    assert entries[1].hostnames[0] in ReadyOf(ready, "pool2");
    assert entries[0] == Entry("pool1", [Vm1]) && entries[1] == Entry("pool2", [Vm2]);
  }

  /** 'returns multiple VMs': one machine per pool, each from its own pool,
      in request order. */
  method ReturnsMultipleVms(now: nat) returns (resp: Response)
    ensures Ok(resp) && Status(resp) == 200
    ensures resp == Success([Entry("pool1", [Vm1]), Entry("pool2", [Vm2])])
  {
    var store := SetupPool1(now);
    store.CreateVm("pool2", Vm2);
    ghost var ready0 := store.ready;
    assert ReadyOf(ready0, "pool1") == {Vm1} && ReadyOf(ready0, "pool2") == {Vm2};
    BothPoolsResolve(false);
    SingleClaimsFit([Claim("pool1", 1), Claim("pool2", 1)], ready0);
    resp := store.Checkout(TestConfig(false), [PoolRequest("pool1", 1), PoolRequest("pool2", 1)], None);
    BothPoolsAnswer(resp.entries, ready0);
  }

  /** '(auth not configured) does not extend VM lifetime if auth token is
      provided' */
  method AuthOffKeepsLifetime(now: nat) returns (resp: Response, lifetime: Option<nat>)
    ensures Ok(resp) && resp == Success([Entry("pool1", [Vm1])])
    ensures lifetime == None
  {
    resp, lifetime := CheckoutPool1(now, "pool1", false, Some(Token));
  }

  /** '(auth configured) extends VM lifetime if auth token is provided' */
  method AuthOnExtendsLifetime(now: nat) returns (resp: Response, lifetime: Option<nat>)
    ensures Ok(resp) && resp == Success([Entry("pool1", [Vm1])])
    ensures lifetime == Some(2)
  {
    resp, lifetime := CheckoutPool1(now, "pool1", true, Some(Token));
  }

  /** '(auth configured) does not extend VM lifetime if auth token is not
      provided' */
  method AuthOnNoTokenKeepsLifetime(now: nat) returns (resp: Response, lifetime: Option<nat>)
    ensures Ok(resp) && resp == Success([Entry("pool1", [Vm1])])
    ensures lifetime == None
  {
    resp, lifetime := CheckoutPool1(now, "pool1", true, None);
  }
}
