/** The immutable configuration of the pooler (the pool list, the alias map,
    the auth flag and the auth-extended lifetime), and the resolution of a
    caller's pool token against it. */
module PoolConfig {
  import opened Wrappers
  import opened Requests

  datatype PoolDef = PoolDef(name: string, size: nat)

  datatype Config = Config(
    siteName: string,
    vmLifetimeAuth: nat,
    pools: seq<PoolDef>,
    aliases: map<string, string>,
    auth: bool)

  /** The configuration the `/vm` examples run against; `auth` is the flag
      each example sets. */
  function TestConfig(auth: bool): Config
  {
    Config("test pooler", 2,
           [PoolDef("pool1", 5), PoolDef("pool2", 10)],
           map["poolone" := "pool1"],
           auth)
  }

  /** `name` is the name of a configured pool. */
  predicate IsPool(cfg: Config, name: string)
  {
    exists i | 0 <= i < |cfg.pools| :: cfg.pools[i].name == name
  }

  /** A token is looked up as a pool name first, then as an alias; an alias
      resolves only to a configured pool, and only in one hop. */
  function Resolve(cfg: Config, token: string): (r: Option<string>)
    ensures r.Some? ==> IsPool(cfg, r.value)
    ensures IsPool(cfg, token) ==> r == Some(token)
  {
    if IsPool(cfg, token) then Some(token)
    else if token in cfg.aliases && IsPool(cfg, cfg.aliases[token]) then Some(cfg.aliases[token])
    else None
  }

  /** An alias that is not itself a pool name stands for its target: the two
      resolve to the same pool. */
  lemma AliasResolvesToTarget(cfg: Config, alias: string)
    requires alias in cfg.aliases && !IsPool(cfg, alias)
    requires IsPool(cfg, cfg.aliases[alias])
    ensures Resolve(cfg, alias) == Resolve(cfg, cfg.aliases[alias]) == Some(cfg.aliases[alias])
  {
  }

  /** A token that is neither a pool name nor an alias of one resolves to
      nothing. */
  lemma UnknownTokenUnresolved(cfg: Config, token: string)
    requires !IsPool(cfg, token)
    requires token !in cfg.aliases || !IsPool(cfg, cfg.aliases[token])
    ensures Resolve(cfg, token) == None
  {
  }

  /** Request validation: every token resolves, or the whole request is
      rejected. On success the claims keep the request's order and counts. */
  function ResolveAll(cfg: Config, req: seq<PoolRequest>): (r: Option<seq<Claim>>)
    ensures r.None? <==> exists i :: 0 <= i < |req| && Resolve(cfg, req[i].token).None?
    ensures r.Some? ==> |r.value| == |req|
    ensures r.Some? ==> forall i :: 0 <= i < |req| ==>
              r.value[i] == Claim(Resolve(cfg, req[i].token).value, req[i].count)
  {
    if req == [] then Some([])
    else
      match Resolve(cfg, req[0].token)
      case None => None
      case Some(pool) =>
        match ResolveAll(cfg, req[1..])
        case None => None
        case Some(rest) => Some([Claim(pool, req[0].count)] + rest)
  }
}
