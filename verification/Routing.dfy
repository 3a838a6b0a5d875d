/** Which outbound carries a connection, and which ID is charged for it. */
module Routing {
  import opened Bytes
  import opened Devices
  import opened Registry
  import opened Outbounds
  import opened Router

  /** An outbound configuration, as a router may return one. */
  datatype Config = Config(id: text, kind: text, proxy: text)

  const DIRECT: text := [100, 105, 114, 101, 99, 116]
  const SOCKS5: text := [115, 111, 99, 107, 115, 53]

  /** The outbound dialled: the configured one, one of the pool, or one made for this connection. */
  datatype Dialer = Current | Pooled(id: text) | Created(config: Config)

  datatype RouteError = CannotCreate

  /** What a router answers. */
  datatype Selected = Selected(id: text, config: Option<Config>)

  /** createOutbound */
  predicate Creatable(c: Config) {
    c.kind == DIRECT || (c.kind == SOCKS5 && c.proxy != [])
  }

  /** The branches of HandleConnection: the dialer and the ID charged. `pool` tells, when there
      is a pool, whether it has an outbound for the selected ID. */
  function Route(s: Selected, pool: Option<bool>, current: text): Result<(Dialer, text), RouteError> {
    if s.id != [] then
      match pool
      case Some(has) => if has then Ok((Pooled(s.id), s.id)) else Ok((Current, current))
      case None => Ok((Current, s.id))
    else if s.config.Some? then
      if Creatable(s.config.value) then Ok((Created(s.config.value), s.config.value.id)) else Err(CannotCreate)
    else
      Ok((Current, current))
  }

  /** The ID an outbound goes by. */
  function OwnId(d: Dialer, current: text): text {
    match d
    case Current => current
    case Pooled(id) => id
    case Created(c) => c.id
  }

  /** The ID charged is that of the outbound dialled, unless an ID other than the current one was
      selected and there is no pool to look it up in. */
  lemma ChargedExactly(s: Selected, pool: Option<bool>, current: text)
    requires Route(s, pool, current).Ok?
    ensures var (dialer, charged) := Route(s, pool, current).value;
            charged == OwnId(dialer, current) <==> !(pool.None? && s.id != [] && s.id != current)
  {}

  predicate Direct(c: Config) {
    c.kind == [100, 105, 114, 101, 99, 116]
  }

  predicate ThroughProxy(c: Config) {
    c.kind == [115, 111, 99, 107, 115, 53] && c.proxy != []
  }

  /** Which outbound is dialled, outcome by outcome; a configuration can be created exactly if its
      kind is "direct", or "socks5" with a proxy address. */
  lemma RouteExactly(s: Selected, pool: Option<bool>, current: text)
    ensures var r := Route(s, pool, current);
            && (r.Ok? && r.value.0.Pooled? <==> s.id != [] && pool == Some(true))
            && (r.Ok? && r.value.0.Pooled? ==> r.value.0.id == s.id)
            && (r.Ok? && r.value.0.Created? ==> s.config == Some(r.value.0.config))
            && (r.Ok? && r.value.0 == Current <==> if s.id != [] then pool != Some(true) else s.config.None?)
            && (r.Err? <==> s.id == [] && s.config.Some? && !Direct(s.config.value) && !ThroughProxy(s.config.value))
  {}

  /** What is decided for one connection. */
  datatype Decision = Decision(dialer: Dialer, charged: text) | Crashed

  lemma AvailableIsUsable(s: Fleet, id: text)
    ensures id in Available(s, ANY_ONLINE) <==> Uncached(s, id) == Usable
  {}

  /** The ID selected is looked up in the pool, after other threads did `later` to the registry. */
  method LookUp(pool: Pool, id: text, current: text, later: seq<Event>)
    returns (dialer: Dialer, charged: text, outbound: Option<QuicOutbound>)
    requires pool.Valid()
    modifies pool, pool.registry, pool.registry.devices.Values, pool.registry.net
    ensures pool.Valid()
    ensures pool.registry.View() == Run(old(pool.registry.View()), later, pool.registry.timeout)
    ensures var has := id != [] && Uncached(pool.registry.View(), id) == Usable;
            Route(Selected(id, None), Some(has), current) == Ok((dialer, charged))
    ensures outbound.Some? <==> dialer.Pooled?
    ensures outbound.Some? ==> outbound.value.deviceId == dialer.id && outbound.value.registry == pool.registry
  {
    pool.registry.Meanwhile(later);
    outbound := None;
    if id != [] {
      var answered;
      answered, outbound := pool.GetOutbound(id);
    }
    var routed := Route(Selected(id, None), Some(outbound.Some?), current);
    return routed.value.0, routed.value.1, outbound;
  }

  /** HandleConnection under the dynamic router with its pool. Other threads do `meanwhile` to the
      registry before the router's second check, and `later` before the pool lookup. A device of
      the pool carries the connection exactly when it was picked from those available when listed
      and is still usable at the check and at the lookup (and its ID is not empty); otherwise the
      current outbound does. Whichever carries it is charged. */
  method RouteByPool(router: DynamicRouter, pool: Pool, current: text, meanwhile: seq<Event>, later: seq<Event>)
    returns (r: Decision, outbound: Option<QuicOutbound>, ghost picked: Option<text>)
    requires pool.Valid() && pool.registry == router.registry
    modifies router.strategy, pool, pool.registry, pool.registry.devices.Values, pool.registry.net
    ensures pool.Valid()
    ensures PickedFrom(picked, Available(old(pool.registry.View()), ANY_ONLINE), old(router.strategy.index))
    ensures var checked := Run(old(pool.registry.View()), meanwhile, pool.registry.timeout);
            var lookedUp := Run(checked, later, pool.registry.timeout);
            && pool.registry.View() == lookedUp
            && r == if picked.None? && Available(old(pool.registry.View()), ANY_ONLINE) != {} then Crashed
                    else if picked.Some? && picked.value != [] && StaysUsable(checked, lookedUp, picked.value)
                    then Decision(Pooled(picked.value), picked.value)
                    else Decision(Current, current)
    ensures r.Decision? ==> r.charged == OwnId(r.dialer, current)
    ensures outbound.Some? <==> r.Decision? && r.dialer.Pooled?
    ensures outbound.Some? ==> outbound.value.deviceId == r.dialer.id && outbound.value.registry == pool.registry
  {
    var answer;
    answer, picked := router.SelectOutbound(meanwhile);
    ghost var checked := pool.registry.View();
    if answer.Crash? {
      pool.registry.Meanwhile(later);
      return Crashed, None, picked;
    }
    var dialer, charged;
    dialer, charged, outbound := LookUp(pool, answer.id, current, later);
    if picked.Some? {
      AvailableIsUsable(checked, picked.value);
    }
    return Decision(dialer, charged), outbound, picked;
  }

  /** Usable at two moments. */
  predicate StaysUsable(s: Fleet, t: Fleet, id: text) {
    Uncached(s, id) == Usable && Uncached(t, id) == Usable
  }
}
