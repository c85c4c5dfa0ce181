/** The retransmission algorithm of one transaction (section 6.2.1 of RFC 8489; section 6.3.4
    for 5xx responses). */
module Retransmit {
  import opened Bytes

  datatype RetransmitSettings = RetransmitSettings(
    maxRto: Maybe<int>,
    requestCount: nat,
    multiplier: nat,
    serverErrorTimeout: Maybe<int>,
    serverErrorMax: nat)

  datatype Algo = Algo(initialRto: int, next: Maybe<int>, lastTimeout: int, rtxCount: nat, n5xx: nat)

  function NewAlgo(rto: int, now: int): Algo {
    Algo(rto, Some(now + rto), rto, 0, 0)
  }

  function Init(a: Algo, now: int): Algo {
    a.(next := Some(now + a.lastTimeout))
  }

  /** No more requests may be sent. */
  predicate Exhausted(cfg: RetransmitSettings, a: Algo) {
    a.rtxCount + 1 >= cfg.requestCount + a.n5xx
  }

  /** The wait after the next request: the last planned one takes the multiplier of the initial
      timeout, every other doubles. */
  function PlannedTimeout(cfg: RetransmitSettings, a: Algo): int {
    if a.rtxCount + 2 == cfg.requestCount then a.initialRto * cfg.multiplier else a.lastTimeout * 2
  }

  /** The configured maximum is applied as a lower bound. */
  function NextTimeout(cfg: RetransmitSettings, a: Algo): int {
    var current := PlannedTimeout(cfg, a);
    if cfg.maxRto.Some? && cfg.maxRto.value > current then cfg.maxRto.value else current
  }

  /** The documented maximum is exceeded whenever the planned wait, whatever has been accepted so far,
      exceeds it; otherwise the wait is the maximum itself. So it is honoured exactly when it was not
      needed. */
  lemma MaximumIsAFloor(cfg: RetransmitSettings, a: Algo)
    requires cfg.maxRto.Some?
    ensures
      var planned := if a.rtxCount + 2 == cfg.requestCount then cfg.multiplier * a.initialRto else 2 * a.lastTimeout;
      && (NextTimeout(cfg, a) <= cfg.maxRto.value <==> planned <= cfg.maxRto.value)
      && (planned <= cfg.maxRto.value ==> NextTimeout(cfg, a) == cfg.maxRto.value)
      && (planned > cfg.maxRto.value ==> NextTimeout(cfg, a) == planned)
  {
    assert cfg.multiplier * a.initialRto == a.initialRto * cfg.multiplier;
  }

  /** A timer fired. The result's next is the new deadline, or None when the transaction is over;
      before its deadline the algorithm only repeats it. */
  function Advance(cfg: RetransmitSettings, a: Algo, now: int): Algo {
    if a.next.Some? && now >= a.next.value then
      if Exhausted(cfg, a) then a.(next := None)
      else a.(next := Some(now + NextTimeout(cfg, a)), rtxCount := a.rtxCount + 1, lastTimeout := NextTimeout(cfg, a))
    else a
  }

  /** A 5xx response: None when the transaction fails, otherwise one more request is granted. */
  function Process5xx(cfg: RetransmitSettings, a: Algo, now: int): Maybe<Algo> {
    if cfg.serverErrorTimeout.None? || a.n5xx >= cfg.serverErrorMax then None
    else Some(a.(n5xx := a.n5xx + 1, next := Some(now + cfg.serverErrorTimeout.value)))
  }

  /** Requests still to come. */
  function Budget(cfg: RetransmitSettings, a: Algo): nat {
    if Exhausted(cfg, a) then 0 else cfg.requestCount + a.n5xx - 1 - a.rtxCount
  }

  lemma AdvanceSpends(cfg: RetransmitSettings, a: Algo, now: int)
    ensures
      var a' := Advance(cfg, a, now);
      && a'.n5xx == a.n5xx && a'.initialRto == a.initialRto
      && (a'.next.Some? && a'.next.value <= now ==> Budget(cfg, a') < Budget(cfg, a))
      && Budget(cfg, a') <= Budget(cfg, a)
      && (a.next.Some? && now >= a.next.value && a'.next.Some? ==>
            Budget(cfg, a') + 1 == Budget(cfg, a) && a'.rtxCount == a.rtxCount + 1)
  {
  }
}
