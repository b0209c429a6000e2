/** The authoritative backend record of one key, as a vacant/owned machine over a retained fence. */
module AbstractStore {
  import opened Leases

  datatype Kind = Memory | Postgres | Valkey

  /** How much shorter than the requested lifetime a store's own expiry may be: native stores drop
      fractional milliseconds of the lifetime, and Valkey also floors the time it starts from. */
  function Loss(kind: Kind, ttl: int): (loss: int) {
    match kind
    case Memory => 0
    case Postgres => ttl % MILLISECOND
    case Valkey => ttl % MILLISECOND + MILLISECOND - 1
  }

  /** The owner checks every store makes. */
  predicate NamesOwner(key: Text, owner: Text) {
    key != [] && owner != [] && |owner| <= MAX_OWNER_BYTES
  }

  /** The shortest lifetime a store accepts. */
  function MinTtl(kind: Kind): int {
    if kind == Memory then 1 else MILLISECOND
  }

  datatype Cell =
    | Vacant(fence: nat)
    | Owned(fence: nat, owner: Text, token: nat, acquired: int, expiry: int)
  {
    predicate Wf() {
      Owned? ==> 0 < token <= fence
    }

    /** An acquisition at `now` may take the cell. */
    predicate Free(now: int) {
      Vacant? || expiry <= now
    }

    predicate Matches(owned: Record) {
      Owned? && owner == owned.owner && token == owned.token
    }

    /** The cell with ownership that is over at `now` dropped; the fence is retained. */
    function Lapsed(now: int): Cell {
      if Free(now) then Vacant(fence) else this
    }

    /** The record a store reports for an owned cell. */
    function Report(key: Text): Record
      requires Owned?
    {
      Record(key, owner, token, acquired, expiry)
    }
  }

  /** A free cell becomes owned under the next fence, for at least the lifetime less the loss. */
  predicate Installs(kind: Kind, c: Cell, now: int, owner: Text, ttl: int, c': Cell) {
    && c.Free(now) && MinTtl(kind) <= ttl
    && c'.Owned?
    && c'.fence == c'.token == c.fence + 1
    && c'.owner == owner
    && c'.acquired <= now
    && c'.acquired < c'.expiry
    && now + ttl - Loss(kind, ttl) <= c'.expiry
  }

  /** Matching live ownership gets a new expiry and nothing else. */
  predicate Extends(kind: Kind, c: Cell, now: int, owned: Record, ttl: int, c': Cell) {
    && c.Matches(owned)
    && now < c.expiry && MinTtl(kind) <= ttl
    && c'.Owned?
    && c' == c.(expiry := c'.expiry)
    && now + ttl - Loss(kind, ttl) <= c'.expiry
  }

  /** Nothing but the disappearance of ownership that is already over; only Valkey forgets it. */
  predicate Idles(kind: Kind, c: Cell, now: int, c': Cell) {
    c' == c || (kind == Valkey && c' == c.Lapsed(now))
  }

  /** Contention leaves ownership alone; PostgreSQL consumes a fence on the way. */
  predicate Contends(kind: Kind, c: Cell, now: int, c': Cell) {
    && !c.Free(now)
    && c' == if kind == Postgres then c.(fence := c.fence + 1) else c
  }

  predicate ServesAcquire(kind: Kind, c: Cell, now: int, key: Text, owner: Text, ttl: int, reply: Reply, c': Cell) {
    match reply
    case Granted(record) =>
      NamesOwner(key, owner) && Installs(kind, c, now, owner, ttl, c') && record == c'.Report(key)
    case Done => false
    case Refused(error) =>
      if Contended in error then Contends(kind, c, now, c')
      else Idles(kind, c, now, c') || (kind == Valkey && Installs(kind, c, now, owner, ttl, c'))
  }

  predicate ServesRenew(kind: Kind, c: Cell, now: int, owned: Record, ttl: int, reply: Reply, c': Cell) {
    match reply
    case Granted(record) =>
      Extends(kind, c, now, owned, ttl, c') && record == c'.Report(owned.key)
    case Done => false
    case Refused(error) =>
      if StaleOwner in error then (c.Free(now) || !c.Matches(owned)) && Idles(kind, c, now, c')
      else Idles(kind, c, now, c') || (kind == Valkey && Extends(kind, c, now, owned, ttl, c'))
  }

  predicate ServesValidate(kind: Kind, c: Cell, now: int, owned: Record, reply: Reply, c': Cell) {
    match reply
    case Granted(record) =>
      c.Matches(owned) && now < c.expiry && c' == c && record == c.Report(owned.key)
    case Done => false
    case Refused(error) =>
      && (StaleOwner in error ==> c.Free(now) || !c.Matches(owned))
      && Idles(kind, c, now, c')
  }

  /** Releasing drops matching ownership even after expiry; where no ownership is left it may
      succeed without any effect. */
  predicate ServesRelease(kind: Kind, c: Cell, now: int, owned: Record, reply: Reply, c': Cell) {
    match reply
    case Granted(_) => false
    case Done =>
      if c.Matches(owned) then c' == Vacant(c.fence)
      else c.Free(now) && Idles(kind, c, now, c')
    case Refused(error) =>
      && (StaleOwner in error ==> !c.Matches(owned))
      && Idles(kind, c, now, c')
  }

  /** One request served atomically at store time `now` on the cell of its key. */
  predicate Serves(kind: Kind, c: Cell, now: int, request: Request, reply: Reply, c': Cell) {
    match request
    case TryAcquire(key, owner, ttl) => ServesAcquire(kind, c, now, key, owner, ttl, reply, c')
    case Renew(owned, ttl) => ServesRenew(kind, c, now, owned, ttl, reply, c')
    case Validate(owned) => ServesValidate(kind, c, now, owned, reply, c')
    case Release(owned) => ServesRelease(kind, c, now, owned, reply, c')
  }

  /** The last fence a store hands out. */
  function MaxFence(kind: Kind): nat {
    if kind == Memory then MAX_UINT64 else MAX_INT64
  }

  /** A record a caller may present: PostgreSQL alone rejects tokens above its signed range. */
  predicate Presentable(kind: Kind, owned: Record) {
    NamesOwner(owned.key, owned.owner) && 0 < owned.token && (kind == Postgres ==> owned.token <= MAX_INT64)
  }

  /** A request the store does not turn away for its form. */
  predicate WellFormed(kind: Kind, request: Request) {
    match request
    case TryAcquire(key, owner, ttl) => NamesOwner(key, owner) && MinTtl(kind) <= ttl
    case Renew(owned, ttl) => Presentable(kind, owned) && MinTtl(kind) <= ttl
    case Validate(owned) => Presentable(kind, owned)
    case Release(owned) => Presentable(kind, owned)
  }

  /** The instant a store takes an operation to happen at, and where a lifetime from there ends. */
  function Moment(kind: Kind, now: int): int {
    if kind == Valkey then now / MILLISECOND * MILLISECOND else now
  }

  function NewExpiry(kind: Kind, now: int, ttl: int): int
    requires 0 <= ttl
  {
    Moment(kind, now) + if kind == Memory then ttl else WholeMillis(ttl) * MILLISECOND
  }

  /** What a store says of matching live ownership that lasts until `expiry`. A clock that has gone back
      can put that at or before the acquisition: memory reports it all the same, PostgreSQL's table
      check aborts the statement, and Valkey's client rejects the reply. */
  function Reported(kind: Kind, c: Cell, key: Text, expiry: int): Reply
    requires c.Owned?
  {
    if c.acquired < expiry || kind == Memory then Granted(c.(expiry := expiry).Report(key))
    else Refused({if kind == Postgres then AmbiguousOutcome else BackendUnavailable})
  }

  /** The answer of a store that has room and is not interrupted. Whether a released record is
      `recognized` depends on what else the store retains. */
  function Answer(kind: Kind, c: Cell, now: int, request: Request, recognized: bool): Reply
    requires WellFormed(kind, request)
  {
    match request
    case TryAcquire(key, owner, ttl) =>
      if c.Free(now) then Granted(Record(key, owner, c.fence + 1, Moment(kind, now), NewExpiry(kind, now, ttl)))
      else Refused({Contended})
    case Renew(owned, ttl) =>
      if c.Matches(owned) && now < c.expiry then Reported(kind, c, owned.key, NewExpiry(kind, now, ttl))
      else Refused({StaleOwner})
    case Validate(owned) =>
      if c.Matches(owned) && now < c.expiry then Reported(kind, c, owned.key, c.expiry)
      else Refused({StaleOwner})
    case Release(_) =>
      if recognized then Done else Refused({StaleOwner})
  }

  /** A new lifetime ends in the future, and not before the lifetime less the loss. */
  lemma NewExpiryAhead(kind: Kind, now: int, ttl: int)
    requires MinTtl(kind) <= ttl
    ensures Moment(kind, now) <= now < NewExpiry(kind, now, ttl)
    ensures now + ttl - Loss(kind, ttl) <= NewExpiry(kind, now, ttl)
  {
  }

  /** Which answers their caller accepts: every granted acquisition, a renewal exactly if its new expiry
      lies after the acquisition, and a validation exactly if the current one does. */
  lemma AcceptedAnswers(kind: Kind, c: Cell, now: int, request: Request, recognized: bool)
    requires WellFormed(kind, request)
    ensures var reply := Answer(kind, c, now, request, recognized);
            match request
            case TryAcquire(key, owner, _) =>
              reply.Granted? ==> ValidAcquisition(key, owner, reply.record)
            case Renew(owned, ttl) =>
              c.Matches(owned) && now < c.expiry ==>
                (reply.Granted? && SameAcquisition(owned.(acquiredAt := c.acquired), reply.record)
                 <==> c.acquired < NewExpiry(kind, now, ttl))
            case Validate(owned) =>
              c.Matches(owned) && now < c.expiry ==>
                (reply.Granted? && SameAcquisition(owned.(acquiredAt := c.acquired), reply.record)
                 <==> c.acquired < c.expiry)
            case Release(_) => true
  {
    if request.TryAcquire? {
      NewExpiryAhead(kind, now, request.ttl);
    }
  }

  /** Every step keeps the record's token at or below the retained fence, never lowers the fence,
      and leaves an owned token alone unless it installs one above every earlier fence. */
  lemma StepKeepsFence(kind: Kind, c: Cell, now: int, request: Request, reply: Reply, c': Cell)
    requires c.Wf() && Serves(kind, c, now, request, reply, c')
    ensures c'.Wf() && c.fence <= c'.fence
    ensures c'.Owned? ==> (c.Owned? && c'.token == c.token && c'.owner == c.owner && c'.acquired == c.acquired)
                          || (request.TryAcquire? && c.fence < c'.token)
    ensures reply.Granted? && request.TryAcquire? ==> reply.record.token == c'.fence == c.fence + 1
  {
  }
}
