/** The three stores as one backend that refines the vacant/owned machine. */
module Backends {
  import opened Leases
  import opened AbstractStore
  import M = MemoryStore
  import P = PostgresStore
  import V = ValkeyStore

  datatype Backend = InMemory(m: M.State) | InPostgres(p: P.State) | InValkey(v: V.State)
  {
    function Kind(): Kind {
      match this
      case InMemory(_) => Memory
      case InPostgres(_) => Postgres
      case InValkey(_) => Valkey
    }

    predicate Wf() {
      match this
      case InMemory(m) => m.Wf()
      case InPostgres(p) => p.Wf()
      case InValkey(v) => v.Wf()
    }

    function CellOf(k: Text): Cell {
      match this
      case InMemory(m) => m.CellOf(k)
      case InPostgres(p) => p.CellOf(k)
      case InValkey(v) => v.CellOf(k)
    }
  }

  function Exec(b: Backend, now: int, canceled: bool, request: Request): (Backend, Reply) {
    match b
    case InMemory(m) => var (m', reply) := M.Exec(m, now, canceled, request); (InMemory(m'), reply)
    case InPostgres(p) => var (p', reply) := P.Exec(p, now, canceled, request); (InPostgres(p'), reply)
    case InValkey(v) => var (v', reply) := V.Exec(v, now, canceled, request); (InValkey(v'), reply)
  }

  /** What stores do between requests: nothing, a PostgreSQL cleanup batch, or a Valkey expiry. */
  datatype Upkeep = Rest | Cleanup(batch: nat, locked: set<Text>, doomed: set<Text>) | Expire(key: Text)

  predicate Allowed(b: Backend, now: int, u: Upkeep) {
    match u
    case Rest => true
    case Cleanup(batch, locked, doomed) => b.InPostgres? && P.Doomed(b.p, now, batch, locked, doomed)
    case Expire(_) => b.InValkey?
  }

  function Kept(b: Backend, now: int, u: Upkeep): Backend
    requires Allowed(b, now, u)
  {
    match u
    case Rest => b
    case Cleanup(_, _, doomed) => InPostgres(b.p.(records := b.p.records - doomed))
    case Expire(k) => InValkey(b.v.Touched(k, V.Millis(now)))
  }

  /** Each store's operations are steps of the vacant/owned machine of their key alone. */
  lemma ExecRefines(b: Backend, now: int, canceled: bool, request: Request)
    requires b.Wf()
    ensures var (b', reply) := Exec(b, now, canceled, request);
            && b'.Kind() == b.Kind() && b'.Wf()
            && Serves(b.Kind(), b.CellOf(request.Key()), now, request, reply, b'.CellOf(request.Key()))
            && forall k :: k != request.Key() ==> b'.CellOf(k) == b.CellOf(k)
  {
    match b
    case InMemory(m) => M.Refines(m, now, canceled, request);
    case InPostgres(p) => P.Refines(p, now, canceled, request);
    case InValkey(v) => V.Refines(v, now, canceled, request);
  }

  /** Upkeep never touches live ownership or a fence. */
  lemma UpkeepRefines(b: Backend, now: int, u: Upkeep)
    requires b.Wf() && Allowed(b, now, u)
    ensures var b' := Kept(b, now, u);
            && b'.Kind() == b.Kind() && b'.Wf()
            && (forall k :: Idles(b.Kind(), b.CellOf(k), now, b'.CellOf(k)))
            && (u.Expire? ==> b'.CellOf(u.key) == b.CellOf(u.key).Lapsed(now))
            && (u.Cleanup? ==> b'.p.records.Keys == b.p.records.Keys - u.doomed && b'.p.fences == b.p.fences)
  {
    match u
    case Rest =>
    case Cleanup(batch, locked, doomed) => P.CleanupRefines(b.p, now, batch, locked, doomed);
    case Expire(k) => V.TouchRefines(b.v, now, k);
  }

  /** The store has room for the request: fence, key capacity and time range are not exhausted. */
  predicate Roomy(b: Backend, now: int, request: Request) {
    && (request.TryAcquire? ==> b.CellOf(request.key).fence < MaxFence(b.Kind()))
    && (b.InMemory? ==> M.Roomy(b.m, request))
    && (b.InValkey? ==> V.InRange(b.v, now, request))
  }

  /** Whether the store takes the record for one it may release: in memory the retained one, on
      PostgreSQL the retained one or any if none is retained, on Valkey the current one or any if none
      is current. */
  predicate Recognizes(b: Backend, now: int, owned: Record) {
    match b
    case InMemory(m) => M.Recognizes(m, owned)
    case InPostgres(p) => P.Recognizes(p, owned)
    case InValkey(v) => V.Recognizes(v, now, owned)
  }

  /** Without cancellation a well-formed request gets the one answer its cell determines, whatever the
      clock shows; only for a release it matters which records the store retains. */
  lemma ExecDefinite(b: Backend, now: int, request: Request)
    requires b.Wf() && WellFormed(b.Kind(), request) && Roomy(b, now, request)
    ensures Exec(b, now, false, request).1 ==
            Answer(b.Kind(), b.CellOf(request.Key()), now, request,
                   request.Release? && Recognizes(b, now, request.owned))
  {
    match b
    case InMemory(m) => M.Definite(m, now, request);
    case InPostgres(p) => P.Definite(p, now, request);
    case InValkey(v) => V.Definite(v, now, request);
  }

  /** A canceled call and then a malformed request are turned away by every store before anything else,
      and leave no trace. */
  lemma RejectsFirst(b: Backend, now: int, request: Request)
    ensures Exec(b, now, true, request) == (b, Refused({Canceled}))
    ensures !WellFormed(b.Kind(), request) ==> Exec(b, now, false, request) == (b, Refused({InvalidState}))
  {
  }

  /** Memory without room for another key refuses unknown keys as unavailable and leaves no trace; known
      keys are served as ever. */
  lemma CapacityRefuses(b: Backend, now: int, request: Request)
    requires b.InMemory? && b.Wf() && WellFormed(Memory, request) && request.TryAcquire?
    requires b.m.maxKeys <= |b.m.entries|
    ensures request.key !in b.m.entries ==> Exec(b, now, false, request) == (b, Refused({BackendUnavailable}))
    ensures request.key in b.m.entries && b.CellOf(request.key).fence < MAX_UINT64 ==>
              Exec(b, now, false, request).1 == Answer(Memory, b.CellOf(request.key), now, request, false)
  {
    if request.key in b.m.entries && b.CellOf(request.key).fence < MAX_UINT64 {
      ExecDefinite(b, now, request);
    }
  }

  /** Contention costs a fence on PostgreSQL and on no other store. */
  lemma ContentionCounts(b: Backend, now: int, request: Request)
    requires b.Wf() && WellFormed(b.Kind(), request) && Roomy(b, now, request)
    requires request.TryAcquire? && !b.CellOf(request.key).Free(now)
    ensures var (b', reply) := Exec(b, now, false, request);
            && reply == Refused({Contended})
            && b'.CellOf(request.key).fence == b.CellOf(request.key).fence + (if b.InPostgres? then 1 else 0)
            && b'.CellOf(request.key) == b.CellOf(request.key).(fence := b'.CellOf(request.key).fence)
  {
    ExecDefinite(b, now, request);
    ExecRefines(b, now, false, request);
  }

  /** A renewal of matching live ownership is granted for the same acquisition if and only if its new
      expiry lies after the acquisition; a clock that does not run behind the acquisition suffices. */
  lemma RenewalAccepted(b: Backend, now: int, owned: Record, ttl: int)
    requires b.Wf() && WellFormed(b.Kind(), Renew(owned, ttl)) && Roomy(b, now, Renew(owned, ttl))
    requires b.CellOf(owned.key).Matches(owned) && now < b.CellOf(owned.key).expiry
    ensures var c, reply := b.CellOf(owned.key), Exec(b, now, false, Renew(owned, ttl)).1;
            && (reply.Granted? && SameAcquisition(owned.(acquiredAt := c.acquired), reply.record)
                <==> c.acquired < NewExpiry(b.Kind(), now, ttl))
            && (c.acquired <= now ==> c.acquired < NewExpiry(b.Kind(), now, ttl))
            && !reply.Done? && (reply.Refused? ==> StaleOwner !in reply.error && Lost !in reply.error)
  {
    ExecDefinite(b, now, Renew(owned, ttl));
    AcceptedAnswers(b.Kind(), b.CellOf(owned.key), now, Renew(owned, ttl), false);
    NewExpiryAhead(b.Kind(), now, ttl);
  }

  /** A release is acknowledged if and only if the store recognizes the record: always for the current
      ownership, and never against other ownership that is still live. */
  lemma ReleaseAcknowledged(b: Backend, now: int, owned: Record)
    requires b.Wf() && WellFormed(b.Kind(), Release(owned))
    ensures var c, reply := b.CellOf(owned.key), Exec(b, now, false, Release(owned)).1;
            && (reply == Done <==> Recognizes(b, now, owned))
            && (c.Matches(owned) ==> Recognizes(b, now, owned))
            && (Recognizes(b, now, owned) ==> c.Matches(owned) || c.Free(now))
  {
    ExecDefinite(b, now, Release(owned));
    ExecRefines(b, now, false, Release(owned));
  }

  /** Four stores that all hold the same vacant cell, after a second acquisition of the key was released,
      differ on a late release of the first: whoever retains the second's record rejects it. */
  lemma LateReleaseDiffers(key: Text, first: Record, second: Record, now: int)
    returns (memory: Backend, retained: Backend, cleaned: Backend, valkey: Backend)
    requires NamesOwner(key, first.owner) && first.key == second.key == key && first.token == 1 && second.token == 2
    requires second.acquiredAt < second.expiresAt
    ensures memory.InMemory? && retained.InPostgres? && cleaned.InPostgres? && valkey.InValkey?
    ensures forall b :: b in {memory, retained, cleaned, valkey} ==> b.Wf() && b.CellOf(key) == Vacant(2)
    ensures Exec(memory, now, false, Release(first)) == (memory, Refused({StaleOwner}))
    ensures Exec(retained, now, false, Release(first)) == (retained, Refused({StaleOwner}))
    ensures Exec(cleaned, now, false, Release(first)) == (cleaned, Done)
    ensures Exec(valkey, now, false, Release(first)).1 == Done
  {
    var row := P.Row(second.owner, 2, second.acquiredAt, second.expiresAt, false, now);
    memory := InMemory(M.State(map[key := M.Entry(second, false)], 1));
    retained := InPostgres(P.State(map[key := 2], map[key := row]));
    cleaned := InPostgres(P.State(map[key := 2], map[]));
    valkey := InValkey(V.State(map[], map[key := 2]));
    V.OneWord(key, first.owner, StaleOwner);
  }

  /** A key whose fence is exhausted is never acquired again: its free cell is refused as unavailable,
      or as ambiguous where the server's counter itself fails, and nothing wraps around. */
  lemma ExhaustionRefuses(b: Backend, now: int, request: Request)
    requires b.Wf() && WellFormed(b.Kind(), request) && request.TryAcquire?
    requires b.CellOf(request.key).fence == MaxFence(b.Kind()) && b.CellOf(request.key).Free(now)
    ensures var (b', reply) := Exec(b, now, false, request);
            && reply == Refused({if b.InValkey? then AmbiguousOutcome else BackendUnavailable})
            && Idles(b.Kind(), b.CellOf(request.key), now, b'.CellOf(request.key))
  {
    ExecRefines(b, now, false, request);
    WfCells(Exec(b, now, false, request).0, request.key);
    if b.InValkey? {
      V.HoldsMeansMatches(b.v, now, Record(request.key, request.owner, 1, 0, 0));
      V.RefuseOutcome(b.v, now, request.key, request.owner, request.ttl);
    }
  }

  lemma WfCells(b: Backend, k: Text)
    requires b.Wf()
    ensures b.CellOf(k).Wf() && b.CellOf(k).fence <= MaxFence(b.Kind())
  {
  }
}
