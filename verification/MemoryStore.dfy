/** The process-local reference store: one map, rewritten under a mutex. */
module MemoryStore {
  import opened Leases
  import opened AbstractStore

  datatype Entry = Entry(record: Record, active: bool)

  datatype State = State(entries: map<Text, Entry>, maxKeys: nat)
  {
    predicate Wf() {
      && |entries| <= maxKeys
      && forall k :: k in entries ==> entries[k].record.key == k && 0 < entries[k].record.token <= MAX_UINT64
    }

    /** The vacant/owned machine this map stands for. */
    function CellOf(k: Text): Cell {
      if k !in entries then Vacant(0)
      else
        var r := entries[k].record;
        if entries[k].active then Owned(r.token, r.owner, r.token, r.acquiredAt, r.expiresAt) else Vacant(r.token)
    }
  }

  function IdentityError(canceled: bool, key: Text, owner: Text, token: nat): Option<Error> {
    if canceled then Some({Canceled})
    else if !NamesOwner(key, owner) || token == 0 then Some({InvalidState})
    else None
  }

  function InputError(canceled: bool, key: Text, owner: Text, ttl: int): Option<Error> {
    var e := IdentityError(canceled, key, owner, 1);
    if e.Some? then e else if ttl <= 0 then Some({InvalidState}) else None
  }

  function Acquired(s: State, now: int, canceled: bool, key: Text, owner: Text, ttl: int): (State, Reply) {
    var e := InputError(canceled, key, owner, ttl);
    var known := key in s.entries;
    var token := if known then s.entries[key].record.token else 0;
    if e.Some? then (s, Refused(e.value))
    else if known && s.entries[key].active && now < s.entries[key].record.expiresAt then (s, Refused({Contended}))
    else if !known && s.maxKeys <= |s.entries| then (s, Refused({BackendUnavailable}))
    else if token == MAX_UINT64 then (s, Refused({BackendUnavailable}))
    else
      var record := Record(key, owner, token + 1, now, now + ttl);
      (s.(entries := s.entries[key := Entry(record, true)]), Granted(record))
  }

  /** The caller's record names live ownership. */
  predicate Current(s: State, now: int, owned: Record) {
    && owned.key in s.entries && s.entries[owned.key].active
    && SameOwner(s.entries[owned.key].record, owned)
    && now < s.entries[owned.key].record.expiresAt
  }

  function Renewed(s: State, now: int, canceled: bool, owned: Record, ttl: int): (State, Reply) {
    var e := InputError(canceled, owned.key, owned.owner, ttl);
    if e.Some? then (s, Refused(e.value))
    else if owned.token == 0 then (s, Refused({InvalidState}))
    else if !Current(s, now, owned) then (s, Refused({StaleOwner}))
    else
      var entry := s.entries[owned.key];
      var record := entry.record.(expiresAt := now + ttl);
      (s.(entries := s.entries[owned.key := entry.(record := record)]), Granted(record))
  }

  function Validated(s: State, now: int, canceled: bool, owned: Record): Reply {
    var e := IdentityError(canceled, owned.key, owned.owner, owned.token);
    if e.Some? then Refused(e.value)
    else if !Current(s, now, owned) then Refused({StaleOwner})
    else Granted(s.entries[owned.key].record)
  }

  function Released(s: State, canceled: bool, owned: Record): (State, Reply) {
    var e := IdentityError(canceled, owned.key, owned.owner, owned.token);
    if e.Some? then (s, Refused(e.value))
    else if owned.key !in s.entries || !SameOwner(s.entries[owned.key].record, owned) then (s, Refused({StaleOwner}))
    else (s.(entries := s.entries[owned.key := s.entries[owned.key].(active := false)]), Done)
  }

  function Exec(s: State, now: int, canceled: bool, request: Request): (State, Reply) {
    match request
    case TryAcquire(key, owner, ttl) => Acquired(s, now, canceled, key, owner, ttl)
    case Renew(owned, ttl) => Renewed(s, now, canceled, owned, ttl)
    case Validate(owned) => (s, Validated(s, now, canceled, owned))
    case Release(owned) => Released(s, canceled, owned)
  }

  /** Rewriting one entry under its own key keeps the map well formed and other keys' cells. */
  lemma Rewrites(s: State, k: Text, e: Entry)
    requires s.Wf() && e.record.key == k && 0 < e.record.token <= MAX_UINT64
    requires k in s.entries || |s.entries| < s.maxKeys
    ensures var s' := s.(entries := s.entries[k := e]);
            s'.Wf() && forall other :: other != k ==> s'.CellOf(other) == s.CellOf(other)
  {
    var keys := s.entries[k := e].Keys;
    assert |s.entries| == |s.entries.Keys| && |s.entries[k := e]| == |keys|;
    if k in s.entries {
      assert keys == s.entries.Keys;
    } else {
      assert keys == s.entries.Keys + {k};
    }
  }

  lemma AcquireRefines(s: State, now: int, canceled: bool, key: Text, owner: Text, ttl: int)
    requires s.Wf()
    ensures var (s', reply) := Acquired(s, now, canceled, key, owner, ttl);
            && s'.Wf()
            && ServesAcquire(Memory, s.CellOf(key), now, key, owner, ttl, reply, s'.CellOf(key))
            && forall k :: k != key ==> s'.CellOf(k) == s.CellOf(k)
  {
    var (s', reply) := Acquired(s, now, canceled, key, owner, ttl);
    if reply.Granted? {
      Rewrites(s, key, Entry(reply.record, true));
    }
  }

  lemma RenewRefines(s: State, now: int, canceled: bool, owned: Record, ttl: int)
    requires s.Wf()
    ensures var (s', reply) := Renewed(s, now, canceled, owned, ttl);
            && s'.Wf()
            && ServesRenew(Memory, s.CellOf(owned.key), now, owned, ttl, reply, s'.CellOf(owned.key))
            && forall k :: k != owned.key ==> s'.CellOf(k) == s.CellOf(k)
  {
    var (s', reply) := Renewed(s, now, canceled, owned, ttl);
    if reply.Granted? {
      Rewrites(s, owned.key, Entry(reply.record, true));
    }
  }

  lemma ReleaseRefines(s: State, now: int, canceled: bool, owned: Record)
    requires s.Wf()
    ensures var (s', reply) := Released(s, canceled, owned);
            && s'.Wf()
            && ServesRelease(Memory, s.CellOf(owned.key), now, owned, reply, s'.CellOf(owned.key))
            && forall k :: k != owned.key ==> s'.CellOf(k) == s.CellOf(k)
  {
    var (s', reply) := Released(s, canceled, owned);
    if reply.Done? {
      Rewrites(s, owned.key, s'.entries[owned.key]);
    }
  }

  /** Every operation is a step of the vacant/owned machine on its own key and no step on others. */
  lemma Refines(s: State, now: int, canceled: bool, request: Request)
    requires s.Wf()
    ensures var (s', reply) := Exec(s, now, canceled, request);
            && s'.Wf()
            && Serves(Memory, s.CellOf(request.Key()), now, request, reply, s'.CellOf(request.Key()))
            && forall k :: k != request.Key() ==> s'.CellOf(k) == s.CellOf(k)
  {
    match request
    case TryAcquire(key, owner, ttl) => AcquireRefines(s, now, canceled, key, owner, ttl);
    case Renew(owned, ttl) => RenewRefines(s, now, canceled, owned, ttl);
    case Validate(owned) =>
    case Release(owned) => ReleaseRefines(s, now, canceled, owned);
  }

  /** Room for the request: its key is known or the map has space, and its fence can still grow. */
  predicate Roomy(s: State, request: Request) {
    request.TryAcquire? ==>
      && (request.key in s.entries || |s.entries| < s.maxKeys)
      && s.CellOf(request.key).fence < MAX_UINT64
  }

  /** Releasing succeeds on the record the entry retains, active or not, and on no other. */
  predicate Recognizes(s: State, owned: Record) {
    owned.key in s.entries && SameOwner(s.entries[owned.key].record, owned)
  }

  lemma Definite(s: State, now: int, request: Request)
    requires s.Wf() && WellFormed(Memory, request) && Roomy(s, request)
    ensures Exec(s, now, false, request).1 ==
            Answer(Memory, s.CellOf(request.Key()), now, request, request.Release? && Recognizes(s, request.owned))
  {
  }

  class Store {
    var entries: map<Text, Entry>
    const maxKeys: nat

    ghost function View(): State
      reads this
    {
      State(entries, maxKeys)
    }

    constructor (maxKeys: nat)
      ensures View() == State(map[], maxKeys) && View().Wf()
    {
      entries := map[];
      this.maxKeys := maxKeys;
    }

    method TryAcquire(now: int, canceled: bool, key: Text, owner: Text, ttl: int) returns (result: Result<Record>)
      modifies this
      ensures (View(), ToReply(result)) == Acquired(old(View()), now, canceled, key, owner, ttl)
      ensures canceled ==> result == Err({Canceled}) && View() == old(View())
      ensures result.Err? ==> View() == old(View())
    {
      var problem := InputError(canceled, key, owner, ttl);
      if problem.Some? {
        return Err(problem.value);
      }
      var token := 0;
      if key in entries {
        var current := entries[key];
        if current.active && now < current.record.expiresAt {
          return Err({Contended});
        }
        token := current.record.token;
      } else if maxKeys <= |entries| {
        return Err({BackendUnavailable});
      }
      if token == MAX_UINT64 {
        return Err({BackendUnavailable});
      }
      var record := Record(key, owner, token + 1, now, now + ttl);
      entries := entries[key := Entry(record, true)];
      return Ok(record);
    }

    method Renew(now: int, canceled: bool, owned: Record, ttl: int) returns (result: Result<Record>)
      modifies this
      ensures (View(), ToReply(result)) == Renewed(old(View()), now, canceled, owned, ttl)
      ensures canceled ==> result == Err({Canceled}) && View() == old(View())
      ensures result.Err? ==> View() == old(View())
    {
      var problem := InputError(canceled, owned.key, owned.owner, ttl);
      if problem.Some? {
        return Err(problem.value);
      }
      if owned.token == 0 {
        return Err({InvalidState});
      }
      if owned.key !in entries {
        return Err({StaleOwner});
      }
      var current := entries[owned.key];
      if !current.active || !SameOwner(current.record, owned) || current.record.expiresAt <= now {
        return Err({StaleOwner});
      }
      current := current.(record := current.record.(expiresAt := now + ttl));
      entries := entries[owned.key := current];
      return Ok(current.record);
    }

    method Validate(now: int, canceled: bool, owned: Record) returns (result: Result<Record>)
      ensures ToReply(result) == Validated(View(), now, canceled, owned)
      ensures canceled ==> result == Err({Canceled})
    {
      var problem := IdentityError(canceled, owned.key, owned.owner, owned.token);
      if problem.Some? {
        return Err(problem.value);
      }
      if owned.key !in entries {
        return Err({StaleOwner});
      }
      var current := entries[owned.key];
      if !current.active || !SameOwner(current.record, owned) || current.record.expiresAt <= now {
        return Err({StaleOwner});
      }
      return Ok(current.record);
    }

    method Release(canceled: bool, owned: Record) returns (failure: Option<Error>)
      modifies this
      ensures (View(), if failure.Some? then Refused(failure.value) else Done) == Released(old(View()), canceled, owned)
      ensures canceled ==> failure == Some({Canceled}) && View() == old(View())
      ensures failure.Some? ==> View() == old(View())
    {
      var problem := IdentityError(canceled, owned.key, owned.owner, owned.token);
      if problem.Some? {
        return problem;
      }
      if owned.key !in entries {
        return Some({StaleOwner});
      }
      var current := entries[owned.key];
      if !SameOwner(current.record, owned) {
        return Some({StaleOwner});
      }
      if current.active {
        entries := entries[owned.key := current.(active := false)];
      } else {
        assert entries == entries[owned.key := current.(active := false)];
      }
      return None;
    }
  }

  function ToReply(result: Result<Record>): Reply {
    match result
    case Ok(record) => Granted(record)
    case Err(error) => Refused(error)
  }
}
