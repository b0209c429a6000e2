/** The PostgreSQL store: two tables, each SQL statement one atomic step at one reading of the
    server's clock. Keys stand for their digests. */
module PostgresStore {
  import opened Leases
  import opened AbstractStore

  const HOUR: int := 3_600_000_000_000
  const MAX_BATCH: int := 10_000

  datatype Row = Row(owner: Text, token: int, acquired: int, expires: int, active: bool, updated: int)

  datatype State = State(fences: map<Text, int>, records: map<Text, Row>)
  {
    /** The schema's checks and foreign key, and no record above its retained fence. */
    predicate Wf() {
      && (forall k :: k in fences ==> 0 < fences[k] <= MAX_INT64)
      && (forall k :: k in records ==>
            k in fences && 0 < records[k].token <= fences[k] && records[k].acquired < records[k].expires)
    }

    function FenceOf(k: Text): nat {
      if k in fences && 0 < fences[k] then fences[k] else 0
    }

    /** The vacant/owned machine these tables stand for. */
    function CellOf(k: Text): Cell {
      if k in records && records[k].active && 0 < records[k].token then
        Owned(FenceOf(k), records[k].owner, records[k].token, records[k].acquired, records[k].expires)
      else Vacant(FenceOf(k))
    }
  }

  function InputError(canceled: bool, key: Text, owner: Text, token: nat, ttl: int): Option<Error> {
    if canceled then Some({Canceled})
    else if !NamesOwner(key, owner) || token == 0 || MAX_INT64 < token || ttl < MILLISECOND then Some({InvalidState})
    else None
  }

  datatype Outcome = Installed(row: Row) | Exhausted | Contention

  /** A fence that is not exhausted grows whether or not the record can then be installed, and the
      exhaustion test reads the fence as it was before the statement. */
  function AcquireSQL(s: State, now: int, key: Text, owner: Text, millis: int): (State, Outcome) {
    if key in s.fences && MAX_INT64 <= s.fences[key] then (s, Exhausted)
    else
      var fence := if key in s.fences then s.fences[key] + 1 else 1;
      var counted := s.(fences := s.fences[key := fence]);
      if key in s.records && s.records[key].active && now < s.records[key].expires then (counted, Contention)
      else
        var row := Row(owner, fence, now, now + millis * MILLISECOND, true, now);
        (counted.(records := s.records[key := row]), Installed(row))
  }

  /** Rows that a statement's `WHERE` clause on key, owner and token selects. */
  predicate Selects(s: State, owned: Record) {
    && owned.key in s.records
    && s.records[owned.key].owner == owned.owner
    && s.records[owned.key].token == owned.token
  }

  predicate SelectsLive(s: State, now: int, owned: Record) {
    Selects(s, owned) && s.records[owned.key].active && now < s.records[owned.key].expires
  }

  function RecordFromRow(key: Text, row: Row, mismatch: Sentinel): Reply {
    if row.token <= 0 || row.expires <= row.acquired then Refused({mismatch, BackendUnavailable})
    else Granted(Record(key, row.owner, row.token, row.acquired, row.expires))
  }

  /** A row that came back with another token is a mismatch. */
  function ReadOwned(owned: Record, row: Row, mismatch: Sentinel): Reply {
    var read := RecordFromRow(owned.key, row, mismatch);
    if read.Granted? && read.record.token != owned.token then Refused({mismatch}) else read
  }

  function ReadRenewed(owned: Record, row: Row): Reply {
    ReadOwned(owned, row, AmbiguousOutcome)
  }

  function ReadValidated(owned: Record, row: Row): Reply {
    ReadOwned(owned, row, BackendUnavailable)
  }

  function Acquired(s: State, now: int, canceled: bool, key: Text, owner: Text, ttl: int): (State, Reply) {
    var e := InputError(canceled, key, owner, 1, ttl);
    if e.Some? then (s, Refused(e.value))
    else
      var (s', outcome) := AcquireSQL(s, now, key, owner, WholeMillis(ttl));
      match outcome
      case Contention => (s', Refused({Contended}))
      case Exhausted => (s', Refused({BackendUnavailable}))
      case Installed(row) => (s', RecordFromRow(key, row, AmbiguousOutcome))
  }

  /** A renewal that would end at or before the acquisition violates the schema's check, so the
      statement aborts without effect. */
  function Renewed(s: State, now: int, canceled: bool, owned: Record, ttl: int): (State, Reply) {
    var e := InputError(canceled, owned.key, owned.owner, owned.token, ttl);
    if e.Some? then (s, Refused(e.value))
    else if !SelectsLive(s, now, owned) then (s, Refused({StaleOwner}))
    else
      var row := s.records[owned.key].(expires := now + WholeMillis(ttl) * MILLISECOND, updated := now);
      if row.expires <= row.acquired then (s, Refused({AmbiguousOutcome}))
      else (s.(records := s.records[owned.key := row]), ReadRenewed(owned, row))
  }

  function Validated(s: State, now: int, canceled: bool, owned: Record): Reply {
    var e := InputError(canceled, owned.key, owned.owner, owned.token, MILLISECOND);
    if e.Some? then Refused(e.value)
    else if !SelectsLive(s, now, owned) then Refused({StaleOwner})
    else ReadValidated(owned, s.records[owned.key])
  }

  /** Releasing what is already inactive, or what cleanup has removed, succeeds. */
  function Released(s: State, now: int, canceled: bool, owned: Record): (State, Reply) {
    var e := InputError(canceled, owned.key, owned.owner, owned.token, MILLISECOND);
    if e.Some? then (s, Refused(e.value))
    else if Selects(s, owned) && s.records[owned.key].active then
      (s.(records := s.records[owned.key := s.records[owned.key].(active := false, updated := now)]), Done)
    else if Selects(s, owned) || owned.key !in s.records then (s, Done)
    else (s, Refused({StaleOwner}))
  }

  function Exec(s: State, now: int, canceled: bool, request: Request): (State, Reply) {
    match request
    case TryAcquire(key, owner, ttl) => Acquired(s, now, canceled, key, owner, ttl)
    case Renew(owned, ttl) => Renewed(s, now, canceled, owned, ttl)
    case Validate(owned) => (s, Validated(s, now, canceled, owned))
    case Release(owned) => Released(s, now, canceled, owned)
  }

  /** Inactive rows that have not been touched for more than an hour. */
  function Stale(s: State, now: int): set<Text> {
    set k | k in s.records && !s.records[k].active && s.records[k].updated < now - HOUR
  }

  /** The rows a cleanup deletes: the oldest stale ones that nobody has locked, up to the batch. */
  predicate Doomed(s: State, now: int, batch: nat, locked: set<Text>, doomed: set<Text>) {
    var candidates := Stale(s, now) - locked;
    && doomed <= candidates
    && (|doomed| == batch || (doomed == candidates && |doomed| <= batch))
    && forall d, k :: d in doomed && k in candidates - doomed ==> s.records[d].updated <= s.records[k].updated
  }

  /** A row is reported as it stands exactly if its token is positive and its times are in order. */
  lemma RowReported(key: Text, row: Row, mismatch: Sentinel)
    ensures var reply := RecordFromRow(key, row, mismatch);
            && (reply.Granted? <==> 0 < row.token && row.acquired < row.expires)
            && (reply.Granted? ==> ValidAcquisition(key, row.owner, reply.record) && reply.record.token == row.token
                                   && reply.record.acquiredAt == row.acquired && reply.record.expiresAt == row.expires)
            && (!reply.Granted? ==> reply == Refused({mismatch, BackendUnavailable}))
  {
  }

  /** Whatever row comes back, a renewal and a validation are granted only for the token asked about;
      another token leaves a renewal ambiguous and a validation unavailable. */
  lemma ReadsOwnOnly(owned: Record, row: Row)
    ensures var read := RecordFromRow(owned.key, row, AmbiguousOutcome);
            var renewed, validated := ReadRenewed(owned, row), ReadValidated(owned, row);
            && (renewed.Granted? <==> read.Granted? && row.token == owned.token)
            && (renewed.Granted? ==> renewed == validated == read)
            && (read.Granted? && row.token != owned.token ==>
                  renewed == Refused({AmbiguousOutcome}) && validated == Refused({BackendUnavailable}))
            && (read.Refused? ==>
                  renewed == Refused({AmbiguousOutcome, BackendUnavailable})
                    && validated == Refused({BackendUnavailable}))
  {
  }

  /** Growing one key's fence and rewriting its row keeps the tables well formed. */
  lemma Rewrites(s: State, k: Text, fence: int, row: Row)
    requires s.Wf() && 0 < row.token <= fence <= MAX_INT64 && row.acquired < row.expires
    ensures var s' := State(s.fences[k := fence], s.records[k := row]);
            s'.Wf() && forall other :: other != k ==> s'.CellOf(other) == s.CellOf(other)
  {
  }

  lemma AcquireRefines(s: State, now: int, canceled: bool, key: Text, owner: Text, ttl: int)
    requires s.Wf()
    ensures var (s', reply) := Acquired(s, now, canceled, key, owner, ttl);
            && s'.Wf()
            && ServesAcquire(Postgres, s.CellOf(key), now, key, owner, ttl, reply, s'.CellOf(key))
            && forall k :: k != key ==> s'.CellOf(k) == s.CellOf(k)
  {
    var (s', reply) := Acquired(s, now, canceled, key, owner, ttl);
    if reply.Granted? {
      Rewrites(s, key, s'.fences[key], s'.records[key]);
      assert ttl == WholeMillis(ttl) * MILLISECOND + ttl % MILLISECOND;
    }
  }

  lemma RenewRefines(s: State, now: int, canceled: bool, owned: Record, ttl: int)
    requires s.Wf()
    ensures var (s', reply) := Renewed(s, now, canceled, owned, ttl);
            && s'.Wf()
            && ServesRenew(Postgres, s.CellOf(owned.key), now, owned, ttl, reply, s'.CellOf(owned.key))
            && forall k :: k != owned.key ==> s'.CellOf(k) == s.CellOf(k)
  {
    var (s', reply) := Renewed(s, now, canceled, owned, ttl);
    if reply.Granted? {
      Rewrites(s, owned.key, s.fences[owned.key], s'.records[owned.key]);
      assert s.fences[owned.key := s.fences[owned.key]] == s.fences;
      assert ttl == WholeMillis(ttl) * MILLISECOND + ttl % MILLISECOND;
    }
  }

  lemma ReleaseRefines(s: State, now: int, canceled: bool, owned: Record)
    requires s.Wf()
    ensures var (s', reply) := Released(s, now, canceled, owned);
            && s'.Wf()
            && ServesRelease(Postgres, s.CellOf(owned.key), now, owned, reply, s'.CellOf(owned.key))
            && forall k :: k != owned.key ==> s'.CellOf(k) == s.CellOf(k)
  {
    var (s', reply) := Released(s, now, canceled, owned);
    if s' != s {
      Rewrites(s, owned.key, s.fences[owned.key], s'.records[owned.key]);
      assert s.fences[owned.key := s.fences[owned.key]] == s.fences;
    }
  }

  /** Every operation is a step of the vacant/owned machine on its own key and no step on others. */
  lemma Refines(s: State, now: int, canceled: bool, request: Request)
    requires s.Wf()
    ensures var (s', reply) := Exec(s, now, canceled, request);
            && s'.Wf()
            && Serves(Postgres, s.CellOf(request.Key()), now, request, reply, s'.CellOf(request.Key()))
            && forall k :: k != request.Key() ==> s'.CellOf(k) == s.CellOf(k)
  {
    match request
    case TryAcquire(key, owner, ttl) => AcquireRefines(s, now, canceled, key, owner, ttl);
    case Renew(owned, ttl) => RenewRefines(s, now, canceled, owned, ttl);
    case Validate(owned) =>
    case Release(owned) => ReleaseRefines(s, now, canceled, owned);
  }

  /** Cleanup changes no key's ownership and no fence. */
  lemma CleanupRefines(s: State, now: int, batch: nat, locked: set<Text>, doomed: set<Text>)
    requires s.Wf() && Doomed(s, now, batch, locked, doomed)
    ensures var s' := s.(records := s.records - doomed);
            s'.Wf() && forall k :: s'.CellOf(k) == s.CellOf(k)
  {
  }

  /** Cleanup deletes only rows that are inactive and were last touched more than an hour ago, and no more
      than the batch; every other row stays as it is. */
  lemma CleanupSpares(s: State, now: int, batch: nat, locked: set<Text>, doomed: set<Text>, k: Text)
    requires Doomed(s, now, batch, locked, doomed) && k in s.records
    ensures var kept := s.records - doomed;
            && |doomed| <= batch
            && (k in locked || s.records[k].active || now - s.records[k].updated <= HOUR ==>
                  k in kept && kept[k] == s.records[k])
  {
  }

  /** A release starts the hour after which cleanup may forget that it happened: until then repeating the
      release is acknowledged and any other is rejected, whatever cleanup does in between. */
  lemma ReleaseIsRemembered(
    s: State, now: int, owned: Record, later: int, batch: nat, locked: set<Text>, doomed: set<Text>, other: Record)
    requires s.Wf() && WellFormed(Postgres, Release(owned)) && Selects(s, owned) && s.records[owned.key].active
    requires var s' := Released(s, now, false, owned).0; Doomed(s', later, batch, locked, doomed)
    requires later - now <= HOUR
    requires WellFormed(Postgres, Release(other)) && other.key == owned.key
    ensures var s' := Released(s, now, false, owned).0;
            var kept := s'.(records := s'.records - doomed);
            && owned.key in kept.records && !kept.records[owned.key].active
            && (Released(kept, later, false, other).1 == Done <==> SameOwner(owned, other))
  {
    var s' := Released(s, now, false, owned).0;
    CleanupSpares(s', later, batch, locked, doomed, owned.key);
  }

  /** Releasing succeeds on the row's own record, active or not, and where no row is retained. */
  predicate Recognizes(s: State, owned: Record) {
    owned.key !in s.records || Selects(s, owned)
  }

  lemma Definite(s: State, now: int, request: Request)
    requires s.Wf() && WellFormed(Postgres, request)
    requires request.TryAcquire? ==> s.CellOf(request.key).fence < MAX_INT64
    ensures Exec(s, now, false, request).1 ==
            Answer(Postgres, s.CellOf(request.Key()), now, request, request.Release? && Recognizes(s, request.owned))
  {
  }

  class Store {
    var fences: map<Text, int>
    var records: map<Text, Row>

    ghost function View(): State
      reads this
    {
      State(fences, records)
    }

    constructor ()
      ensures View() == State(map[], map[]) && View().Wf()
    {
      fences, records := map[], map[];
    }

    method TryAcquire(now: int, canceled: bool, key: Text, owner: Text, ttl: int) returns (reply: Reply)
      modifies this
      ensures (View(), reply) == Acquired(old(View()), now, canceled, key, owner, ttl)
      ensures canceled ==> reply == Refused({Canceled}) && View() == old(View())
    {
      var problem := InputError(canceled, key, owner, 1, ttl);
      if problem.Some? {
        return Refused(problem.value);
      }
      if key in fences && MAX_INT64 <= fences[key] {
        return Refused({BackendUnavailable});
      }
      var fence := if key in fences then fences[key] + 1 else 1;
      fences := fences[key := fence];
      if key in records && records[key].active && now < records[key].expires {
        return Refused({Contended});
      }
      var row := Row(owner, fence, now, now + WholeMillis(ttl) * MILLISECOND, true, now);
      records := records[key := row];
      return RecordFromRow(key, row, AmbiguousOutcome);
    }

    method Renew(now: int, canceled: bool, owned: Record, ttl: int) returns (reply: Reply)
      modifies this
      ensures (View(), reply) == Renewed(old(View()), now, canceled, owned, ttl)
      ensures canceled ==> reply == Refused({Canceled}) && View() == old(View())
    {
      var problem := InputError(canceled, owned.key, owned.owner, owned.token, ttl);
      if problem.Some? {
        return Refused(problem.value);
      }
      if owned.key !in records {
        return Refused({StaleOwner});
      }
      var row := records[owned.key];
      if row.owner != owned.owner || row.token != owned.token || !row.active || row.expires <= now {
        return Refused({StaleOwner});
      }
      row := row.(expires := now + WholeMillis(ttl) * MILLISECOND, updated := now);
      if row.expires <= row.acquired {
        return Refused({AmbiguousOutcome});
      }
      records := records[owned.key := row];
      return ReadRenewed(owned, row);
    }

    method Validate(now: int, canceled: bool, owned: Record) returns (reply: Reply)
      ensures reply == Validated(View(), now, canceled, owned)
      ensures canceled ==> reply == Refused({Canceled})
    {
      var problem := InputError(canceled, owned.key, owned.owner, owned.token, MILLISECOND);
      if problem.Some? {
        return Refused(problem.value);
      }
      if owned.key !in records {
        return Refused({StaleOwner});
      }
      var row := records[owned.key];
      if row.owner != owned.owner || row.token != owned.token || !row.active || row.expires <= now {
        return Refused({StaleOwner});
      }
      return ReadValidated(owned, row);
    }

    method Release(now: int, canceled: bool, owned: Record) returns (reply: Reply)
      modifies this
      ensures (View(), reply) == Released(old(View()), now, canceled, owned)
      ensures canceled ==> reply == Refused({Canceled}) && View() == old(View())
    {
      var problem := InputError(canceled, owned.key, owned.owner, owned.token, MILLISECOND);
      if problem.Some? {
        return Refused(problem.value);
      }
      if owned.key !in records {
        return Done;
      }
      var row := records[owned.key];
      if row.owner != owned.owner || row.token != owned.token {
        return Refused({StaleOwner});
      }
      if row.active {
        records := records[owned.key := row.(active := false, updated := now)];
      }
      return Done;
    }

    /** Deletes what the statement selected; out-of-range batches and canceled calls do nothing. */
    method Cleanup(now: int, canceled: bool, batch: nat, locked: set<Text>, doomed: set<Text>)
      returns (result: Result<nat>)
      requires Doomed(View(), now, batch, locked, doomed)
      modifies this
      ensures if canceled then result == Err({Canceled}) && View() == old(View())
              else if batch == 0 || MAX_BATCH < batch then result == Err({InvalidState}) && View() == old(View())
              else result == Ok(|doomed|) && View() == old(View()).(records := old(records) - doomed)
    {
      if canceled {
        return Err({Canceled});
      }
      if batch == 0 || MAX_BATCH < batch {
        return Err({InvalidState});
      }
      records := records - doomed;
      return Ok(|doomed|);
    }
  }
}
