/** The Valkey store: a lease hash and a counter per key, each Lua script one atomic step, and the
    text replies that the client decodes. Keys stand for the storage keys derived from them. */
module ValkeyStore {
  import opened Leases
  import opened AbstractStore
  import opened Decimals

  const OK: Text := [0x6f, 0x6b]
  const CONTENDED: Text := [0x63, 0x6f, 0x6e, 0x74, 0x65, 0x6e, 0x64, 0x65, 0x64]
  const STALE: Text := [0x73, 0x74, 0x61, 0x6c, 0x65]
  const MISSING: Text := [0x6d, 0x69, 0x73, 0x73, 0x69, 0x6e, 0x67]

  /** A numeric hash field: the text the server holds, and the number it was written from, which no
      script can see. */
  datatype Field = Field(text: Text, number: int)

  function Decimal(n: int): Field {
    Field(FormatInt(n), n)
  }

  /** A lease hash, and the millisecond at which the server lets it expire. */
  datatype Hash = Hash(owner: Text, token: Field, acquired: Field, expires: Field, until: int)

  datatype State = State(hashes: map<Text, Hash>, counters: map<Text, int>)
  {
    /** Every hash holds exact decimals, under a token that its counter has reached. */
    predicate Wf() {
      && (forall k :: k in counters ==> 0 < counters[k] <= MAX_INT64)
      && (forall k :: k in hashes ==> k in counters && HashWf(hashes[k], counters[k]))
    }

    function FenceOf(k: Text): nat {
      if k in counters && 0 < counters[k] then counters[k] else 0
    }

    /** The vacant/owned machine the hash and counter stand for. */
    function CellOf(k: Text): Cell {
      if k in hashes && 0 < hashes[k].token.number then
        var h := hashes[k];
        Owned(FenceOf(k), h.owner, h.token.number, h.acquired.number * MILLISECOND, h.until * MILLISECOND)
      else Vacant(FenceOf(k))
    }

    predicate Exists(k: Text, nowms: int) {
      k in hashes && nowms < hashes[k].until
    }

    /** A script that touches an expired hash finds it gone. */
    function Touched(k: Text, nowms: int): State {
      if Exists(k, nowms) then this else this.(hashes := hashes - {k})
    }
  }

  predicate HashWf(h: Hash, counter: int) {
    && 0 < h.token.number <= counter
    && h.token == Decimal(h.token.number)
    && h.acquired == Decimal(h.acquired.number)
    && h.expires == Decimal(h.until)
  }

  /** The server's TIME as whole milliseconds. */
  function Millis(now: int): int {
    now / MILLISECOND
  }

  /** INCR past the signed 64-bit range aborts the script before it writes anything. */
  function AcquireScript(s: State, now: int, k: Text, owner: Text, ms: int): (State, Option<seq<Text>>) {
    var nowms := Millis(now);
    var s' := s.Touched(k, nowms);
    if s.Exists(k, nowms) then (s', Some([CONTENDED]))
    else if s.FenceOf(k) == MAX_INT64 then (s', None)
    else
      var token := s.FenceOf(k) + 1;
      (Installed(s', k, owner, token, nowms, ms), Some([OK, FormatInt(token), FormatInt(nowms), FormatInt(nowms + ms)]))
  }

  function Installed(s: State, k: Text, owner: Text, token: nat, nowms: int, ms: int): State {
    var h := Hash(owner, Decimal(token), Decimal(nowms), Decimal(nowms + ms), nowms + ms);
    State(s.hashes[k := h], s.counters[k := token])
  }

  function Extended(s: State, k: Text, nowms: int, ms: int): State
    requires k in s.hashes
  {
    s.(hashes := s.hashes[k := s.hashes[k].(expires := Decimal(nowms + ms), until := nowms + ms)])
  }

  /** The hash exists and holds the caller's owner and token text. */
  predicate Holds(s: State, nowms: int, k: Text, owner: Text, token: Text) {
    s.Exists(k, nowms) && s.hashes[k].owner == owner && s.hashes[k].token.text == token
  }

  function RenewScript(s: State, now: int, k: Text, owner: Text, token: Text, ms: int): (State, seq<Text>) {
    var nowms := Millis(now);
    if !Holds(s, nowms, k, owner, token) then (s.Touched(k, nowms), [STALE])
    else (Extended(s, k, nowms, ms), [OK, token, s.hashes[k].acquired.text, FormatInt(nowms + ms)])
  }

  function ValidateScript(s: State, now: int, k: Text, owner: Text, token: Text): (State, seq<Text>) {
    var nowms := Millis(now);
    if !Holds(s, nowms, k, owner, token) then (s.Touched(k, nowms), [STALE])
    else (s, [OK, token, s.hashes[k].acquired.text, s.hashes[k].expires.text])
  }

  function ReleaseScript(s: State, now: int, k: Text, owner: Text, token: Text): (State, seq<Text>) {
    var nowms := Millis(now);
    if !s.Exists(k, nowms) then (s.Touched(k, nowms), [MISSING])
    else if !Holds(s, nowms, k, owner, token) then (s, [STALE])
    else (s.(hashes := s.hashes - {k}), [OK])
  }

  function ParseRecord(key: Text, owner: Text, reply: seq<Text>, expected: Sentinel): Reply {
    if |reply| == 1 && reply[0] != OK then Refused({expected})
    else if |reply| != 4 || reply[0] != OK then Refused({BackendUnavailable})
    else
      var token, acquired, expires := ParseUint(reply[1], MAX_UINT64), ParseInt(reply[2]), ParseInt(reply[3]);
      if token.None? || acquired.None? || expires.None? then Refused({BackendUnavailable})
      else if token.value == 0 || expires.value <= acquired.value then Refused({BackendUnavailable})
      else Granted(Record(key, owner, token.value, acquired.value * MILLISECOND, expires.value * MILLISECOND))
  }

  /** The client's reading of a reply to a request on its own record; another token is a mismatch. */
  function ReadOwned(owned: Record, reply: seq<Text>, mismatch: Sentinel): Reply {
    var parsed := ParseRecord(owned.key, owned.owner, reply, StaleOwner);
    if parsed.Granted? && parsed.record.token != owned.token then Refused({mismatch}) else parsed
  }

  function ReadRenewed(owned: Record, reply: seq<Text>): Reply {
    ReadOwned(owned, reply, AmbiguousOutcome)
  }

  function ReadValidated(owned: Record, reply: seq<Text>): Reply {
    ReadOwned(owned, reply, BackendUnavailable)
  }

  function InputError(canceled: bool, key: Text, owner: Text, token: nat, ttl: int): Option<Error> {
    if canceled then Some({Canceled})
    else if !NamesOwner(key, owner) || token == 0 || ttl < MILLISECOND then Some({InvalidState})
    else None
  }

  function Acquired(s: State, now: int, canceled: bool, key: Text, owner: Text, ttl: int): (State, Reply) {
    var e := InputError(canceled, key, owner, 1, ttl);
    if e.Some? then (s, Refused(e.value))
    else
      var (s', reply) := AcquireScript(s, now, key, owner, WholeMillis(ttl));
      (s', if reply.None? then Refused({AmbiguousOutcome}) else ParseRecord(key, owner, reply.value, Contended))
  }

  function Renewed(s: State, now: int, canceled: bool, owned: Record, ttl: int): (State, Reply) {
    var e := InputError(canceled, owned.key, owned.owner, owned.token, ttl);
    if e.Some? then (s, Refused(e.value))
    else
      var (s', reply) := RenewScript(s, now, owned.key, owned.owner, FormatInt(owned.token), WholeMillis(ttl));
      (s', ReadRenewed(owned, reply))
  }

  function Validated(s: State, now: int, canceled: bool, owned: Record): (State, Reply) {
    var e := InputError(canceled, owned.key, owned.owner, owned.token, MILLISECOND);
    if e.Some? then (s, Refused(e.value))
    else
      var (s', reply) := ValidateScript(s, now, owned.key, owned.owner, FormatInt(owned.token));
      (s', ReadValidated(owned, reply))
  }

  function Released(s: State, now: int, canceled: bool, owned: Record): (State, Reply) {
    var e := InputError(canceled, owned.key, owned.owner, owned.token, MILLISECOND);
    if e.Some? then (s, Refused(e.value))
    else
      var (s', reply) := ReleaseScript(s, now, owned.key, owned.owner, FormatInt(owned.token));
      (s', if reply == [OK] || reply == [MISSING] then Done
           else if reply == [STALE] then Refused({StaleOwner})
           else Refused({BackendUnavailable}))
  }

  function Exec(s: State, now: int, canceled: bool, request: Request): (State, Reply) {
    match request
    case TryAcquire(key, owner, ttl) => Acquired(s, now, canceled, key, owner, ttl)
    case Renew(owned, ttl) => Renewed(s, now, canceled, owned, ttl)
    case Validate(owned) => Validated(s, now, canceled, owned)
    case Release(owned) => Released(s, now, canceled, owned)
  }

  /** Text equality in the scripts is equality of owner and token. */
  lemma HoldsMeansMatches(s: State, now: int, owned: Record)
    requires s.Wf() && 0 < owned.token
    ensures Holds(s, Millis(now), owned.key, owned.owner, FormatInt(owned.token))
            <==> s.CellOf(owned.key).Matches(owned) && now < s.CellOf(owned.key).expiry
    ensures s.Exists(owned.key, Millis(now)) <==> !s.CellOf(owned.key).Free(now)
  {
    if owned.key in s.hashes {
      SameText(s.hashes[owned.key].token.number, owned.token);
    }
  }

  /** Equal decimal texts are equal numbers, whatever their size. */
  lemma SameText(a: nat, b: nat)
    ensures FormatInt(a) == FormatInt(b) <==> a == b
  {
    if FormatInt(a) == FormatInt(b) {
      FormatInjective(a, b);
    }
  }

  /** Decoding what the scripts reply recovers the stored token and times exactly; only times out
      of order or out of range are refused. */
  lemma DecodeExact(key: Text, owner: Text, token: nat, acquired: int, expires: int, expected: Sentinel)
    requires 0 < token <= MAX_INT64
    ensures ParseRecord(key, owner, [OK, FormatInt(token), FormatInt(acquired), FormatInt(expires)], expected)
            == if acquired < expires && -MAX_INT64 - 1 <= acquired && expires <= MAX_INT64
               then Granted(Record(key, owner, token, acquired * MILLISECOND, expires * MILLISECOND))
               else Refused({BackendUnavailable})
  {
    ParseUintExact(token, MAX_UINT64);
    ParseIntExact(acquired);
    ParseIntExact(expires);
  }

  /** Whatever words a server sends, the client grants only four that start with the success word and hold
      a nonzero token and ordered times within 64 bits, takes one other word for the expected refusal, and
      reports anything else as unavailable. */
  lemma ReadsNothingElse(key: Text, owner: Text, reply: seq<Text>, expected: Sentinel)
    ensures match ParseRecord(key, owner, reply, expected)
            case Granted(r) =>
              && |reply| == 4 && reply[0] == OK && r.key == key && r.owner == owner
              && 0 < r.token <= MAX_UINT64 && ParseUint(reply[1], MAX_UINT64) == Some(r.token)
              && r.acquiredAt < r.expiresAt
              && (exists ms :: ParseInt(reply[2]) == Some(ms) && r.acquiredAt == ms * MILLISECOND)
              && (exists ms :: ParseInt(reply[3]) == Some(ms) && r.expiresAt == ms * MILLISECOND)
            case Done => false
            case Refused(error) =>
              error == (if |reply| == 1 && reply[0] != OK then {expected} else {BackendUnavailable})
  {
  }

  /** Whatever words a server sends, a renewal and a validation are granted only for the key, owner and
      token asked about; a well-formed reply with another token leaves a renewal ambiguous and a
      validation unavailable. */
  lemma ReadsOwnOnly(owned: Record, reply: seq<Text>)
    ensures var parsed := ParseRecord(owned.key, owned.owner, reply, StaleOwner);
            var renewed, validated := ReadRenewed(owned, reply), ReadValidated(owned, reply);
            && (renewed.Granted? <==> parsed.Granted? && SameOwner(parsed.record, owned))
            && (renewed.Granted? ==> renewed == validated == parsed && parsed.record.key == owned.key)
            && (parsed.Granted? && !renewed.Granted? ==>
                  renewed == Refused({AmbiguousOutcome}) && validated == Refused({BackendUnavailable}))
            && (parsed.Refused? ==> renewed == validated == parsed)
  {
  }

  /** Expiry and removal of one key's hash leave its fence and every other key alone. */
  lemma TouchRefines(s: State, now: int, k: Text)
    requires s.Wf()
    ensures var s' := s.Touched(k, Millis(now));
            && s'.Wf() && s'.CellOf(k) == s.CellOf(k).Lapsed(now)
            && forall other :: other != k ==> s'.CellOf(other) == s.CellOf(other)
  {
  }

  lemma RemoveRefines(s: State, k: Text)
    requires s.Wf()
    ensures var s' := s.(hashes := s.hashes - {k});
            && s'.Wf() && s'.CellOf(k) == Vacant(s.CellOf(k).fence)
            && forall other :: other != k ==> s'.CellOf(other) == s.CellOf(other)
  {
  }

  lemma Rewrites(s: State, k: Text, counter: int, h: Hash)
    requires s.Wf() && 0 < counter <= MAX_INT64 && HashWf(h, counter)
    ensures var s' := State(s.hashes[k := h], s.counters[k := counter]);
            s'.Wf() && forall other :: other != k ==> s'.CellOf(other) == s.CellOf(other)
  {
  }

  /** What a lifetime from a floored start leaves after truncation. */
  lemma FlooredLifetime(now: int, ttl: int)
    requires MILLISECOND <= ttl
    ensures now + ttl - Loss(Valkey, ttl) <= (Millis(now) + WholeMillis(ttl)) * MILLISECOND
    ensures Millis(now) * MILLISECOND <= now < (Millis(now) + WholeMillis(ttl)) * MILLISECOND
  {
  }

  lemma InstallRefines(s: State, now: int, k: Text, owner: Text, ttl: int)
    requires s.Wf() && MILLISECOND <= ttl && s.FenceOf(k) < MAX_INT64
    ensures var nowms, ms, token := Millis(now), WholeMillis(ttl), s.FenceOf(k) + 1;
            var s' := Installed(s, k, owner, token, nowms, ms);
            && s'.Wf()
            && s'.CellOf(k) == Owned(token, owner, token, nowms * MILLISECOND, (nowms + ms) * MILLISECOND)
            && forall other :: other != k ==> s'.CellOf(other) == s.CellOf(other)
  {
    var nowms, ms, token := Millis(now), WholeMillis(ttl), s.FenceOf(k) + 1;
    Rewrites(s, k, token, Hash(owner, Decimal(token), Decimal(nowms), Decimal(nowms + ms), nowms + ms));
  }

  lemma ExtendRefines(s: State, now: int, k: Text, ttl: int)
    requires s.Wf() && MILLISECOND <= ttl && k in s.hashes
    ensures var nowms, ms := Millis(now), WholeMillis(ttl);
            var s' := Extended(s, k, nowms, ms);
            && s'.Wf()
            && s.CellOf(k).Owned? && s'.CellOf(k) == s.CellOf(k).(expiry := (nowms + ms) * MILLISECOND)
            && forall other :: other != k ==> s'.CellOf(other) == s.CellOf(other)
  {
    var nowms, ms := Millis(now), WholeMillis(ttl);
    Rewrites(s, k, s.counters[k], s.hashes[k].(expires := Decimal(nowms + ms), until := nowms + ms));
    assert s.counters[k := s.counters[k]] == s.counters;
  }

  /** A one-word reply other than the success word is the expected refusal. */
  lemma OneWord(key: Text, owner: Text, expected: Sentinel)
    ensures ParseRecord(key, owner, [CONTENDED], expected) == Refused({expected})
    ensures ParseRecord(key, owner, [STALE], expected) == Refused({expected})
    ensures [OK] != [STALE] && [MISSING] != [STALE] && [MISSING] != [OK]
  {
    assert |CONTENDED| != |OK| && |STALE| != |OK| && |MISSING| != |OK| && |MISSING| != |STALE|;
    assert [OK][0] == OK && [STALE][0] == STALE && [MISSING][0] == MISSING;
  }

  /** The client's view of an acquisition that the server carries out. */
  lemma GrantOutcome(s: State, now: int, key: Text, owner: Text, ttl: int)
    requires s.Wf() && InputError(false, key, owner, 1, ttl).None?
    requires !s.Exists(key, Millis(now)) && s.FenceOf(key) < MAX_INT64
    ensures var nowms, ms, token := Millis(now), WholeMillis(ttl), s.FenceOf(key) + 1;
            Acquired(s, now, false, key, owner, ttl) ==
            (Installed(s.Touched(key, nowms), key, owner, token, nowms, ms),
             if -MAX_INT64 - 1 <= nowms && nowms + ms <= MAX_INT64
             then Granted(Record(key, owner, token, nowms * MILLISECOND, (nowms + ms) * MILLISECOND))
             else Refused({BackendUnavailable}))
  {
    var nowms, ms, token := Millis(now), WholeMillis(ttl), s.FenceOf(key) + 1;
    assert 1 <= ms;
    DecodeExact(key, owner, token, nowms, nowms + ms, Contended);
  }

  lemma RefuseOutcome(s: State, now: int, key: Text, owner: Text, ttl: int)
    requires s.Wf() && InputError(false, key, owner, 1, ttl).None?
    requires s.Exists(key, Millis(now)) || s.FenceOf(key) == MAX_INT64
    ensures Acquired(s, now, false, key, owner, ttl) ==
            if s.Exists(key, Millis(now)) then (s, Refused({Contended}))
            else (s.Touched(key, Millis(now)), Refused({AmbiguousOutcome}))
  {
    OneWord(key, owner, Contended);
  }

  lemma GrantRefines(s: State, now: int, key: Text, owner: Text, ttl: int)
    requires s.Wf() && InputError(false, key, owner, 1, ttl).None?
    requires !s.Exists(key, Millis(now)) && s.FenceOf(key) < MAX_INT64
    ensures var (s', reply) := Acquired(s, now, false, key, owner, ttl);
            && s'.Wf()
            && Installs(Valkey, s.CellOf(key), now, owner, ttl, s'.CellOf(key))
            && (reply == Granted(s'.CellOf(key).Report(key)) || reply == Refused({BackendUnavailable}))
            && forall k :: k != key ==> s'.CellOf(k) == s.CellOf(k)
  {
    var s1 := s.Touched(key, Millis(now));
    GrantOutcome(s, now, key, owner, ttl);
    TouchRefines(s, now, key);
    HoldsMeansMatches(s, now, Record(key, owner, 1, 0, 0));
    FlooredLifetime(now, ttl);
    InstallRefines(s1, now, key, owner, ttl);
  }

  lemma AcquireRefines(s: State, now: int, canceled: bool, key: Text, owner: Text, ttl: int)
    requires s.Wf()
    ensures var (s', reply) := Acquired(s, now, canceled, key, owner, ttl);
            && s'.Wf()
            && ServesAcquire(Valkey, s.CellOf(key), now, key, owner, ttl, reply, s'.CellOf(key))
            && forall k :: k != key ==> s'.CellOf(k) == s.CellOf(k)
  {
    if InputError(canceled, key, owner, 1, ttl).None? {
      if s.Exists(key, Millis(now)) || s.FenceOf(key) == MAX_INT64 {
        RefuseOutcome(s, now, key, owner, ttl);
        HoldsMeansMatches(s, now, Record(key, owner, 1, 0, 0));
        TouchRefines(s, now, key);
      } else {
        GrantRefines(s, now, key, owner, ttl);
      }
    }
  }

  /** The client's view of a renewal and of a validation. */
  lemma RenewOutcome(s: State, now: int, owned: Record, ttl: int)
    requires s.Wf() && InputError(false, owned.key, owned.owner, owned.token, ttl).None?
    ensures var nowms, ms, cell := Millis(now), WholeMillis(ttl), s.CellOf(owned.key);
            if cell.Matches(owned) && now < cell.expiry then
              && owned.key in s.hashes
              && var acquired := s.hashes[owned.key].acquired.number;
              && cell.acquired == acquired * MILLISECOND
              && Renewed(s, now, false, owned, ttl) ==
                 (Extended(s, owned.key, nowms, ms),
                  if acquired < nowms + ms && -MAX_INT64 - 1 <= acquired && nowms + ms <= MAX_INT64
                  then Granted(Record(owned.key, owned.owner, owned.token, acquired * MILLISECOND,
                                      (nowms + ms) * MILLISECOND))
                  else Refused({BackendUnavailable}))
            else Renewed(s, now, false, owned, ttl) == (s.Touched(owned.key, nowms), Refused({StaleOwner}))
  {
    var nowms, ms := Millis(now), WholeMillis(ttl);
    HoldsMeansMatches(s, now, owned);
    OneWord(owned.key, owned.owner, StaleOwner);
    if Holds(s, nowms, owned.key, owned.owner, FormatInt(owned.token)) {
      DecodeExact(owned.key, owned.owner, owned.token, s.hashes[owned.key].acquired.number, nowms + ms, StaleOwner);
    }
  }

  lemma RenewRefines(s: State, now: int, canceled: bool, owned: Record, ttl: int)
    requires s.Wf()
    ensures var (s', reply) := Renewed(s, now, canceled, owned, ttl);
            && s'.Wf()
            && ServesRenew(Valkey, s.CellOf(owned.key), now, owned, ttl, reply, s'.CellOf(owned.key))
            && forall k :: k != owned.key ==> s'.CellOf(k) == s.CellOf(k)
  {
    if InputError(canceled, owned.key, owned.owner, owned.token, ttl).None? {
      RenewOutcome(s, now, owned, ttl);
      TouchRefines(s, now, owned.key);
      if s.CellOf(owned.key).Matches(owned) && now < s.CellOf(owned.key).expiry {
        FlooredLifetime(now, ttl);
        ExtendRefines(s, now, owned.key, ttl);
      }
    }
  }

  lemma ValidateRefines(s: State, now: int, canceled: bool, owned: Record)
    requires s.Wf()
    ensures var (s', reply) := Validated(s, now, canceled, owned);
            && s'.Wf()
            && ServesValidate(Valkey, s.CellOf(owned.key), now, owned, reply, s'.CellOf(owned.key))
            && forall k :: k != owned.key ==> s'.CellOf(k) == s.CellOf(k)
  {
    if InputError(canceled, owned.key, owned.owner, owned.token, MILLISECOND).None? {
      HoldsMeansMatches(s, now, owned);
      TouchRefines(s, now, owned.key);
      if Holds(s, Millis(now), owned.key, owned.owner, FormatInt(owned.token)) {
        var h := s.hashes[owned.key];
        DecodeExact(owned.key, owned.owner, owned.token, h.acquired.number, h.until, StaleOwner);
      }
    }
  }

  lemma ReleaseRefines(s: State, now: int, canceled: bool, owned: Record)
    requires s.Wf()
    ensures var (s', reply) := Released(s, now, canceled, owned);
            && s'.Wf()
            && ServesRelease(Valkey, s.CellOf(owned.key), now, owned, reply, s'.CellOf(owned.key))
            && forall k :: k != owned.key ==> s'.CellOf(k) == s.CellOf(k)
  {
    if InputError(canceled, owned.key, owned.owner, owned.token, MILLISECOND).None? {
      HoldsMeansMatches(s, now, owned);
      OneWord(owned.key, owned.owner, StaleOwner);
      TouchRefines(s, now, owned.key);
      if Holds(s, Millis(now), owned.key, owned.owner, FormatInt(owned.token)) {
        RemoveRefines(s, owned.key);
      }
    }
  }

  /** Every operation is a step of the vacant/owned machine on its own key and no step on others. */
  lemma Refines(s: State, now: int, canceled: bool, request: Request)
    requires s.Wf()
    ensures var (s', reply) := Exec(s, now, canceled, request);
            && s'.Wf()
            && Serves(Valkey, s.CellOf(request.Key()), now, request, reply, s'.CellOf(request.Key()))
            && forall k :: k != request.Key() ==> s'.CellOf(k) == s.CellOf(k)
  {
    match request
    case TryAcquire(key, owner, ttl) => AcquireRefines(s, now, canceled, key, owner, ttl);
    case Renew(owned, ttl) => RenewRefines(s, now, canceled, owned, ttl);
    case Validate(owned) => ValidateRefines(s, now, canceled, owned);
    case Release(owned) => ReleaseRefines(s, now, canceled, owned);
  }

  /** Times a 64-bit decoder can read. */
  predicate InRange(s: State, now: int, request: Request) {
    && (request.TryAcquire? || request.Renew? ==>
          && -MAX_INT64 - 1 <= Millis(now)
          && (0 <= request.ttl ==> Millis(now) + WholeMillis(request.ttl) <= MAX_INT64))
    && (!request.Release? && request.Key() in s.hashes ==>
          -MAX_INT64 - 1 <= s.hashes[request.Key()].acquired.number && s.hashes[request.Key()].until <= MAX_INT64)
  }

  /** Releasing succeeds on the current record and where no live hash is left. */
  predicate Recognizes(s: State, now: int, owned: Record) {
    s.CellOf(owned.key).Free(now) || s.CellOf(owned.key).Matches(owned)
  }

  lemma AcquireDefinite(s: State, now: int, key: Text, owner: Text, ttl: int)
    requires s.Wf() && WellFormed(Valkey, TryAcquire(key, owner, ttl)) && s.CellOf(key).fence < MAX_INT64
    requires InRange(s, now, TryAcquire(key, owner, ttl))
    ensures Acquired(s, now, false, key, owner, ttl).1 ==
            Answer(Valkey, s.CellOf(key), now, TryAcquire(key, owner, ttl), false)
  {
    HoldsMeansMatches(s, now, Record(key, owner, 1, 0, 0));
    if s.Exists(key, Millis(now)) {
      RefuseOutcome(s, now, key, owner, ttl);
    } else {
      GrantOutcome(s, now, key, owner, ttl);
    }
  }

  lemma ValidateDefinite(s: State, now: int, owned: Record)
    requires s.Wf() && WellFormed(Valkey, Validate(owned)) && InRange(s, now, Validate(owned))
    ensures Validated(s, now, false, owned).1 == Answer(Valkey, s.CellOf(owned.key), now, Validate(owned), false)
  {
    HoldsMeansMatches(s, now, owned);
    OneWord(owned.key, owned.owner, StaleOwner);
    if Holds(s, Millis(now), owned.key, owned.owner, FormatInt(owned.token)) {
      var h := s.hashes[owned.key];
      DecodeExact(owned.key, owned.owner, owned.token, h.acquired.number, h.until, StaleOwner);
    }
  }

  lemma Definite(s: State, now: int, request: Request)
    requires s.Wf() && WellFormed(Valkey, request) && InRange(s, now, request)
    requires request.TryAcquire? ==> s.CellOf(request.key).fence < MAX_INT64
    ensures Exec(s, now, false, request).1 ==
            Answer(Valkey, s.CellOf(request.Key()), now, request, request.Release? && Recognizes(s, now, request.owned))
  {
    match request
    case TryAcquire(key, owner, ttl) => AcquireDefinite(s, now, key, owner, ttl);
    case Renew(owned, ttl) => RenewOutcome(s, now, owned, ttl);
    case Validate(owned) => ValidateDefinite(s, now, owned);
    case Release(owned) =>
      HoldsMeansMatches(s, now, owned);
      OneWord(owned.key, owned.owner, StaleOwner);
  }

  /** Releasing the current record deletes its hash. */
  lemma ReleaseDeletes(s: State, now: int, owned: Record)
    requires s.Wf() && WellFormed(Valkey, Release(owned))
    requires s.CellOf(owned.key).Matches(owned) && now < s.CellOf(owned.key).expiry
    ensures Released(s, now, false, owned) == (s.(hashes := s.hashes - {owned.key}), Done)
  {
    HoldsMeansMatches(s, now, owned);
    OneWord(owned.key, owned.owner, StaleOwner);
  }

  /** The server's side of the four scripts. */
  class Server {
    var hashes: map<Text, Hash>
    var counters: map<Text, int>

    ghost function View(): State
      reads this
    {
      State(hashes, counters)
    }

    constructor ()
      ensures View() == State(map[], map[]) && View().Wf()
    {
      hashes, counters := map[], map[];
    }

    /** EXISTS, which removes a hash whose time is up. */
    method Exists(k: Text, nowms: int) returns (found: bool)
      modifies this`hashes
      ensures View() == old(View()).Touched(k, nowms) && found == old(View()).Exists(k, nowms) == (k in hashes)
    {
      found := k in hashes && nowms < hashes[k].until;
      if !found {
        hashes := hashes - {k};
      }
    }

    method Acquire(now: int, k: Text, owner: Text, ms: int) returns (reply: Option<seq<Text>>)
      requires View().Wf()
      modifies this
      ensures (View(), reply) == AcquireScript(old(View()), now, k, owner, ms)
    {
      var nowms := Millis(now);
      var found := Exists(k, nowms);
      if found {
        return Some([CONTENDED]);
      }
      var token := if k in counters then counters[k] else 0;
      if token == MAX_INT64 {
        return None;
      }
      counters := counters[k := token + 1];
      var exact := FormatInt(token + 1);
      hashes := hashes[k := Hash(owner, Decimal(token + 1), Decimal(nowms), Decimal(nowms + ms), nowms + ms)];
      return Some([OK, exact, FormatInt(nowms), FormatInt(nowms + ms)]);
    }

    method Renew(now: int, k: Text, owner: Text, token: Text, ms: int) returns (reply: seq<Text>)
      modifies this
      ensures (View(), reply) == RenewScript(old(View()), now, k, owner, token, ms)
    {
      var nowms := Millis(now);
      var found := Exists(k, nowms);
      if !found || hashes[k].owner != owner || hashes[k].token.text != token {
        return [STALE];
      }
      ghost var before := hashes;
      hashes := hashes[k := hashes[k].(expires := Decimal(nowms + ms))];
      hashes := hashes[k := hashes[k].(until := nowms + ms)];
      assert hashes == before[k := before[k].(expires := Decimal(nowms + ms), until := nowms + ms)];
      return [OK, token, hashes[k].acquired.text, FormatInt(nowms + ms)];
    }

    method Validate(now: int, k: Text, owner: Text, token: Text) returns (reply: seq<Text>)
      modifies this
      ensures (View(), reply) == ValidateScript(old(View()), now, k, owner, token)
    {
      var found := Exists(k, Millis(now));
      if !found || hashes[k].owner != owner || hashes[k].token.text != token {
        return [STALE];
      }
      return [OK, token, hashes[k].acquired.text, hashes[k].expires.text];
    }

    method Release(now: int, k: Text, owner: Text, token: Text) returns (reply: seq<Text>)
      modifies this
      ensures (View(), reply) == ReleaseScript(old(View()), now, k, owner, token)
    {
      var found := Exists(k, Millis(now));
      if !found {
        return [MISSING];
      }
      if hashes[k].owner != owner || hashes[k].token.text != token {
        return [STALE];
      }
      hashes := hashes - {k};
      return [OK];
    }
  }
}
