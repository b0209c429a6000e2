/** Values shared by every component: text, sentinels, records, requests and replies. */
module Leases {

  newtype byte = x: int | 0 <= x < 256

  /** Go strings are byte sequences; keys and owners are compared byte by byte. */
  type Text = seq<byte>

  datatype Option<+T> = None | Some(value: T)

  const MAX_INT64: int := 0x7fff_ffff_ffff_ffff
  const MAX_UINT64: int := 0xffff_ffff_ffff_ffff
  const MILLISECOND: int := 1_000_000
  const MAX_OWNER_BYTES: nat := 128

  /** The package's error sentinels. */
  datatype Sentinel =
    | Contended
    | Timeout
    | Canceled
    | Lost
    | StaleOwner
    | BackendUnavailable
    | InvalidState
    | AmbiguousOutcome

  /** An error value is the set of sentinels that `errors.Is` finds in it, so a join is a union
      and an error of foreign origin may be empty. */
  type Error = set<Sentinel>

  /** A nil error is None; joining keeps every sentinel. */
  type Outcome = Option<Error>

  function Join(a: Outcome, b: Outcome): Outcome {
    if a.None? then b else if b.None? then a else Some(a.value + b.value)
  }

  /** The sentinels found in an outcome. */
  function Found(o: Outcome): Error {
    if o.None? then {} else o.value
  }

  /** A join is nil only if both are, and loses and invents no sentinel. */
  lemma JoinKeeps(a: Outcome, b: Outcome)
    ensures Join(a, b).None? <==> a.None? && b.None?
    ensures Found(Join(a, b)) == Found(a) + Found(b)
  {
  }

  datatype Result<+T> = Ok(value: T) | Err(error: Error)

  /** All instants are nanosecond counts; 0 stands for Go's zero time. */
  datatype Record = Record(key: Text, owner: Text, token: nat, acquiredAt: int, expiresAt: int)

  datatype Request =
    | TryAcquire(key: Text, owner: Text, ttl: int)
    | Renew(owned: Record, ttl: int)
    | Validate(owned: Record)
    | Release(owned: Record)
  {
    function Key(): Text {
      if TryAcquire? then key else owned.key
    }
  }

  datatype Reply = Granted(record: Record) | Done | Refused(error: Error)

  /** Owner and token together identify an acquisition. */
  predicate SameOwner(current: Record, candidate: Record) {
    current.owner == candidate.owner && current.token == candidate.token
  }

  /** What a backend reply must satisfy before it may replace a handle's record. */
  predicate SameAcquisition(current: Record, next: Record) {
    && current.key == next.key
    && SameOwner(current, next)
    && current.acquiredAt == next.acquiredAt
    && next.acquiredAt < next.expiresAt
  }

  /** What a backend reply must satisfy before a handle is opened on it. */
  predicate ValidAcquisition(key: Text, owner: Text, record: Record) {
    && record.key == key
    && record.owner == owner
    && record.token != 0
    && record.acquiredAt < record.expiresAt
  }

  /** Go's Duration.Milliseconds on a nonnegative duration. */
  function WholeMillis(duration: int): int
    requires 0 <= duration
  {
    duration / MILLISECOND
  }
}
