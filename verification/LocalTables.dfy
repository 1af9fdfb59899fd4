/** The worker's durable SQLite tables: accepted dispatch nonces and the outbox of signed results. */
module LocalTables {
  import opened Wrappers
  import opened Timestamps

  datatype NonceKey = NonceKey(tenant: nat, device: nat, nonce: string)

  datatype Problem = InvalidNonce | InvalidDeadline | OutboxConflict | OutboxUnavailable | InvalidAcknowledgement

  type Nonces = map<NonceKey, string>

  const MAX_DISPATCH_LIFETIME: int := 5 * 60 * 1_000_000

  predicate NonceCharacter(c: char) {
    'A' <= c <= 'Z' || 'a' <= c <= 'z' || '0' <= c <= '9' || c == '_' || c == '-'
  }

  /** The nonce pattern: 22 to 86 URL-safe characters. */
  predicate NonceShape(nonce: string) {
    22 <= |nonce| <= 86 && forall i :: 0 <= i < |nonce| ==> NonceCharacter(nonce[i])
  }

  predicate Acceptable(now: Moment, expires: Moment)
    requires now.Valid() && expires.Valid()
  {
    Instant(now) < Instant(expires) <= Instant(now) + MAX_DISPATCH_LIFETIME
  }

  /** The rows that survive `DELETE ... WHERE expires_at <= now`, compared as text. */
  function Purged(rows: Nonces, now: Moment): Nonces {
    map k | k in rows && Less(Iso(now), rows[k]) :: rows[k]
  }

  /** One dispatch offered to the replay table: the new rows, and whether it was accepted. */
  function Consume(rows: Nonces, key: NonceKey, now: Moment, expires: Moment): (Nonces, Result<bool, Problem>)
    requires now.Valid() && expires.Valid()
  {
    if !NonceShape(key.nonce) then (rows, Err(InvalidNonce))
    else if !Acceptable(now, expires) then (rows, Err(InvalidDeadline))
    else
      var kept := Purged(rows, now);
      if key in kept then (kept, Ok(false)) else (kept[key := Iso(expires)], Ok(true))
  }

  /* ------------------------------------------------------------ outbox */

  datatype OutboxKey = OutboxKey(tenant: nat, device: nat, task: nat)

  /** A signed result; `payload` stands for its canonical bytes, so equal payloads are equal results. */
  datatype Envelope<P> = Envelope(tenant: nat, device: nat, task: nat, operation: nat, command: nat, completedAt: Moment, payload: P)
  {
    function Key(): OutboxKey {
      OutboxKey(tenant, device, task)
    }
  }

  type Outbox<P> = map<OutboxKey, Envelope<P>>

  /** The uniqueness constraint over tenant, device, operation and command. */
  predicate Collides<P>(rows: Outbox<P>, e: Envelope<P>) {
    exists k :: k in rows && rows[k].tenant == e.tenant && rows[k].device == e.device
             && rows[k].operation == e.operation && rows[k].command == e.command
  }

  ghost function Saved<P(!new)>(rows: Outbox<P>, e: Envelope<P>): (Outbox<P>, Option<Problem>) {
    if e.Key() in rows then (rows, if rows[e.Key()] == e then None else Some(OutboxConflict))
    else if Collides(rows, e) then (rows, Some(OutboxUnavailable))
    else (rows[e.Key() := e], None)
  }

  function Acknowledged<P(==)>(rows: Outbox<P>, e: Envelope<P>): (Outbox<P>, Option<Problem>) {
    if e.Key() in rows && rows[e.Key()] == e then (rows - {e.Key()}, None) else (rows, Some(InvalidAcknowledgement))
  }

  predicate Mine<P>(e: Envelope<P>, tenant: nat, device: nat) {
    e.tenant == tenant && e.device == device
  }

  /** Ordered by completion time as text, then by task. */
  predicate NotLater<P>(a: Envelope<P>, b: Envelope<P>) {
    !Less(Iso(b.completedAt), Iso(a.completedAt)) && (Iso(a.completedAt) == Iso(b.completedAt) ==> a.task <= b.task)
  }

  ghost predicate IsFirst<P(!new)>(rows: Outbox<P>, tenant: nat, device: nat, e: Envelope<P>) {
    && e.Key() in rows && rows[e.Key()] == e && Mine(e, tenant, device)
    && forall k :: k in rows && Mine(rows[k], tenant, device) ==> NotLater(e, rows[k])
  }

  /** Rows are stored under their own key. */
  ghost predicate Keyed<P(!new)>(rows: Outbox<P>) {
    forall k :: k in rows ==> rows[k].Key() == k
  }
}
