/** The store that owns the worker's tables and updates them statement by statement. */
module LocalReferenceStores {
  import opened Wrappers
  import opened Timestamps
  import opened LocalTables

  class LocalReferenceStore<P(==, !new)> {
    var nonces: Nonces
    var outbox: Outbox<P>

    ghost predicate Valid()
      reads this
    {
      Keyed(outbox)
    }

    constructor ()
      ensures Valid() && nonces == map[] && outbox == map[]
    {
      nonces, outbox := map[], map[];
    }

    method ConsumeDispatchNonce(tenant: nat, device: nat, nonce: string, now: Moment, expiresAt: Moment)
      returns (accepted: Result<bool, Problem>)
      requires now.Valid() && expiresAt.Valid()
      modifies this`nonces
      ensures (nonces, accepted) == Consume(old(nonces), NonceKey(tenant, device, nonce), now, expiresAt)
    {
      if !NonceShape(nonce) {
        return Err(InvalidNonce);
      }
      if !(Instant(now) < Instant(expiresAt) && Instant(expiresAt) <= Instant(now) + MAX_DISPATCH_LIFETIME) {
        return Err(InvalidDeadline);
      }
      var text := Iso(now);
      nonces := map k | k in nonces && Less(text, nonces[k]) :: nonces[k];
      var key := NonceKey(tenant, device, nonce);
      if key in nonces {
        return Ok(false);
      }
      nonces := nonces[key := Iso(expiresAt)];
      return Ok(true);
    }

    method SavePendingResult(envelope: Envelope<P>) returns (problem: Option<Problem>)
      requires Valid()
      modifies this`outbox
      ensures Valid() && (outbox, problem) == Saved(old(outbox), envelope)
    {
      if envelope.Key() in outbox {
        return if outbox[envelope.Key()] == envelope then None else Some(OutboxConflict);
      }
      var keys := outbox.Keys;
      while keys != {}
        invariant keys <= outbox.Keys && outbox == old(outbox)
        invariant forall k :: k in outbox && k !in keys ==>
          !(outbox[k].tenant == envelope.tenant && outbox[k].device == envelope.device
            && outbox[k].operation == envelope.operation && outbox[k].command == envelope.command)
        decreases keys
      {
        var k :| k in keys;
        keys := keys - {k};
        var row := outbox[k];
        if row.tenant == envelope.tenant && row.device == envelope.device && row.operation == envelope.operation && row.command == envelope.command {
          assert Collides(outbox, envelope);
          return Some(OutboxUnavailable);
        }
      }
      outbox := outbox[envelope.Key() := envelope];
      return None;
    }

    /** The first row of this device in delivery order, if it has any. */
    method NextPendingResult(tenant: nat, device: nat) returns (next: Option<Envelope<P>>)
      requires Valid()
      ensures next.None? ==> forall k :: k in outbox ==> !Mine(outbox[k], tenant, device)
      ensures next.Some? ==> IsFirst(outbox, tenant, device, next.value)
    {
      next := None;
      var keys := outbox.Keys;
      while keys != {}
        invariant keys <= outbox.Keys
        invariant next.None? ==> forall k :: k in outbox && k !in keys ==> !Mine(outbox[k], tenant, device)
        invariant next.Some? ==> next.value.Key() in outbox && outbox[next.value.Key()] == next.value && Mine(next.value, tenant, device)
        invariant next.Some? ==> forall k :: k in outbox && k !in keys && Mine(outbox[k], tenant, device) ==> NotLater(next.value, outbox[k])
        decreases keys
      {
        var k :| k in keys;
        keys := keys - {k};
        var row := outbox[k];
        if Mine(row, tenant, device) {
          if next.None? {
            NotLaterOrder(row, row, row);
            next := Some(row);
          } else if !NotLater(next.value, row) {
            forall other | other in outbox && other !in keys && Mine(outbox[other], tenant, device)
              ensures NotLater(row, outbox[other])
            {
              if other == k {
                NotLaterOrder(row, row, row);
              } else {
                NotLaterOrder(row, next.value, outbox[other]);
              }
            }
            next := Some(row);
          }
        }
      }
    }

    method AcknowledgePendingResult(envelope: Envelope<P>) returns (problem: Option<Problem>)
      requires Valid()
      modifies this`outbox
      ensures Valid() && (outbox, problem) == Acknowledged(old(outbox), envelope)
    {
      if envelope.Key() in outbox && outbox[envelope.Key()] == envelope {
        outbox := outbox - {envelope.Key()};
        return None;
      }
      return Some(InvalidAcknowledgement);
    }
  }

  lemma {:induction false} LessTransitive(a: string, b: string, c: string)
    requires !Less(b, a) && !Less(c, b)
    ensures !Less(c, a)
  {
    if a != [] && b != [] && c != [] && a[0] == b[0] == c[0] {
      LessTransitive(a[1..], b[1..], c[1..]);
    }
  }

  lemma {:induction false} LessTotal(a: string, b: string)
    ensures Less(a, b) || Less(b, a) || a == b
    ensures !(Less(a, b) && Less(b, a))
  {
    if a != [] && b != [] && a[0] == b[0] {
      LessTotal(a[1..], b[1..]);
      assert a == [a[0]] + a[1..] && b == [b[0]] + b[1..];
    }
  }

  /** Delivery order is total and transitive. */
  lemma NotLaterOrder<P>(a: Envelope<P>, b: Envelope<P>, c: Envelope<P>)
    ensures NotLater(a, a)
    ensures NotLater(a, b) || NotLater(b, a)
    ensures (NotLater(a, b) || !NotLater(b, a)) && NotLater(b, c) ==> NotLater(a, c)
  {
    var x, y, z := Iso(a.completedAt), Iso(b.completedAt), Iso(c.completedAt);
    LessTotal(x, x);
    LessTotal(x, y);
    LessTotal(y, z);
    LessTotal(x, z);
    if !Less(y, x) && !Less(z, y) {
      LessTransitive(x, y, z);
      if x == z && x != y {
        LessTotal(y, x);
      }
    }
  }
}
