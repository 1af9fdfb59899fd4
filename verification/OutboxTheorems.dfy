/** The outbox of signed results, in the fields of its rows and in time instead of text. */
module OutboxTheorems {
  import opened Wrappers
  import opened Timestamps
  import opened LocalTables

  /** Another row of the same device reports the same command of the same operation. */
  ghost predicate Reported<P(!new)>(rows: Outbox<P>, e: Envelope<P>) {
    exists k :: k in rows && rows[k].tenant == e.tenant && rows[k].device == e.device
             && rows[k].operation == e.operation && rows[k].command == e.command
  }

  /** A result is kept exactly when its task has this very row, or neither its task nor its command has one; nothing else changes. */
  lemma SavedMeans<P(!new)>(rows: Outbox<P>, e: Envelope<P>)
    ensures var key := OutboxKey(e.tenant, e.device, e.task);
            var (after, problem) := Saved(rows, e);
            if key in rows then after == rows && problem == (if rows[key] == e then None else Some(OutboxConflict))
            else if Reported(rows, e) then after == rows && problem == Some(OutboxUnavailable)
            else after == rows[key := e] && problem == None
  {
    assert Collides(rows, e) <==> Reported(rows, e);
  }

  /** Exactly the stored result leaves, and no other. */
  lemma AcknowledgedMeans<P>(rows: Outbox<P>, e: Envelope<P>)
    ensures var key := OutboxKey(e.tenant, e.device, e.task);
            var (after, problem) := Acknowledged(rows, e);
            if key in rows && rows[key] == e then problem == None && after.Keys == rows.Keys - {key} && forall k :: k in after ==> after[k] == rows[k]
            else problem == Some(InvalidAcknowledgement) && after == rows
  {
  }

  /** Saving and acknowledging a new result gives the old table back. */
  lemma SaveThenAcknowledge<P(!new)>(rows: Outbox<P>, e: Envelope<P>)
    requires Saved(rows, e).1.None? && OutboxKey(e.tenant, e.device, e.task) !in rows
    ensures Acknowledged(Saved(rows, e).0, e) == (rows, None)
  {
    assert (rows[e.Key() := e]) - {e.Key()} == rows;
  }

  ghost predicate TimesValid<P(!new)>(rows: Outbox<P>) {
    forall k :: k in rows ==> rows[k].completedAt.Valid()
  }

  /** The next result is the device's own, and no other of its own was completed earlier, or at the same time for a smaller task. */
  lemma FirstMeans<P(!new)>(rows: Outbox<P>, tenant: nat, device: nat, e: Envelope<P>)
    requires Keyed(rows) && TimesValid(rows) && e.completedAt.Valid()
    ensures IsFirst(rows, tenant, device, e) <==>
      && OutboxKey(e.tenant, e.device, e.task) in rows && rows[OutboxKey(e.tenant, e.device, e.task)] == e
      && e.tenant == tenant && e.device == device
      && forall k :: k in rows && k.tenant == tenant && k.device == device ==>
           && rows[k].completedAt.Valid()
           && (|| Instant(e.completedAt) < Instant(rows[k].completedAt)
               || (Instant(e.completedAt) == Instant(rows[k].completedAt) && e.task <= k.task))
  {
    forall k | k in rows
      ensures NotLater(e, rows[k]) <==>
        || Instant(e.completedAt) < Instant(rows[k].completedAt)
        || (Instant(e.completedAt) == Instant(rows[k].completedAt) && e.task <= rows[k].task)
    {
      SameInstant(e.completedAt, rows[k].completedAt);
      TextOrderIsTimeOrder(rows[k].completedAt, e.completedAt);
      hide Iso, Less, Instant;
    }
    hide NotLater, Iso, Less, Instant;
  }

  lemma SameInstant(a: Moment, b: Moment)
    requires a.Valid() && b.Valid()
    ensures Iso(a) == Iso(b) <==> Instant(a) == Instant(b)
  {
    hide Iso, Less, Instant;
    TextIsFieldOrder(a, b);
    TextIsFieldOrder(b, a);
    NotLessThanItself(Iso(a));
    if Before(a, b) {
      BeforeIsEarlier(a, b);
    } else if Before(b, a) {
      BeforeIsEarlier(b, a);
    } else {
      assert a == b;
    }
  }
}
