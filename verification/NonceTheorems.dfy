/** Replay protection over whole runs, although expired rows are deleted and times are compared as text. */
module NonceTheorems {
  import opened Wrappers
  import opened Timestamps
  import opened LocalTables

  datatype Call = Call(key: NonceKey, now: Moment, expires: Moment)

  /** Calls with a nondecreasing clock on one table that starts empty. */
  ghost predicate IsReplayRun(tables: seq<Nonces>, calls: seq<Call>) {
    && |tables| == |calls| + 1 && tables[0] == map[]
    && (forall i :: 0 <= i < |calls| ==> calls[i].now.Valid() && calls[i].expires.Valid())
    && (forall i, j :: 0 <= i < j < |calls| ==> Instant(calls[i].now) <= Instant(calls[j].now))
    && (forall i :: 0 <= i < |calls| ==> tables[i + 1] == Consume(tables[i], calls[i].key, calls[i].now, calls[i].expires).0)
  }

  predicate Accepted(tables: seq<Nonces>, calls: seq<Call>, i: nat)
    requires i < |calls| && |calls| < |tables| && calls[i].now.Valid() && calls[i].expires.Valid()
  {
    Consume(tables[i], calls[i].key, calls[i].now, calls[i].expires).1 == Ok(true)
  }

  /** Every stored row was put there by an accepted call. */
  lemma {:induction false} RowsComeFromCalls(tables: seq<Nonces>, calls: seq<Call>, n: nat, k: NonceKey)
    requires IsReplayRun(tables, calls) && n < |tables| && k in tables[n]
    ensures exists j :: 0 <= j < n && Accepted(tables, calls, j) && calls[j].key == k && tables[n][k] == Iso(calls[j].expires)
  {
    hide Iso, Less, Instant;
    if n > 0 {
      var c := calls[n - 1];
      if Accepted(tables, calls, n - 1) && c.key == k {
      } else {
        RowsComeFromCalls(tables, calls, n - 1, k);
      }
    }
  }

  /** The row of an accepted call stays for as long as the call's deadline lies ahead. */
  lemma {:induction false} LiveRowsStay(tables: seq<Nonces>, calls: seq<Call>, j: nat, n: nat)
    requires IsReplayRun(tables, calls) && j < n < |tables| && Accepted(tables, calls, j)
    requires Instant(calls[n - 1].now) < Instant(calls[j].expires)
    ensures calls[j].key in tables[n] && tables[n][calls[j].key] == Iso(calls[j].expires)
    decreases n
  {
    hide Iso, Less, Instant;
    if j + 1 < n {
      assert Instant(calls[n - 2].now) <= Instant(calls[n - 1].now);
      LiveRowsStay(tables, calls, j, n - 1);
      TextOrderIsTimeOrder(calls[n - 1].now, calls[j].expires);
    }
  }

  /** A nonce of 22 to 86 URL-safe characters, and a deadline ahead by at most five minutes. */
  predicate WellFormed(c: Call)
    requires c.now.Valid() && c.expires.Valid()
  {
    && 22 <= |c.key.nonce| <= 86 && (forall x :: x in c.key.nonce ==> 'A' <= x <= 'Z' || 'a' <= x <= 'z' || '0' <= x <= '9' || x in "_-")
    && 0 < Instant(c.expires) - Instant(c.now) <= 300_000_000
  }

  lemma WellFormedMeans(c: Call)
    requires c.now.Valid() && c.expires.Valid()
    ensures WellFormed(c) <==> NonceShape(c.key.nonce) && Acceptable(c.now, c.expires)
  {
    forall x: char ensures NonceCharacter(x) <==> 'A' <= x <= 'Z' || 'a' <= x <= 'z' || '0' <= x <= '9' || x in "_-" {
      assert "_-"[0] == '_' && "_-"[1] == '-';
    }
    hide NonceCharacter, Instant;
    var n := c.key.nonce;
    assert (forall x :: x in n ==> NonceCharacter(x)) <==> forall i :: 0 <= i < |n| ==> NonceCharacter(n[i]);
  }

  /**
   Deleting expired rows is invisible: a call is accepted exactly when it is well formed and no
   call accepted earlier for the same nonce is still ahead of its deadline.
   */
  lemma PurgeIsInvisible(tables: seq<Nonces>, calls: seq<Call>, i: nat)
    requires IsReplayRun(tables, calls) && i < |calls|
    ensures Accepted(tables, calls, i) <==>
      && WellFormed(calls[i])
      && !exists j :: 0 <= j < i && Accepted(tables, calls, j) && calls[j].key == calls[i].key
                      && Instant(calls[i].now) < Instant(calls[j].expires)
  {
    WellFormedMeans(calls[i]);
    hide Iso, Less, Instant, WellFormed, NonceShape;
    var c := calls[i];
    if c.key in Purged(tables[i], c.now) {
      RowsComeFromCalls(tables, calls, i, c.key);
      var j :| 0 <= j < i && Accepted(tables, calls, j) && calls[j].key == c.key && tables[i][c.key] == Iso(calls[j].expires);
      TextOrderIsTimeOrder(c.now, calls[j].expires);
    }
    forall j | 0 <= j < i && Accepted(tables, calls, j) && calls[j].key == c.key && Instant(c.now) < Instant(calls[j].expires)
      ensures c.key in Purged(tables[i], c.now)
    {
      assert Instant(calls[i - 1].now) <= Instant(c.now);
      LiveRowsStay(tables, calls, j, i);
      TextOrderIsTimeOrder(c.now, calls[j].expires);
    }
  }

  /** The same dispatch, with the same nonce and deadline, is accepted at most once. */
  lemma AcceptedAtMostOnce(tables: seq<Nonces>, calls: seq<Call>, i: nat, j: nat)
    requires IsReplayRun(tables, calls) && i < |calls| && j < |calls|
    requires calls[i].key == calls[j].key && calls[i].expires == calls[j].expires
    requires Accepted(tables, calls, i) && Accepted(tables, calls, j)
    ensures i == j
  {
    PurgeIsInvisible(tables, calls, i);
    PurgeIsInvisible(tables, calls, j);
  }
}
