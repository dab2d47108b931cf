/** One use for each DPoP proof (sections 4.3 and 11.1 of RFC 9449).

    A proof is accepted while its iat lies in a window around the verifier's clock, and
    its key is remembered until the window has closed. Times are microseconds. Whole runs
    of many workers are in DpopReplayConcurrency. */
module DpopReplay {
  import opened Wrappers

  const SECOND := 1_000_000
  const MAX_PROOF_AGE := 120 * SECOND
  const MAX_CLOCK_AHEAD := 60 * SECOND

  /** The whole seconds a datetime can hold: the years 1 to 9999. */
  const FIRST_SECOND := -62135596800
  const LAST_SECOND := 253402300799

  // ------------------------------------------------------------ the verifier

  /** The iat claim; a missing claim, a bool and any other type are not numbers. */
  datatype Claim = Number(value: int) | NotANumber

  /** The claim as a moment, if it is one a datetime can hold and was issued at most 120 seconds
      ago and at most 60 seconds ahead, both ends included. */
  function CheckedIssuedAt(iat: Claim, now: int): (issuedAt: Option<int>)
    ensures issuedAt.Some? <==>
            && iat.Number? && -62135596800 <= iat.value <= 253402300799
            && now - 120_000_000 <= iat.value * 1_000_000 <= now + 60_000_000
    ensures issuedAt.Some? ==> issuedAt.value == iat.value * 1_000_000
  {
    if iat.NotANumber? then None
    else if !(FIRST_SECOND <= iat.value <= LAST_SECOND) then None
    else
      var issuedAt := iat.value * SECOND;
      if issuedAt < now - MAX_PROOF_AGE || issuedAt > now + MAX_CLOCK_AHEAD then None else Some(issuedAt)
  }

  /** Both edges belong to the window, and a microsecond further does not. */
  lemma EdgesOfTheWindow(seconds: int)
    requires FIRST_SECOND <= seconds <= LAST_SECOND
    ensures var issued := seconds * 1_000_000;
            && CheckedIssuedAt(Number(seconds), issued + 120_000_000) == Some(issued)
            && CheckedIssuedAt(Number(seconds), issued + 120_000_001) == None
            && CheckedIssuedAt(Number(seconds), issued - 60_000_000) == Some(issued)
            && CheckedIssuedAt(Number(seconds), issued - 60_000_001) == None
  {
  }

  /** What is hashed into the replay key. */
  function KeyMaterial(jkt: string, jti: string): string {
    jkt + ":" + jti
  }

  /** A key's thumbprint is base64url and has no colon, so jti is unique per key. */
  lemma {:induction false} KeyMaterialIsInjective(jkt: string, jti: string, jkt': string, jti': string)
    requires ':' !in jkt && ':' !in jkt'
    requires KeyMaterial(jkt, jti) == KeyMaterial(jkt', jti')
    ensures jkt == jkt' && jti == jti'
  {
    var m := KeyMaterial(jkt, jti);
    assert m[|jkt|] == ':' && m[|jkt'|] == ':';
    if |jkt| < |jkt'| {
      assert false;
    }
    if |jkt'| < |jkt| {
      assert false;
    }
    assert jkt == m[..|jkt|] == jkt';
    assert jti == m[|jkt| + 1..] == jti';
  }

  // ------------------------------------------------------------ the replay table

  type Rows = map<string, int>   // replay key to expires_at

  /** Until when a proof is remembered; `slack` is what is added to the window (none here). */
  function RetainUntil(issuedAt: int, slack: int): int {
    issuedAt + MAX_PROOF_AGE + slack
  }

  function SweptRows(rows: Rows, now: int): Rows {
    map key | key in rows && !(rows[key] < now) :: rows[key]
  }

  function RowsAfter(rows: Rows, key: string, retainUntil: int, now: int): Rows {
    var swept := SweptRows(rows, now);
    if key in swept then swept else swept[key := retainUntil]
  }

  class SqlDpopProofReplayRepository {
    var rows: Rows

    constructor ()
      ensures rows == map[]
    {
      rows := map[];
    }

    /** Sweeps, then inserts unless the key is present; one changed row means unused. */
    method RecordIfUnused(key: string, retainUntil: int, now: int) returns (unused: bool)
      modifies this
      ensures unused <==> key !in SweptRows(old(rows), now)
      ensures rows == RowsAfter(old(rows), key, retainUntil, now)
      ensures unused <==> key !in old(rows) || old(rows)[key] < now
      ensures forall k :: k in rows <==> k == key || (k in old(rows) && now <= old(rows)[k])
      ensures forall k :: k in rows ==> rows[k] == if k == key && unused then retainUntil else old(rows)[k]
    {
      rows := SweptRows(rows, now);
      var before := |rows|;
      if key !in rows {
        rows := rows[key := retainUntil];
      }
      return |rows| - before == 1;
    }
  }
}
