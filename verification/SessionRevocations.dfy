/** The ledger of back-channel logouts.

    A session is a signed token without a row of its own, so a logout is remembered as
    "whatever started at or before this moment is no longer good" and looked up whenever
    a token is about to be issued again. The record may be swept once its expiry has
    passed; the main results say exactly when that never gives a stopped login back. */
module SessionRevocations {
  import opened Wrappers

  datatype FederatedSession = FederatedSession(issuer: string, subject: string, sessionId: Option<string>)

  datatype FederatedLogin = FederatedLogin(session: FederatedSession, startedAt: int)

  datatype Revocation = Revocation(session: FederatedSession, revokedAt: int, expiresAt: int)

  type Records = map<string, Revocation>   // by jti

  // ------------------------------------------------------------ who is covered

  /** The domain's own rule. */
  predicate Covers(r: Revocation, login: FederatedLogin) {
    if (r.session.issuer, r.session.subject) != (login.session.issuer, login.session.subject) then false
    else if r.session.sessionId.Some? && r.session.sessionId != login.session.sessionId then false
    else login.startedAt <= r.revokedAt
  }

  /** SQL's three truth values. */
  datatype Truth = True | False | Unknown

  function Or(a: Truth, b: Truth): Truth {
    if a.True? || b.True? then True else if a.False? && b.False? then False else Unknown
  }

  function And(a: Truth, b: Truth): Truth {
    if a.False? || b.False? then False else if a.True? && b.True? then True else Unknown
  }

  function Of(b: bool): Truth {
    if b then True else False
  }

  /** Unknown is true or false, nobody knows which. */
  lemma TruthTables(a: Truth)
    ensures Or(True, a) == Or(a, True) == True && Or(False, a) == Or(a, False) == a && Or(Unknown, Unknown) == Unknown
    ensures And(False, a) == And(a, False) == False && And(True, a) == And(a, True) == a && And(Unknown, Unknown) == Unknown
  {
  }

  /** column = value; a NULL column compares to nothing. */
  function SqlEquals(column: Option<string>, value: string): Truth {
    if column.None? then Unknown else Of(column.value == value)
  }

  /** The WHERE clause of the look-up. */
  function Selects(r: Revocation, login: FederatedLogin): Truth {
    var target := login.session;
    var isNull := Of(r.session.sessionId.None?);
    var matchesSession :=
      if target.sessionId.Some? then Or(isNull, SqlEquals(r.session.sessionId, target.sessionId.value)) else isNull;
    And(And(And(Of(r.session.issuer == target.issuer), Of(r.session.subject == target.subject)),
            Of(r.revokedAt >= login.startedAt)), matchesSession)
  }

  /** The query finds exactly the records that cover the login, NULLs included. */
  lemma QueryFindsTheCoveringRecords(r: Revocation, login: FederatedLogin)
    ensures Selects(r, login) == True <==> Covers(r, login)
  {
  }

  ghost predicate IsRevoked(records: Records, login: FederatedLogin) {
    exists jti :: jti in records && Covers(records[jti], login)
  }

  // ------------------------------------------------------------ how long it is kept

  /** The later of the given end and the last end of any login on record. */
  ghost predicate IsKeptUntil(until: int, earliest: int, ends: map<string, int>) {
    && earliest <= until
    && (forall id :: id in ends ==> ends[id] <= until)
    && (until == earliest || exists id :: id in ends && ends[id] == until)
  }

  lemma {:induction false} SomeEndIsLast(ends: set<int>, end: int) returns (last: int)
    requires end in ends
    ensures last in ends && forall e :: e in ends ==> e <= last
    decreases ends
  {
    var rest := ends - {end};
    assert ends == {end} + rest;
    last := end;
    if next :| next in rest {
      var other := SomeEndIsLast(rest, next);
      last := if end < other then other else end;
    }
  }

  lemma SomeBound(ends: map<string, int>, earliest: int) returns (until: int)
    ensures IsKeptUntil(until, earliest, ends)
  {
    if someone :| someone in ends {
      var last := SomeEndIsLast(ends.Values, ends[someone]);
      assert ends[someone] in ends.Values;
      assert forall id :: id in ends ==> ends[id] in ends.Values;
      until := if earliest >= last then earliest else last;
    } else {
      until := earliest;
    }
  }

  function SweptRecords(records: Records, now: int): Records {
    map jti | jti in records && !(records[jti].expiresAt < now) :: records[jti]
  }

  /** The table after a logout arrived that is to be kept until `until`. */
  function RecordsAfter(
      records: Records, jti: string, session: FederatedSession, revokedAt: int, until: int, now: int): Records
  {
    var swept := SweptRecords(records, now);
    if jti in swept then swept else swept[jti := Revocation(session, revokedAt, until)]
  }

  class SqlSessionRevocationRepository {
    var records: Records
    /** The ends of the logins on record (refresh_sessions.expires_at, by id). */
    var refreshEnds: map<string, int>

    constructor ()
      ensures records == map[] && refreshEnds == map[]
    {
      records, refreshEnds := map[], map[];
    }

    /** SELECT max(expires_at), and the later of it and `earliest`. */
    method KeptUntil(earliest: int) returns (until: int)
      ensures IsKeptUntil(until, earliest, refreshEnds)
      ensures earliest <= until && forall id :: id in refreshEnds ==> refreshEnds[id] <= until
      ensures earliest < until ==> exists id :: id in refreshEnds && refreshEnds[id] == until
    {
      if refreshEnds == map[] {
        return earliest;
      }
      var someone :| someone in refreshEnds;
      assert refreshEnds[someone] in refreshEnds.Values;
      ghost var last := SomeEndIsLast(refreshEnds.Values, refreshEnds[someone]);
      var lastEnd :| lastEnd in refreshEnds.Values && forall e :: e in refreshEnds.Values ==> e <= lastEnd;
      assert forall id :: id in refreshEnds ==> refreshEnds[id] in refreshEnds.Values;
      return if earliest >= lastEnd then earliest else lastEnd;
    }

    /** Sweeps, ignores a jti that is already there, and remembers the logout otherwise. */
    method Record(jti: string, session: FederatedSession, revokedAt: int, expiresAt: int, now: int)
      returns (recorded: bool)
      modifies this`records
      ensures recorded <==> jti !in SweptRecords(old(records), now)
      ensures exists until ::
        && IsKeptUntil(until, expiresAt, refreshEnds)
        && records == RecordsAfter(old(records), jti, session, revokedAt, until, now)
    {
      ghost var before := records;
      records := SweptRecords(records, now);
      if jti in records {
        ghost var unused := SomeBound(refreshEnds, expiresAt);
        assert records == RecordsAfter(before, jti, session, revokedAt, unused, now);
        return false;
      }
      var until := KeptUntil(expiresAt);
      assert IsKeptUntil(until, expiresAt, refreshEnds);
      records := records[jti := Revocation(session, revokedAt, until)];
      assert records == RecordsAfter(before, jti, session, revokedAt, until, now);
      return true;
    }

    /** SELECT jti ... LIMIT 1, and whether anything came back: a record of the same person, for
        all sessions or for this one, of a moment at or after the login began. */
    method CheckRevoked(login: FederatedLogin) returns (revoked: bool)
      ensures revoked <==> IsRevoked(records, login)
      ensures revoked <==>
              (exists jti ::
                 && jti in records
                 && records[jti].session.issuer == login.session.issuer
                 && records[jti].session.subject == login.session.subject
                 && (records[jti].session.sessionId == None
                     || records[jti].session.sessionId == login.session.sessionId)
                 && login.startedAt <= records[jti].revokedAt)
    {
      var found := set jti | jti in records && Selects(records[jti], login) == True;
      forall jti | jti in records ensures Selects(records[jti], login) == True <==> Covers(records[jti], login) {
        QueryFindsTheCoveringRecords(records[jti], login);
      }
      revoked := found != {};
      if !revoked {
        assert forall jti :: jti in records ==> jti !in found;
      } else {
        var jti :| jti in found;
        assert Covers(records[jti], login);
      }
    }
  }

  // ------------------------------------------------------------ whom a logout reaches

  /** A new notice without a session id stops every login the person began by then, whatever its
      session; one with a session id stops those of that session; and it stops nobody else. */
  lemma LogoutReachesExactly(
    records: Records, jti: string, session: FederatedSession, revokedAt: int, until: int, now: int,
    login: FederatedLogin)
    requires jti !in SweptRecords(records, now)
    ensures var after := RecordsAfter(records, jti, session, revokedAt, until, now);
            IsRevoked(after, login) <==>
            || IsRevoked(SweptRecords(records, now), login)
            || (&& session.issuer == login.session.issuer && session.subject == login.session.subject
                && (session.sessionId == None || session.sessionId == login.session.sessionId)
                && login.startedAt <= revokedAt)
  {
    var swept, after := SweptRecords(records, now), RecordsAfter(records, jti, session, revokedAt, until, now);
    assert forall j :: j in swept ==> j in after && after[j] == swept[j];
    assert after[jti] == Revocation(session, revokedAt, until);
  }

  /** A sweep takes exactly the records whose time is over. */
  lemma SweepTakesExactly(records: Records, now: int, jti: string)
    ensures jti in SweptRecords(records, now) <==> jti in records && now <= records[jti].expiresAt
    ensures jti in SweptRecords(records, now) ==> SweptRecords(records, now)[jti] == records[jti]
  {
  }

  /** A notice arrives, and then somebody asks for a new token. */
  method LogoutThenCheck(
    repository: SqlSessionRevocationRepository, jti: string, session: FederatedSession, revokedAt: int,
    expiresAt: int, now: int, login: FederatedLogin)
    returns (recorded: bool, revoked: bool)
    modifies repository`records
    ensures (&& recorded && session.issuer == login.session.issuer && session.subject == login.session.subject
             && (session.sessionId == None || session.sessionId == login.session.sessionId)
             && login.startedAt <= revokedAt)
            ==> revoked
    ensures old(repository.records) == map[] ==>
              && recorded
              && (revoked <==>
                  && session.issuer == login.session.issuer && session.subject == login.session.subject
                  && (session.sessionId == None || session.sessionId == login.session.sessionId)
                  && login.startedAt <= revokedAt)
  {
    ghost var before := repository.records;
    recorded := repository.Record(jti, session, revokedAt, expiresAt, now);
    revoked := repository.CheckRevoked(login);
    if recorded {
      ghost var until :| IsKeptUntil(until, expiresAt, repository.refreshEnds)
        && repository.records == RecordsAfter(before, jti, session, revokedAt, until, now);
      LogoutReachesExactly(before, jti, session, revokedAt, until, now, login);
    }
  }
}
