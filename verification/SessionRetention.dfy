/** How long logout notices must be kept when the settings do not change. */
module SessionRetention {
  import opened Wrappers
  import opened SessionRevocations
  import opened SessionRevocationRuns

  /** Some notice ever recorded covers the login. */
  ghost predicate Noticed(s: State, login: FederatedLogin) {
    exists n :: n in s.notices && Covers(n, login)
  }

  ghost predicate Initial(s: State) {
    && s.settings.Fixed? && Sensible(s)
    && s.records == map[] && s.notices == [] && s.tokens == {} && s.rowEnds == map[] && s.seen == {}
    && s.verified == {} && s.clean == {} && s.asked == {} && s.chosen == {} && s.written == {} && s.received == {}
  }

  /** In every run the swept ledger answers what one that keeps every notice would answer. */
  ghost predicate NothingIsForgotten(s: State) {
    forall events, t, k :: RunsTo(s, events, t) && Alive(t, k) ==> (IsRevoked(t.records, k.login) <==> Noticed(t, k.login))
  }

  function Later(a: int, b: int): int {
    if a < b then b else a
  }

  /** How long after the moment of a notice a token of a covered login can still be written: the
      login was being handed over, or a request saw the ledger before the notice was recorded. */
  function LastGrant(s: State): int
    requires s.settings.Fixed?
  {
    Later(s.settings.handOver, s.noticeDelay + s.delay)
  }

  /** Kept to the last moment of such a token. */
  predicate KeptLongEnough(s: State)
    requires s.settings.Fixed?
  {
    LastGrant(s) + s.settings.lifetime - 1 <= s.settings.keepFor
  }

  // ------------------------------------------------------------ the invariant

  /** What one notice means for one token it covers. */
  ghost predicate Bounded(s: State, n: Revocation, k: Token)
    requires s.settings.Fixed?
  {
    && k.ends - 1 <= n.revokedAt + LastGrant(s) + s.settings.lifetime - 1
    && (forall q :: q in s.clean && q.token == k ==>
                      q.verifiedAt <= n.revokedAt + s.noticeDelay || n.revokedAt + s.settings.keepFor < s.now)
    && (forall c :: c in s.chosen && c.request.token == k && Federated(c) ==>
                      c.request.verifiedAt <= n.revokedAt + s.noticeDelay)
  }

  ghost predicate Remembered(s: State, n: Revocation)
    requires s.settings.Fixed?
  {
    s.now <= n.revokedAt + s.settings.keepFor ==>
      exists jti :: jti in s.records && s.records[jti] == n && n.revokedAt + s.settings.keepFor <= n.expiresAt
  }

  ghost predicate Inv(s: State) {
    && s.settings.Fixed? && Sensible(s) && Honest(s)
    && (forall k :: k in s.tokens ==> k.ends <= s.now + s.settings.lifetime)
    && (forall jti :: jti in s.records ==> s.records[jti] in s.notices)
    && (forall r :: r in s.received ==> r.revokedAt <= s.now && r.revokedAt + s.settings.keepFor <= r.expiresAt)
    && (forall n :: n in s.notices ==> Remembered(s, n))
    && (forall n, k :: n in s.notices && k in s.tokens && Covers(n, k.login) ==> Bounded(s, n, k))
  }

  lemma StepKeepsRemembered(s: State, e: Event, n: Revocation)
    requires s.settings.Fixed? && Remembered(s, n) && Enabled(s, e)
    ensures Remembered(Next(s, e), n)
  {
    var t := Next(s, e);
    if t.now <= n.revokedAt + s.settings.keepFor {
      var jti :| jti in s.records && s.records[jti] == n && n.revokedAt + s.settings.keepFor <= n.expiresAt;
      assert jti in t.records && t.records[jti] == n;
    }
  }

  /** A request that sees no record of the notice comes after the record's time. */
  lemma ViewKeepsBounded(s: State, q: Request, n: Revocation, k: Token)
    requires Inv(s) && Enabled(s, View(q)) && n in s.notices && k in s.tokens && Covers(n, k.login)
    ensures Bounded(Next(s, View(q)), n, k)
  {
    assert Bounded(s, n, k) && Remembered(s, n);
  }

  /** Carrying the login over needs a living token, so the view was before the record. */
  lemma ChooseKeepsBounded(s: State, a: Asked, n: Revocation, k: Token)
    requires Inv(s) && KeptLongEnough(s) && Enabled(s, Choose(a))
    requires n in s.notices && k in s.tokens && Covers(n, k.login)
    ensures Bounded(Next(s, Choose(a)), n, k)
  {
    assert Bounded(s, n, k);
  }

  lemma WriteKeepsBounded(s: State, c: Chosen, ends: int, n: Revocation, k: Token)
    requires Inv(s) && Enabled(s, Write(c, ends))
    requires n in s.notices && k in Next(s, Write(c, ends)).tokens && Covers(n, k.login)
    ensures Bounded(Next(s, Write(c, ends)), n, k)
  {
    var was := c.request.token;
    assert was in s.tokens;
    if k in s.tokens {
      assert Bounded(s, n, k);
    } else {
      assert Bounded(s, n, was);
      NoRequestYet(s, k);
    }
  }

  lemma NoRequestYet(s: State, k: Token)
    requires Honest(s) && k !in s.tokens
    ensures forall q :: q in s.clean ==> q.token != k
    ensures forall c :: c in s.chosen ==> c.request.token != k
  {
  }

  lemma SignInKeepsBounded(s: State, j: Token, n: Revocation, k: Token)
    requires Inv(s) && Enabled(s, SignIn(j))
    requires n in s.notices && k in Next(s, SignIn(j)).tokens && Covers(n, k.login)
    ensures Bounded(Next(s, SignIn(j)), n, k)
  {
    if k in s.tokens {
      assert Bounded(s, n, k);
    } else {
      NoRequestYet(s, k);
    }
  }

  lemma OtherStepKeepsBounded(s: State, e: Event, n: Revocation, k: Token)
    requires Inv(s) && Enabled(s, e) && !e.SignIn? && !e.View? && !e.Choose? && !e.Write?
    requires n in s.notices && k in s.tokens && Covers(n, k.login)
    ensures Bounded(Next(s, e), n, k)
  {
    assert Bounded(s, n, k);
  }

  /** When a notice is recorded every token is at most one lifetime from its end. */
  lemma RecordBounds(s: State, r: Received, until: int, k: Token)
    requires Inv(s) && Enabled(s, Record(r, until)) && k in s.tokens
    ensures Bounded(Next(s, Record(r, until)), Revocation(r.session, r.revokedAt, until), k)
  {
  }

  lemma StepKeepsBounded(s: State, e: Event, n: Revocation, k: Token)
    requires Inv(s) && KeptLongEnough(s) && Enabled(s, e)
    requires n in Next(s, e).notices && k in Next(s, e).tokens && Covers(n, k.login)
    ensures Bounded(Next(s, e), n, k)
  {
    if n !in s.notices {
      RecordBounds(s, e.received, e.until, k);
    } else {
      match e
      case SignIn(j) => SignInKeepsBounded(s, j, n, k);
      case View(q) => ViewKeepsBounded(s, q, n, k);
      case Choose(a) => ChooseKeepsBounded(s, a, n, k);
      case Write(c, ends) => WriteKeepsBounded(s, c, ends, n, k);
      case _ => OtherStepKeepsBounded(s, e, n, k);
    }
  }

  lemma StepKeepsNotices(s: State, e: Event)
    requires Inv(s) && Enabled(s, e)
    ensures var t := Next(s, e);
            && (forall jti :: jti in t.records ==> t.records[jti] in t.notices)
            && (forall n :: n in t.notices ==> Remembered(t, n))
  {
    var t := Next(s, e);
    forall n | n in t.notices ensures Remembered(t, n) {
      if n in s.notices {
        StepKeepsRemembered(s, e, n);
      } else {
        assert e.received.jti in t.records && t.records[e.received.jti] == n;
      }
    }
  }

  lemma StepKeepsInv(s: State, e: Event)
    requires Inv(s) && KeptLongEnough(s) && Enabled(s, e)
    ensures Inv(Next(s, e))
  {
    var t := Next(s, e);
    StepKeepsHonest(s, e);
    StepKeepsNotices(s, e);
    forall n, k | n in t.notices && k in t.tokens && Covers(n, k.login) ensures Bounded(t, n, k) {
      StepKeepsBounded(s, e, n, k);
    }
  }

  lemma {:induction false} RunKeepsInv(s: State, events: seq<Event>, t: State)
    requires Inv(s) && KeptLongEnough(s) && RunsTo(s, events, t)
    ensures Inv(t) && KeptLongEnough(t)
    decreases |events|
  {
    if events != [] {
      StepKeepsInv(s, events[0]);
      RunKeepsInv(Next(s, events[0]), events[1..], t);
    }
  }

  lemma LedgerAnswersRightly(s: State, k: Token)
    requires Inv(s) && KeptLongEnough(s) && Alive(s, k)
    ensures IsRevoked(s.records, k.login) <==> Noticed(s, k.login)
  {
  }

  // ------------------------------------------------------------ a notice that is forgotten

  const SOMEBODY := FederatedSession("i", "s", None)

  function TokenOf(startedAt: int, ends: int): Token {
    Token("a", FederatedLogin(SOMEBODY, startedAt), ends)
  }

  function NoticeAt(s: State): Received
    requires s.settings.Fixed?
  {
    Received("n", SOMEBODY, s.now, s.now + s.settings.keepFor)
  }

  /** The login was noticed at the start and nevertheless has a token with the latest end. */
  ghost predicate GrantedLate(s: State, t: State) {
    && s.settings.Fixed? && t.settings == s.settings && Sensible(t)
    && t.now == s.now + LastGrant(s)
    && TokenOf(s.now, t.now + s.settings.lifetime) in t.tokens
    && t.records == map["n" := Revocation(SOMEBODY, s.now, s.now + s.settings.keepFor)]
    && t.notices == [Revocation(SOMEBODY, s.now, s.now + s.settings.keepFor)]
  }

  /** A ticket is redeemed at the last moment, after the notice. */
  lemma HandedOverLate(s: State) returns (events: seq<Event>, t: State)
    requires Initial(s) && s.settings.handOver >= s.noticeDelay + s.delay
    ensures RunsTo(s, events, t) && GrantedLate(s, t)
  {
    var r, end := NoticeAt(s), s.now + s.settings.handOver;
    var receive, record := Receive(r.jti, r.session, r.expiresAt), Record(r, r.expiresAt);
    assert RunsTo(s, [], s);
    RunsOn(s, [], s, receive);
    var s1 := Next(s, receive);
    RunsOn(s, [] + [receive], s1, record);
    var s2 := Next(s1, record);
    RunsOn(s, [] + [receive] + [record], s2, Tick(end));
    var s3 := Next(s2, Tick(end));
    var signIn := SignIn(TokenOf(s.now, end + s.settings.lifetime));
    RunsOn(s, [] + [receive] + [record] + [Tick(end)], s3, signIn);
    events, t := [] + [receive] + [record] + [Tick(end)] + [signIn], Next(s3, signIn);
  }

  /** The ledger is as it was, and the notice still waits to be recorded. */
  ghost predicate SameLedger(s: State, t: State) {
    && t.settings == s.settings && t.delay == s.delay && t.noticeDelay == s.noticeDelay && t.rowEnds == s.rowEnds
    && t.records == s.records && t.notices == s.notices && t.received == s.received
  }

  /** A request is let in, sees the ledger and carries its login over in one moment. */
  lemma ChooseAtOnce(s: State, k: Token) returns (events: seq<Event>, t: State)
    requires Alive(s, k) && s.records == map[]
    ensures RunsTo(s, events, t) && SameLedger(s, t) && t.now == s.now && k in t.tokens
    ensures Chosen(Request(k, s.now), s.now, s.now) in t.chosen
  {
    var q, a := Request(k, s.now), Asked(Request(k, s.now), s.now);
    assert RunsTo(s, [], s);
    RunsOn(s, [], s, Verify(k));
    var s1 := Next(s, Verify(k));
    RunsOn(s, [] + [Verify(k)], s1, View(q));
    var s2 := Next(s1, View(q));
    RunsOn(s, [] + [Verify(k)] + [View(q)], s2, Decode(q));
    var s3 := Next(s2, Decode(q));
    RunsOn(s, [] + [Verify(k)] + [View(q)] + [Decode(q)], s3, Choose(a));
    events, t := [] + [Verify(k)] + [View(q)] + [Decode(q)] + [Choose(a)], Next(s3, Choose(a));
  }

  lemma TickOn(s: State, now: int) returns (events: seq<Event>)
    requires s.now <= now
    ensures RunsTo(s, events, s.(now := now))
  {
    assert RunsTo(s, [], s);
    RunsOn(s, [], s, Tick(now));
    events := [] + [Tick(now)];
  }

  /** A token is exchanged at its last moment for one that ends later. */
  lemma ExtendAtTheEnd(s: State, k: Token) returns (events: seq<Event>, t: State)
    requires Alive(s, k) && s.records == map[] && s.settings.Fixed? && s.settings.lifetime >= 2 && s.delay >= 0
    ensures RunsTo(s, events, t) && SameLedger(s, t) && t.now == k.ends - 1
    ensures Alive(t, k.(ends := k.ends - 1 + s.settings.lifetime))
  {
    var m := s.(now := k.ends - 1);
    var tick := TickOn(s, k.ends - 1);
    var choose, n := ChooseAtOnce(m, k);
    var write := Write(Chosen(Request(k, m.now), m.now, m.now), m.now + s.settings.lifetime);
    RunsCompose(s, tick, m, choose, n);
    RunsOn(s, tick + choose, n, write);
    events, t := tick + choose + [write], Next(n, write);
  }

  /** As long as no notice is recorded a login can be kept alive. */
  lemma {:induction false} KeepAlive(s: State, k: Token, until: int) returns (events: seq<Event>, t: State, j: Token)
    requires Alive(s, k) && s.records == map[] && s.settings.Fixed? && s.settings.lifetime >= 2 && s.delay >= 0
    requires s.now <= until
    ensures RunsTo(s, events, t) && SameLedger(s, t) && t.now == until
    ensures Alive(t, j) && j.id == k.id && j.login == k.login
    decreases until - k.ends
  {
    if until < k.ends {
      events := TickOn(s, until);
      t, j := s.(now := until), k;
    } else {
      var first, m := ExtendAtTheEnd(s, k);
      var rest;
      rest, t, j := KeepAlive(m, k.(ends := k.ends - 1 + s.settings.lifetime), until);
      RunsCompose(s, first, m, rest, t);
      events := first + rest;
    }
  }

  /** Up to the recording of the notice: a request has just been let in, seen the ledger, and
      carried its login over. */
  ghost predicate ChosenJustBefore(s: State, t: State, j: Token) {
    && s.settings.Fixed? && t.settings == s.settings && t.delay == s.delay && t.noticeDelay == s.noticeDelay
    && t.now == s.now + s.noticeDelay && t.rowEnds == map[] && j.(ends := 0) == TokenOf(s.now, 0)
    && t.records == map[] && t.notices == [] && NoticeAt(s) in t.received
    && Chosen(Request(j, t.now), t.now, t.now) in t.chosen && t.now < j.ends
  }

  lemma SignedInAndNoticed(s: State) returns (events: seq<Event>, t: State)
    requires Initial(s)
    ensures RunsTo(s, events, t)
    ensures t == s.(tokens := {TokenOf(s.now, s.now + s.settings.lifetime)}, seen := {"a"}, received := {NoticeAt(s)})
  {
    var r, k := NoticeAt(s), TokenOf(s.now, s.now + s.settings.lifetime);
    var receive := Receive(r.jti, r.session, r.expiresAt);
    assert RunsTo(s, [], s);
    RunsOn(s, [], s, SignIn(k));
    var s1 := Next(s, SignIn(k));
    RunsOn(s, [] + [SignIn(k)], s1, receive);
    events, t := [] + [SignIn(k)] + [receive], Next(s1, receive);
  }

  lemma ChosenBeforeTheRecord(s: State) returns (events: seq<Event>, t: State, j: Token)
    requires Initial(s) && s.settings.lifetime >= 2
    ensures RunsTo(s, events, t) && ChosenJustBefore(s, t, j)
  {
    var first, m := SignedInAndNoticed(s);
    var second, n;
    second, n, j := KeepAlive(m, TokenOf(s.now, s.now + s.settings.lifetime), s.now + s.noticeDelay);
    var third;
    third, t := ChooseAtOnce(n, j);
    RunsCompose(s, first, m, second, n);
    RunsCompose(s, first + second, n, third, t);
    events := first + second + third;
  }

  /** Such a request writes its token as late as it may, after the notice was recorded. */
  lemma ExtendedLate(s: State) returns (events: seq<Event>, t: State)
    requires Initial(s) && s.settings.lifetime >= 2 && s.settings.handOver < s.noticeDelay + s.delay
    ensures RunsTo(s, events, t) && GrantedLate(s, t)
  {
    var first, m, j := ChosenBeforeTheRecord(s);
    var r, end := NoticeAt(s), m.now + s.delay;
    var c := Chosen(Request(j, m.now), m.now, m.now);
    var record, write := Record(r, r.expiresAt), Write(c, end + s.settings.lifetime);
    RunsOn(s, first, m, record);
    var s1 := Next(m, record);
    RunsOn(s, first + [record], s1, Tick(end));
    var s2 := Next(s1, Tick(end));
    RunsOn(s, first + [record] + [Tick(end)], s2, write);
    events, t := first + [record] + [Tick(end)] + [write], Next(s2, write);
  }

  /** Kept any shorter, a covered login is handed over or extended late, and its token outlives
      the record. */
  lemma ForgottenNotice(s: State)
    requires Initial(s) && s.settings.lifetime >= 2 && !KeptLongEnough(s)
    ensures !NothingIsForgotten(s)
  {
    var first, m;
    if s.settings.handOver >= s.noticeDelay + s.delay {
      first, m := HandedOverLate(s);
    } else {
      first, m := ExtendedLate(s);
    }
    var k := TokenOf(s.now, m.now + s.settings.lifetime);
    var second, t := SweptBeforeItsEnd(m, k);
    RunsCompose(s, first, m, second, t);
    assert t.notices[0] == m.notices[0] && Covers(t.notices[0], k.login);
  }

  lemma KeptLongEnoughForgetsNothing(s: State)
    requires Initial(s) && KeptLongEnough(s)
    ensures NothingIsForgotten(s)
  {
    forall events, t, k | RunsTo(s, events, t) && Alive(t, k)
      ensures IsRevoked(t.records, k.login) <==> Noticed(t, k.login)
    {
      RunKeepsInv(s, events, t);
      LedgerAnswersRightly(t, k);
    }
  }

  /** The settings decide: no notice is ever forgotten while a token it covers is alive if and only
      if notices are kept for the last grant and the lifetime of the token it gives. (A token that
      lives for one tick of the clock only cannot be exchanged for a later one.) */
  lemma NothingIsForgottenExactlyWhenKeptLongEnough(s: State)
    requires Initial(s) && s.settings.lifetime >= 2
    ensures NothingIsForgotten(s) <==> KeptLongEnough(s)
  {
    if KeptLongEnough(s) {
      KeptLongEnoughForgetsNothing(s);
    } else {
      ForgottenNotice(s);
    }
  }
}
