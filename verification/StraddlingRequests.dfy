/** Requests whose token ends while they are under way. */
module StraddlingRequests {
  import opened SessionRevocations
  import opened SessionRevocationRuns
  import opened SessionRetention

  /** Some run from here has this request write a new token at this moment. */
  ghost predicate CanWrite(s: State, w: Written) {
    exists events, t :: RunsTo(s, events, t) && w in t.written
  }

  /** The token ended after the request was let in and before it was decoded for the ledger. */
  predicate Straddles(c: Chosen) {
    c.request.verifiedAt < c.request.token.ends <= c.decodedAt
  }

  /** The clocks of one request, in order and within its time. */
  predicate InOrder(s: State, w: Written) {
    && s.now <= w.chosen.request.verifiedAt <= w.chosen.decodedAt <= w.chosen.chosenAt <= w.at
    && w.at <= w.chosen.request.verifiedAt + s.delay
  }

  /** A covered token whose record outlasts every request, and no request with it so far. */
  ghost predicate StoppedToken(s: State, k: Token, until: int) {
    && Honest(s) && Kept(s, k.login, until) && k.ends - 1 + s.delay <= until
    && (forall q :: q in s.verified && q.token == k ==> q.verifiedAt < s.now)
  }

  // ------------------------------------------------------------ only by straddling

  /** Requests let in since then saw the record, unless it had gone. */
  ghost predicate Blocked(s: State, k: Token, since: int, until: int) {
    && Kept(s, k.login, until)
    && (forall q :: q in s.clean && q.token == k && since <= q.verifiedAt ==> until < s.now)
    && (forall c :: c in s.chosen && c.request.token == k && since <= c.request.verifiedAt ==>
                      Straddles(c) || until < c.chosenAt)
  }

  lemma StepKeepsBlocked(s: State, e: Event, k: Token, since: int, until: int)
    requires Honest(s) && Blocked(s, k, since, until) && Enabled(s, e)
    ensures Blocked(Next(s, e), k, since, until)
  {
    StepKeepsRecord(s, e, k.login, until);
  }

  lemma {:induction false} RunKeepsBlocked(s: State, events: seq<Event>, t: State, k: Token, since: int, until: int)
    requires Honest(s) && Blocked(s, k, since, until) && RunsTo(s, events, t)
    ensures Honest(t) && Blocked(t, k, since, until) && t.delay == s.delay
    decreases |events|
  {
    if events != [] {
      StepKeepsHonest(s, events[0]);
      StepKeepsBlocked(s, events[0], k, since, until);
      RunKeepsBlocked(Next(s, events[0]), events[1..], t, k, since, until);
    }
  }

  lemma {:induction false} NothingOlderIsLetIn(s: State, events: seq<Event>, t: State, q: Request)
    requires RunsTo(s, events, t) && q in t.verified
    ensures q in s.verified || s.now <= q.verifiedAt
    decreases |events|
  {
    if events != [] {
      NothingOlderIsLetIn(Next(s, events[0]), events[1..], t, q);
    }
  }

  lemma NewTokenMeansStraddling(s: State, w: Written, until: int)
    requires StoppedToken(s, w.chosen.request.token, until)
    requires w.chosen.request !in s.verified && CanWrite(s, w)
    ensures InOrder(s, w) && Straddles(w.chosen)
  {
    var q := w.chosen.request;
    var events, t :| RunsTo(s, events, t) && w in t.written;
    RunKeepsBlocked(s, events, t, q.token, s.now, until);
    NothingOlderIsLetIn(s, events, t, q);
  }

  // ------------------------------------------------------------ and by every straddling

  lemma LetInAndDecoded(s: State, q: Request, decodedAt: int) returns (events: seq<Event>, t: State)
    requires q.token in s.tokens && s.now <= q.verifiedAt < q.token.ends <= decodedAt
    ensures RunsTo(s, events, t)
    ensures t == s.(now := decodedAt, verified := s.verified + {q}, asked := s.asked + {Asked(q, decodedAt)})
  {
    assert RunsTo(s, [], s);
    RunsOn(s, [], s, Tick(q.verifiedAt));
    var s1 := Next(s, Tick(q.verifiedAt));
    RunsOn(s, [] + [Tick(q.verifiedAt)], s1, Verify(q.token));
    var s2 := Next(s1, Verify(q.token));
    RunsOn(s, [] + [Tick(q.verifiedAt)] + [Verify(q.token)], s2, Tick(decodedAt));
    var s3 := Next(s2, Tick(decodedAt));
    RunsOn(s, [] + [Tick(q.verifiedAt)] + [Verify(q.token)] + [Tick(decodedAt)], s3, Decode(q));
    events := [] + [Tick(q.verifiedAt)] + [Verify(q.token)] + [Tick(decodedAt)] + [Decode(q)];
    t := Next(s3, Decode(q));
  }

  lemma ChosenAndWritten(s: State, a: Asked, w: Written, ends: int) returns (events: seq<Event>, t: State)
    requires a in s.asked && Skipped(a) && w.chosen == Chosen(a.request, a.decodedAt, w.chosen.chosenAt)
    requires s.now <= w.chosen.chosenAt <= w.at <= a.request.verifiedAt + s.delay
    requires s.settings.Fixed? ==> ends == w.at + s.settings.lifetime
    ensures RunsTo(s, events, t) && w in t.written
    ensures t.records == s.records && t.notices == s.notices && t.now == w.at
  {
    var c := w.chosen;
    assert RunsTo(s, [], s);
    RunsOn(s, [], s, Tick(c.chosenAt));
    var s1 := Next(s, Tick(c.chosenAt));
    RunsOn(s, [] + [Tick(c.chosenAt)], s1, Choose(a));
    var s2 := Next(s1, Choose(a));
    RunsOn(s, [] + [Tick(c.chosenAt)] + [Choose(a)], s2, Tick(w.at));
    var s3 := Next(s2, Tick(w.at));
    RunsOn(s, [] + [Tick(c.chosenAt)] + [Choose(a)] + [Tick(w.at)], s3, Write(c, ends));
    events := [] + [Tick(c.chosenAt)] + [Choose(a)] + [Tick(w.at)] + [Write(c, ends)];
    t := Next(s3, Write(c, ends));
  }

  /** The ledger is not asked, so nothing in it can hold the request back. */
  lemma StraddlingWrites(s: State, w: Written) returns (events: seq<Event>, t: State)
    requires w.chosen.request.token in s.tokens && InOrder(s, w) && Straddles(w.chosen)
    ensures RunsTo(s, events, t) && w in t.written
    ensures t.records == s.records && t.notices == s.notices && t.now == w.at
  {
    var c := w.chosen;
    var first, m := LetInAndDecoded(s, c.request, c.decodedAt);
    var ends := if s.settings.Fixed? then w.at + s.settings.lifetime else w.at + 1;
    var second, n := ChosenAndWritten(m, Asked(c.request, c.decodedAt), w, ends);
    RunsCompose(s, first, m, second, n);
    events, t := first + second, n;
  }

  /** When a stopped person gets a new token: exactly when the token ends between the decoding that
      lets the request in and the decoding for the ledger. The new login is then a local one, and
      no retention makes a difference. */
  lemma StoppedPersonGetsATokenExactlyByStraddling(s: State, w: Written, until: int)
    requires StoppedToken(s, w.chosen.request.token, until) && w.chosen.request.token in s.tokens
    requires w.chosen.request !in s.verified
    ensures CanWrite(s, w) <==> InOrder(s, w) && Straddles(w.chosen)
    ensures CanWrite(s, w) ==> !Federated(w.chosen)
  {
    if CanWrite(s, w) {
      NewTokenMeansStraddling(s, w, until);
    }
    if InOrder(s, w) && Straddles(w.chosen) {
      var events, t := StraddlingWrites(s, w);
      assert RunsTo(s, events, t) && w in t.written;
    }
  }

  // ------------------------------------------------------------ a whole run

  lemma SignedInThenStopped(s: State) returns (events: seq<Event>, t: State)
    requires Initial(s)
    ensures RunsTo(s, events, t)
    ensures TokenOf(s.now, s.now + s.settings.lifetime) in t.tokens && t.now == s.now && t.delay == s.delay
    ensures t.settings == s.settings && t.records == map["n" := Revocation(SOMEBODY, s.now, s.now + s.settings.keepFor)]
    ensures t.notices == [Revocation(SOMEBODY, s.now, s.now + s.settings.keepFor)]
  {
    var first, m := SignedInAndNoticed(s);
    var record := Record(NoticeAt(s), NoticeAt(s).expiresAt);
    RunsOn(s, first, m, record);
    events, t := first + [record], Next(m, record);
  }

  /** From signing in through a notice to a request that is let in at the token's last moment and
      leaves one tick later with a local login, while the notice is remembered. */
  lemma StoppedPersonLeavesWithALocalLogin(s: State) returns (events: seq<Event>, t: State, w: Written)
    requires Initial(s) && s.delay >= 1
    ensures RunsTo(s, events, t) && w in t.written && !Federated(w.chosen)
    ensures w.chosen.request.token == TokenOf(s.now, s.now + s.settings.lifetime)
    ensures IsRevoked(t.records, w.chosen.request.token.login) && Noticed(t, w.chosen.request.token.login)
  {
    var k := TokenOf(s.now, s.now + s.settings.lifetime);
    var first, m := SignedInThenStopped(s);
    w := Written(Chosen(Request(k, k.ends - 1), k.ends, k.ends), k.ends);
    var second, n := StraddlingWrites(m, w);
    RunsCompose(s, first, m, second, n);
    events, t := first + second, n;
    assert Covers(t.records["n"], k.login) && Covers(t.notices[0], k.login);
  }
}
