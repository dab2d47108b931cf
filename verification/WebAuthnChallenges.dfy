/** The table of WebAuthn challenges. */
module WebAuthnChallenges {
  import opened Wrappers
  import opened OneShot

  datatype Challenge = Challenge(
    challengeId: string, challenge: string, purpose: string, userId: Option<int>, expiresAt: int)

  datatype ChallengeBody = ChallengeBody(challenge: string, userId: Option<int>)

  function AsRow(c: Challenge): Row<ChallengeBody> {
    Row(ChallengeBody(c.challenge, c.userId), Some(c.purpose), c.expiresAt)
  }

  class SqlWebAuthnChallengeRepository {
    /** The rows the statements of the current transaction act on. */
    var rows: Table<ChallengeBody>

    constructor ()
      ensures rows == map[]
    {
      rows := map[];
    }

    /** Sweeps expired rows and adds the new one; an existing key fails the transaction. */
    method Issue(challenge: Challenge, now: int) returns (reply: Reply<ChallengeBody>)
      modifies this
      ensures reply == ReplyOf(old(rows), Op.Issue(challenge.challengeId, AsRow(challenge), now))
      ensures rows == TableAfter(old(rows), Op.Issue(challenge.challengeId, AsRow(challenge), now))
      ensures reply == Issued ==>
        && (forall id :: id in rows <==>
              id == challenge.challengeId || (id in old(rows) && now <= old(rows)[id].expiresAt))
        && (forall id :: id in rows && id != challenge.challengeId ==> rows[id] == old(rows)[id])
        && rows[challenge.challengeId].value.challenge == challenge.challenge
        && rows[challenge.challengeId].value.userId == challenge.userId
        && rows[challenge.challengeId].purpose == Some(challenge.purpose)
        && rows[challenge.challengeId].expiresAt == challenge.expiresAt
      ensures reply != Issued ==> rows == old(rows) && challenge.challengeId in old(rows)
    {
      var before := rows;
      rows := Swept(rows, now);
      if challenge.challengeId in rows {
        rows := before;
        return DuplicateKey;
      }
      rows := rows[challenge.challengeId := AsRow(challenge)];
      return Issued;
    }

    /** Reads the row from `seen`, which may be out of date, and lets the number of rows
        the DELETE changed decide. An expired row is deleted and then refused. */
    method Consume(seen: Table<ChallengeBody>, challengeId: string, purpose: string, now: int)
      returns (reply: Reply<ChallengeBody>)
      modifies this
      ensures reply == Verdict(seen, old(rows), challengeId, Some(purpose), now)
      ensures reply.Granted? <==>
              && challengeId in seen && seen[challengeId].purpose == Some(purpose)
              && challengeId in old(rows) && now < seen[challengeId].expiresAt
      ensures reply.Granted? ==> reply.value == seen[challengeId].value
      ensures rows ==
        if Finds(seen, challengeId, Some(purpose)) then old(rows) - {challengeId} else old(rows)
      ensures seen == old(rows) ==>
        && reply == ReplyOf(old(rows), Op.Consume(challengeId, Some(purpose), now, false, true))
        && rows == TableAfter(old(rows), Op.Consume(challengeId, Some(purpose), now, false, true))
    {
      if challengeId !in seen || seen[challengeId].purpose != Some(purpose) {
        return NotFound;
      }
      var challenge := seen[challengeId];
      var deleted := if challengeId in rows then 1 else 0;
      rows := rows - {challengeId};
      if deleted != 1 {
        return NotFound;
      }
      if Expired(challenge, now) {
        return NotFound;
      }
      return Granted(challenge.value);
    }
  }

  /** What is issued can be consumed once, for its purpose only and until it expires, and comes
      back as it was issued. */
  method IssueThenConsume(
    repository: SqlWebAuthnChallengeRepository, challenge: Challenge, purpose: string, issuedAt: int, at: int)
    returns (first: Reply<ChallengeBody>, second: Reply<ChallengeBody>)
    requires challenge.challengeId !in repository.rows
    modifies repository
    ensures first == if purpose == challenge.purpose && at < challenge.expiresAt
                     then Granted(ChallengeBody(challenge.challenge, challenge.userId)) else NotFound
    ensures purpose == challenge.purpose ==> second == NotFound
  {
    var issued := repository.Issue(challenge, issuedAt);
    first := repository.Consume(repository.rows, challenge.challengeId, purpose, at);
    second := repository.Consume(repository.rows, challenge.challengeId, purpose, at);
  }
}
