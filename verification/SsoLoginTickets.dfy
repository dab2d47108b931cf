/** The table of SSO hand-off tickets. */
module SsoLoginTickets {
  import opened Wrappers
  import opened OneShot
  import opened SessionRevocations

  datatype Ticket = Ticket(
    ticketHash: string, userId: int, redirectTo: string, login: FederatedLogin, expiresAt: int)

  datatype TicketBody = TicketBody(userId: int, redirectTo: string, login: FederatedLogin)

  function AsRow(t: Ticket): Row<TicketBody> {
    Row(TicketBody(t.userId, t.redirectTo, t.login), None, t.expiresAt)
  }

  /** A ticket as it is handed back. */
  function AsTicket(ticketHash: string, row: Row<TicketBody>): Ticket {
    Ticket(ticketHash, row.value.userId, row.value.redirectTo, row.value.login, row.expiresAt)
  }

  class SqlSsoLoginTicketRepository {
    /** The rows the statements of the current transaction act on. */
    var rows: Table<TicketBody>

    /** Tickets have no purpose. */
    ghost predicate Valid()
      reads this
    {
      forall id :: id in rows ==> rows[id].purpose == None
    }

    constructor ()
      ensures Valid() && rows == map[]
    {
      rows := map[];
    }

    method Issue(ticket: Ticket, now: int) returns (reply: Reply<TicketBody>)
      requires Valid()
      modifies this
      ensures Valid()
      ensures reply == ReplyOf(old(rows), Op.Issue(ticket.ticketHash, AsRow(ticket), now))
      ensures rows == TableAfter(old(rows), Op.Issue(ticket.ticketHash, AsRow(ticket), now))
      ensures reply == Issued ==>
        && (forall id :: id in rows <==>
              id == ticket.ticketHash || (id in old(rows) && now <= old(rows)[id].expiresAt))
        && (forall id :: id in rows && id != ticket.ticketHash ==> rows[id] == old(rows)[id])
      ensures reply != Issued ==> rows == old(rows) && ticket.ticketHash in old(rows)
    {
      var before := rows;
      rows := Swept(rows, now);
      if ticket.ticketHash in rows {
        rows := before;
        return DuplicateKey;
      }
      rows := rows[ticket.ticketHash := AsRow(ticket)];
      return Issued;
    }

    /** Like consuming a challenge, without a purpose to compare. */
    method Redeem(seen: Table<TicketBody>, ticketHash: string, now: int) returns (ticket: Option<Ticket>)
      requires Valid()
      modifies this
      ensures Valid()
      ensures ticket ==
        if ticketHash in seen && ticketHash in old(rows) && !Expired(seen[ticketHash], now)
        then Some(AsTicket(ticketHash, seen[ticketHash])) else None
      ensures ticket.Some? <==> ticketHash in seen && ticketHash in old(rows) && now < seen[ticketHash].expiresAt
      ensures ticketHash in seen && seen[ticketHash].purpose == None ==>
        (ticket.Some? <==> Verdict(seen, old(rows), ticketHash, None, now).Granted?)
      ensures rows == if ticketHash in seen then old(rows) - {ticketHash} else old(rows)
      ensures seen == old(rows) ==>
        var op := Op.Consume(ticketHash, None, now, false, true);
        && (ticket.Some? <==> ReplyOf(old(rows), op).Granted?)
        && (ticket.Some? ==> AsRow(ticket.value) == old(rows)[ticketHash])
        && rows == TableAfter(old(rows), op)
    {
      if ticketHash !in seen {
        return None;
      }
      var redeemed := AsTicket(ticketHash, seen[ticketHash]);
      var deleted := if ticketHash in rows then 1 else 0;
      rows := rows - {ticketHash};
      if deleted != 1 {
        return None;
      }
      if now >= redeemed.expiresAt {
        return None;
      }
      return Some(redeemed);
    }
  }

  /** What is issued can be redeemed once, until it expires, and comes back as it was issued. */
  method IssueThenRedeem(repository: SqlSsoLoginTicketRepository, ticket: Ticket, issuedAt: int, at: int)
    returns (first: Option<Ticket>, second: Option<Ticket>)
    requires repository.Valid() && ticket.ticketHash !in repository.rows
    modifies repository
    ensures repository.Valid()
    ensures first == if at < ticket.expiresAt then Some(ticket) else None
    ensures second == None
  {
    var issued := repository.Issue(ticket, issuedAt);
    first := repository.Redeem(repository.rows, ticket.ticketHash, at);
    second := repository.Redeem(repository.rows, ticket.ticketHash, at);
  }
}
