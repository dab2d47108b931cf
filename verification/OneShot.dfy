/** One-shot rows: issued once, taken at most once, worthless after their expiry.

    WebAuthn challenges and SSO hand-off tickets are kept this way. The table throws
    away expired rows whenever it issues one and deletes a row to take it. The ideal
    ledger here never deletes anything and only marks rows as used; the results show
    that nobody can tell the two apart. */
module OneShot {
  import opened Wrappers

  /** A stored row; tickets have no purpose. */
  datatype Row<V> = Row(value: V, purpose: Option<string>, expiresAt: int)

  type Table<V> = map<string, Row<V>>

  datatype Reply<V> = Issued | DuplicateKey | Granted(value: V) | NotFound

  /** The entity's own test. */
  predicate Expired<V>(row: Row<V>, now: int) {
    now >= row.expiresAt
  }

  /** DELETE ... WHERE expires_at < now. */
  function Swept<V>(rows: Table<V>, now: int): Table<V> {
    map id | id in rows && !(rows[id].expiresAt < now) :: rows[id]
  }

  /** session.get finds a row for this request in what the transaction can see. */
  predicate Finds<V>(rows: Table<V>, id: string, purpose: Option<string>) {
    id in rows && rows[id].purpose == purpose
  }

  /** What a request is told that read `seen` and deletes from `rows`, which may have moved on. */
  function Verdict<V>(seen: Table<V>, rows: Table<V>, id: string, purpose: Option<string>, now: int): Reply<V> {
    if Finds(seen, id, purpose) && id in rows && !Expired(seen[id], now) then Granted(seen[id].value) else NotFound
  }

  // ------------------------------------------------------------ the ideal ledger

  datatype Ledger<V> = Ledger(issued: Table<V>, used: set<string>)

  /** The row was issued for this purpose, nobody has used it, and it has not expired. */
  predicate Consumable<V>(ledger: Ledger<V>, id: string, purpose: Option<string>, now: int) {
    && Finds(ledger.issued, id, purpose)
    && id !in ledger.used
    && !Expired(ledger.issued[id], now)
  }

  /** The table holds unused issued rows only, and lacks only those that have expired. */
  ghost predicate Agrees<V>(rows: Table<V>, ledger: Ledger<V>, now: int) {
    && ledger.used <= ledger.issued.Keys
    && (forall id :: id in rows ==> id in ledger.issued && id !in ledger.used && rows[id] == ledger.issued[id])
    && (forall id :: id in ledger.issued && id !in ledger.used && id !in rows ==> Expired(ledger.issued[id], now))
  }

  // ------------------------------------------------------------ one request after another

  /** A whole request. `abandoned`: it fails after the row was granted, and is rolled back.
      `kept`: the deletion of an expired row outlives the refusal. */
  datatype Op<V> =
    | Issue(id: string, row: Row<V>, now: int)
    | Consume(id: string, purpose: Option<string>, now: int, abandoned: bool, kept: bool)

  function ReplyOf<V>(rows: Table<V>, op: Op<V>): Reply<V> {
    match op
    case Issue(id, _, now) => if id in Swept(rows, now) then DuplicateKey else Issued
    case Consume(id, purpose, now, _, _) =>
      if !Finds(rows, id, purpose) || Expired(rows[id], now) then NotFound else Granted(rows[id].value)
  }

  function TableAfter<V>(rows: Table<V>, op: Op<V>): Table<V> {
    match op
    case Issue(id, row, now) => if id in Swept(rows, now) then rows else Swept(rows, now)[id := row]
    case Consume(id, purpose, now, abandoned, kept) =>
      if !Finds(rows, id, purpose) then rows
      else if Expired(rows[id], now) then (if kept then rows - {id} else rows)
      else (if abandoned then rows else rows - {id})
  }

  function IdealReply<V>(ledger: Ledger<V>, op: Op<V>): Reply<V> {
    match op
    case Issue(_, _, _) => Issued
    case Consume(id, purpose, now, _, _) =>
      if Consumable(ledger, id, purpose, now) then Granted(ledger.issued[id].value) else NotFound
  }

  function LedgerAfter<V>(ledger: Ledger<V>, op: Op<V>): Ledger<V> {
    match op
    case Issue(id, row, _) => ledger.(issued := ledger.issued[id := row])
    case Consume(id, purpose, now, abandoned, _) =>
      if Consumable(ledger, id, purpose, now) && !abandoned then ledger.(used := ledger.used + {id}) else ledger
  }

  function Replies<V>(rows: Table<V>, ops: seq<Op<V>>): seq<Reply<V>>
    decreases |ops|
  {
    if ops == [] then [] else [ReplyOf(rows, ops[0])] + Replies(TableAfter(rows, ops[0]), ops[1..])
  }

  function IdealReplies<V>(ledger: Ledger<V>, ops: seq<Op<V>>): seq<Reply<V>>
    decreases |ops|
  {
    if ops == [] then [] else [IdealReply(ledger, ops[0])] + IdealReplies(LedgerAfter(ledger, ops[0]), ops[1..])
  }

  /** Time does not go back and no key is ever issued twice. */
  ghost predicate Orderly<V>(issued: Table<V>, ops: seq<Op<V>>, now: int)
    decreases |ops|
  {
    ops != [] ==>
      && now <= ops[0].now
      && (ops[0].Issue? ==> ops[0].id !in issued)
      && Orderly(if ops[0].Issue? then issued[ops[0].id := ops[0].row] else issued, ops[1..], ops[0].now)
  }

  lemma OneStepAgrees<V>(rows: Table<V>, ledger: Ledger<V>, op: Op<V>, now: int)
    requires Agrees(rows, ledger, now) && now <= op.now
    requires op.Issue? ==> op.id !in ledger.issued
    ensures ReplyOf(rows, op) == IdealReply(ledger, op)
    ensures Agrees(TableAfter(rows, op), LedgerAfter(ledger, op), op.now)
  {
  }

  /** Sweeping, and deleting or keeping a refused expired row, is unobservable: for every
      sequence of requests the table replies what the ledger that never deletes replies. */
  lemma {:induction false} SweepingIsUnobservable<V>(rows: Table<V>, ledger: Ledger<V>, ops: seq<Op<V>>, now: int)
    requires Agrees(rows, ledger, now) && Orderly(ledger.issued, ops, now)
    ensures Replies(rows, ops) == IdealReplies(ledger, ops)
    decreases |ops|
  {
    if ops != [] {
      OneStepAgrees(rows, ledger, ops[0], now);
      SweepingIsUnobservable(TableAfter(rows, ops[0]), LedgerAfter(ledger, ops[0]), ops[1..], ops[0].now);
    }
  }
}
