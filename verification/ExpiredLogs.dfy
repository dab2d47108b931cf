/** Removing expired log rows chunk by chunk, while other workers do the same. */
module ExpiredLogs {
  import opened Sets

  /** A log table: the moment each row was written, by id. */
  type Rows = map<int, int>

  function Expired(rows: Rows, cutoff: int): set<int> {
    set id | id in rows && rows[id] < cutoff
  }

  /** What SELECT id ... ORDER BY id LIMIT n may return: the n lowest ids, or all if fewer. */
  predicate IsChunk(ids: set<int>, expired: set<int>, n: nat) {
    && ids <= expired
    && |ids| == (if |expired| < n then |expired| else n)
    && (forall a, b :: a in ids && b in expired && b !in ids ==> a < b)
  }

  /** The rows a DELETE of these ids changes. */
  function Hit(ids: set<int>, rows: Rows): set<int> {
    ids * rows.Keys
  }

  /** The lowest of some ids. */
  lemma {:induction false} Lowest(ids: set<int>, one: int) returns (low: int)
    requires one in ids
    ensures low in ids && forall i :: i in ids ==> low <= i
    decreases ids
  {
    var rest := ids - {one};
    assert ids == rest + {one};
    low := one;
    if next :| next in rest {
      var other := Lowest(rest, next);
      low := if one < other then one else other;
    }
  }

  lemma {:induction false} SomeChunk(expired: set<int>, n: nat) returns (ids: set<int>)
    ensures IsChunk(ids, expired, n)
    decreases n
  {
    ids := {};
    if n > 0 {
      if expired != {} {
        var one := SomeMember(expired);
        var low := Lowest(expired, one);
        var rest := SomeChunk(expired - {low}, n - 1);
        ids := rest + {low};
      }
    }
  }

  /** All ids that other workers remove while this one works. */
  ghost function Others(meanwhile: seq<set<int>>): set<int> {
    set k, id | 0 <= k < |meanwhile| && id in meanwhile[k] :: id
  }

  // ------------------------------------------------------------ one worker

  /** What this worker and the others removed so far, and what is left. */
  ghost predicate Accounted(before: Rows, mine: set<int>, elsewhere: set<int>, rows: Rows, cutoff: int) {
    && mine <= Expired(before, cutoff)
    && mine !! elsewhere
    && rows == before - mine - elsewhere
  }

  lemma RoundKeepsAccounts(
      before: Rows, mine: set<int>, elsewhere: set<int>, rows: Rows, cutoff: int, gone: set<int>, hit: set<int>)
    requires Accounted(before, mine, elsewhere, rows, cutoff) && hit <= Expired(rows, cutoff) - gone
    ensures Accounted(before, mine + hit, elsewhere + gone * rows.Keys, rows - gone - hit, cutoff)
    ensures |mine + hit| == |mine| + |hit|
  {
  }

  lemma NothingLeft(before: Rows, mine: set<int>, elsewhere: set<int>, rows: Rows, cutoff: int)
    requires Accounted(before, mine, elsewhere, rows, cutoff) && Expired(rows, cutoff) == {}
    ensures mine == set id | id in before && before[id] < cutoff && id !in elsewhere
    ensures forall id :: id in rows <==> id in before && cutoff <= before[id] && id !in elsewhere
    ensures forall id :: id in rows ==> rows[id] == before[id] && cutoff <= rows[id]
  {
    forall id | id in before && id !in elsewhere ensures id in mine <==> before[id] < cutoff {
      assert id !in mine ==> id in rows && id !in Expired(rows, cutoff);
    }
  }

  lemma ChunkDeleted(rows: Rows, cutoff: int, n: nat, ids: set<int>, gone: set<int>)
    requires IsChunk(ids, Expired(rows, cutoff), n)
    ensures var hit, left := Hit(ids, rows - gone), rows - gone - ids;
            && hit <= Expired(rows, cutoff) - gone && left == rows - gone - hit
            && (forall id :: id in hit ==> rows[id] < cutoff)
            && (forall a, b :: a in hit && b in left && left[b] < cutoff ==> a < b)
            && (|ids| < n ==> Expired(left, cutoff) == {} && forall id :: id in left ==> cutoff <= left[id])
            && (|ids| >= n ==> |Expired(left, cutoff)| + n <= |Expired(rows, cutoff)|)
  {
    var start, left := Expired(rows, cutoff), rows - gone - ids;
    assert Expired(left, cutoff) <= start - ids;
    forall b | b in left && left[b] < cutoff ensures b in start - ids {
      assert b in Expired(left, cutoff);
    }
    if |ids| < n {
      SubsetOfSameSize(ids, start);
    } else {
      SubsetIsNoLarger(Expired(left, cutoff), start - ids);
      SizeOfDifference(start, ids);
    }
  }

  class LogTable {
    var rows: Rows

    constructor (rows: Rows)
      ensures this.rows == rows
    {
      this.rows := rows;
    }

    /** One transaction: choose ids, let other workers remove `gone` first, delete the ids. */
    method DeleteChunk(cutoff: int, chunkSize: nat, gone: set<int>)
      returns (chosen: nat, changed: nat, ghost hit: set<int>)
      modifies this
      ensures hit <= Expired(old(rows), cutoff) - gone && changed == |hit|
      ensures rows == old(rows) - gone - hit
      ensures forall id :: id in hit ==> old(rows)[id] < cutoff
      ensures forall a, b :: a in hit && b in rows && rows[b] < cutoff ==> a < b
      ensures chosen < chunkSize ==> forall id :: id in rows ==> cutoff <= rows[id]
      ensures chosen < chunkSize ==> Expired(rows, cutoff) == {}
      ensures chosen >= chunkSize ==> |Expired(rows, cutoff)| + chunkSize <= |Expired(old(rows), cutoff)|
    {
      ghost var some := SomeChunk(Expired(rows, cutoff), chunkSize);
      var ids: set<int> :| IsChunk(ids, Expired(rows, cutoff), chunkSize);
      assert IsChunk(ids, Expired(rows, cutoff), chunkSize);
      ChunkDeleted(rows, cutoff, chunkSize, ids, gone);
      rows := rows - gone;
      hit := Hit(ids, rows);
      changed := |Hit(ids, rows)|;
      rows := rows - ids;
      chosen := |ids|;
    }

    /** Removes expired rows chunk by chunk and counts those its own statements removed.
        `meanwhile[k]` are the rows other workers remove in round k after the ids were chosen. */
    method DeleteInChunks(cutoff: int, chunkSize: nat, meanwhile: seq<set<int>>)
      returns (deleted: nat, ghost elsewhere: set<int>)
      requires chunkSize >= 1
      modifies this
      ensures forall id :: id in rows ==> cutoff <= rows[id]
      ensures forall id :: id in rows <==> id in old(rows) && cutoff <= old(rows)[id] && id !in elsewhere
      ensures forall id :: id in rows ==> rows[id] == old(rows)[id]
      ensures elsewhere <= Others(meanwhile)
      ensures deleted == |set id | id in old(rows) && old(rows)[id] < cutoff && id !in elsewhere|
    {
      ghost var before := rows;
      ghost var mine: set<int> := {};
      deleted, elsewhere := 0, {};
      var k := 0;
      while true
        invariant 0 <= k
        invariant Accounted(before, mine, elsewhere, rows, cutoff)
        invariant deleted == |mine| && elsewhere <= Others(meanwhile)
        decreases |Expired(rows, cutoff)|
      {
        var gone: set<int> := if k < |meanwhile| then meanwhile[k] else {};
        ghost var seen := rows;
        var chosen, changed;
        ghost var hit;
        chosen, changed, hit := DeleteChunk(cutoff, chunkSize, gone);
        RoundKeepsAccounts(before, mine, elsewhere, seen, cutoff, gone, hit);
        forall id | id in gone ensures id in Others(meanwhile) {
          assert id in meanwhile[k];
        }
        deleted, mine, elsewhere := deleted + changed, mine + hit, elsewhere + gone * seen.Keys;
        if chosen < chunkSize {
          NothingLeft(before, mine, elsewhere, rows, cutoff);
          return;
        }
        k := k + 1;
      }
    }
  }
}
