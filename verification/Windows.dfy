/** How many moments of a spaced-out series can fall into one window of time. */
module Windows {

  /** A moment; `free` when nothing keeps it apart from the one before it. */
  datatype Moment = Moment(at: real, free: bool)

  /** Moments in order, each at least `gap` after the one before unless it is free. */
  ghost predicate Spaced(moments: seq<Moment>, gap: real) {
    forall i {:trigger moments[i]} :: 0 < i < |moments| ==>
      moments[i - 1].at + (if moments[i].free then 0.0 else gap) <= moments[i].at
  }

  /** How many moments lie in the closed window. */
  function CountIn(moments: seq<Moment>, from: real, to: real): nat {
    if moments == [] then 0
    else (if from <= moments[0].at <= to then 1 else 0) + CountIn(moments[1..], from, to)
  }

  /** How many of them are free. */
  function FreeIn(moments: seq<Moment>, from: real, to: real): nat {
    if moments == [] then 0
    else (if from <= moments[0].at <= to && moments[0].free then 1 else 0) + FreeIn(moments[1..], from, to)
  }

  /** Whole gaps that fit into a length. */
  function GapsIn(length: real, gap: real): int
    requires gap > 0.0
  {
    (length / gap).Floor
  }

  lemma LargerFactorLargerProduct(p: real, q: real, gap: real)
    requires gap > 0.0 && p < q
    ensures p * gap < q * gap
  {
  }

  lemma OneGapLess(length: real, shorter: real, gap: real)
    requires gap > 0.0 && shorter + gap <= length
    ensures GapsIn(shorter, gap) + 1 <= GapsIn(length, gap)
  {
    var p, q := length / gap, shorter / gap;
    assert p * gap == length && q * gap == shorter;
    assert (q + 1.0) * gap == shorter + gap;
    if p < q + 1.0 {
      LargerFactorLargerProduct(p, q + 1.0, gap);
      assert false;
    }
    FloorOfOneMore(p, q);
  }

  lemma FloorOfOneMore(p: real, q: real)
    requires q + 1.0 <= p
    ensures q.Floor + 1 <= p.Floor
  {
  }

  lemma FewerGaps(length: real, shorter: real, gap: real)
    requires gap > 0.0 && shorter <= length
    ensures GapsIn(shorter, gap) <= GapsIn(length, gap)
  {
    var p, q := length / gap, shorter / gap;
    assert p * gap == length && q * gap == shorter;
    if p < q {
      LargerFactorLargerProduct(p, q, gap);
      assert false;
    }
  }

  lemma NoNegativeGaps(length: real, gap: real)
    requires gap > 0.0 && length >= 0.0
    ensures GapsIn(length, gap) >= 0
  {
  }

  lemma TailIsSpaced(moments: seq<Moment>, gap: real)
    requires moments != [] && Spaced(moments, gap)
    ensures Spaced(moments[1..], gap)
  {
  }

  lemma {:induction false} NothingAfter(moments: seq<Moment>, from: real, to: real, gap: real)
    requires gap >= 0.0 && Spaced(moments, gap)
    requires moments != [] ==> moments[0].at > to
    ensures CountIn(moments, from, to) == 0
  {
    if moments != [] {
      TailIsSpaced(moments, gap);
      if |moments| > 1 {
        assert moments[1].at >= moments[0].at;
      }
      NothingAfter(moments[1..], from, to, gap);
    }
  }

  lemma {:induction false} FromTheFirst(moments: seq<Moment>, from: real, to: real, gap: real)
    requires gap > 0.0 && Spaced(moments, gap)
    requires moments != [] && from <= moments[0].at <= to
    ensures CountIn(moments, from, to) <= GapsIn(to - moments[0].at, gap) + 1 + FreeIn(moments[1..], from, to)
  {
    var rest := moments[1..];
    TailIsSpaced(moments, gap);
    NoNegativeGaps(to - moments[0].at, gap);
    if rest == [] {
    } else if rest[0].at > to {
      NothingAfter(rest, from, to, gap);
    } else {
      assert moments[1] == rest[0];
      FromTheFirst(rest, from, to, gap);
      if rest[0].free {
        FewerGaps(to - moments[0].at, to - rest[0].at, gap);
      } else {
        OneGapLess(to - moments[0].at, to - rest[0].at, gap);
      }
    }
  }

  /** At most one moment per gap in the window, one more for its edge, and the free ones. */
  lemma {:induction false} WindowBound(moments: seq<Moment>, from: real, length: real, gap: real)
    requires gap > 0.0 && length >= 0.0 && Spaced(moments, gap)
    ensures CountIn(moments, from, from + length) <= GapsIn(length, gap) + 1 + FreeIn(moments, from, from + length)
  {
    NoNegativeGaps(length, gap);
    if moments != [] {
      var to := from + length;
      TailIsSpaced(moments, gap);
      if moments[0].at < from {
        WindowBound(moments[1..], from, length, gap);
      } else if moments[0].at > to {
        NothingAfter(moments, from, to, gap);
      } else {
        FromTheFirst(moments, from, to, gap);
        FewerGaps(length, to - moments[0].at, gap);
      }
    }
  }

  lemma {:induction false} NoneFree(moments: seq<Moment>, from: real, to: real)
    requires forall i :: 0 <= i < |moments| ==> !moments[i].free
    ensures FreeIn(moments, from, to) == 0
  {
    if moments != [] {
      NoneFree(moments[1..], from, to);
    }
  }

  lemma BetweenTheFloors(q: real, g: real, gap: real, length: real)
    requires gap > 0.0 && g <= q < g + 1.0 && q * gap == length
    ensures g * gap <= length
    ensures length < g * gap + gap
  {
    if g < q {
      LargerFactorLargerProduct(g, q, gap);
    }
    var more := g + 1.0;
    LargerFactorLargerProduct(q, more, gap);
    assert more * gap == g * gap + gap;
    assert length < more * gap;
  }

  /** As many whole gaps as fit, and no more. */
  lemma GapsInIsTheFloor(length: real, gap: real)
    requires gap > 0.0
    ensures GapsIn(length, gap) as real * gap <= length
    ensures length < GapsIn(length, gap) as real * gap + gap
  {
    BetweenTheFloors(length / gap, GapsIn(length, gap) as real, gap, length);
  }

  /** In a window all of whose moments are counted. */
  lemma {:induction false} CountAll(moments: seq<Moment>, from: real, to: real)
    requires forall i :: 0 <= i < |moments| ==> from <= moments[i].at <= to
    ensures CountIn(moments, from, to) == |moments|
  {
    if moments != [] {
      CountAll(moments[1..], from, to);
    }
  }

  lemma {:induction false} FreeAreAmongTheCounted(moments: seq<Moment>, from: real, to: real)
    ensures FreeIn(moments, from, to) <= CountIn(moments, from, to)
  {
    if moments != [] {
      FreeAreAmongTheCounted(moments[1..], from, to);
    }
  }
}
