/** The remembered answer about the latest app release.

    Devices ask all the time; the distribution store is asked at most once per TTL.
    A readable answer (including "nothing configured") is remembered for the answer TTL,
    an unreadable store is remembered as "nothing to say" for the failure TTL.
    Any other exception leaves what was remembered as it was. */
module ReleaseCache {
  import opened Windows
  import opened Wrappers

  const ANSWER_TTL: real := 300.0
  const FAILURE_TTL: real := 60.0

  datatype Release = Release(version: string, build: int)

  /** How one read of the store ends. */
  datatype Fetch =
    | Answered(release: Option<Release>)
    | Unavailable
    | Crashed

  datatype Remembered = Remembered(release: Option<Release>, until: real)

  datatype Reply = Returned(release: Option<Release>) | Raised

  // -------------------------------------------------------- one call

  predicate Remembers(memory: Option<Remembered>, now: real) {
    memory.Some? && now < memory.value.until
  }

  function Ttl(fetch: Fetch): real {
    if fetch.Answered? then ANSWER_TTL else FAILURE_TTL
  }

  /** What a fetch tells the device. */
  function Told(fetch: Fetch): Reply {
    match fetch
    case Answered(release) => Returned(release)
    case Unavailable => Returned(None)
    case Crashed => Raised
  }

  function MemoryAfter(memory: Option<Remembered>, now: real, fetch: Fetch): Option<Remembered> {
    if Remembers(memory, now) || fetch.Crashed? then memory
    else Some(Remembered(Told(fetch).release, now + Ttl(fetch)))
  }

  class LatestAppReleaseQuery {
    var remembered: Option<Remembered>

    constructor ()
      ensures remembered == None
    {
      remembered := None;
    }

    /** `now` is the monotonic clock read under the lock, before the store is read;
        `fetch` is how reading the store would end. */
    method Execute(now: real, fetch: Fetch) returns (reply: Reply, fetched: bool)
      modifies this
      ensures fetched <==> !Remembers(old(remembered), now)
      ensures reply == if fetched then Told(fetch) else Returned(old(remembered).value.release)
      ensures remembered == MemoryAfter(old(remembered), now, fetch)
      ensures fetched <==> old(remembered) == None || old(remembered).value.until <= now
      ensures !fetched ==> reply == Returned(old(remembered).value.release) && remembered == old(remembered)
      ensures fetched && fetch.Answered? ==>
        reply == Returned(fetch.release) && remembered == Some(Remembered(fetch.release, now + 300.0))
      ensures fetched && fetch.Unavailable? ==>
        reply == Returned(None) && remembered == Some(Remembered(None, now + 60.0))
      ensures fetched && fetch.Crashed? ==> reply == Raised && remembered == old(remembered)
    {
      if remembered.Some? && now < remembered.value.until {
        return Returned(remembered.value.release), false;
      }
      var release, ttl;
      match fetch {
        case Answered(answer) =>
          release, ttl := answer, ANSWER_TTL;
        case Unavailable =>
          release, ttl := None, FAILURE_TTL;
        case Crashed =>
          return Raised, true;
      }
      remembered := Some(Remembered(release, now + ttl));
      return Returned(release), true;
    }

    method Forget()
      modifies this
      ensures remembered == None
    {
      remembered := None;
    }
  }

  // -------------------------------------------------------- whole runs

  datatype Call = Execute(now: real, fetch: Fetch) | Forget(now: real)

  ghost predicate ClockNeverGoesBack(calls: seq<Call>) {
    forall i, j :: 0 <= i < j < |calls| ==> calls[i].now <= calls[j].now
  }

  /** What is remembered when call `k` of a run starts. */
  function MemoryAt(calls: seq<Call>, k: nat): Option<Remembered>
    requires k <= |calls|
  {
    if k == 0 then None
    else match calls[k - 1]
      case Forget(_) => None
      case Execute(now, fetch) => MemoryAfter(MemoryAt(calls, k - 1), now, fetch)
  }

  /** Call `k` reads the store. */
  predicate Fetches(calls: seq<Call>, k: nat)
    requires k < |calls|
  {
    calls[k].Execute? && !Remembers(MemoryAt(calls, k), calls[k].now)
  }

  /** What call `k` replies. */
  function ReplyAt(calls: seq<Call>, k: nat): Reply
    requires k < |calls| && calls[k].Execute?
  {
    if Fetches(calls, k) then Told(calls[k].fetch) else Returned(MemoryAt(calls, k).value.release)
  }

  /** Call `k` replies what the fetch of call `j` told. That fetch started less than its TTL
      before, and since then the store was not read and nothing was forgotten. */
  ghost predicate AnsweredBy(calls: seq<Call>, j: nat, k: nat)
    requires j <= k < |calls| && calls[k].Execute?
  {
    && Fetches(calls, j) && ReplyAt(calls, k) == Told(calls[j].fetch)
    && (j < k ==> !calls[j].fetch.Crashed? && calls[k].now < calls[j].now + Ttl(calls[j].fetch))
    && (forall i :: j < i <= k ==> calls[i].Execute? && !Fetches(calls, i))
  }

  /** The remembered answer is that of fetch `j`. */
  ghost predicate MemoryOf(calls: seq<Call>, j: nat, k: nat)
    requires j < k <= |calls|
  {
    && Fetches(calls, j) && !calls[j].fetch.Crashed?
    && MemoryAt(calls, k) == Some(Remembered(Told(calls[j].fetch).release, calls[j].now + Ttl(calls[j].fetch)))
    && (forall i :: j < i < k ==> calls[i].Execute? && (Fetches(calls, i) ==> calls[i].fetch.Crashed?))
  }

  lemma {:induction false} MemoryHasASource(calls: seq<Call>, k: nat) returns (j: nat)
    requires k <= |calls| && MemoryAt(calls, k).Some?
    ensures j < k && MemoryOf(calls, j, k)
  {
    var last := calls[k - 1];
    if Fetches(calls, k - 1) && !last.fetch.Crashed? {
      j := k - 1;
    } else {
      j := MemoryHasASource(calls, k - 1);
    }
  }

  /** Every reply of every run is what a sufficiently recent fetch told. */
  lemma EveryReplyIsFresh(calls: seq<Call>, k: nat) returns (j: nat)
    requires ClockNeverGoesBack(calls)
    requires k < |calls| && calls[k].Execute?
    ensures j <= k && AnsweredBy(calls, j, k)
    ensures ReplyAt(calls, k) == match calls[j].fetch
                                 case Answered(release) => Returned(release)
                                 case Unavailable => Returned(None)
                                 case Crashed => Raised
    ensures calls[k].now < calls[j].now + if calls[j].fetch.Answered? then 300.0 else 60.0
    ensures forall i :: j < i <= k ==> calls[i].Execute? && !Fetches(calls, i)
  {
    if Fetches(calls, k) {
      j := k;
    } else {
      j := MemoryHasASource(calls, k);
      forall i | j < i <= k ensures calls[i].Execute? && !Fetches(calls, i) {
        if i < k && Fetches(calls, i) {
          SameMemory(calls, j, i, k);
          assert false;
        }
      }
    }
  }

  /** While only crashes happen, what is remembered stays the same. */
  lemma {:induction false} SameMemory(calls: seq<Call>, j: nat, i: nat, k: nat)
    requires j < i <= k <= |calls| && MemoryOf(calls, j, k)
    ensures MemoryAt(calls, i) == MemoryAt(calls, k)
  {
    if i < k {
      assert MemoryAt(calls, k) == MemoryAfter(MemoryAt(calls, k - 1), calls[k - 1].now, calls[k - 1].fetch);
      SameMemory(calls, j, i, k - 1);
    }
  }

  // -------------------------------------------------------- how often the store is read

  /** Since the last read of the store its outcome has been lost: the read crashed,
      or what it left was forgotten. */
  predicate Unsettled(calls: seq<Call>, k: nat)
    requires k <= |calls|
  {
    if k == 0 then false
    else if calls[k - 1].Forget? then true
    else if Fetches(calls, k - 1) then calls[k - 1].fetch.Crashed?
    else Unsettled(calls, k - 1)
  }

  /** The moments at which the first `k` calls read the store. */
  function FetchMoments(calls: seq<Call>, k: nat): seq<Moment>
    requires k <= |calls|
  {
    if k == 0 then []
    else
      FetchMoments(calls, k - 1)
      + (if Fetches(calls, k - 1) then [Moment(calls[k - 1].now, Unsettled(calls, k - 1))] else [])
  }

  lemma SpacedExtends(moments: seq<Moment>, next: Moment, gap: real)
    requires Spaced(moments, gap)
    requires moments != [] ==> moments[|moments| - 1].at + (if next.free then 0.0 else gap) <= next.at
    ensures Spaced(moments + [next], gap)
  {
  }

  lemma {:induction false} FetchesAreSpaced(calls: seq<Call>, k: nat)
    requires ClockNeverGoesBack(calls) && k <= |calls|
    ensures var moments := FetchMoments(calls, k);
            && Spaced(moments, FAILURE_TTL)
            && (moments != [] ==>
                  && (forall i :: k <= i < |calls| ==> moments[|moments| - 1].at <= calls[i].now)
                  && (!Unsettled(calls, k) ==>
                        && MemoryAt(calls, k).Some?
                        && moments[|moments| - 1].at + FAILURE_TTL <= MemoryAt(calls, k).value.until))
  {
    if k > 0 {
      FetchesAreSpaced(calls, k - 1);
      if Fetches(calls, k - 1) {
        SpacedExtends(FetchMoments(calls, k - 1), Moment(calls[k - 1].now, Unsettled(calls, k - 1)), FAILURE_TTL);
      }
    }
  }

  /** In any window the store is read at most once per failure TTL, once more for the edge,
      and once for each read that follows a crash or a forget. */
  lemma FetchesInAnyWindow(calls: seq<Call>, from: real, length: real)
    requires ClockNeverGoesBack(calls) && length >= 0.0
    ensures var moments := FetchMoments(calls, |calls|);
            CountIn(moments, from, from + length)
            <= GapsIn(length, FAILURE_TTL) + 1 + FreeIn(moments, from, from + length)
  {
    FetchesAreSpaced(calls, |calls|);
    WindowBound(FetchMoments(calls, |calls|), from, length, FAILURE_TTL);
  }

  lemma {:induction false} NothingIsLost(calls: seq<Call>, k: nat)
    requires k <= |calls|
    requires forall i :: 0 <= i < |calls| ==> calls[i].Execute? && !calls[i].fetch.Crashed?
    ensures !Unsettled(calls, k)
    ensures forall i :: 0 <= i < |FetchMoments(calls, k)| ==> !FetchMoments(calls, k)[i].free
  {
    if k > 0 {
      NothingIsLost(calls, k - 1);
    }
  }

  /** Without forgetting and without crashes the bound is one read per failure TTL. */
  lemma FetchesInAnyWindowOfAQuietRun(calls: seq<Call>, from: real, length: real)
    requires ClockNeverGoesBack(calls) && length >= 0.0
    requires forall i :: 0 <= i < |calls| ==> calls[i].Execute? && !calls[i].fetch.Crashed?
    ensures CountIn(FetchMoments(calls, |calls|), from, from + length) <= GapsIn(length, FAILURE_TTL) + 1
  {
    NothingIsLost(calls, |calls|);
    NoneFree(FetchMoments(calls, |calls|), from, from + length);
    FetchesInAnyWindow(calls, from, length);
  }

  /** A lost outcome is not waited for: the next call reads the store again. */
  lemma {:induction false} LostMeansFetched(calls: seq<Call>, k: nat)
    requires ClockNeverGoesBack(calls) && k < |calls| && Unsettled(calls, k)
    ensures !Remembers(MemoryAt(calls, k), calls[k].now)
  {
    if calls[k - 1].Execute? && !Fetches(calls, k - 1) {
      LostMeansFetched(calls, k - 1);
    }
  }

  /** Between two calls there is no other read: the outcome is lost by a crash or a forget. */
  lemma {:induction false} LostExactlyByCrashOrForget(calls: seq<Call>, j: nat, k: nat)
    requires j < k <= |calls| && Fetches(calls, j)
    requires forall i :: j < i < k ==> !Fetches(calls, i)
    ensures Unsettled(calls, k) <==> calls[j].fetch.Crashed? || exists i :: j < i < k && calls[i].Forget?
  {
    if k > j + 1 {
      LostExactlyByCrashOrForget(calls, j, k - 1);
    }
  }

  lemma {:induction false} KeptWhileSettled(calls: seq<Call>, j: nat, k: nat)
    requires j < k <= |calls| && Fetches(calls, j) && !calls[j].fetch.Crashed?
    requires forall i :: j < i < k ==> calls[i].Execute? && !Fetches(calls, i)
    ensures MemoryAt(calls, k) == Some(Remembered(Told(calls[j].fetch).release, calls[j].now + Ttl(calls[j].fetch)))
  {
    if k > j + 1 {
      KeptWhileSettled(calls, j, k - 1);
    }
  }

  /** When the store is read next: once the TTL of the last read has passed, or before that
      exactly when the last read crashed or was followed by a forget. */
  lemma FetchesAgainExactlyWhen(calls: seq<Call>, j: nat, k: nat)
    requires ClockNeverGoesBack(calls) && j < k < |calls| && Fetches(calls, j) && calls[k].Execute?
    requires forall i :: j < i < k ==> !Fetches(calls, i)
    ensures Fetches(calls, k) <==>
            || calls[k].now >= calls[j].now + Ttl(calls[j].fetch)
            || calls[j].fetch.Crashed?
            || exists i :: j < i < k && calls[i].Forget?
  {
    LostExactlyByCrashOrForget(calls, j, k);
    if Unsettled(calls, k) {
      LostMeansFetched(calls, k);
    } else {
      KeptWhileSettled(calls, j, k);
    }
  }

  /** An exception that is not "unavailable" is not remembered: a store that keeps raising
      one is read by every call. */
  lemma {:induction false} CrashesAreAskedEveryTime(calls: seq<Call>, k: nat)
    requires k < |calls|
    requires forall i :: 0 <= i < |calls| ==> calls[i].Execute? && calls[i].fetch.Crashed?
    ensures Fetches(calls, k) && MemoryAt(calls, k) == None
  {
    if k > 0 {
      CrashesAreAskedEveryTime(calls, k - 1);
    }
  }

  function Crashes(n: nat, at: real): seq<Call> {
    seq(n, _ => Execute(at, Crashed))
  }

  lemma {:induction false} CrashesAllFetch(n: nat, at: real, k: nat)
    requires k <= n
    ensures |FetchMoments(Crashes(n, at), k)| == k
    ensures forall i :: 0 <= i < k ==> FetchMoments(Crashes(n, at), k)[i].at == at
  {
    if k > 0 {
      CrashesAllFetch(n, at, k - 1);
      CrashesAreAskedEveryTime(Crashes(n, at), k - 1);
    }
  }

  /** So the bound of a quiet run breaks without a single forget: in every window there can be
      any number of reads. */
  lemma CrashesBreakTheBound(from: real, length: real, n: nat)
    requires length >= 0.0
    ensures var calls := Crashes(n, from);
            && ClockNeverGoesBack(calls) && (forall k :: 0 <= k < |calls| ==> calls[k].Execute?)
            && CountIn(FetchMoments(calls, |calls|), from, from + length) == n
  {
    CrashesAllFetch(n, from, n);
    CountAll(FetchMoments(Crashes(n, from), n), from, from + length);
  }
}
