/** Trying to sign in through the provider without showing a screen, at most so often.

    Opening the login page may send the browser to the provider with prompt=none; when
    nobody is signed in there, the provider sends it straight back to the login page.
    Two marks and the reload flag of the document keep this from going round and round. */
module SilentSso {

  const REDIRECT_TO: string := "redirect_to"
  const SILENT_DECLINED: string := "sso_silent"

  /** How the browser's storage behaves at the moment. */
  datatype Storage = Works | WritesAreLost | Throws

  /** Nothing but the destination is on the URL; after a reload the decline may be, too. */
  predicate CleanQuery(names: seq<string>, reloaded: bool) {
    forall i :: 0 <= i < |names| ==> names[i] == REDIRECT_TO || (reloaded && names[i] == SILENT_DECLINED)
  }

  predicate MayTry(tried: bool, signedOut: bool, storage: Storage, names: seq<string>, reloaded: bool) {
    CleanQuery(names, reloaded) && !storage.Throws? && !signedOut && (reloaded || !tried)
  }

  /** A mark after it was to be set, or to be removed. */
  predicate MarkSet(mark: bool, storage: Storage) {
    mark || storage.Works?
  }

  predicate MarkCleared(mark: bool, storage: Storage) {
    mark && !storage.Works?
  }

  /** The two marks: `tried` lives in the tab, `signedOut` in the browser. */
  class Marks {
    var tried: bool
    var signedOut: bool

    constructor ()
      ensures !tried && !signedOut
    {
      tried, signedOut := false, false;
    }

    method MaySilentSso(storage: Storage, names: seq<string>, reloaded: bool) returns (may: bool)
      ensures may == MayTry(tried, signedOut, storage, names, reloaded)
      ensures may <==>
              && (forall i :: 0 <= i < |names| ==>
                    names[i] == "redirect_to" || (reloaded && names[i] == "sso_silent"))
              && !storage.Throws? && !signedOut && (reloaded || !tried)
    {
      for i := 0 to |names|
        invariant CleanQuery(names[..i], reloaded)
      {
        if names[i] == REDIRECT_TO || (reloaded && names[i] == SILENT_DECLINED) {
          assert names[..i + 1] == names[..i] + [names[i]];
          continue;
        }
        return false;
      }
      assert names[..|names|] == names;
      if storage.Throws? {
        return false;
      }
      if signedOut {
        return false;
      }
      return reloaded || !tried;
    }

    /** Writes the mark and reads it back. */
    method MarkSilentSsoTried(storage: Storage) returns (marked: bool)
      modifies this`tried
      ensures tried == MarkSet(old(tried), storage)
      ensures marked ==> tried
      ensures marked <==> !storage.Throws? && tried
    {
      match storage {
        case Throws =>
          return false;
        case WritesAreLost =>
        case Works =>
          tried := true;
      }
      return tried;
    }

    method MarkSignedOut(storage: Storage)
      modifies this`signedOut
      ensures signedOut == MarkSet(old(signedOut), storage)
    {
      if storage.Works? {
        signedOut := true;
      }
    }

    method ClearSilentSsoMarks(storage: Storage)
      modifies this
      ensures storage.Works? ==> !tried && !signedOut
      ensures !storage.Works? ==> tried == old(tried) && signedOut == old(signedOut)
      ensures tried == MarkCleared(old(tried), storage)
      ensures signedOut == MarkCleared(old(signedOut), storage)
    {
      if storage.Works? {
        signedOut := false;
        tried := false;
      }
    }

    /** The effect of the login page: whether it sends the browser off. */
    method OpenLogin(storage: Storage, names: seq<string>, reloaded: bool, enabled: bool) returns (sent: bool)
      modifies this`tried
      ensures sent == Sends(old(tried), signedOut, storage, names, reloaded, enabled)
      ensures tried == TriedAfter(old(tried), signedOut, storage, names, reloaded, enabled)
    {
      var allowed := MaySilentSso(storage, names, reloaded);
      sent := false;
      if enabled && allowed {
        sent := MarkSilentSsoTried(storage);
      }
    }
  }

  /** The page leaves only when it may try and the mark can be read back. */
  predicate Sends(
      tried: bool, signedOut: bool, storage: Storage, names: seq<string>, reloaded: bool, enabled: bool)
  {
    enabled && MayTry(tried, signedOut, storage, names, reloaded) && (tried || storage.Works?)
  }

  predicate TriedAfter(
      tried: bool, signedOut: bool, storage: Storage, names: seq<string>, reloaded: bool, enabled: bool)
  {
    tried || (enabled && MayTry(tried, signedOut, storage, names, reloaded) && storage.Works?)
  }

  // ------------------------------------------------------------ one tab

  /** `reloaded`: the user's reload opened the current document (for as long as it lives).
      `away`: the browser was sent off and has not come back. The counts are of attempts and
      of reloads since the marks were last cleared. */
  datatype Tab = Tab(
    tried: bool, signedOut: bool, reloaded: bool, away: bool, names: seq<string>,
    attempts: nat, reloads: nat)

  datatype Event =
    | OpenLogin(storage: Storage, enabled: bool)   // the login page appears in this document
    | Return(names: seq<string>)                   // back from the provider, declined or failed
    | Visit(names: seq<string>)                    // any other page load
    | Reload
    | Route(names: seq<string>)                    // a move inside the document
    | RenewalDeclined(storage: Storage)            // a renewal in a hidden frame was declined
    | SignOut(storage: Storage)
    | SignIn(storage: Storage)                     // signed in by any entrance

  predicate Enabled(t: Tab, e: Event) {
    if e.Return? then t.away else !t.away
  }

  function Next(t: Tab, e: Event): Tab
    requires Enabled(t, e)
  {
    match e
    case OpenLogin(storage, enabled) =>
      var sent := Sends(t.tried, t.signedOut, storage, t.names, t.reloaded, enabled);
      t.(tried := TriedAfter(t.tried, t.signedOut, storage, t.names, t.reloaded, enabled),
         away := sent, attempts := t.attempts + if sent then 1 else 0)
    case Return(names) => t.(away := false, reloaded := false, names := names)
    case Visit(names) => t.(reloaded := false, names := names)
    case Reload => t.(reloaded := true, reloads := t.reloads + 1)
    case Route(names) => t.(names := names)
    case RenewalDeclined(storage) => t.(tried := MarkSet(t.tried, storage))
    case SignOut(storage) => t.(signedOut := MarkSet(t.signedOut, storage))
    case SignIn(storage) =>
      var u := t.(tried := MarkCleared(t.tried, storage), signedOut := MarkCleared(t.signedOut, storage));
      if storage.Works? then u.(attempts := 0, reloads := 0) else u
  }

  ghost predicate RunsTo(t: Tab, events: seq<Event>, u: Tab)
    decreases |events|
  {
    if events == [] then t == u
    else Enabled(t, events[0]) && RunsTo(Next(t, events[0]), events[1..], u)
  }

  // ------------------------------------------------------------ the bound

  /** How many more attempts the tab may start without the user reloading or signing in. */
  function Left(t: Tab): nat {
    if t.away then 0 else if t.reloaded || !t.tried then 1 else 0
  }

  /** While the browser is away its mark is set, so coming back leaves no attempt. */
  predicate Marked(t: Tab) {
    t.away ==> t.tried
  }

  predicate Clears(e: Event) {
    e.SignIn? && e.storage.Works?
  }

  /** An attempt uses one up; only a reload or a sign-in can give one. */
  lemma StepPaysForAttempts(t: Tab, e: Event)
    requires Marked(t) && Enabled(t, e)
    ensures Marked(Next(t, e))
    ensures !Clears(e) ==>
      Next(t, e).attempts - t.attempts + Left(Next(t, e)) <= Left(t) + Next(t, e).reloads - t.reloads
  {
  }

  /** From any state: attempts so far never exceed what was left plus the reloads since. */
  lemma {:induction false} RunPaysForAttempts(t: Tab, events: seq<Event>, u: Tab)
    requires Marked(t) && RunsTo(t, events, u)
    requires forall i :: 0 <= i < |events| ==> !Clears(events[i])
    ensures Marked(u)
    ensures u.attempts - t.attempts + Left(u) <= Left(t) + u.reloads - t.reloads
    decreases |events|
  {
    if events != [] {
      StepPaysForAttempts(t, events[0]);
      RunPaysForAttempts(Next(t, events[0]), events[1..], u);
    }
  }

  /** In every run at most one attempt plus one per reload since the marks were cleared. */
  lemma {:induction false} CannotLoop(t: Tab, events: seq<Event>, u: Tab)
    requires Marked(t) && t.attempts + Left(t) <= 1 + t.reloads
    requires RunsTo(t, events, u)
    ensures u.attempts + Left(u) <= 1 + u.reloads && Marked(u)
    decreases |events|
  {
    if events != [] {
      StepPaysForAttempts(t, events[0]);
      CannotLoop(Next(t, events[0]), events[1..], u);
    }
  }

  /** After a decline the login page does not send the browser off again by itself, whatever
      the storage does and wherever the decline leads, until the user reloads or signs in. */
  lemma DeclinedStaysPut(t: Tab, names: seq<string>, events: seq<Event>, u: Tab)
    requires t.away && Marked(t) && RunsTo(t, [Return(names)] + events, u)
    requires forall i :: 0 <= i < |events| ==> !Clears(events[i]) && !events[i].Reload?
    ensures u.attempts == t.attempts
  {
    var back := Next(t, Return(names));
    assert ([Return(names)] + events)[1..] == events;
    RunPaysForAttempts(back, events, u);
    CountsOnlyGrow(back, events, u);
  }

  lemma {:induction false} CountsOnlyGrow(t: Tab, events: seq<Event>, u: Tab)
    requires RunsTo(t, events, u)
    requires forall i :: 0 <= i < |events| ==> !Clears(events[i])
    ensures t.attempts <= u.attempts && t.reloads <= u.reloads
    ensures (forall i :: 0 <= i < |events| ==> !events[i].Reload?) ==> t.reloads == u.reloads
    decreases |events|
  {
    if events != [] {
      CountsOnlyGrow(Next(t, events[0]), events[1..], u);
    }
  }

  /** After signing out nothing is tried, not even on a reload, until someone signs in. */
  lemma {:induction false} SignedOutNeverTries(t: Tab, events: seq<Event>, u: Tab)
    requires t.signedOut && !t.away && RunsTo(t, events, u)
    requires forall i :: 0 <= i < |events| ==> !Clears(events[i])
    ensures u.signedOut && u.attempts == t.attempts
    decreases |events|
  {
    if events != [] {
      SignedOutNeverTries(Next(t, events[0]), events[1..], u);
    }
  }

  /** The bound is reached: a first visit tries once, and so does each reload of the page a
      decline led to. */
  lemma ReloadTriesAgain(t: Tab)
    requires t.names == [REDIRECT_TO] && !t.tried && !t.signedOut && !t.away
    ensures var open := Event.OpenLogin(Works, true);
            exists u :: RunsTo(t, [open, Return([SILENT_DECLINED, REDIRECT_TO]), open, Reload, open], u)
                        && u.attempts == t.attempts + 2 && u.reloads == t.reloads + 1
  {
    var open := Event.OpenLogin(Works, true);
    var back := Return([SILENT_DECLINED, REDIRECT_TO]);
    var t1 := Next(t, open);
    var t2 := Next(t1, back);
    assert t2.names[0] == SILENT_DECLINED;
    var t3 := Next(t2, open);
    assert t3 == t2;
    var t4 := Next(t3, Reload);
    var t5 := Next(t4, open);
    assert RunsTo(t5, [], t5);
    assert [open, back, open, Reload, open][1..] == [back, open, Reload, open];
    assert [back, open, Reload, open][1..] == [open, Reload, open];
    assert [open, Reload, open][1..] == [Reload, open] && [Reload, open][1..] == [open] && [open][1..] == [];
    assert RunsTo(t4, [open], t5) && RunsTo(t3, [Reload, open], t5) && RunsTo(t2, [open, Reload, open], t5);
    assert RunsTo(t1, [back, open, Reload, open], t5);
  }

  // ------------------------------------------------------------ what each event does

  /** Whether the login page, opened where storage works, sends the browser off. */
  predicate Leaves(t: Tab) {
    !t.away && Next(t, Event.OpenLogin(Works, true)).away
  }

  /** Another page load may try when nothing but the destination is on its address. */
  lemma LeavesAfterVisit(t: Tab, names: seq<string>)
    requires !t.away
    ensures Leaves(Next(t, Visit(names))) <==>
            (forall i :: 0 <= i < |names| ==> names[i] == "redirect_to") && !t.signedOut && !t.tried
  {
  }

  /** A reload may try although the tab has tried, also on the page a decline led to. */
  lemma LeavesAfterReload(t: Tab)
    requires !t.away
    ensures Leaves(Next(t, Reload)) <==>
            (forall i :: 0 <= i < |t.names| ==> t.names[i] == "redirect_to" || t.names[i] == "sso_silent")
            && !t.signedOut
  {
  }

  /** A move inside the document keeps the document's reload. */
  lemma LeavesAfterRoute(t: Tab, names: seq<string>)
    requires !t.away
    ensures Leaves(Next(t, Route(names))) <==>
            (forall i :: 0 <= i < |names| ==> names[i] == "redirect_to" || (t.reloaded && names[i] == "sso_silent"))
            && !t.signedOut && (t.reloaded || !t.tried)
  {
  }

  /** Back from the provider it does not leave again, whatever is on the address. */
  lemma StaysAfterReturn(t: Tab, names: seq<string>)
    requires t.away && Marked(t)
    ensures !Leaves(Next(t, Return(names)))
  {
  }

  /** A renewal declined in a hidden frame counts as tried. */
  lemma StaysAfterDeclinedRenewal(t: Tab)
    requires !t.away && !t.reloaded
    ensures !Leaves(Next(t, RenewalDeclined(Works)))
  {
  }

  lemma StaysAfterSignOut(t: Tab)
    requires !t.away
    ensures !Leaves(Next(t, SignOut(Works))) && !Leaves(Next(Next(t, SignOut(Works)), Reload))
  {
  }

  /** Signing in makes room for an attempt again. */
  lemma LeavesAfterSignIn(t: Tab, names: seq<string>)
    requires !t.away && forall i :: 0 <= i < |names| ==> names[i] == "redirect_to"
    ensures Leaves(Next(Next(t, SignIn(Works)), Visit(names)))
    ensures Next(t, SignIn(Works)).attempts == 0 && Next(t, SignIn(Works)).reloads == 0
  {
  }
}
