/**
 Hot replacement of modules: loads, snapshots and releases interleaved in any order.
 A module is a handle with a reference count; its handle is closed when the last holder
 lets go, or at once when a load fails.
 */
module HotSwap {
  import opened Text

  /** Where a thread is inside `load`. */
  datatype Loader =
    | Opened(h: nat)
    | Ready(h: nat, isReload: bool)
    | Built(h: nat, isReload: bool)
    | Published(h: nat, isReload: bool)
    | Notified(h: nat)

  datatype Event = Loaded | Reloaded | LoadFailed

  /**
   Handles are numbered as they are opened; `closes[h]` counts how often h was closed and
   `refs[h]` is the reference count of its module. `snapshots` are the references readers
   and callers hold.
   */
  datatype Manager = Manager(
    closes: seq<nat>, refs: seq<nat>, current: Option<nat>, loaders: map<nat, Loader>,
    snapshots: multiset<nat>, events: seq<Event>)

  const INITIAL := Manager([], [], None, map[], multiset{}, [])

  datatype Action =
    | OpenFails(t: nat) | Open(t: nat) | Fail(t: nat) | ReadReload(t: nat) | Build(t: nat)
    | Publish(t: nat) | Notify(t: nat) | Return(t: nat)
    | Acquire | Release(h: nat) | Shutdown

  /** The thread of a load step; None for readers and for the end of the manager. */
  function Writer(a: Action): Option<nat> {
    match a
    case OpenFails(t) => Some(t)
    case Open(t) => Some(t)
    case Fail(t) => Some(t)
    case ReadReload(t) => Some(t)
    case Build(t) => Some(t)
    case Publish(t) => Some(t)
    case Notify(t) => Some(t)
    case Return(t) => Some(t)
    case _ => None
  }

  predicate Enabled(s: Manager, a: Action) {
    match a
    case OpenFails(t) => t !in s.loaders
    case Open(t) => t !in s.loaders
    case Fail(t) => t in s.loaders && s.loaders[t].Opened? && s.loaders[t].h < |s.closes|
    case ReadReload(t) => t in s.loaders && s.loaders[t].Opened?
    case Build(t) => t in s.loaders && s.loaders[t].Ready? && s.loaders[t].h < |s.refs|
    case Publish(t) =>
      t in s.loaders && s.loaders[t].Built? && s.loaders[t].h < |s.refs| == |s.closes| &&
      (s.current.Some? ==> s.current.value < |s.refs|)
    case Notify(t) => t in s.loaders && s.loaders[t].Published?
    case Return(t) => t in s.loaders && s.loaders[t].Notified?
    case Acquire => s.current.Some? ==> s.current.value < |s.refs|
    case Release(h) => h in s.snapshots && h < |s.refs| == |s.closes|
    case Shutdown => s.loaders == map[] && (s.current.Some? ==> s.current.value < |s.refs| == |s.closes|)
  }

  function Retained(s: Manager, h: nat): Manager
    requires h < |s.refs|
  {
    s.(refs := s.refs[h := s.refs[h] + 1])
  }

  /** One holder lets go; the last one closes the handle. */
  function Dropped(s: Manager, h: nat): Manager
    requires h < |s.refs| == |s.closes|
  {
    if s.refs[h] <= 1 then s.(refs := s.refs[h := 0], closes := s.closes[h := s.closes[h] + 1])
    else s.(refs := s.refs[h := s.refs[h] - 1])
  }

  function DroppedCurrent(s: Manager): Manager
    requires s.current.Some? ==> s.current.value < |s.refs| == |s.closes|
  {
    if s.current.Some? then Dropped(s, s.current.value).(current := None) else s
  }

  function Do(s: Manager, a: Action): Manager
    requires Enabled(s, a)
  {
    match a
    case OpenFails(t) => s.(events := s.events + [LoadFailed])
    case Open(t) =>
      s.(closes := s.closes + [0], refs := s.refs + [0], loaders := s.loaders[t := Opened(|s.closes|)])
    case Fail(t) =>
      s.(closes := s.closes[s.loaders[t].h := s.closes[s.loaders[t].h] + 1], loaders := s.loaders - {t},
         events := s.events + [LoadFailed])
    case ReadReload(t) => s.(loaders := s.loaders[t := Ready(s.loaders[t].h, s.current.Some?)])
    case Build(t) =>
      Retained(s.(loaders := s.loaders[t := Built(s.loaders[t].h, s.loaders[t].isReload)]), s.loaders[t].h)
    case Publish(t) =>
      var h := s.loaders[t].h;
      DroppedCurrent(Retained(s, h)).(current := Some(h), loaders := s.loaders[t := Published(h, s.loaders[t].isReload)])
    case Notify(t) =>
      s.(loaders := s.loaders[t := Notified(s.loaders[t].h)],
         events := s.events + [if s.loaders[t].isReload then Reloaded else Loaded])
    case Return(t) => s.(loaders := s.loaders - {t}, snapshots := s.snapshots + multiset{s.loaders[t].h})
    case Acquire =>
      if s.current.None? then s
      else Retained(s, s.current.value).(snapshots := s.snapshots + multiset{s.current.value})
    case Release(h) => Dropped(s, h).(snapshots := s.snapshots - multiset{h})
    case Shutdown => DroppedCurrent(s)
  }

  /** The state a schedule of steps leads to; None when some step was not possible. */
  function After(actions: seq<Action>): Option<Manager> {
    if actions == [] then Some(INITIAL)
    else Stepped(After(actions[..|actions| - 1]), actions[|actions| - 1])
  }

  function Stepped(s: Option<Manager>, a: Action): Option<Manager> {
    if s.None? || !Enabled(s.value, a) then None else Some(Do(s.value, a))
  }

  // ---- the invariant -------------------------------------------------------

  /** Whether thread `t` is loading handle `h`. */
  predicate Loads(s: Manager, t: nat, h: nat) {
    t in s.loaders && s.loaders[t].h == h
  }

  /** Opened, but not yet a module. */
  predicate IsPending(l: Loader) {
    l.Opened? || l.Ready?
  }

  ghost predicate Pending(s: Manager, h: nat) {
    exists t :: Loads(s, t, h) && IsPending(s.loaders[t])
  }

  /** A loader between building the module and returning it holds a reference of its own. */
  ghost predicate HeldByLoader(s: Manager, h: nat) {
    exists t :: Loads(s, t, h) && !IsPending(s.loaders[t])
  }

  ghost function Holders(s: Manager, h: nat): nat {
    (if s.current == Some(h) then 1 else 0) + s.snapshots[h] + (if HeldByLoader(s, h) then 1 else 0)
  }

  ghost predicate HandleOk(s: Manager, h: nat)
    requires h < |s.refs| == |s.closes|
  {
    && s.refs[h] == Holders(s, h)
    && s.closes[h] == (if s.refs[h] == 0 && !Pending(s, h) then 1 else 0)
    && (Pending(s, h) ==> s.refs[h] == 0)
  }

  ghost predicate Inv(s: Manager) {
    && |s.refs| == |s.closes|
    && (forall h :: 0 <= h < |s.refs| ==> HandleOk(s, h))
    && (s.current.Some? ==> s.current.value < |s.refs|)
    && (forall t :: t in s.loaders ==> s.loaders[t].h < |s.refs|)
    && (forall t, u :: t in s.loaders && u in s.loaders && s.loaders[t].h == s.loaders[u].h ==> t == u)
    && (forall h :: h in s.snapshots ==> h < |s.refs|)
  }

  /** Only one loader is on a handle, so its stage decides. */
  lemma {:induction false} Sole(s: Manager, t: nat)
    requires Inv(s) && t in s.loaders
    ensures Pending(s, s.loaders[t].h) <==> IsPending(s.loaders[t])
    ensures HeldByLoader(s, s.loaders[t].h) <==> !IsPending(s.loaders[t])
  {
    assert Loads(s, t, s.loaders[t].h);
  }

  /** Two states whose loaders agree except on thread `t`. */
  ghost predicate OnlyLoader(s: Manager, u: Manager, t: nat) {
    forall x :: x != t ==> (x in s.loaders <==> x in u.loaders) && (x in s.loaders ==> s.loaders[x] == u.loaders[x])
  }

  lemma {:induction false} OtherHandle(s: Manager, u: Manager, t: nat, h: nat)
    requires OnlyLoader(s, u, t) && !Loads(s, t, h) && !Loads(u, t, h)
    ensures Pending(s, h) == Pending(u, h) && HeldByLoader(s, h) == HeldByLoader(u, h)
  {
    forall x ensures Loads(s, x, h) == Loads(u, x, h) && (Loads(s, x, h) ==> s.loaders[x] == u.loaders[x]) {
    }
    if Pending(s, h) {
      var x :| Loads(s, x, h) && IsPending(s.loaders[x]);
      assert Loads(u, x, h);
    }
    if Pending(u, h) {
      var x :| Loads(u, x, h) && IsPending(u.loaders[x]);
      assert Loads(s, x, h);
    }
    if HeldByLoader(s, h) {
      var x :| Loads(s, x, h) && !IsPending(s.loaders[x]);
      assert Loads(u, x, h);
    }
    if HeldByLoader(u, h) {
      var x :| Loads(u, x, h) && !IsPending(u.loaders[x]);
      assert Loads(s, x, h);
    }
  }

  lemma {:induction false} SameLoaders(s: Manager, u: Manager, h: nat)
    requires s.loaders == u.loaders
    ensures Pending(s, h) == Pending(u, h) && HeldByLoader(s, h) == HeldByLoader(u, h)
  {
    assert forall t :: Loads(s, t, h) == Loads(u, t, h);
  }

  lemma {:induction false} NoLoader(s: Manager, h: nat)
    requires forall t :: t in s.loaders ==> s.loaders[t].h != h
    ensures !Pending(s, h) && !HeldByLoader(s, h)
  {
  }

  lemma {:induction false} OpenKeeps(s: Manager, t: nat)
    requires Inv(s) && Enabled(s, Open(t))
    ensures Inv(Do(s, Open(t)))
  {
    hide Pending, HeldByLoader;
    var u, n := Do(s, Open(t)), |s.closes|;
    forall h | 0 <= h < |u.refs| ensures HandleOk(u, h) {
      if h < n {
        assert HandleOk(s, h);
        OtherHandle(s, u, t, h);
      } else {
        NoLoader(s, n);
        OpenedIs(s, u, t);
      }
    }
  }

  /** The new handle is pending and nobody holds it. */
  lemma {:induction false} OpenedIs(s: Manager, u: Manager, t: nat)
    requires Inv(s) && Enabled(s, Open(t)) && u == Do(s, Open(t))
    ensures Pending(u, |s.closes|) && !HeldByLoader(u, |s.closes|)
  {
    assert Loads(u, t, |s.closes|);
  }

  lemma {:induction false} FailKeeps(s: Manager, t: nat)
    requires Inv(s) && Enabled(s, Fail(t))
    ensures Inv(Do(s, Fail(t)))
  {
    hide Pending, HeldByLoader;
    var u, k := Do(s, Fail(t)), s.loaders[t].h;
    Sole(s, t);
    forall h | 0 <= h < |u.refs| ensures HandleOk(u, h) {
      assert HandleOk(s, h);
      if h == k {
        NoLoader(u, k);
      } else {
        OtherHandle(s, u, t, h);
      }
    }
  }

  /** A loader that moves from one stage to another on the same handle. */
  lemma {:induction false} StageIs(u: Manager, t: nat)
    requires t in u.loaders
    requires forall x :: x in u.loaders && u.loaders[x].h == u.loaders[t].h ==> x == t
    ensures Pending(u, u.loaders[t].h) <==> IsPending(u.loaders[t])
    ensures HeldByLoader(u, u.loaders[t].h) <==> !IsPending(u.loaders[t])
  {
    assert Loads(u, t, u.loaders[t].h);
  }

  lemma {:induction false} StageKeeps(s: Manager, t: nat, a: Action)
    requires Inv(s) && (a == ReadReload(t) || a == Notify(t)) && Enabled(s, a)
    ensures Inv(Do(s, a))
  {
    hide Pending, HeldByLoader;
    var u := Do(s, a);
    Sole(s, t);
    StageIs(u, t);
    forall h | 0 <= h < |u.refs| ensures HandleOk(u, h) {
      assert HandleOk(s, h);
      if h != s.loaders[t].h {
        OtherHandle(s, u, t, h);
      }
    }
  }

  lemma {:induction false} BuildKeeps(s: Manager, t: nat)
    requires Inv(s) && Enabled(s, Build(t))
    ensures Inv(Do(s, Build(t)))
  {
    hide Pending, HeldByLoader;
    var u := Do(s, Build(t));
    Sole(s, t);
    StageIs(u, t);
    forall h | 0 <= h < |u.refs| ensures HandleOk(u, h) {
      assert HandleOk(s, h);
      if h != s.loaders[t].h {
        OtherHandle(s, u, t, h);
      }
    }
  }

  /** Publishing adds the manager's reference to the new module and takes it from the old one. */
  lemma {:induction false} PublishKeeps(s: Manager, t: nat)
    requires Inv(s) && Enabled(s, Publish(t))
    ensures Inv(Do(s, Publish(t)))
  {
    hide Pending, HeldByLoader;
    var u, k := Do(s, Publish(t)), s.loaders[t].h;
    Sole(s, t);
    StageIs(u, t);
    forall h | 0 <= h < |u.refs| ensures HandleOk(u, h) {
      assert HandleOk(s, h);
      if h != k {
        OtherHandle(s, u, t, h);
      }
    }
  }

  lemma {:induction false} ReturnKeeps(s: Manager, t: nat)
    requires Inv(s) && Enabled(s, Return(t))
    ensures Inv(Do(s, Return(t)))
  {
    hide Pending, HeldByLoader;
    var u, k := Do(s, Return(t)), s.loaders[t].h;
    Sole(s, t);
    forall h | 0 <= h < |u.refs| ensures HandleOk(u, h) {
      assert HandleOk(s, h);
      if h == k {
        NoLoader(u, k);
      } else {
        OtherHandle(s, u, t, h);
      }
    }
  }

  lemma {:induction false} AcquireKeeps(s: Manager)
    requires Inv(s) && Enabled(s, Acquire)
    ensures Inv(Do(s, Acquire))
  {
    hide Pending, HeldByLoader;
    var u := Do(s, Acquire);
    forall h | 0 <= h < |u.refs| ensures HandleOk(u, h) {
      assert HandleOk(s, h);
      SameLoaders(s, u, h);
    }
  }

  lemma {:induction false} ReleaseKeeps(s: Manager, r: nat)
    requires Inv(s) && Enabled(s, Release(r))
    ensures Inv(Do(s, Release(r)))
  {
    hide Pending, HeldByLoader;
    var u := Do(s, Release(r));
    forall h | 0 <= h < |u.refs| ensures HandleOk(u, h) {
      assert HandleOk(s, h);
      SameLoaders(s, u, h);
    }
  }

  lemma {:induction false} ShutdownKeeps(s: Manager)
    requires Inv(s) && Enabled(s, Shutdown)
    ensures Inv(Do(s, Shutdown))
  {
    hide Pending, HeldByLoader;
    var u := Do(s, Shutdown);
    forall h | 0 <= h < |u.refs| ensures HandleOk(u, h) {
      assert HandleOk(s, h);
      SameLoaders(s, u, h);
    }
  }

  lemma {:induction false} StepKeeps(s: Manager, a: Action)
    requires Inv(s) && Enabled(s, a)
    ensures Inv(Do(s, a))
  {
    hide Inv, Do, Enabled;
    match a
    case OpenFails(t) => OpenFailsKeeps(s, t);
    case Open(t) => OpenKeeps(s, t);
    case Fail(t) => FailKeeps(s, t);
    case ReadReload(t) => StageKeeps(s, t, a);
    case Build(t) => BuildKeeps(s, t);
    case Publish(t) => PublishKeeps(s, t);
    case Notify(t) => StageKeeps(s, t, a);
    case Return(t) => ReturnKeeps(s, t);
    case Acquire => AcquireKeeps(s);
    case Release(h) => ReleaseKeeps(s, h);
    case Shutdown => ShutdownKeeps(s);
  }

  lemma {:induction false} OpenFailsKeeps(s: Manager, t: nat)
    requires Inv(s) && Enabled(s, OpenFails(t))
    ensures Inv(Do(s, OpenFails(t)))
  {
    hide Pending, HeldByLoader;
    var u := Do(s, OpenFails(t));
    forall h | 0 <= h < |u.refs| ensures HandleOk(u, h) {
      assert HandleOk(s, h);
      SameLoaders(s, u, h);
    }
  }

  lemma {:induction false} RunKeeps(actions: seq<Action>)
    requires After(actions).Some?
    ensures Inv(After(actions).value)
  {
    hide Inv, Do, Enabled;
    if actions == [] {
      InitialOk();
    } else {
      RunKeeps(actions[..|actions| - 1]);
      StepKeeps(After(actions[..|actions| - 1]).value, actions[|actions| - 1]);
    }
  }

  lemma {:induction false} InitialOk()
    ensures Inv(INITIAL)
  {
  }

  /** Nobody can reach the handle any more. */
  ghost predicate Unheld(s: Manager, h: nat) {
    s.current != Some(h) && h !in s.snapshots && forall t :: t in s.loaders ==> s.loaders[t].h != h
  }

  /**
   Safety of the swap: after any schedule, a handle was closed at most once, and it was
   closed exactly when neither `current`, nor any snapshot, nor a load still has it.
   */
  lemma {:induction false} ClosedWhenUnheld(actions: seq<Action>, h: nat)
    requires After(actions).Some? && h < |After(actions).value.closes|
    ensures
      var s := After(actions).value;
      s.closes[h] <= 1 && (s.closes[h] == 1 <==> Unheld(s, h))
  {
    hide After;
    var s := After(actions).value;
    RunKeeps(actions);
    assert HandleOk(s, h);
    if s.closes[h] == 1 {
      forall t | t in s.loaders ensures s.loaders[t].h != h {
        if s.loaders[t].h == h {
          Sole(s, t);
        }
      }
    }
    if Unheld(s, h) {
      NoLoader(s, h);
    }
  }

  // ---- what a load does to the current module ------------------------------

  /** The current module changes only when a load publishes, or with the end of the manager. */
  lemma {:induction false} OnlyPublishSwaps(s: Manager, a: Action)
    requires Enabled(s, a) && Do(s, a).current != s.current
    ensures a.Publish? || a == Shutdown
  {
  }

  lemma {:induction false} RunPrefix(actions: seq<Action>, n: nat)
    requires n <= |actions| && After(actions).Some?
    ensures After(actions[..n]).Some?
    decreases |actions|
  {
    hide Do, Enabled;
    if n == |actions| {
      assert actions[..n] == actions;
    } else {
      RunPrefix(actions[..|actions| - 1], n);
      assert actions[..|actions| - 1][..n] == actions[..n];
    }
  }

  /** Each step of a schedule was possible, and led to the next state. */
  lemma {:induction false} StepAt(actions: seq<Action>, k: nat)
    requires k < |actions| && After(actions).Some?
    ensures After(actions[..k]).Some? && Enabled(After(actions[..k]).value, actions[k])
    ensures After(actions[..k + 1]) == Some(Do(After(actions[..k]).value, actions[k]))
  {
    hide Do, Enabled;
    RunPrefix(actions, k);
    RunPrefix(actions, k + 1);
    assert actions[..k + 1][..k] == actions[..k];
  }

  predicate PastFailing(s: Manager, t: nat) {
    t in s.loaders ==> s.loaders[t].Published? || s.loaders[t].Notified?
  }

  lemma {:induction false} PastFailingKept(s: Manager, a: Action, t: nat)
    requires Enabled(s, a) && (a == Publish(t) || PastFailing(s, t)) && a != Open(t)
    ensures PastFailing(Do(s, a), t) && (PastFailing(s, t) ==> a != Fail(t))
  {
  }

  /** After publishing, a thread is past failing until it opens again. */
  lemma {:induction false} PublishedStays(actions: seq<Action>, i: nat, j: nat, t: nat)
    requires i < j <= |actions| && After(actions).Some? && actions[i] == Publish(t)
    requires forall k :: i < k < j ==> actions[k] != Open(t)
    ensures After(actions[..j]).Some? && PastFailing(After(actions[..j]).value, t)
  {
    hide Do, Enabled, PastFailing;
    StepAt(actions, j - 1);
    if i < j - 1 {
      PublishedStays(actions, i, j - 1, t);
    }
    PastFailingKept(After(actions[..j - 1]).value, actions[j - 1], t);
  }

  /** A load that fails never published: `current` is not its doing. */
  lemma {:induction false} FailedLoad(actions: seq<Action>, i: nat, j: nat, t: nat)
    requires i < j < |actions| && After(actions).Some? && actions[i] == Open(t) && actions[j] == Fail(t)
    requires forall k :: i < k < j ==> actions[k] != Open(t)
    ensures forall k :: i <= k <= j ==> actions[k] != Publish(t)
  {
    hide Do, Enabled, PastFailing;
    StepAt(actions, j);
    forall k | i < k < j ensures actions[k] != Publish(t) {
      if actions[k] == Publish(t) {
        PublishedStays(actions, k, j, t);
        PastFailingKept(After(actions[..j]).value, Fail(t), t);
      }
    }
  }

  // ---- what is reported ----------------------------------------------------

  function Successes(events: seq<Event>): seq<Event> {
    if events == [] then []
    else if events[|events| - 1].LoadFailed? then Successes(events[..|events| - 1])
    else Successes(events[..|events| - 1]) + [events[|events| - 1]]
  }

  /** The first success is a load, every later one a reload. */
  predicate FirstLoaded(successes: seq<Event>) {
    forall k :: 0 <= k < |successes| ==> successes[k] == if k == 0 then Loaded else Reloaded
  }

  lemma {:induction false} SuccessesSnoc(events: seq<Event>, e: Event)
    ensures Successes(events + [e]) == if e.LoadFailed? then Successes(events) else Successes(events) + [e]
  {
    assert (events + [e])[..|events|] == events;
  }

  /** Thread `t` is between reading and notifying, and read `reload`. */
  predicate Remembers(s: Manager, t: nat, reload: bool) {
    t in s.loaders && (s.loaders[t].Ready? || s.loaders[t].Built? || s.loaders[t].Published?) &&
    s.loaders[t].isReload == reload
  }

  lemma {:induction false} RemembersKept(s: Manager, a: Action, t: nat, reload: bool)
    requires Enabled(s, a) && Remembers(s, t, reload) && a != Notify(t)
    ensures Remembers(Do(s, a), t, reload)
  {
  }

  lemma {:induction false} ReadRemembers(s: Manager, t: nat)
    requires Enabled(s, ReadReload(t))
    ensures Remembers(Do(s, ReadReload(t)), t, s.current.Some?)
  {
  }

  lemma {:induction false} ReloadRemembered(actions: seq<Action>, i: nat, j: nat, t: nat)
    requires i < j <= |actions| && After(actions).Some? && actions[i] == ReadReload(t)
    requires forall k :: i < k < j ==> actions[k] != Notify(t)
    ensures After(actions[..i]).Some? && After(actions[..j]).Some?
    ensures Remembers(After(actions[..j]).value, t, After(actions[..i]).value.current.Some?)
  {
    hide Do, Enabled, Remembers;
    StepAt(actions, i);
    StepAt(actions, j - 1);
    if i < j - 1 {
      ReloadRemembered(actions, i, j - 1, t);
      RemembersKept(After(actions[..j - 1]).value, actions[j - 1], t, After(actions[..i]).value.current.Some?);
    } else {
      ReadRemembers(After(actions[..i]).value, t);
    }
  }

  lemma {:induction false} NotifyReports(s: Manager, t: nat, reload: bool)
    requires Enabled(s, Notify(t)) && Remembers(s, t, reload)
    ensures Do(s, Notify(t)).events == s.events + [if reload then Reloaded else Loaded]
  {
  }

  /** Any number of writers: a load reports Loaded exactly when no module was current when it read. */
  lemma {:induction false} ReportsWhatItRead(actions: seq<Action>, i: nat, j: nat, t: nat)
    requires i < j < |actions| && After(actions).Some? && actions[i] == ReadReload(t) && actions[j] == Notify(t)
    requires forall k :: i < k < j ==> actions[k] != Notify(t)
    ensures After(actions[..i]).Some? && After(actions[..j]).Some? && After(actions[..j + 1]).Some?
    ensures
      After(actions[..j + 1]).value.events ==
      After(actions[..j]).value.events + [if After(actions[..i]).value.current.None? then Loaded else Reloaded]
  {
    hide Do, Enabled, Remembers, After;
    ReloadRemembered(actions, i, j, t);
    StepAt(actions, j);
    NotifyReports(After(actions[..j]).value, t, After(actions[..i]).value.current.Some?);
  }

  // ---- when the first success, and only it, reports Loaded -----------------

  ghost predicate PublishedBefore(actions: seq<Action>, n: nat) {
    exists k :: 0 <= k < n && k < |actions| && actions[k].Publish?
  }

  ghost predicate NotifiedBefore(actions: seq<Action>, n: nat) {
    exists k :: 0 <= k < n && k < |actions| && actions[k].Notify?
  }

  /** A successful load: the thread that notifies at `j` read at `i`. */
  predicate LoadAt(actions: seq<Action>, i: nat, j: nat) {
    && i < j < |actions| && actions[j].Notify? && actions[i] == ReadReload(actions[j].t)
    && forall k :: i < k < j ==> actions[k] != actions[j]
  }

  predicate Alive(actions: seq<Action>) {
    forall k :: 0 <= k < |actions| ==> actions[k] != Shutdown
  }

  /** Each successful load finds a module published at its read iff a success was reported before its own. */
  ghost predicate ReadsInOrder(actions: seq<Action>) {
    forall i: nat, j: nat :: LoadAt(actions, i, j) ==> (PublishedBefore(actions, i) <==> NotifiedBefore(actions, j))
  }

  lemma {:induction false} BeforeSnoc(actions: seq<Action>, a: Action, n: nat)
    requires n <= |actions|
    ensures PublishedBefore(actions + [a], n) == PublishedBefore(actions, n)
    ensures NotifiedBefore(actions + [a], n) == NotifiedBefore(actions, n)
    ensures PublishedBefore(actions + [a], |actions| + 1) <==> PublishedBefore(actions, |actions|) || a.Publish?
    ensures NotifiedBefore(actions + [a], |actions| + 1) <==> NotifiedBefore(actions, |actions|) || a.Notify?
  {
    var all := actions + [a];
    assert all[|actions|] == a;
    assert forall k :: 0 <= k < |actions| ==> all[k] == actions[k];
  }

  lemma {:induction false} LoadAtSnoc(actions: seq<Action>, a: Action, i: nat, j: nat)
    requires j < |actions|
    ensures LoadAt(actions + [a], i, j) == LoadAt(actions, i, j)
  {
    assert forall k :: 0 <= k < |actions| ==> (actions + [a])[k] == actions[k];
  }

  lemma {:induction false} BeforePrefix(actions: seq<Action>, n: nat)
    requires n <= |actions|
    ensures PublishedBefore(actions[..n], n) == PublishedBefore(actions, n)
  {
    assert forall k :: 0 <= k < n ==> actions[..n][k] == actions[k];
  }

  lemma {:induction false} CurrentStep(s: Manager, a: Action)
    requires Enabled(s, a) && a != Shutdown
    ensures Do(s, a).current.Some? <==> s.current.Some? || a.Publish?
  {
  }

  lemma {:induction false} CurrentIsPublished(actions: seq<Action>)
    requires After(actions).Some? && Alive(actions)
    ensures After(actions).value.current.Some? <==> PublishedBefore(actions, |actions|)
  {
    hide Do, Enabled;
    if actions != [] {
      var front, last := actions[..|actions| - 1], actions[|actions| - 1];
      assert front + [last] == actions;
      assert Alive(front);
      CurrentIsPublished(front);
      BeforeSnoc(front, last, |front|);
      CurrentStep(After(front).value, last);
    }
  }

  lemma {:induction false} EventStep(s: Manager, a: Action)
    requires Enabled(s, a)
    ensures Successes(Do(s, a).events) ==
      if a.Notify? then Successes(s.events) + [if s.loaders[a.t].isReload then Reloaded else Loaded] else Successes(s.events)
  {
    hide Successes;
    SuccessesSnoc(s.events, LoadFailed);
    SuccessesSnoc(s.events, Loaded);
    SuccessesSnoc(s.events, Reloaded);
  }

  lemma {:induction false} SuccessIsNotified(actions: seq<Action>)
    requires After(actions).Some?
    ensures Successes(After(actions).value.events) != [] <==> NotifiedBefore(actions, |actions|)
  {
    hide Do, Enabled, Successes;
    if actions != [] {
      var front, last := actions[..|actions| - 1], actions[|actions| - 1];
      assert front + [last] == actions;
      SuccessIsNotified(front);
      BeforeSnoc(front, last, |front|);
      EventStep(After(front).value, last);
    } else {
      NoEvents();
    }
  }

  lemma {:induction false} NoEvents()
    ensures Successes(INITIAL.events) == []
  {
  }

  /** Between its read and its notification, a thread has its read behind it. */
  predicate PastRead(s: Manager, t: nat) {
    t in s.loaders && (s.loaders[t].Ready? || s.loaders[t].Built? || s.loaders[t].Published?)
  }

  lemma {:induction false} PastReadStep(s: Manager, a: Action, t: nat)
    requires Enabled(s, a) && PastRead(Do(s, a), t) && a != ReadReload(t)
    ensures PastRead(s, t) && a != Notify(t)
  {
  }

  lemma {:induction false} ReadBehind(actions: seq<Action>, t: nat) returns (i: nat)
    requires After(actions).Some? && PastRead(After(actions).value, t)
    ensures i < |actions| && actions[i] == ReadReload(t) && forall k :: i < k < |actions| ==> actions[k] != Notify(t)
  {
    hide Do, Enabled, PastRead;
    InitialIdle(t);
    var front, last := actions[..|actions| - 1], actions[|actions| - 1];
    if last == ReadReload(t) {
      i := |actions| - 1;
    } else {
      PastReadStep(After(front).value, last, t);
      i := ReadBehind(front, t);
    }
  }

  lemma {:induction false} InitialIdle(t: nat)
    ensures !PastRead(INITIAL, t)
  {
  }

  /** The read of the load that performs step `j`, a publish or a notification. */
  lemma {:induction false} ReadOf(actions: seq<Action>, j: nat) returns (i: nat)
    requires After(actions).Some? && j < |actions| && (actions[j].Publish? || actions[j].Notify?)
    ensures i < j && actions[i] == ReadReload(actions[j].t)
    ensures forall k :: i < k < j ==> actions[k] != Notify(actions[j].t)
  {
    hide After;
    StepAt(actions, j);
    i := ReadBehind(actions[..j], actions[j].t);
    assert forall k :: 0 <= k < j ==> actions[..j][k] == actions[k];
  }

  lemma {:induction false} FirstLoadedSnoc(successes: seq<Event>, e: Event)
    ensures FirstLoaded(successes + [e]) <==> FirstLoaded(successes) && e == if successes == [] then Loaded else Reloaded
  {
    var all := successes + [e];
    assert all[|successes|] == e && forall k :: 0 <= k < |successes| ==> all[k] == successes[k];
  }

  /** What one notification adds to the reports, in terms of its load's read. */
  lemma {:induction false} NotifyInOrder(front: seq<Action>, i: nat, t: nat)
    requires After(front + [Notify(t)]).Some? && Alive(front) && LoadAt(front + [Notify(t)], i, |front|)
    ensures After(front).Some?
    ensures
      var s := Successes(After(front).value.events);
      FirstLoaded(Successes(After(front + [Notify(t)]).value.events)) <==>
      FirstLoaded(s) && (PublishedBefore(front, i) <==> NotifiedBefore(front, |front|))
  {
    hide After, Successes, FirstLoaded;
    var all := front + [Notify(t)];
    assert all[..|front|] == front && all[..|all|] == all && all[..i] == front[..i];
    ReportsWhatItRead(all, i, |front|, t);
    assert Alive(front[..i]);
    CurrentIsPublished(front[..i]);
    BeforePrefix(front, i);
    SuccessIsNotified(front);
    var e := if After(front[..i]).value.current.None? then Loaded else Reloaded;
    SuccessesSnoc(After(front).value.events, e);
    FirstLoadedSnoc(Successes(After(front).value.events), e);
  }

  /**
   Exactly when the first success reports Loaded and every later one Reloaded, over every
   schedule of any number of writers: when each successful load read after a publish if
   and only if it notifies after another notification.
   */
  lemma {:induction false} FirstLoadedIff(actions: seq<Action>)
    requires After(actions).Some? && Alive(actions)
    ensures FirstLoaded(Successes(After(actions).value.events)) <==> ReadsInOrder(actions)
  {
    hide Do, Enabled, Successes, PublishedBefore, NotifiedBefore;
    if actions == [] {
      NoEvents();
    } else {
      var front, last := actions[..|actions| - 1], actions[|actions| - 1];
      assert front + [last] == actions;
      assert Alive(front);
      FirstLoadedIff(front);
      InOrderSnoc(front, last);
      if last.Notify? {
        var i := ReadOf(actions, |front|);
        forall i: nat | LoadAt(actions, i, |front|)
          ensures FirstLoaded(Successes(After(actions).value.events)) <==>
                  FirstLoaded(Successes(After(front).value.events)) &&
                  (PublishedBefore(front, i) <==> NotifiedBefore(front, |front|))
        {
          NotifyInOrder(front, i, last.t);
        }
        assert LoadAt(actions, i, |front|);
      } else {
        EventStep(After(front).value, last);
      }
    }
  }

  lemma {:induction false} InOrderSnoc(front: seq<Action>, last: Action)
    ensures ReadsInOrder(front + [last]) <==>
      && ReadsInOrder(front)
      && (forall i: nat :: LoadAt(front + [last], i, |front|) ==> (PublishedBefore(front, i) <==> NotifiedBefore(front, |front|)))
  {
    hide PublishedBefore, NotifiedBefore, LoadAt;
    var all := front + [last];
    forall i: nat, j: nat | i < j < |front|
      ensures LoadAt(all, i, j) == LoadAt(front, i, j)
      ensures PublishedBefore(all, i) == PublishedBefore(front, i) && NotifiedBefore(all, j) == NotifiedBefore(front, j)
    {
      LoadAtSnoc(front, last, i, j);
      BeforeSnoc(front, last, i);
      BeforeSnoc(front, last, j);
    }
    forall i: nat | i < |front|
      ensures PublishedBefore(all, i) == PublishedBefore(front, i)
      ensures NotifiedBefore(all, |front|) == NotifiedBefore(front, |front|)
    {
      BeforeSnoc(front, last, i);
      BeforeSnoc(front, last, |front|);
    }
    LoadAtBounds();
  }

  lemma {:induction false} LoadAtBounds()
    ensures forall actions: seq<Action>, i: nat, j: nat :: LoadAt(actions, i, j) ==> i < j < |actions|
  {
  }

  /** No two loads overlap: each that reads notifies before the next one reads. */
  ghost predicate OneAtATime(actions: seq<Action>) {
    forall i, j :: 0 <= i < j < |actions| && actions[i].ReadReload? && actions[j].ReadReload? ==>
      NotifiesIn(actions, i, j)
  }

  ghost predicate NotifiesIn(actions: seq<Action>, i: nat, j: nat)
    requires i < j <= |actions| && actions[i].ReadReload?
  {
    exists k :: i < k < j && actions[k] == Notify(actions[i].t)
  }

  predicate HasPublished(s: Manager, t: nat) {
    t in s.loaders && s.loaders[t].Published?
  }

  lemma {:induction false} PublishedStep(s: Manager, a: Action, t: nat)
    requires Enabled(s, a) && HasPublished(Do(s, a), t)
    ensures a.Publish? || HasPublished(s, t)
  {
  }

  lemma {:induction false} PublishBehind(actions: seq<Action>, t: nat)
    requires After(actions).Some? && HasPublished(After(actions).value, t)
    ensures PublishedBefore(actions, |actions|)
  {
    hide Do, Enabled, PublishedBefore;
    if actions != [] {
      var front, last := actions[..|actions| - 1], actions[|actions| - 1];
      assert front + [last] == actions;
      BeforeSnoc(front, last, |front|);
      PublishedStep(After(front).value, last, t);
      if !last.Publish? {
        PublishBehind(front, t);
      }
    }
  }

  lemma {:induction false} NotifyNeedsPublish(actions: seq<Action>, j: nat)
    requires After(actions).Some? && j < |actions| && actions[j].Notify?
    ensures PublishedBefore(actions, j)
  {
    hide After, PublishedBefore;
    StepAt(actions, j);
    PublishBehind(actions[..j], actions[j].t);
    BeforePrefix(actions, j);
  }

  /** Loads that do not overlap, by whichever threads, keep the law. */
  lemma {:induction false} OneAtATimeReports(actions: seq<Action>)
    requires After(actions).Some? && Alive(actions) && OneAtATime(actions)
    ensures FirstLoaded(Successes(After(actions).value.events))
  {
    hide After, Alive, FirstLoaded, Successes;
    forall i: nat, j: nat | LoadAt(actions, i, j) ensures PublishedBefore(actions, i) <==> NotifiedBefore(actions, j) {
      if PublishedBefore(actions, i) {
        var k :| 0 <= k < i && k < |actions| && actions[k].Publish?;
        var r := ReadOf(actions, k);
        assert NotifiesIn(actions, r, i);
      }
      if NotifiedBefore(actions, j) {
        var k :| 0 <= k < j && k < |actions| && actions[k].Notify?;
        var r := ReadOf(actions, k);
        if r < i {
          assert NotifiesIn(actions, r, i);
          NotifyNeedsPublish(actions, k);
        } else if i < r {
          assert NotifiesIn(actions, i, r);
        }
      }
    }
    FirstLoadedIff(actions);
  }

  predicate OneWriter(actions: seq<Action>, w: nat) {
    forall k :: 0 <= k < |actions| ==> actions[k] != Shutdown && (Writer(actions[k]).Some? ==> Writer(actions[k]) == Some(w))
  }

  /** A thread cannot read again before it has notified. */
  lemma {:induction false} NotifiesBeforeReading(actions: seq<Action>, i: nat, j: nat, t: nat)
    requires After(actions).Some? && i < j < |actions| && actions[i] == actions[j] == ReadReload(t)
    ensures NotifiesIn(actions, i, j)
  {
    hide After;
    if !NotifiesIn(actions, i, j) {
      ReloadRemembered(actions, i, j, t);
      StepAt(actions, j);
      assert false;
    }
  }

  /** With one writer the first successful load reports Loaded and every later one Reloaded. */
  lemma {:induction false} OneWriterReports(actions: seq<Action>, w: nat)
    requires After(actions).Some? && OneWriter(actions, w)
    ensures FirstLoaded(Successes(After(actions).value.events))
  {
    hide After, FirstLoaded, Successes;
    forall i, j | 0 <= i < j < |actions| && actions[i].ReadReload? && actions[j].ReadReload?
      ensures NotifiesIn(actions, i, j)
    {
      assert Writer(actions[i]) == Writer(actions[j]) == Some(w);
      NotifiesBeforeReading(actions, i, j, w);
    }
    OneAtATimeReports(actions);
  }

  const TWO_WRITERS: seq<Action> :=
    [Open(0), Open(1), ReadReload(0), ReadReload(1), Build(0), Build(1), Publish(0), Publish(1), Notify(0), Notify(1)]

  /** Threads 0 and 1 load handles 0 and 1. */
  predicate Both(s: Manager, current: Option<nat>, a: Loader, b: Loader, events: seq<Event>) {
    && |s.refs| == |s.closes| == 2 && s.current == current && s.events == events
    && 0 in s.loaders && 1 in s.loaders && s.loaders[0] == a && s.loaders[1] == b
  }

  lemma {:induction false} AfterSnoc(actions: seq<Action>, s: Manager, a: Action)
    requires After(actions) == Some(s) && Enabled(s, a)
    ensures After(actions + [a]) == Some(Do(s, a))
  {
    hide Do, Enabled;
    assert (actions + [a])[..|actions|] == actions;
  }

  lemma {:induction false} BothOpened() returns (s: Manager)
    ensures After([Open(0), Open(1)]) == Some(s) && Both(s, None, Opened(0), Opened(1), [])
  {
    AfterSnoc([], INITIAL, Open(0));
    var one := Do(INITIAL, Open(0));
    AfterSnoc([] + [Open(0)], one, Open(1));
    s := Do(one, Open(1));
    assert [] + [Open(0)] + [Open(1)] == [Open(0), Open(1)];
  }

  lemma {:induction false} BothRead(actions: seq<Action>, s: Manager) returns (u: Manager)
    requires After(actions) == Some(s) && Both(s, None, Opened(0), Opened(1), [])
    ensures After(actions + [ReadReload(0)] + [ReadReload(1)]) == Some(u)
    ensures Both(u, None, Ready(0, false), Ready(1, false), [])
  {
    AfterSnoc(actions, s, ReadReload(0));
    var one := Do(s, ReadReload(0));
    AfterSnoc(actions + [ReadReload(0)], one, ReadReload(1));
    u := Do(one, ReadReload(1));
  }

  lemma {:induction false} BothBuilt(actions: seq<Action>, s: Manager) returns (u: Manager)
    requires After(actions) == Some(s) && Both(s, None, Ready(0, false), Ready(1, false), [])
    ensures After(actions + [Build(0)] + [Build(1)]) == Some(u)
    ensures Both(u, None, Built(0, false), Built(1, false), [])
  {
    AfterSnoc(actions, s, Build(0));
    var one := Do(s, Build(0));
    AfterSnoc(actions + [Build(0)], one, Build(1));
    u := Do(one, Build(1));
  }

  lemma {:induction false} BothPublished(actions: seq<Action>, s: Manager) returns (u: Manager)
    requires After(actions) == Some(s) && Both(s, None, Built(0, false), Built(1, false), [])
    ensures After(actions + [Publish(0)] + [Publish(1)]) == Some(u)
    ensures Both(u, Some(1), Published(0, false), Published(1, false), [])
  {
    AfterSnoc(actions, s, Publish(0));
    var one := Do(s, Publish(0));
    AfterSnoc(actions + [Publish(0)], one, Publish(1));
    u := Do(one, Publish(1));
  }

  lemma {:induction false} BothNotified(actions: seq<Action>, s: Manager) returns (u: Manager)
    requires After(actions) == Some(s) && Both(s, Some(1), Published(0, false), Published(1, false), [])
    ensures After(actions + [Notify(0)] + [Notify(1)]) == Some(u) && u.events == [Loaded, Loaded]
  {
    AfterSnoc(actions, s, Notify(0));
    var one := Do(s, Notify(0));
    AfterSnoc(actions + [Notify(0)], one, Notify(1));
    u := Do(one, Notify(1));
  }

  /** With two writers both can report Loaded: each read before the other published. */
  lemma {:induction false} TwoWritersBothLoaded()
    ensures After(TWO_WRITERS).Some? && After(TWO_WRITERS).value.events == [Loaded, Loaded]
  {
    hide After, Both;
    var start := [Open(0), Open(1)];
    var a := BothOpened();
    var read := start + [ReadReload(0)] + [ReadReload(1)];
    var b := BothRead(start, a);
    var built := read + [Build(0)] + [Build(1)];
    var c := BothBuilt(read, b);
    var published := built + [Publish(0)] + [Publish(1)];
    var d := BothPublished(built, c);
    var e := BothNotified(published, d);
    assert published + [Notify(0)] + [Notify(1)] == TWO_WRITERS;
  }

  // ---- observers -----------------------------------------------------------

  /** The registered observers, in order of registration; none twice. */
  class ObserverList {
    var observers: seq<nat>

    ghost predicate Valid()
      reads this
    {
      forall i, j :: 0 <= i < j < |observers| ==> observers[i] != observers[j]
    }

    constructor ()
      ensures Valid() && observers == []
    {
      observers := [];
    }

    /** Registering twice is registering once. */
    method Subscribe(o: nat)
      requires Valid()
      modifies this
      ensures Valid() && observers == if o in old(observers) then old(observers) else old(observers) + [o]
    {
      for i := 0 to |observers|
        invariant o !in observers[..i] && observers == old(observers)
      {
        if observers[i] == o { return; }
      }
      observers := observers + [o];
    }

    /** Removes the observer and keeps the others in order. */
    method Unsubscribe(o: nat)
      requires Valid()
      modifies this
      ensures Valid() && o !in observers
      ensures o !in old(observers) ==> observers == old(observers)
      ensures forall i :: 0 <= i < |old(observers)| && old(observers)[i] == o ==>
        observers == old(observers)[..i] + old(observers)[i + 1..]
    {
      for i := 0 to |observers|
        invariant o !in observers[..i] && observers == old(observers)
      {
        if observers[i] == o {
          observers := observers[..i] + observers[i + 1..];
          return;
        }
      }
    }
  }
}
