/**
 What a state of the manager says about the schedule that led to it: which module is
 current, which handle a thread is loading, who was handed a snapshot of what, and what
 was reported.
 */
module SwapHistory {
  import opened Text
  import opened HotSwap

  /** How many handles were opened; they are numbered in that order. */
  function Opens(actions: seq<Action>): nat {
    if actions == [] then 0
    else Opens(actions[..|actions| - 1]) + if actions[|actions| - 1].Open? then 1 else 0
  }

  /** The handle thread `t` opened last. */
  function OpenedBy(actions: seq<Action>, t: nat): Option<nat> {
    if actions == [] then None
    else if actions[|actions| - 1] == Open(t) then Some(Opens(actions[..|actions| - 1]))
    else OpenedBy(actions[..|actions| - 1], t)
  }

  /** The handle of the module published last; none before the first publish and after the end of the manager. */
  function LastPublished(actions: seq<Action>): Option<nat> {
    if actions == [] then None
    else
      match actions[|actions| - 1]
      case Publish(t) => OpenedBy(actions[..|actions| - 1], t)
      case Shutdown => None
      case _ => LastPublished(actions[..|actions| - 1])
  }

  /** How often `h` was handed out: to readers as the current module, and to callers as the one they loaded. */
  function HandedOut(actions: seq<Action>, h: nat): nat {
    if actions == [] then 0
    else
      var front := actions[..|actions| - 1];
      HandedOut(front, h) +
      match actions[|actions| - 1]
      case Acquire => if LastPublished(front) == Some(h) then 1 else 0
      case Return(t) => if OpenedBy(front, t) == Some(h) then 1 else 0
      case _ => 0
  }

  function Released(actions: seq<Action>, h: nat): nat {
    if actions == [] then 0
    else Released(actions[..|actions| - 1], h) + if actions[|actions| - 1] == Release(h) then 1 else 0
  }

  /** How each load that ended, ended: true for a failure. */
  function Endings(actions: seq<Action>): seq<bool> {
    if actions == [] then []
    else
      match actions[|actions| - 1]
      case OpenFails(_) => Endings(actions[..|actions| - 1]) + [true]
      case Fail(_) => Endings(actions[..|actions| - 1]) + [true]
      case Notify(_) => Endings(actions[..|actions| - 1]) + [false]
      case _ => Endings(actions[..|actions| - 1])
  }

  function Failures(events: seq<Event>): seq<bool> {
    seq(|events|, k requires 0 <= k < |events| => events[k].LoadFailed?)
  }

  /** The state says what the schedule did: handles, the current module, who has which snapshot, and every report. */
  ghost predicate Tells(s: Manager, actions: seq<Action>) {
    && |s.closes| == Opens(actions)
    && (forall t :: t in s.loaders ==> Some(s.loaders[t].h) == OpenedBy(actions, t))
    && s.current == LastPublished(actions)
    && (forall h: nat :: s.snapshots[h] + Released(actions, h) == HandedOut(actions, h))
    && Failures(s.events) == Endings(actions)
  }

  lemma {:induction false} StateTells(actions: seq<Action>)
    requires After(actions).Some?
    ensures Tells(After(actions).value, actions)
  {
    hide Do, Enabled;
    if actions == [] {
      NothingYet();
    } else {
      var front, last := actions[..|actions| - 1], actions[|actions| - 1];
      StateTells(front);
      TellsLoads(After(front).value, front, last, actions);
      TellsCurrent(After(front).value, front, last, actions);
      TellsSnapshots(After(front).value, front, last, actions);
      TellsReports(After(front).value, front, last, actions);
    }
  }

  lemma {:induction false} NothingYet()
    ensures Tells(INITIAL, [])
  {
  }

  lemma {:induction false} TellsLoads(s: Manager, front: seq<Action>, last: Action, actions: seq<Action>)
    requires Tells(s, front) && Enabled(s, last) && actions != []
    requires actions[..|actions| - 1] == front && actions[|actions| - 1] == last
    ensures
      var u := Do(s, last);
      |u.closes| == Opens(actions) && (forall t :: t in u.loaders ==> Some(u.loaders[t].h) == OpenedBy(actions, t))
  {
    hide LastPublished, HandedOut, Released, Endings, Failures;
  }

  lemma {:induction false} TellsCurrent(s: Manager, front: seq<Action>, last: Action, actions: seq<Action>)
    requires Tells(s, front) && Enabled(s, last) && actions != []
    requires actions[..|actions| - 1] == front && actions[|actions| - 1] == last
    ensures Do(s, last).current == LastPublished(actions)
  {
    hide Opens, OpenedBy, HandedOut, Released, Endings, Failures;
  }

  lemma {:induction false} TellsSnapshots(s: Manager, front: seq<Action>, last: Action, actions: seq<Action>)
    requires Tells(s, front) && Enabled(s, last) && actions != []
    requires actions[..|actions| - 1] == front && actions[|actions| - 1] == last
    ensures forall h: nat :: Do(s, last).snapshots[h] + Released(actions, h) == HandedOut(actions, h)
  {
    hide Opens, OpenedBy, LastPublished, Endings, Failures;
  }

  lemma {:induction false} TellsReports(s: Manager, front: seq<Action>, last: Action, actions: seq<Action>)
    requires Tells(s, front) && Enabled(s, last) && actions != []
    requires actions[..|actions| - 1] == front && actions[|actions| - 1] == last
    ensures Failures(Do(s, last).events) == Endings(actions)
  {
    hide Opens, OpenedBy, LastPublished, HandedOut, Released;
  }

  /** Where thread `t` is inside a load. */
  predicate At(s: Manager, t: nat, stage: Loader -> bool) {
    t in s.loaders && stage(s.loaders[t])
  }

  /**
   No step is ever missing: in every state a schedule leads to, a thread can take exactly the
   steps of its stage, readers can always take a snapshot and release what they hold, and the
   manager can end once no load is under way.
   */
  lemma {:induction false} StepsPossible(actions: seq<Action>, a: Action)
    requires After(actions).Some?
    ensures
      var s := After(actions).value;
      Enabled(s, a) <==>
      match a
      case OpenFails(t) => t !in s.loaders
      case Open(t) => t !in s.loaders
      case Fail(t) => At(s, t, (l: Loader) => l.Opened?)
      case ReadReload(t) => At(s, t, (l: Loader) => l.Opened?)
      case Build(t) => At(s, t, (l: Loader) => l.Ready?)
      case Publish(t) => At(s, t, (l: Loader) => l.Built?)
      case Notify(t) => At(s, t, (l: Loader) => l.Published?)
      case Return(t) => At(s, t, (l: Loader) => l.Notified?)
      case Acquire => true
      case Release(h) => s.snapshots[h] > 0
      case Shutdown => s.loaders == map[]
  {
    hide HandleOk, After;
    RunKeeps(actions);
  }
}
