/**
 * The start-up script every container of the macOS host runs on the shared volume: a directory as
 * the install lock, a marker file once an install succeeded. Any number of containers run it at
 * once; one action is one command of one container.
 */
module InstallLock {

  const MAX_RETRIES := 3

  /** The command a container runs next. */
  datatype At =
    | CheckMarker
    | PrepareVolume             // mkdir -p node_modules
    | TakeLock                  // mkdir lock
    | Wipe                      // rm -rf .pnpm .modules.yaml
    | Install(retries: nat)
    | TouchMarker
    | ReleaseInstalled          // rmdir lock, after the marker
    | ReleaseFailed             // rmdir lock, after the last attempt failed
    | Waiting                   // polling for the marker
    | Past                      // the script went through
    | Exited                    // the script ended with an error

  datatype Volume = Volume(
    locked: bool, marker: bool,
    containers: map<nat, At>,
    installs: seq<nat>)         // by whom an install succeeded, in order

  /** Between winning the lock directory and removing it. */
  predicate InCritical(at: At) {
    at.Wipe? || at.Install? || at.TouchMarker? || at.ReleaseInstalled? || at.ReleaseFailed?
  }

  /** A container starts the script, or runs its next command with `succeeds` for an install's outcome. */
  datatype Action = Starts(id: nat) | Runs(id: nat, succeeds: bool)

  function Move(v: Volume, id: nat, at: At): Volume { v.(containers := v.containers[id := at]) }

  function Run(v: Volume, id: nat, succeeds: bool): Volume
    requires id in v.containers
  {
    match v.containers[id]
    case CheckMarker => Move(v, id, if v.marker then Past else PrepareVolume)
    case PrepareVolume => Move(v, id, TakeLock)
    case TakeLock =>
      if v.locked then Move(v, id, Waiting)
      else Move(v.(locked := true), id, Wipe)
    case Wipe => Move(v, id, Install(0))
    case Install(retries) =>
      if succeeds then Move(v.(installs := v.installs + [id]), id, TouchMarker)
      else if retries + 1 >= MAX_RETRIES then Move(v, id, ReleaseFailed)
      else Move(v, id, Install(retries + 1))
    case TouchMarker => Move(v.(marker := true), id, ReleaseInstalled)
    case ReleaseInstalled => Move(v.(locked := false), id, Past)
    case ReleaseFailed => Move(v.(locked := false), id, Exited)
    case Waiting => if v.marker then Move(v, id, Past) else v
    case Past => v
    case Exited => v
  }

  /** Any action may come at any time; one that is not enabled changes nothing. */
  function Step(v: Volume, a: Action): Volume {
    match a
    case Starts(id) => if id in v.containers then v else Move(v, id, CheckMarker)
    case Runs(id, succeeds) => if id in v.containers then Run(v, id, succeeds) else v
  }

  function RunAll(v: Volume, actions: seq<Action>): Volume {
    if actions == [] then v else Step(RunAll(v, actions[..|actions| - 1]), actions[|actions| - 1])
  }

  /** A new volume, with nothing installed and nobody running. */
  const Empty := Volume(false, false, map[], [])

  function Holders(v: Volume): set<nat> {
    set id | id in v.containers && InCritical(v.containers[id])
  }

  ghost predicate Locking(v: Volume) {
    && (v.locked <==> Holders(v) != {})
    && (forall one, other :: one in Holders(v) && other in Holders(v) ==> one == other)
  }

  predicate AfterInstall(at: At) { at.TouchMarker? || at.ReleaseInstalled? || at.Past? }

  ghost predicate Marking(v: Volume) {
    && (v.marker ==> v.installs != [])
    && (forall id :: id in v.containers && AfterInstall(v.containers[id]) ==> v.installs != [])
    && (forall id :: id in v.containers && v.containers[id] in {ReleaseInstalled, Past} ==> v.marker)
    && (forall id :: id in v.containers && v.containers[id].Install? ==> v.containers[id].retries < MAX_RETRIES)
  }

  ghost predicate Invariant(v: Volume) { Locking(v) && Marking(v) }

  lemma StepKeepsLocking(v: Volume, a: Action)
    requires Locking(v)
    ensures Locking(Step(v, a))
  {
    var w := Step(v, a);
    if w != v {
      assert Holders(w) == if InCritical(w.containers[a.id]) then Holders(v) + {a.id} else Holders(v) - {a.id};
      if a.id in Holders(v) {
        assert forall id :: id in Holders(v) ==> id == a.id;
        assert Holders(v) - {a.id} == {};
      } else if InCritical(w.containers[a.id]) {
        assert a.id in v.containers && v.containers[a.id].TakeLock? && Holders(v) == {};
      } else {
        assert w.locked == v.locked;
      }
    }
  }

  lemma StepKeepsMarking(v: Volume, a: Action)
    requires Marking(v)
    ensures Marking(Step(v, a))
  {
  }

  lemma {:induction false} RunKeepsInvariant(v: Volume, actions: seq<Action>)
    requires Invariant(v)
    ensures Invariant(RunAll(v, actions))
  {
    if actions != [] {
      hide Step, Locking, Marking;
      RunKeepsInvariant(v, actions[..|actions| - 1]);
      StepKeepsLocking(RunAll(v, actions[..|actions| - 1]), actions[|actions| - 1]);
      StepKeepsMarking(RunAll(v, actions[..|actions| - 1]), actions[|actions| - 1]);
    }
  }

  lemma {:induction false} RunKeepsLocking(v: Volume, actions: seq<Action>)
    requires Locking(v)
    ensures Locking(RunAll(v, actions))
  {
    if actions != [] {
      hide Step, Locking;
      RunKeepsLocking(v, actions[..|actions| - 1]);
      StepKeepsLocking(RunAll(v, actions[..|actions| - 1]), actions[|actions| - 1]);
    }
  }

  /**
   * From any volume that nobody has locked, whatever was installed on it before: at most one
   * container is between winning the lock and giving it up, exactly while the lock exists.
   */
  lemma {:induction false} MutualExclusion(start: Volume, actions: seq<Action>)
    requires !start.locked && Holders(start) == {}
    ensures var v := RunAll(start, actions);
            && (v.locked <==> exists id :: id in v.containers && InCritical(v.containers[id]))
            && (forall one, other :: one in Holders(v) && other in Holders(v) ==> one == other)
  {
    RunKeepsLocking(start, actions);
    var v := RunAll(start, actions);
    hide RunAll;
    if v.locked {
      var id :| id in Holders(v);
      assert id in v.containers && InCritical(v.containers[id]);
    } else {
      assert forall id :: id in v.containers && InCritical(v.containers[id]) ==> id in Holders(v);
    }
  }

  /** No container goes past the script before some install has succeeded. */
  lemma NobodyPastBeforeAnInstall(actions: seq<Action>, id: nat)
    ensures var v := RunAll(Empty, actions);
            id in v.containers && v.containers[id].Past? ==> v.installs != []
  {
    RunKeepsInvariant(Empty, actions);
  }

  // ---- How often the install runs ----

  /** A container that can still install: it has looked for the marker and not found it. */
  predicate MayInstall(at: At) {
    at.PrepareVolume? || at.TakeLock? || at.Wipe? || at.Install?
  }

  function Installers(v: Volume): set<nat> {
    set id | id in v.containers && MayInstall(v.containers[id])
  }

  /**
   * Once the marker exists, only containers that looked before it did can install, and each at
   * most once: every further install uses one of them up.
   */
  lemma LateInstallsAreBounded(v: Volume, actions: seq<Action>)
    requires v.marker
    ensures var w := RunAll(v, actions);
            && w.marker && Installers(w) <= Installers(v)
            && |w.installs| + |Installers(w)| <= |v.installs| + |Installers(v)|
  {
    if actions != [] {
      var before := RunAll(v, actions[..|actions| - 1]);
      LateInstallsAreBounded(v, actions[..|actions| - 1]);
      LateInstall(before, actions[|actions| - 1]);
    }
  }

  /** With the marker there, nobody comes to be an installer, and one that installs is one no more. */
  lemma InstallersShrink(v: Volume, a: Action)
    requires v.marker
    ensures var w := Step(v, a);
            && w.marker && Installers(w) <= Installers(v)
            && (w.installs == v.installs
                || (|w.installs| == |v.installs| + 1 && a.id in Installers(v) && a.id !in Installers(w)))
  {
    var w := Step(v, a);
    forall id | id in Installers(w)
      ensures id in Installers(v)
    {
      assert id in w.containers && (id == a.id || w.containers[id] == v.containers[id]);
    }
  }

  lemma LateInstall(v: Volume, a: Action)
    requires v.marker
    ensures var w := Step(v, a);
            && w.marker && Installers(w) <= Installers(v)
            && |w.installs| + |Installers(w)| <= |v.installs| + |Installers(v)|
  {
    hide Step, Installers;
    var w := Step(v, a);
    InstallersShrink(v, a);
    if w.installs == v.installs {
      Fewer(Installers(w), Installers(v));
    } else {
      Fewer(Installers(w), Installers(v) - {a.id});
    }
  }

  // ---- When another install is possible ----

  lemma {:induction false} RunCut(v: Volume, a: seq<Action>, b: seq<Action>)
    ensures RunAll(v, a + b) == RunAll(RunAll(v, a), b)
    decreases |b|
  {
    hide Step;
    if b == [] {
      assert a + b == a;
    } else {
      assert a + b == (a + b[..|b| - 1]) + [b[|b| - 1]];
      More(v, a + b[..|b| - 1], b[|b| - 1]);
      RunCut(v, a, b[..|b| - 1]);
    }
  }

  /** `n` more commands of one container, every install of it succeeding. */
  function Commands(v: Volume, id: nat, n: nat): Volume {
    if n == 0 then v else Step(Commands(v, id, n - 1), Runs(id, true))
  }

  predicate OnlyRuns(actions: seq<Action>) { forall a :: a in actions ==> a.Runs? }

  lemma {:induction false} CommandsAreARun(v: Volume, id: nat, n: nat) returns (more: seq<Action>)
    ensures OnlyRuns(more) && RunAll(v, more) == Commands(v, id, n)
  {
    hide Step;
    more := [];
    if n > 0 {
      more := CommandsAreARun(v, id, n - 1);
      More(v, more, Runs(id, true));
      more := more + [Runs(id, true)];
    }
  }

  /** A container that needs no lock any more, or can take it, installs. */
  lemma InstallsNext(v: Volume, id: nat) returns (n: nat)
    requires id in v.containers && MayInstall(v.containers[id])
    requires v.containers[id] in {PrepareVolume, TakeLock} ==> !v.locked
    ensures |Commands(v, id, n).installs| > |v.installs|
  {
    match v.containers[id]
    case PrepareVolume => n := 4; FourCommands(v, id);
    case TakeLock => n := 3; FourCommands(v, id);
    case Wipe => n := 2; FourCommands(v, id);
    case Install(_) => n := 1; FourCommands(v, id);
  }

  lemma FourCommands(v: Volume, id: nat)
    ensures Commands(v, id, 1) == Step(v, Runs(id, true))
    ensures Commands(v, id, 2) == Step(Commands(v, id, 1), Runs(id, true))
    ensures Commands(v, id, 3) == Step(Commands(v, id, 2), Runs(id, true))
    ensures Commands(v, id, 4) == Step(Commands(v, id, 3), Runs(id, true))
  {
    hide Step;
    assert Commands(v, id, 0) == v;
  }

  /** The holder of the lock gives it up within two commands, once it is past installing. */
  lemma GivesUpTheLock(v: Volume, holder: nat) returns (n: nat)
    requires holder in v.containers && v.containers[holder] in {TouchMarker, ReleaseInstalled, ReleaseFailed}
    ensures var w := Commands(v, holder, n);
            && !w.locked && w.installs == v.installs
            && forall id :: id != holder && id in v.containers ==>
                 id in w.containers && w.containers[id] == v.containers[id]
  {
    FourCommands(v, holder);
    n := if v.containers[holder].TouchMarker? then 2 else 1;
  }

  /** A container between its look for the marker and its install can still install. */
  lemma AnInstallerCanInstall(v: Volume) returns (more: seq<Action>)
    requires Locking(v) && Installers(v) != {}
    ensures |RunAll(v, more).installs| > |v.installs|
  {
    hide Commands, Step, RunAll;
    var id :| id in Installers(v);
    if !v.locked || InCritical(v.containers[id]) {
      var n := InstallsNext(v, id);
      more := CommandsAreARun(v, id, n);
    } else {
      var holder :| holder in Holders(v);
      if MayInstall(v.containers[holder]) {
        var n := InstallsNext(v, holder);
        more := CommandsAreARun(v, holder, n);
      } else {
        var n := GivesUpTheLock(v, holder);
        var first := CommandsAreARun(v, holder, n);
        var w := Commands(v, holder, n);
        var m := InstallsNext(w, id);
        var second := CommandsAreARun(w, id, m);
        RunCut(v, first, second);
        more := first + second;
      }
    }
  }

  lemma {:induction false} Unused(ids: set<nat>) returns (id: nat)
    ensures forall x :: x in ids ==> x < id
  {
    if ids == {} {
      id := 0;
    } else {
      var x :| x in ids;
      var above := Unused(ids - {x});
      id := if x < above then above else x + 1;
      assert forall y :: y in ids ==> y == x || y in ids - {x};
    }
  }

  /** While there is no marker, a container that starts now can come to install. */
  lemma ANewContainerCanInstall(v: Volume) returns (more: seq<Action>)
    requires Locking(v) && !v.marker
    ensures |RunAll(v, more).installs| > |v.installs|
  {
    var id := Unused(v.containers.Keys);
    assert id !in v.containers.Keys;
    var started := Step(Step(v, Starts(id)), Runs(id, true));
    assert id in Installers(started) && started.installs == v.installs;
    StepKeepsLocking(v, Starts(id));
    StepKeepsLocking(Step(v, Starts(id)), Runs(id, true));
    assert RunAll(v, []) == v;
    More(v, [], Starts(id));
    More(v, [Starts(id)], Runs(id, true));
    assert [] + [Starts(id)] == [Starts(id)];
    hide Step, Locking;
    var rest := AnInstallerCanInstall(started);
    RunCut(v, [Starts(id)] + [Runs(id, true)], rest);
    more := [Starts(id)] + [Runs(id, true)] + rest;
  }

  ghost predicate CanInstallAgain(v: Volume) {
    exists more :: |RunAll(v, more).installs| > |v.installs|
  }

  /**
   * Exactly when another install is possible: while there is no marker, or some container is
   * between its look for the marker and its install.
   */
  lemma {:induction false} AnotherInstallExactly(v: Volume)
    requires Locking(v)
    ensures CanInstallAgain(v) <==> !v.marker || Installers(v) != {}
  {
    if !v.marker {
      var more := ANewContainerCanInstall(v);
    } else if Installers(v) != {} {
      var more := AnInstallerCanInstall(v);
    } else {
      forall more
        ensures |RunAll(v, more).installs| <= |v.installs|
      {
        LateInstallsAreBounded(v, more);
      }
    }
  }

  lemma {:induction false} Fewer(a: set<nat>, b: set<nat>)
    requires a <= b
    ensures |a| <= |b|
  {
    if a != {} {
      var x :| x in a;
      Fewer(a - {x}, b - {x});
    }
  }

  /** The install can run twice: the marker is looked for before the lock is taken. */
  lemma InstallCanRunTwice()
    ensures exists actions :: |RunAll(Empty, actions).installs| == 2
  {
    var v1 := Volume(false, false, map[0 := CheckMarker, 1 := CheckMarker], []);
    assert v1 == Step(Step(Empty, Starts(0)), Starts(1));
    var v2 := Step(Step(v1, Runs(0, true)), Runs(0, true));
    var v3 := Step(Step(v2, Runs(1, true)), Runs(1, true));
    assert v3.containers == map[0 := TakeLock, 1 := TakeLock];
    var v4 := Step(Step(Step(v3, Runs(0, true)), Runs(0, true)), Runs(0, true));
    assert v4.installs == [0] && v4.locked && v4.containers[1] == TakeLock;
    var v5 := Step(Step(v4, Runs(0, true)), Runs(0, true));
    assert !v5.locked && v5.containers[1] == TakeLock && v5.installs == [0];
    var v6 := Step(Step(Step(v5, Runs(1, true)), Runs(1, true)), Runs(1, true));
    assert v6.installs == [0, 1];
    var one, other := Runs(0, true), Runs(1, true);
    var a := [Starts(0)] + [Starts(1)];
    More(Empty, [], Starts(0));
    More(Empty, [Starts(0)], Starts(1));
    a := MoreTwo(a, one, one);
    a := MoreTwo(a, other, other);
    a := MoreTwo(a, one, one);
    a := MoreTwo(a, one, one);
    a := MoreTwo(a, one, other);
    a := MoreTwo(a, other, other);
    assert RunAll(Empty, a) == v6;
  }

  lemma More(v: Volume, actions: seq<Action>, a: Action)
    ensures RunAll(v, actions + [a]) == Step(RunAll(v, actions), a)
  {
    hide Step;
    assert (actions + [a])[..|actions|] == actions;
  }

  lemma MoreTwo(actions: seq<Action>, a: Action, b: Action) returns (longer: seq<Action>)
    ensures RunAll(Empty, longer) == Step(Step(RunAll(Empty, actions), a), b)
  {
    hide Step;
    More(Empty, actions, a);
    More(Empty, actions + [a], b);
    longer := actions + [a] + [b];
  }

  // ---- When a waiting container gets past ----

  /** Some run of the containers there are takes `w` past the script. */
  ghost predicate CanPass(v: Volume, w: nat) {
    exists more ::
      && OnlyRuns(more)
      && w in RunAll(v, more).containers && RunAll(v, more).containers[w].Past?
  }

  /** A container that can still come to leave the marker. */
  predicate MayMark(at: At) { at.CheckMarker? || MayInstall(at) || at.TouchMarker? }

  ghost predicate SomeoneMayMark(v: Volume) {
    v.marker || exists c :: c in v.containers && MayMark(v.containers[c])
  }

  /** Commands of one container leave the others where they are. */
  lemma {:induction false} OthersStay(v: Volume, id: nat, n: nat)
    ensures forall w :: w in v.containers && w != id ==>
              w in Commands(v, id, n).containers && Commands(v, id, n).containers[w] == v.containers[w]
    ensures Locking(v) ==> Locking(Commands(v, id, n))
  {
    hide Step, Locking;
    if n > 0 {
      OthersStay(v, id, n - 1);
      OneStays(Commands(v, id, n - 1), id);
      if Locking(v) {
        StepKeepsLocking(Commands(v, id, n - 1), Runs(id, true));
      }
    }
  }

  lemma OneStays(v: Volume, id: nat)
    ensures forall w :: w in v.containers && w != id ==>
              w in Step(v, Runs(id, true)).containers && Step(v, Runs(id, true)).containers[w] == v.containers[w]
  {
  }

  /** A container that may mark, and needs no lock that another holds, marks. */
  lemma MarksNext(v: Volume, c: nat) returns (n: nat)
    requires c in v.containers && (MayInstall(v.containers[c]) || v.containers[c].TouchMarker?)
    requires v.containers[c] in {PrepareVolume, TakeLock} ==> !v.locked
    ensures Commands(v, c, n).marker
  {
    FourCommands(v, c);
    match v.containers[c]
    case PrepareVolume => n := 5; assert Commands(v, c, 5) == Step(Commands(v, c, 4), Runs(c, true));
    case TakeLock => n := 4;
    case Wipe => n := 3;
    case Install(_) => n := 2;
    case TouchMarker => n := 1;
  }

  /** With the marker there, a waiting container passes with its next look. */
  lemma PassesWithMarker(v: Volume, w: nat)
    requires v.marker && w in v.containers && v.containers[w].Waiting?
    ensures CanPass(v, w)
  {
    var more := CommandsAreARun(v, w, 1);
    assert Commands(v, w, 1) == Step(Commands(v, w, 0), Runs(w, true));
    hide RunAll;
    assert RunAll(v, more).containers[w].Past?;
  }

  /** What some run of the others leads to is as good as being there. */
  lemma PassesAfter(v: Volume, more: seq<Action>, w: nat)
    requires OnlyRuns(more) && CanPass(RunAll(v, more), w)
    ensures CanPass(v, w)
  {
    hide RunAll;
    var rest :| OnlyRuns(rest) && w in RunAll(RunAll(v, more), rest).containers
                && RunAll(RunAll(v, more), rest).containers[w].Past?;
    RunCut(v, more, rest);
    assert OnlyRuns(more + rest);
  }

  lemma PassesOnceMarked(v: Volume, c: nat, n: nat, w: nat)
    requires Commands(v, c, n).marker && w != c && w in v.containers && v.containers[w].Waiting?
    ensures CanPass(v, w)
  {
    hide Step, RunAll, Commands, Locking;
    OthersStay(v, c, n);
    var more := CommandsAreARun(v, c, n);
    PassesWithMarker(Commands(v, c, n), w);
    PassesAfter(v, more, w);
  }

  /** Whoever holds the lock, an installer on the way to it comes to mark. */
  lemma InstallerMarks(v: Volume, c: nat, w: nat)
    requires Locking(v) && c in v.containers && (MayInstall(v.containers[c]) || v.containers[c].TouchMarker?)
    requires w in v.containers && v.containers[w].Waiting?
    ensures CanPass(v, w)
  {
    hide Step, RunAll, Commands, CanPass;
    if !v.locked || InCritical(v.containers[c]) {
      var n := MarksNext(v, c);
      PassesOnceMarked(v, c, n, w);
    } else {
      var holder :| holder in Holders(v);
      if v.containers[holder] in {ReleaseInstalled, ReleaseFailed} {
        var n := GivesUpTheLock(v, holder);
        var freed := Commands(v, holder, n);
        var more := CommandsAreARun(v, holder, n);
        var m := MarksNext(freed, c);
        PassesOnceMarked(freed, c, m, w);
        PassesAfter(v, more, w);
      } else {
        var n := MarksNext(v, holder);
        PassesOnceMarked(v, holder, n, w);
      }
    }
  }

  lemma LookerMarks(v: Volume, c: nat, w: nat)
    requires Locking(v) && c in v.containers && v.containers[c].CheckMarker? && !v.marker
    requires w in v.containers && v.containers[w].Waiting?
    ensures CanPass(v, w)
  {
    OthersStay(v, c, 1);
    var more := CommandsAreARun(v, c, 1);
    assert Commands(v, c, 1) == Step(Commands(v, c, 0), Runs(c, true));
    assert Commands(v, c, 1).containers[c] == PrepareVolume;
    hide Step, RunAll, Commands, CanPass, Locking;
    InstallerMarks(Commands(v, c, 1), c, w);
    PassesAfter(v, more, w);
  }

  /** With nobody left who may mark, a waiting container waits on. */
  lemma {:induction false} NobodyMarks(v: Volume, actions: seq<Action>, w: nat)
    requires !SomeoneMayMark(v) && OnlyRuns(actions) && w in v.containers && v.containers[w].Waiting?
    ensures var after := RunAll(v, actions);
            !SomeoneMayMark(after) && w in after.containers && after.containers[w].Waiting?
  {
    if actions != [] {
      var front, a := actions[..|actions| - 1], actions[|actions| - 1];
      NobodyMarks(v, front, w);
      assert a in actions;
      NobodyMarksNext(RunAll(v, front), a, w);
    }
  }

  lemma NobodyMarksNext(v: Volume, a: Action, w: nat)
    requires !SomeoneMayMark(v) && a.Runs? && w in v.containers && v.containers[w].Waiting?
    ensures var after := Step(v, a);
            !SomeoneMayMark(after) && w in after.containers && after.containers[w].Waiting?
  {
    var after := Step(v, a);
    assert forall c :: c in v.containers ==> !MayMark(v.containers[c]);
    assert forall c :: c in after.containers ==> !MayMark(after.containers[c]);
  }

  /**
   * From every volume whose lock is kept, exactly when some run of the containers there are takes a
   * waiting one past the script: the marker is there, or one of them has yet to look for it, is on
   * its way to an install, or is about to leave it.
   */
  lemma {:induction false} WaiterPassesExactly(v: Volume, w: nat)
    requires Locking(v) && w in v.containers && v.containers[w].Waiting?
    ensures CanPass(v, w) <==> SomeoneMayMark(v)
  {
    hide Step, RunAll, Locking;
    if v.marker {
      PassesWithMarker(v, w);
    } else if c :| c in v.containers && MayMark(v.containers[c]) {
      if v.containers[c].CheckMarker? {
        LookerMarks(v, c, w);
      } else {
        InstallerMarks(v, c, w);
      }
    } else if CanPass(v, w) {
      var more :| OnlyRuns(more) && w in RunAll(v, more).containers && RunAll(v, more).containers[w].Past?;
      NobodyMarks(v, more, w);
    }
  }

  /** For instance once all wait or exited: then no command changes anything. */
  predicate Stranded(v: Volume) {
    && !v.marker
    && forall id :: id in v.containers ==> v.containers[id] in {Waiting, Exited}
  }

  lemma {:induction false} WaitersNeedANewContainer(v: Volume, actions: seq<Action>)
    requires Stranded(v) && forall a :: a in actions ==> a.Runs?
    ensures RunAll(v, actions) == v
  {
    if actions != [] {
      WaitersNeedANewContainer(v, actions[..|actions| - 1]);
      assert actions[|actions| - 1] in actions;
    }
  }

  /**
   * An input that comes to that: two containers start, the first takes the lock, the second finds it
   * taken, and all three attempts of the first fail. The second can never get past.
   */
  lemma AWaiterCanStarve()
    ensures exists actions :: var v := RunAll(Empty, actions);
              1 in v.containers && v.containers[1].Waiting? && !CanPass(v, 1)
  {
    var a := TwoStart();
    a := ThreeFail(a);
    hide Step;
    var v := RunAll(Empty, a);
    assert Stranded(v) && !SomeoneMayMark(v);
    RunKeepsLocking(Empty, a);
    hide RunAll;
    WaiterPassesExactly(v, 1);
  }

  /** Both look for the marker, the first takes the lock and the second waits. */
  lemma TwoStart() returns (a: seq<Action>)
    ensures RunAll(Empty, a) == Volume(true, false, map[0 := Wipe, 1 := Waiting], [])
  {
    a := MoreTwo([], Starts(0), Starts(1));
    assert RunAll(Empty, a) == Volume(false, false, map[0 := CheckMarker, 1 := CheckMarker], []);
    hide RunAll;
    a := MoreTwo(a, Runs(0, false), Runs(0, false));
    assert RunAll(Empty, a).containers == map[0 := TakeLock, 1 := CheckMarker];
    a := MoreTwo(a, Runs(1, false), Runs(1, false));
    assert RunAll(Empty, a).containers == map[0 := TakeLock, 1 := TakeLock];
    a := MoreTwo(a, Runs(0, false), Runs(1, false));
    assert RunAll(Empty, a).containers == map[0 := Wipe, 1 := Waiting];
  }

  /** The first clears its store, fails three times and gives up. */
  lemma ThreeFail(before: seq<Action>) returns (a: seq<Action>)
    requires RunAll(Empty, before) == Volume(true, false, map[0 := Wipe, 1 := Waiting], [])
    ensures RunAll(Empty, a) == Volume(false, false, map[0 := Exited, 1 := Waiting], [])
  {
    hide RunAll;
    a := MoreTwo(before, Runs(0, false), Runs(0, false));
    assert RunAll(Empty, a).containers == map[0 := Install(1), 1 := Waiting];
    a := MoreTwo(a, Runs(0, false), Runs(0, false));
    assert RunAll(Empty, a).containers == map[0 := ReleaseFailed, 1 := Waiting];
    More(Empty, a, Runs(0, false));
    a := a + [Runs(0, false)];
    assert RunAll(Empty, a).containers == map[0 := Exited, 1 := Waiting];
  }
}
