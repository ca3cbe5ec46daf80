// Ownership of the callback socket path (callback_listener.go): a listener binds a
// temporary name, renames it over the path, and on close removes the path only if it
// still names its own socket. Listeners may live in different processes, so their steps
// interleave freely; each step below is one file-system operation, except that close's
// check and removal are taken together.
module CallbackListener {
  import opened Text

  datatype Stage =
    | Bound(temp: string)  // bound and chmodded under the temporary name
    | Serving              // renamed into place
    | Closed
    | Stranded(temp: string)  // killed before the rename
    | Dead                    // killed while serving

  datatype Listener = Listener(inode: nat, path: string, stage: Stage)

  datatype State = State(
    files: map<string, nat>,      // path to inode
    inodes: nat,                  // inodes handed out so far
    listeners: seq<Listener>,
    newest: map<string, nat>      // the listener that took a path last
  )

  datatype Step =
    | Bind(path: string, temp: string)
    | Abort(listener: nat)
    | Rename(listener: nat)
    | Close(listener: nat)
    | Kill(listener: nat)   // its process dies and removes nothing

  const Initial: State := State(map[], 0, [], map[])

  predicate IsBound(s: State, l: nat) {
    l < |s.listeners| && s.listeners[l].stage.Bound?
  }

  predicate IsServing(s: State, l: nat) {
    l < |s.listeners| && s.listeners[l].stage == Serving
  }

  // Final paths end in .sock and temporary names in .tmp.
  predicate IsTemp(path: string) {
    |path| >= 4 && path[|path| - 4..] == ".tmp"
  }

  predicate Enabled(s: State, step: Step) {
    match step
    // Binding fails when the name is taken.
    case Bind(path, temp) => temp !in s.files && IsTemp(temp) && !IsTemp(path)
    case Abort(l) => IsBound(s, l)
    case Rename(l) => IsBound(s, l) && s.listeners[l].stage.temp in s.files
    case Close(l) => IsServing(s, l)
    case Kill(l) => IsBound(s, l) || IsServing(s, l)
  }

  function SetStage(s: State, l: nat, stage: Stage): State
    requires l < |s.listeners|
  {
    s.(listeners := s.listeners[l := s.listeners[l].(stage := stage)])
  }

  function Apply(s: State, step: Step): State
    requires Enabled(s, step)
  {
    match step
    case Bind(path, temp) =>
      s.(files := s.files[temp := s.inodes], inodes := s.inodes + 1,
         listeners := s.listeners + [Listener(s.inodes, path, Bound(temp))])
    case Abort(l) => SetStage(s, l, Closed).(files := s.files - {s.listeners[l].stage.temp})
    case Rename(l) =>
      var listener := s.listeners[l];
      SetStage(s, l, Serving)
        .(files := (s.files - {listener.stage.temp})[listener.path := s.files[listener.stage.temp]],
          newest := s.newest[listener.path := l])
    case Close(l) =>
      var listener := s.listeners[l];
      var ours := listener.path in s.files && s.files[listener.path] == listener.inode;
      SetStage(s, l, Closed).(files := if ours then s.files - {listener.path} else s.files)
    case Kill(l) =>
      SetStage(s, l, if IsBound(s, l) then Stranded(s.listeners[l].stage.temp) else Dead)
  }

  // A path is held by the listener that took it last, until that one closes; also by one
  // that was killed.
  predicate Holds(s: State, path: string, l: nat) {
    path in s.newest && s.newest[path] == l && (IsServing(s, l) || IsDead(s, l))
  }

  predicate IsDead(s: State, l: nat) {
    l < |s.listeners| && s.listeners[l].stage == Dead
  }

  predicate ListenerInv(s: State, l: nat)
    requires l < |s.listeners|
  {
    var listener := s.listeners[l];
    && listener.inode < s.inodes && !IsTemp(listener.path)
    && (listener.stage.Bound? ==>
          IsTemp(listener.stage.temp)
          && listener.stage.temp in s.files && s.files[listener.stage.temp] == listener.inode)
    && (listener.stage == Serving || listener.stage == Dead ==> listener.path in s.newest)
  }

  predicate PathInv(s: State, path: string) {
    path in s.newest ==>
      && !IsTemp(path) && s.newest[path] < |s.listeners|
      && var l := s.newest[path];
         && !s.listeners[l].stage.Bound? && !s.listeners[l].stage.Stranded? && s.listeners[l].path == path
         && (path in s.files <==> IsServing(s, l) || IsDead(s, l))
         && (path in s.files ==> s.files[path] == s.listeners[l].inode)
  }

  ghost predicate Inv(s: State) {
    && (forall l: nat | l < |s.listeners| :: ListenerInv(s, l))
    && (forall path :: PathInv(s, path))
    && (forall path | path in s.files :: s.files[path] < s.inodes && (!IsTemp(path) ==> path in s.newest))
    && (forall l, m | 0 <= l < m < |s.listeners| :: s.listeners[l].inode != s.listeners[m].inode)
  }

  lemma BindKeepsInv(s: State, path: string, temp: string)
    requires Inv(s) && Enabled(s, Bind(path, temp))
    ensures Inv(Apply(s, Bind(path, temp)))
  {
    var t := Apply(s, Bind(path, temp));
    forall l: nat | l < |t.listeners| ensures ListenerInv(t, l) {
      if l < |s.listeners| { assert ListenerInv(s, l); }
    }
    forall p ensures PathInv(t, p) {
      assert PathInv(s, p);
    }
    forall l, m | 0 <= l < m < |t.listeners| ensures t.listeners[l].inode != t.listeners[m].inode {
      assert ListenerInv(s, l);
    }
  }

  lemma ListenersKeepInv(s: State, step: Step, l: nat)
    requires Inv(s) && Enabled(s, step) && !step.Bind? && l < |s.listeners|
    ensures ListenerInv(Apply(s, step), l)
  {
    hide IsTemp;
    assert ListenerInv(s, l) && ListenerInv(s, step.listener);
  }

  lemma PathsKeepInv(s: State, step: Step, path: string)
    requires Inv(s) && Enabled(s, step) && !step.Bind?
    ensures PathInv(Apply(s, step), path)
  {
    hide IsTemp;
    assert ListenerInv(s, step.listener);
    assert PathInv(s, path) && PathInv(s, s.listeners[step.listener].path);
  }

  lemma StepKeepsInv(s: State, step: Step)
    requires Inv(s) && Enabled(s, step)
    ensures Inv(Apply(s, step))
  {
    if step.Bind? {
      BindKeepsInv(s, step.path, step.temp);
    } else {
      hide ListenerInv, PathInv;
      var t := Apply(s, step);
      forall l: nat | l < |t.listeners| ensures ListenerInv(t, l) { ListenersKeepInv(s, step, l); }
      forall p ensures PathInv(t, p) { PathsKeepInv(s, step, p); }
      assert t.inodes == s.inodes && forall l | 0 <= l < |t.listeners| :: t.listeners[l].inode == s.listeners[l].inode;
      FilesKnown(s, step);
    }
  }

  lemma FilesKnown(s: State, step: Step)
    requires Inv(s) && Enabled(s, step) && !step.Bind?
    ensures var t := Apply(s, step);
            forall path | path in t.files :: t.files[path] < t.inodes && (!IsTemp(path) ==> path in t.newest)
  {
    assert ListenerInv(s, step.listener);
  }

  predicate Valid(s: State, steps: seq<Step>)
    decreases steps
  {
    steps == [] || (Enabled(s, steps[0]) && Valid(Apply(s, steps[0]), steps[1..]))
  }

  function Run(s: State, steps: seq<Step>): State
    requires Valid(s, steps)
    decreases steps
  {
    if steps == [] then s else Run(Apply(s, steps[0]), steps[1..])
  }

  lemma {:induction false} RunKeepsInv(s: State, steps: seq<Step>)
    requires Inv(s) && Valid(s, steps)
    ensures Inv(Run(s, steps))
    decreases steps
  {
    hide Inv;
    if steps != [] {
      StepKeepsInv(s, steps[0]);
      RunKeepsInv(Apply(s, steps[0]), steps[1..]);
    }
  }

  // Newest wins: in every run, a path that was ever taken is present exactly while the
  // listener that took it last is serving or has been killed, and then names that
  // listener's socket. So an older listener's close never removes a newer one's path,
  // takeover leaves no gap, and a path names a dead socket only if the last taker died.
  lemma NewestHoldsThePath(steps: seq<Step>, path: string)
    requires Valid(Initial, steps) && path in Run(Initial, steps).newest
    ensures var s := Run(Initial, steps); var l := s.newest[path];
            && l < |s.listeners|
            && (path in s.files <==> IsServing(s, l) || IsDead(s, l))
            && (path in s.files ==> s.files[path] == s.listeners[l].inode)
  {
    InitialInv();
    RunKeepsInv(Initial, steps);
    assert PathInv(Run(Initial, steps), path);
  }

  // Some step of the run renames a listener over the path.
  predicate RenamedOver(s: State, steps: seq<Step>, path: string)
    requires Valid(s, steps)
    decreases steps
  {
    steps != [] &&
    ((steps[0].Rename? && s.listeners[steps[0].listener].path == path) || RenamedOver(Apply(s, steps[0]), steps[1..], path))
  }

  // A killed listener's path names its dead socket through every further run, exactly
  // until a newer listener is renamed over it.
  lemma {:induction false} DeadUntilRenamed(s: State, steps: seq<Step>, path: string, l: nat)
    requires Inv(s) && Valid(s, steps) && path in s.newest && s.newest[path] == l && IsDead(s, l)
    ensures var t := Run(s, steps);
            && path in t.newest
            && (t.newest[path] == l <==> !RenamedOver(s, steps, path))
            && (t.newest[path] == l ==> IsDead(t, l) && path in t.files && t.files[path] == t.listeners[l].inode)
    decreases steps
  {
    if steps == [] {
      assert PathInv(s, path);
    } else {
      var next := Apply(s, steps[0]);
      StepKeepsInv(s, steps[0]);
      if steps[0].Rename? && s.listeners[steps[0].listener].path == path {
        NeverTakenAgain(next, steps[1..], path, l);
      } else {
        HolderIsUndisturbed(s, steps[0], path, l);
        DeadUntilRenamed(next, steps[1..], path, l);
      }
    }
  }

  // A listener takes its path once.
  lemma {:induction false} NeverTakenAgain(s: State, steps: seq<Step>, path: string, l: nat)
    requires Inv(s) && Valid(s, steps) && IsDead(s, l) && path in s.newest && s.newest[path] != l
    ensures var t := Run(s, steps); path in t.newest && t.newest[path] != l
    decreases steps
  {
    if steps != [] {
      StepKeepsInv(s, steps[0]);
      NeverTakenAgain(Apply(s, steps[0]), steps[1..], path, l);
    }
  }

  lemma InitialInv()
    ensures Inv(Initial)
  {
  }

  // The step form: while a listener holds a path, only a newer rename or its own close
  // changes what the path names.
  lemma HolderIsUndisturbed(s: State, step: Step, path: string, l: nat)
    requires Inv(s) && Enabled(s, step) && Holds(s, path, l)
    requires step != Close(l) && !(step.Rename? && s.listeners[step.listener].path == path)
    ensures var t := Apply(s, step);
            && Holds(t, path, l)
            && path in s.files && path in t.files && t.files[path] == s.files[path] == s.listeners[l].inode
  {
    assert PathInv(s, path);
    if step.Abort? || step.Rename? || step.Close? || step.Kill? { assert ListenerInv(s, step.listener); }
    if step.Close? && s.listeners[step.listener].path == path {
      assert s.listeners[step.listener].inode != s.listeners[l].inode;
    }
  }

  // A start that goes through takes the path at once, whoever held it: the path names the
  // new socket, the temporary name is gone, and no other file has changed. Closing then
  // takes the path away again.
  lemma StartTakesThePath(s: State, path: string, temp: string)
    requires Inv(s) && Enabled(s, Bind(path, temp))
    ensures var l := |s.listeners|; var bound := Apply(s, Bind(path, temp));
            && (forall file | file != temp :: (file in bound.files <==> file in s.files)
                                              && (file in s.files ==> bound.files[file] == s.files[file]))
            && Enabled(bound, Rename(l))
            && var t := Apply(bound, Rename(l));
            && IsServing(t, l) && Holds(t, path, l) && t.files == s.files[path := s.inodes] && t.listeners[l].inode == s.inodes
            && Enabled(t, Close(l)) && Apply(t, Close(l)).files == s.files - {path}
  {
    var bound := Apply(s, Bind(path, temp));
    assert bound.files - {temp} == s.files;
    var t := Apply(bound, Rename(|s.listeners|));
    assert t.files == s.files[path := s.inodes];
    assert t.files - {path} == s.files - {path};
  }

  // A listener whose process is killed leaves every file where it is, and can do nothing
  // more: serving, it goes on holding its path; before the rename, it strands its
  // temporary name.
  lemma KillLeavesFiles(s: State, l: nat)
    requires Inv(s) && (IsBound(s, l) || IsServing(s, l))
    ensures Enabled(s, Kill(l))
    ensures var t := Apply(s, Kill(l)); var path := s.listeners[l].path;
            && t.files == s.files && t.newest == s.newest && t.inodes == s.inodes
            && !Enabled(t, Rename(l)) && !Enabled(t, Abort(l)) && !Enabled(t, Close(l)) && !Enabled(t, Kill(l))
            && (IsServing(s, l) ==> IsDead(t, l) && (Holds(s, path, l) ==> Holds(t, path, l)))
            && (IsBound(s, l) ==> t.listeners[l].stage == Stranded(s.listeners[l].stage.temp))
  {
    assert ListenerInv(s, l);
  }

  // A start that fails before the rename leaves the directory as it was.
  lemma AbortLeavesNothing(s: State, path: string, temp: string)
    requires Inv(s) && Enabled(s, Bind(path, temp))
    ensures var t := Apply(s, Bind(path, temp));
            Enabled(t, Abort(|s.listeners|)) && Apply(t, Abort(|s.listeners|)).files == s.files
  {
  }
}
