/**
 Concurrent logins, renames and logouts of separate processes on one
 credentials file.

 An update locks a sidecar file, reads the credentials, changes its copy,
 writes it to a temporary and renames that over the file. A logout first reads
 the file and has its token revoked without the lock. A process may stop at any
 point, which releases the lock it holds.
 */
module LoginProtocol {
  import opened Outcomes
  import opened LoginStore

  type Pid = nat

  datatype Phase =
    | Idle
    | Revoking(key: string, id: string, token: string)
    | Waiting(update: Update)
    | Locked(update: Update)
    | Loaded(update: Update, copy: Store)
    | Changed(update: Update, copy: Store)
    | Written(update: Update, copy: Store)
    | Replaced(update: Update)
  {
    predicate HoldsLock() {
      Locked? || Loaded? || Changed? || Written? || Replaced?
    }
  }

  /** One acquisition of the lock, and whether its update reached the file. */
  datatype Turn = Turn(update: Update, committed: bool)

  datatype State = State(
    file: Option<Store>,
    lock: Option<Pid>,
    phases: map<Pid, Phase>,
    revoked: set<string>,
    turns: seq<Turn>)

  datatype Step =
    | FinishLogin(pid: Pid, key: string, id: string, username: string, token: string)
    | StartRename(pid: Pid, key: string, id: string, username: string)
    | StartLogout(pid: Pid, key: string, id: string)
    | Revoke(pid: Pid)
    | TakeLock(pid: Pid)
    | ReadFile(pid: Pid)
    | ChangeCopy(pid: Pid)
    | WriteTemporary(pid: Pid)
    | RenameOver(pid: Pid)
    | Unlock(pid: Pid)
    | Stop(pid: Pid)

  function PhaseOf(s: State, pid: Pid): Phase {
    if pid in s.phases then s.phases[pid] else Idle
  }

  /** What any reader sees: a missing file is an empty store. */
  function Contents(s: State): Store {
    match s.file
    case None => map[]
    case Some(store) => store
  }

  predicate Enabled(s: State, step: Step) {
    var phase := PhaseOf(s, step.pid);
    match step
    case FinishLogin(_, _, _, _, _) => phase.Idle?
    case StartRename(_, key, id, _) => phase.Idle? && Saved(Contents(s), key, id)
    case StartLogout(_, key, id) => phase.Idle? && Saved(Contents(s), key, id)
    case Revoke(_) => phase.Revoking?
    case TakeLock(_) => phase.Waiting? && s.lock == None
    case ReadFile(_) => phase.Locked?
    case ChangeCopy(_) => phase.Loaded?
    case WriteTemporary(_) => phase.Changed?
    case RenameOver(_) => phase.Written?
    case Unlock(_) => phase.Replaced?
    case Stop(_) => !phase.Idle?
  }

  function Go(s: State, pid: Pid, phase: Phase): State {
    s.(phases := s.phases[pid := phase])
  }

  function Apply(s: State, step: Step): State
    requires Enabled(s, step)
  {
    var pid, phase := step.pid, PhaseOf(s, step.pid);
    match step
    case FinishLogin(_, key, id, username, token) => Go(s, pid, Waiting(Login(key, id, username, token)))
    case StartRename(_, key, id, username) => Go(s, pid, Waiting(Rename(key, id, username)))
    case StartLogout(_, key, id) => Go(s, pid, Revoking(key, id, Token(Contents(s), key, id)))
    case Revoke(_) =>
      Go(s, pid, Waiting(Logout(phase.key, phase.id, phase.token))).(revoked := s.revoked + {phase.token})
    case TakeLock(_) =>
      Go(s, pid, Locked(phase.update)).(lock := Some(pid), turns := s.turns + [Turn(phase.update, false)])
    case ReadFile(_) => Go(s, pid, Loaded(phase.update, Contents(s)))
    case ChangeCopy(_) => Go(s, pid, Changed(phase.update, Updated(phase.copy, phase.update)))
    case WriteTemporary(_) => Go(s, pid, Written(phase.update, phase.copy))
    case RenameOver(_) =>
      Go(s, pid, Replaced(phase.update)).(
        file := Some(phase.copy),
        turns := if s.turns == [] then [] else s.turns[|s.turns| - 1 := Turn(phase.update, true)])
    case Unlock(_) => Go(s, pid, Idle).(lock := None)
    case Stop(_) => Go(s, pid, Idle).(lock := if phase.HoldsLock() then None else s.lock)
  }

  ghost predicate Run(s: State, steps: seq<Step>, end: State)
    decreases |steps|
  {
    if steps == [] then end == s
    else Enabled(s, steps[0]) && Run(Apply(s, steps[0]), steps[1..], end)
  }

  function Start(store: Option<Store>): State {
    State(store, None, map[], {}, [])
  }

  // ----- The file follows the lock

  /** The committed updates, one after another in the order the lock was taken. */
  function Replay(initial: Store, turns: seq<Turn>): Store {
    if turns == [] then initial
    else
      var before, last := Replay(initial, turns[..|turns| - 1]), turns[|turns| - 1];
      if last.committed then Updated(before, last.update) else before
  }

  /** A logout update names a token only after it was revoked. */
  ghost predicate Justified(s: State, update: Update) {
    update.Logout? ==> update.token in s.revoked
  }

  ghost predicate PhaseJustified(s: State, phase: Phase) {
    !phase.Idle? && !phase.Revoking? ==> Justified(s, phase.update)
  }

  /** What the process holding the lock knows about the file. */
  ghost predicate HolderFollows(s: State, phase: Phase)
    requires phase.HoldsLock()
  {
    && s.turns != []
    && s.turns[|s.turns| - 1] == Turn(phase.update, phase.Replaced?)
    && (phase.Loaded? ==> phase.copy == Contents(s))
    && (phase.Changed? || phase.Written? ==> phase.copy == Updated(Contents(s), phase.update))
  }

  ghost predicate Inv(initial: Store, s: State) {
    && Contents(s) == Replay(initial, s.turns)
    && (forall pid <- s.phases.Keys :: s.phases[pid].HoldsLock() ==> s.lock == Some(pid) && HolderFollows(s, s.phases[pid]))
    && (s.lock.Some? ==> s.lock.value in s.phases && s.phases[s.lock.value].HoldsLock())
    && (forall pid <- s.phases.Keys :: PhaseJustified(s, s.phases[pid]))
    && (forall turn <- s.turns :: Justified(s, turn.update))
  }

  lemma ReplayAppend(initial: Store, turns: seq<Turn>, turn: Turn)
    ensures Replay(initial, turns + [turn]) ==
              if turn.committed then Updated(Replay(initial, turns), turn.update) else Replay(initial, turns)
  {
    assert (turns + [turn])[..|turns|] == turns;
  }

  lemma CommitReplays(initial: Store, turns: seq<Turn>, update: Update)
    requires turns != [] && turns[|turns| - 1] == Turn(update, false)
    ensures Replay(initial, turns[|turns| - 1 := Turn(update, true)]) == Updated(Replay(initial, turns), update)
  {
    var front := turns[..|turns| - 1];
    assert turns == front + [Turn(update, false)];
    assert turns[|turns| - 1 := Turn(update, true)] == front + [Turn(update, true)];
    ReplayAppend(initial, front, Turn(update, false));
    ReplayAppend(initial, front, Turn(update, true));
  }

  lemma StepKeepsInv(initial: Store, s: State, step: Step)
    requires Inv(initial, s) && Enabled(s, step)
    ensures Inv(initial, Apply(s, step))
  {
    hide Replay, Updated;
    if step.RenameOver? {
      CommitKeepsInv(initial, s, step);
    } else if step.TakeLock? {
      LockingKeepsInv(initial, s, step);
    } else if PhaseOf(s, step.pid).HoldsLock() {
      HolderStepKeepsInv(initial, s, step);
    }
  }

  lemma LockingKeepsInv(initial: Store, s: State, step: Step)
    requires Inv(initial, s) && Enabled(s, step) && step.TakeLock?
    ensures Inv(initial, Apply(s, step))
  {
    hide Replay, Updated;
    ReplayAppend(initial, s.turns, Turn(PhaseOf(s, step.pid).update, false));
  }

  lemma HolderStepKeepsInv(initial: Store, s: State, step: Step)
    requires Inv(initial, s) && Enabled(s, step) && PhaseOf(s, step.pid).HoldsLock() && !step.RenameOver?
    ensures Inv(initial, Apply(s, step))
  {
    hide Replay, Updated;
    assert s.lock == Some(step.pid);
  }

  lemma CommitKeepsInv(initial: Store, s: State, step: Step)
    requires Inv(initial, s) && Enabled(s, step) && step.RenameOver?
    ensures Inv(initial, Apply(s, step))
  {
    hide Replay, Updated;
    var t, phase := Apply(s, step), PhaseOf(s, step.pid);
    CommitReplays(initial, s.turns, phase.update);
    assert forall turn <- t.turns :: turn in s.turns || turn.update == phase.update;
  }

  lemma {:induction false} RunKeepsInv(initial: Store, s: State, steps: seq<Step>, end: State)
    requires Inv(initial, s) && Run(s, steps, end)
    ensures Inv(initial, end)
    decreases |steps|
  {
    if steps != [] {
      StepKeepsInv(initial, s, steps[0]);
      RunKeepsInv(initial, Apply(s, steps[0]), steps[1..], end);
    }
  }

  /** In every state of every run the file is the committed updates applied one
      after another in lock order, and one process at most holds the lock. */
  lemma FileFollowsLockOrder(store: Option<Store>, steps: seq<Step>, end: State)
    requires Run(Start(store), steps, end)
    ensures Contents(end) == Replay(Contents(Start(store)), end.turns)
    ensures forall p, q :: PhaseOf(end, p).HoldsLock() && PhaseOf(end, q).HoldsLock() ==> p == q
  {
    RunKeepsInv(Contents(Start(store)), Start(store), steps, end);
  }

  lemma {:induction false} ReplayKeepsSelections(initial: Store, turns: seq<Turn>)
    requires SelectionsValid(initial)
    ensures SelectionsValid(Replay(initial, turns))
  {
    if turns != [] {
      ReplayKeepsSelections(initial, turns[..|turns| - 1]);
      UpdatesKeepSelections(Replay(initial, turns[..|turns| - 1]), turns[|turns| - 1].update);
    }
  }

  /** Every reader finds one of each endpoint's accounts selected, or none left. */
  lemma ReadersFindValidSelections(store: Option<Store>, steps: seq<Step>, end: State)
    requires SelectionsValid(Contents(Start(store)))
    requires Run(Start(store), steps, end)
    ensures SelectionsValid(Contents(end))
  {
    FileFollowsLockOrder(store, steps, end);
    ReplayKeepsSelections(Contents(Start(store)), end.turns);
  }

  // ----- No login is lost

  /** What became of the login saved in a turn. */
  ghost predicate LoginAccountedFor(s: State, i: nat)
    requires i < |s.turns|
  {
    var login := s.turns[i].update;
    login.Login? && s.turns[i].committed ==>
      || (Saved(Contents(s), login.key, login.id) && Token(Contents(s), login.key, login.id) == login.token)
      || login.token in s.revoked
      || exists j :: i < j < |s.turns| && s.turns[j].committed && s.turns[j].update.Login?
           && s.turns[j].update.key == login.key && s.turns[j].update.id == login.id
  }

  /** Scanning the turns after `i`: the login stays until a later one replaces it
      or a logout that had its very token revoked removes it. */
  lemma {:induction false} LoginSurvives(initial: Store, turns: seq<Turn>, i: nat)
    requires i < |turns| && turns[i].committed && turns[i].update.Login?
    ensures var login, store := turns[i].update, Replay(initial, turns);
      || (Saved(store, login.key, login.id) && Token(store, login.key, login.id) == login.token)
      || (exists j :: i < j < |turns| && turns[j].committed && turns[j].update == Logout(login.key, login.id, login.token))
      || (exists j :: i < j < |turns| && turns[j].committed && turns[j].update.Login?
            && turns[j].update.key == login.key && turns[j].update.id == login.id)
  {
    var front, last := turns[..|turns| - 1], turns[|turns| - 1];
    if i < |front| {
      LoginSurvives(initial, front, i);
      OnlyNamedLoginChanges(Replay(initial, front), last.update, turns[i].update.key, turns[i].update.id);
      hide Updated;
      assert forall j :: 0 <= j < |front| ==> front[j] == turns[j];
    }
  }

  /** In every run every saved login is still in the file, was revoked, or was
      replaced by a later login of the same account. */
  lemma NoLoginIsLost(store: Option<Store>, steps: seq<Step>, end: State, i: nat)
    requires Run(Start(store), steps, end)
    requires i < |end.turns|
    ensures LoginAccountedFor(end, i)
  {
    var initial := Contents(Start(store));
    RunKeepsInv(initial, Start(store), steps, end);
    if end.turns[i].committed && end.turns[i].update.Login? {
      LoginSurvives(initial, end.turns, i);
      hide Replay;
      if j :| i < j < |end.turns| && end.turns[j].committed && end.turns[j].update
                == Logout(end.turns[i].update.key, end.turns[i].update.id, end.turns[i].update.token) {
        assert end.turns[j] in end.turns;
      }
    }
  }

  /** No step makes a saved token disappear from the file unless it was revoked
      or a login of the same account replaces it. */
  lemma VanishedTokensWereRevoked(store: Option<Store>, steps: seq<Step>, s: State, step: Step, key: string, id: string)
    requires Run(Start(store), steps, s) && Enabled(s, step)
    requires Saved(Contents(s), key, id)
    ensures var t := Apply(s, step);
      || (Saved(Contents(t), key, id) && Token(Contents(t), key, id) == Token(Contents(s), key, id))
      || Token(Contents(s), key, id) in s.revoked
      || (Saved(Contents(t), key, id) && exists username, token ::
            PhaseOf(s, step.pid).Written? && PhaseOf(s, step.pid).update == Login(key, id, username, token))
  {
    RunKeepsInv(Contents(Start(store)), Start(store), steps, s);
    if step.RenameOver? {
      var phase := s.phases[step.pid];
      OnlyNamedLoginChanges(Contents(s), phase.update, key, id);
      hide Updated;
      if phase.update.Login? {
        assert phase.update == Login(phase.update.key, phase.update.id, phase.update.username, phase.update.token);
      }
    }
  }

  /** A committed logout leaves its token saved for that account only if a later
      login brought it back. */
  lemma {:induction false} LogoutLasts(initial: Store, turns: seq<Turn>, i: nat)
    requires i < |turns| && turns[i].committed && turns[i].update.Logout?
    ensures var out, store := turns[i].update, Replay(initial, turns);
      Saved(store, out.key, out.id) && Token(store, out.key, out.id) == out.token ==>
        exists j :: i < j < |turns| && turns[j].committed && turns[j].update.Login?
          && turns[j].update.key == out.key && turns[j].update.id == out.id && turns[j].update.token == out.token
  {
    var front, last := turns[..|turns| - 1], turns[|turns| - 1];
    var out, before := turns[i].update, Replay(initial, front);
    if i < |front| {
      LogoutLasts(initial, front, i);
      OnlyNamedLoginChanges(before, last.update, out.key, out.id);
      hide Updated;
      assert forall j :: 0 <= j < |front| ==> front[j] == turns[j];
    } else if Saved(before, out.key, out.id) {
      LogoutTakesEffect(before, out.key, out.id, out.token);
    } else {
      OnlyNamedLoginChanges(before, out, out.key, out.id);
    }
  }

  /** In every run: what was logged out stays logged out. */
  lemma LogoutsAreLasting(store: Option<Store>, steps: seq<Step>, end: State, i: nat)
    requires Run(Start(store), steps, end)
    requires i < |end.turns| && end.turns[i].committed && end.turns[i].update.Logout?
    ensures var out := end.turns[i].update;
      Saved(Contents(end), out.key, out.id) && Token(Contents(end), out.key, out.id) == out.token ==>
        exists j :: i < j < |end.turns| && end.turns[j].committed && end.turns[j].update.Login?
          && end.turns[j].update.key == out.key && end.turns[j].update.id == out.id
          && end.turns[j].update.token == out.token
  {
    var initial := Contents(Start(store));
    RunKeepsInv(initial, Start(store), steps, end);
    LogoutLasts(initial, end.turns, i);
  }

  /** The file changes only when a process renames its temporary over it, and then
      by exactly the update of that process. */
  lemma OnlyCommitsChangeFile(store: Option<Store>, steps: seq<Step>, s: State, step: Step)
    requires Run(Start(store), steps, s) && Enabled(s, step)
    ensures Contents(Apply(s, step)) ==
              if step.RenameOver? then Updated(Contents(s), PhaseOf(s, step.pid).update) else Contents(s)
  {
    RunKeepsInv(Contents(Start(store)), Start(store), steps, s);
    hide Updated, Replay;
  }

  /** The update an operation makes when nothing comes between. */
  function Intended(s: State, step: Step): Update
    requires Enabled(s, step) && (step.FinishLogin? || step.StartRename? || step.StartLogout?)
  {
    match step
    case FinishLogin(_, key, id, username, token) => Login(key, id, username, token)
    case StartRename(_, key, id, username) => Rename(key, id, username)
    case StartLogout(_, key, id) => Logout(key, id, Token(Contents(s), key, id))
  }

  lemma TakeStep(s: State, step: Step, rest: seq<Step>, end: State)
    requires Enabled(s, step) && Run(Apply(s, step), rest, end)
    ensures Run(s, [step] + rest, end)
  {
    assert ([step] + rest)[1..] == rest;
  }

  lemma FinishUpdate(s: State, pid: Pid) returns (steps: seq<Step>, end: State)
    requires PhaseOf(s, pid).Changed?
    ensures Run(s, steps, end) && Contents(end) == PhaseOf(s, pid).copy
    ensures end.lock == None && PhaseOf(end, pid) == Idle && end.revoked == s.revoked
  {
    var written := Apply(s, WriteTemporary(pid));
    var replaced := Apply(written, RenameOver(pid));
    end := Apply(replaced, Unlock(pid));
    assert Run(end, [], end);
    TakeStep(replaced, Unlock(pid), [], end);
    TakeStep(written, RenameOver(pid), [Unlock(pid)] + [], end);
    TakeStep(s, WriteTemporary(pid), [RenameOver(pid)] + ([Unlock(pid)] + []), end);
    steps := [WriteTemporary(pid)] + ([RenameOver(pid)] + ([Unlock(pid)] + []));
  }

  lemma MakeUpdate(s: State, pid: Pid) returns (steps: seq<Step>, end: State)
    requires PhaseOf(s, pid).Waiting? && s.lock == None
    ensures Run(s, steps, end) && Contents(end) == Updated(Contents(s), PhaseOf(s, pid).update)
    ensures end.lock == None && PhaseOf(end, pid) == Idle && end.revoked == s.revoked
  {
    hide Updated, Run;
    var locked := Apply(s, TakeLock(pid));
    var loaded := Apply(locked, ReadFile(pid));
    var changed := Apply(loaded, ChangeCopy(pid));
    steps, end := FinishUpdate(changed, pid);
    TakeStep(loaded, ChangeCopy(pid), steps, end);
    TakeStep(locked, ReadFile(pid), [ChangeCopy(pid)] + steps, end);
    TakeStep(s, TakeLock(pid), [ReadFile(pid)] + ([ChangeCopy(pid)] + steps), end);
    steps := [TakeLock(pid)] + ([ReadFile(pid)] + ([ChangeCopy(pid)] + steps));
  }

  /** An operation that starts while the lock is free, and that nothing interrupts
      or stops, makes its update, releases the lock and ends; a logout has its
      token revoked first. */
  lemma OperationsComplete(s: State, step: Step) returns (steps: seq<Step>, end: State)
    requires s.lock == None && Enabled(s, step) && (step.FinishLogin? || step.StartRename? || step.StartLogout?)
    ensures Run(s, steps, end) && steps != [] && steps[0] == step
    ensures Contents(end) == Updated(Contents(s), Intended(s, step))
    ensures end.lock == None && PhaseOf(end, step.pid) == Idle
    ensures end.revoked == s.revoked + if step.StartLogout? then {Token(Contents(s), step.key, step.id)} else {}
  {
    hide Updated, Run;
    var started := Apply(s, step);
    if step.StartLogout? {
      var waiting := Apply(started, Revoke(step.pid));
      steps, end := MakeUpdate(waiting, step.pid);
      TakeStep(started, Revoke(step.pid), steps, end);
      steps := [Revoke(step.pid)] + steps;
    } else {
      steps, end := MakeUpdate(started, step.pid);
    }
    TakeStep(s, step, steps, end);
    steps := [step] + steps;
  }
}
