/** Whole runs of the strategy memory, one file action at a time, with errors, crashes and
    restarts anywhere: the bounded memory against an unbounded history, and what survives. */
module MemoryRuns {
  import opened Options
  import opened StrategyMemory

  /** Where a save stands: not saving, about to open the draft, writing it, about to rename it. */
  datatype Phase = Idle | Opening | Writing | Renaming

  /** After a crash nothing is in memory until a restart loads the main file. */
  datatype State = State(mem: Option<seq<Memo>>, main: File, draft: File, phase: Phase)

  datatype Action =
    | Record(memo: Memo)
    | Clear
    | OpenDraft
    | FinishDraft
    | Rename
    | Error
    | Crash
    | Restart

  /** The contents that a record or clear leaves in memory. */
  function Intended(mem: seq<Memo>, a: Action, limit: int): seq<Memo> {
    if a.Record? then Evicted(mem + [a.memo], limit) else []
  }

  predicate Enabled(s: State, a: Action) {
    match a
    case Record(_) => s.mem.Some? && s.phase.Idle?
    case Clear => s.mem.Some? && s.phase.Idle?
    case OpenDraft => s.mem.Some? && s.phase.Opening?
    case FinishDraft => s.mem.Some? && s.phase.Writing?
    case Rename => s.mem.Some? && s.phase.Renaming?
    case _ => true
  }

  function Step(s: State, a: Action, limit: int): State {
    if !Enabled(s, a) then s
    else match a
      case OpenDraft => s.(draft := Torn, phase := Writing)
      case FinishDraft => s.(draft := Whole(s.mem.value), phase := Renaming)
      case Rename => s.(main := s.draft, draft := Missing, phase := Idle)
      case Error => s.(phase := Idle)
      case Crash => s.(mem := None, phase := Idle)
      case Restart => s.(mem := Some(Loaded(s.main)), phase := Idle)
      case _ => s.(mem := Some(Intended(s.mem.value, a, limit)), phase := Opening)
  }

  /** A process that has just started on whatever files it finds. */
  function Start(main: File, draft: File): State {
    State(Some(Loaded(main)), main, draft, Idle)
  }

  function Run(start: State, actions: seq<Action>, limit: int): State {
    if actions == [] then start
    else Step(Run(start, actions[..|actions| - 1], limit), actions[|actions| - 1], limit)
  }

  /** The actions of one save that gets as far as `progress`. */
  function SaveActions(progress: Progress): seq<Action> {
    match progress
    case BeforeWrite => [Error]
    case DuringWrite => [OpenDraft, Error]
    case BeforeReplace => [OpenDraft, FinishDraft, Error]
    case Done => [OpenDraft, FinishDraft, Rename]
  }

  /** A save, as the memory performs it in one call, is such a sequence of actions. */
  lemma SaveIsItsActions(s: State, progress: Progress, limit: int)
    requires s.mem.Some? && s.phase.Opening?
    ensures Run(s, SaveActions(progress), limit) ==
            State(s.mem, SavedMain(s.main, s.mem.value, progress), SavedDraft(s.draft, s.mem.value, progress), Idle)
  {
    var acts := SaveActions(progress);
    assert acts[..1][..0] == [] && acts[..|acts|] == acts;
    assert Run(s, acts[..1], limit) == Step(s, acts[0], limit);
    if |acts| >= 2 {
      assert acts[..2][..1] == acts[..1];
      assert Run(s, acts[..2], limit) == Step(Run(s, acts[..1], limit), acts[1], limit);
      if |acts| == 3 {
        assert acts[..|acts| - 1] == acts[..2];
      }
    }
  }

  /** The draft changes only by opening it at the start of a save that a record or clear has
      begun, by finishing what was opened, and by the rename, which alone changes the main file. */
  lemma FilesChangeInOrder(s: State, a: Action, limit: int)
    ensures var after := Step(s, a, limit);
      && (after.phase.Opening? && after != s ==> s.mem.Some? && s.phase.Idle? && (a.Record? || a.Clear?))
      && (after.phase.Writing? && after != s ==> s.mem.Some? && s.phase.Opening? && after.draft == Torn)
      && (after.phase.Renaming? && after != s ==>
            s.mem.Some? && s.phase.Writing? && after.draft == Whole(s.mem.value))
      && (after.main != s.main ==> s.mem.Some? && s.phase.Renaming? && after.main == s.draft)
      && (after.draft != s.draft ==> after.phase.Writing? || after.phase.Renaming? || s.phase.Renaming?)
  {
  }

  // ---------------------------------------------------------------- refinement

  /** The same run without any bound: everything recorded since the last clear, and how much
      of it the last rename had put into the main file. */
  datatype History = History(log: seq<Memo>, durable: seq<Memo>)

  function Extend(h: History, s: State, a: Action): History {
    if !Enabled(s, a) then h
    else match a
      case Record(memo) => h.(log := h.log + [memo])
      case Clear => h.(log := [])
      case Rename => h.(durable := h.log)
      case Restart => h.(log := h.durable)
      case _ => h
  }

  function Unbounded(start: State, actions: seq<Action>, limit: int): History {
    if actions == [] then History(Loaded(start.main), Loaded(start.main))
    else
      var before := actions[..|actions| - 1];
      Extend(Unbounded(start, before, limit), Run(start, before, limit), actions[|actions| - 1])
  }

  /** All of the log, or its last entries: a file written under a larger limit stays longer
      until the next record. */
  predicate Shows(contents: seq<Memo>, log: seq<Memo>, limit: nat) {
    contents == LastN(log, limit) || contents == log
  }

  predicate Refines(s: State, h: History, limit: nat) {
    && (s.mem.Some? ==> Shows(s.mem.value, h.log, limit))
    && Shows(Loaded(s.main), h.durable, limit)
  }

  /** A draft about to be renamed is the whole memory. */
  predicate DraftInv(s: State) {
    s.phase.Renaming? ==> s.mem.Some? && s.draft == Whole(s.mem.value)
  }

  /** That holds throughout, so no rename puts a torn file in place of the main file. */
  lemma {:induction false} FilesStaySound(start: State, actions: seq<Action>, limit: int)
    requires DraftInv(start)
    ensures DraftInv(Run(start, actions, limit))
    ensures Run(start, actions, limit).main.Torn? ==> start.main.Torn?
  {
    if actions != [] {
      FilesStaySound(start, actions[..|actions| - 1], limit);
    }
  }

  /** Evicting from a view of the log gives the last entries of the longer log. */
  lemma RecordRefines(contents: seq<Memo>, log: seq<Memo>, memo: Memo, limit: nat)
    requires limit >= 1 && Shows(contents, log, limit)
    ensures Evicted(contents + [memo], limit) == LastN(log + [memo], limit)
  {
    if contents != log {
      assert contents == log[|log| - limit..];
      assert (contents + [memo])[1..] == (log + [memo])[|log| + 1 - limit..];
    }
  }

  predicate Exact(s: State, h: History, limit: nat) {
    && Loaded(s.main) == LastN(h.durable, limit)
    && (s.mem.Some? ==> s.mem.value == LastN(h.log, limit))
  }

  lemma StepRefines(s: State, h: History, a: Action, limit: nat)
    requires limit >= 1 && DraftInv(s) && Refines(s, h, limit)
    ensures Refines(Step(s, a, limit), Extend(h, s, a), limit)
    ensures Exact(s, h, limit) ==> Exact(Step(s, a, limit), Extend(h, s, a), limit)
  {
    if a.Record? && Enabled(s, a) {
      RecordRefines(s.mem.value, h.log, a.memo, limit);
    }
  }

  /** For a positive limit the memory and the main file refine the unbounded history across
      errors, crashes and restarts. A file within the limit stays exact throughout. */
  lemma {:induction false} MemoryRefinesHistory(main: File, draft: File, actions: seq<Action>, limit: nat)
    requires limit >= 1
    ensures var s, h := Run(Start(main, draft), actions, limit), Unbounded(Start(main, draft), actions, limit);
      Refines(s, h, limit) && (|Loaded(main)| <= limit ==> Exact(s, h, limit))
  {
    if actions != [] {
      var before := actions[..|actions| - 1];
      MemoryRefinesHistory(main, draft, before, limit);
      FilesStaySound(Start(main, draft), before, limit);
      StepRefines(Run(Start(main, draft), before, limit), Unbounded(Start(main, draft), before, limit),
                  actions[|actions| - 1], limit);
    }
  }

  /** Whatever was loaded, right after a record the memory is exactly the last entries. */
  lemma RecordIsExact(main: File, draft: File, actions: seq<Action>, memo: Memo, limit: nat)
    requires limit >= 1
    requires Enabled(Run(Start(main, draft), actions, limit), Record(memo))
    ensures var longer := actions + [Record(memo)];
      Run(Start(main, draft), longer, limit).mem ==
      Some(LastN(Unbounded(Start(main, draft), actions, limit).log + [memo], limit))
  {
    var longer := actions + [Record(memo)];
    assert longer[..|longer| - 1] == actions;
    MemoryRefinesHistory(main, draft, actions, limit);
    RecordRefines(Run(Start(main, draft), actions, limit).mem.value,
                  Unbounded(Start(main, draft), actions, limit).log, memo, limit);
  }

  // ---------------------------------------------------------------- size

  predicate Within(s: State, bound: int) {
    (s.mem.Some? ==> |s.mem.value| <= bound) && |Loaded(s.main)| <= bound
  }

  function Max(a: int, b: int): int {
    if a < b then b else a
  }

  lemma {:induction false} StaysWithin(main: File, draft: File, actions: seq<Action>, limit: int)
    requires limit != 0
    ensures Within(Run(Start(main, draft), actions, limit), Max(|Loaded(main)|, limit))
  {
    if actions != [] {
      var before := actions[..|actions| - 1];
      StaysWithin(main, draft, before, limit);
      FilesStaySound(Start(main, draft), before, limit);
    }
  }

  /** A limit of 0 never evicts: memory and file are the unbounded history. */
  lemma {:induction false} ZeroKeepsEverything(main: File, draft: File, actions: seq<Action>)
    ensures var s, h := Run(Start(main, draft), actions, 0), Unbounded(Start(main, draft), actions, 0);
      (s.mem.Some? ==> s.mem.value == h.log) && Loaded(s.main) == h.durable
  {
    if actions != [] {
      var before := actions[..|actions| - 1];
      ZeroKeepsEverything(main, draft, before);
      FilesStaySound(Start(main, draft), before, 0);
    }
  }

  /** Every limit but 0 bounds the memory, in every run from every file, by what was loaded
      or the limit, whichever is larger. So a negative limit never lets the memory grow. */
  lemma MemoryIsBounded(limit: int)
    ensures limit != 0 <==>
      forall main, draft, actions ::
        var s := Run(Start(main, draft), actions, limit);
        s.mem.Some? ==> |s.mem.value| <= Max(|Loaded(main)|, limit)
  {
    if limit != 0 {
      forall main, draft, actions
        ensures Within(Run(Start(main, draft), actions, limit), Max(|Loaded(main)|, limit))
      {
        StaysWithin(main, draft, actions, limit);
      }
    } else {
      var record := [Record(Memo("", "", 0.0))];
      assert record[..0] == [];
      assert |Run(Start(Missing, Missing), record, 0).mem.value| == 1;
    }
  }

  // ---------------------------------------------------------------- durability

  /** The position after the last rename that took effect, 0 if there was none. */
  function LastRename(start: State, actions: seq<Action>, limit: int): (n: nat)
    ensures n <= |actions|
    ensures n > 0 ==> actions[n - 1].Rename? && Enabled(Run(start, actions[..n - 1], limit), actions[n - 1])
    ensures forall i :: n <= i < |actions| ==>
      !(actions[i].Rename? && Enabled(Run(start, actions[..i], limit), actions[i]))
  {
    if actions == [] then 0
    else
      var before := actions[..|actions| - 1];
      assert forall i :: 0 <= i < |actions| ==> actions[..i] == before[..i];
      if actions[|actions| - 1].Rename? && Enabled(Run(start, before, limit), Rename) then |actions|
      else LastRename(start, before, limit)
  }

  /** The main file is always the complete contents that were in memory at the last rename,
      whatever errors and crashes came before or after it. */
  lemma {:induction false} MainIsLastSnapshot(start: State, actions: seq<Action>, limit: int)
    requires DraftInv(start)
    ensures var n, s := LastRename(start, actions, limit), Run(start, actions, limit);
      if n == 0 then s.main == start.main
      else Run(start, actions[..n], limit).mem.Some? && s.main == Whole(Run(start, actions[..n], limit).mem.value)
  {
    if actions != [] {
      var before := actions[..|actions| - 1];
      MainIsLastSnapshot(start, before, limit);
      FilesStaySound(start, before, limit);
      var n := LastRename(start, actions, limit);
      if n == |actions| {
        assert actions[..n] == actions;
      } else {
        assert actions[..n] == before[..n];
      }
    }
  }

  /** A restart rebuilds exactly that snapshot; if the last save went through, nothing is lost. */
  lemma RestartRebuildsSnapshot(start: State, actions: seq<Action>, limit: int)
    requires DraftInv(start)
    ensures var n, restarted := LastRename(start, actions, limit), Run(start, actions + [Restart], limit);
      && (n == 0 ==> restarted.mem == Some(Loaded(start.main)))
      && (n > 0 ==> restarted.mem == Run(start, actions[..n], limit).mem)
      && (n > 0 && n == |actions| ==> restarted.mem == Run(start, actions, limit).mem)
  {
    assert (actions + [Restart])[..|actions|] == actions;
    assert actions[..|actions|] == actions;
    MainIsLastSnapshot(start, actions, limit);
  }
}
