/**
 What happens after an environment fails to reopen: lookups find nothing, and the next shrinking reload or
 compaction brings it back, but with trust number one.
 */
module GenerationRecovery {
  import opened Prelude
  import opened TrustGenerations
  import opened GenerationInvariant
  import opened GenerationSafety
  import opened GenerationProgress

  lemma ExtendMaintenance(run: seq<State>, s': State)
    requires Run(run) && MaintenanceStep(run[|run| - 1], s')
    ensures Run(run + [s'])
  {
    Extend(run, s');
  }

  /** Nobody is inside a lookup and the update thread waits for its next command. */
  predicate Undisturbed(s: State) {
    UpdaterFree(s) && s.inLock == {}
  }

  lemma CloseForSmallerMap(run: seq<State>) returns (run': seq<State>)
    requires Run(run) && run[|run| - 1].pc.Idle? && Undisturbed(run[|run| - 1])
    ensures Run(run') && run <= run'
    ensures var s, s' := run[|run| - 1], run'[|run'| - 1];
            && s'.pc == Closed(Resize, Was(s.file, Number(s), s.env, Number(s), false), ReopenOld(2)) && s'.active.None?
            && Undisturbed(s') && s'.env == s.env && s'.file == s.file
  {
    var s0 := run[|run| - 1];
    RunHasInv(run, |run| - 1);
    var s1 := s0.(pc := Maintenance(Resize), writer := true);
    assert LockForMaintenance(s0, Resize, s1);
    ExtendMaintenance(run, s1);
    var was := Was(s0.file, Number(s0), s0.env, Number(s0), false);
    var s2 := s1.(active := None, retired := [], gens := map[], nextNumber := 1,
                  pc := Closed(Resize, was, ReopenOld(2)));
    assert CloseEnvironment(s1, s2);
    ExtendMaintenance(run + [s1], s2);
    run' := run + [s1] + [s2];
  }

  lemma OpenTwiceFails(run: seq<State>) returns (run': seq<State>)
    requires Run(run) && var s := run[|run| - 1]; s.pc.Closed? && s.pc.stage == ReopenOld(2)
    ensures Run(run') && run <= run'
    ensures var s, s' := run[|run| - 1], run'[|run'| - 1]; s' == s.(pc := Down(s.pc.was), writer := false)
  {
    var s0 := run[|run| - 1];
    var s1 := s0.(pc := s0.pc.(stage := ReopenOld(1)));
    assert OpenOld(s0, false, s1);
    ExtendMaintenance(run, s1);
    var s2 := s1.(pc := Down(s0.pc.was), writer := false);
    assert OpenOld(s1, false, s2);
    ExtendMaintenance(run + [s1], s2);
    run' := run + [s1] + [s2];
  }

  /** From every undisturbed idle state the environment can go down: a close for a smaller map, and two failed opens. */
  lemma ReopenCanFail(run: seq<State>) returns (run': seq<State>)
    requires Run(run) && run[|run| - 1].pc.Idle? && Undisturbed(run[|run| - 1])
    ensures Run(run') && run <= run'
    ensures var s, s' := run[|run| - 1], run'[|run'| - 1];
            s'.pc.Down? && Undisturbed(s') && Number(s') == Number(s) && s'.env == s.env && s'.file == s.file
  {
    var closed := CloseForSmallerMap(run);
    run' := OpenTwiceFails(closed);
  }

  /** A shrinking reload can bring back the file that is there, as generation one. */
  lemma ReloadRecovers(run: seq<State>) returns (run': seq<State>)
    requires Run(run) && run[|run| - 1].pc.Down? && Undisturbed(run[|run| - 1])
    ensures Run(run') && run <= run'
    ensures var s, s' := run[|run| - 1], run'[|run'| - 1];
            s'.pc.Reopened? && Number(s') == 1 && s'.env == s.env && s'.file == Renumbered(s.file, 1)
  {
    var s0 := run[|run| - 1];
    RunHasInv(run, |run| - 1);
    var was := Was(s0.file, 1, s0.env, s0.pc.was.last, true);
    var s1 := s0.(backup := None, writer := true, pc := Closed(Resize, was, ReopenOld(2)));
    assert RecoverFromDown(s0, Resize, s1);
    ExtendMaintenance(run, s1);
    var s2 := Reopen(s1, 1, s0.env).(pc := Reopened(Resize, was));
    assert OpenOld(s1, true, s2);
    ExtendMaintenance(run + [s1], s2);
    run' := run + [s1] + [s2];
  }

  lemma StartCompaction(run: seq<State>, lines: seq<Record>) returns (run': seq<State>)
    requires Run(run) && run[|run| - 1].pc.Down? && Undisturbed(run[|run| - 1])
    ensures Run(run') && run <= run'
    ensures var s, s' := run[|run| - 1], run'[|run'| - 1];
            && s'.pc.Closed? && s'.pc.goal == Replace(1, lines) && s'.pc.stage.Linked? && s'.pc.was.env == s.env
  {
    var s0 := run[|run| - 1];
    RunHasInv(run, |run| - 1);
    var goal, was := Replace(1, lines), Was(s0.file, 1, s0.env, s0.pc.was.last, true);
    var s1 := s0.(backup := None, writer := true, pc := Closed(goal, was, Starting));
    assert RecoverFromDown(s0, goal, s1);
    ExtendMaintenance(run, s1);
    var s2 := s1.(backup := Some(s1.file), pc := s1.pc.(stage := Linked));
    assert LinkBackup(s1, true, s2);
    ExtendMaintenance(run + [s1], s2);
    run' := run + [s1] + [s2];
  }

  lemma FinishCompaction(run: seq<State>) returns (run': seq<State>)
    requires Run(run) && var s := run[|run| - 1]; s.pc.Closed? && s.pc.stage.Linked? && s.pc.goal.Replace?
    ensures Run(run') && run <= run'
    ensures var s, s' := run[|run| - 1], run'[|run'| - 1];
            && s'.pc.Reopened? && Number(s') == s.pc.goal.number
            && s'.env == s.pc.was.env + 1 && s'.file == Rebuilt(s.pc.goal)
  {
    var s0 := run[|run| - 1];
    var goal := s0.pc.goal;
    var s1 := s0.(file := Rebuilt(goal), pc := s0.pc.(stage := Renamed));
    assert RenameNew(s0, true, s1);
    ExtendMaintenance(run, s1);
    var s2 := Reopen(s1, goal.number, s0.pc.was.env + 1).(backup := None, pc := Reopened(goal, s0.pc.was));
    assert OpenNew(s1, true, s2);
    ExtendMaintenance(run + [s1], s2);
    run' := run + [s1] + [s2];
  }

  /** A compaction can publish any snapshot, as generation one of the next environment. */
  lemma CompactionRecovers(run: seq<State>, lines: seq<Record>) returns (run': seq<State>)
    requires Run(run) && run[|run| - 1].pc.Down? && Undisturbed(run[|run| - 1])
    ensures Run(run') && run <= run'
    ensures var s, s' := run[|run| - 1], run'[|run'| - 1];
            s'.pc.Reopened? && Number(s') == 1 && s'.env == s.env + 1 && s'.file == Rebuilt(Replace(1, lines))
  {
    var started := StartCompaction(run, lines);
    run' := FinishCompaction(started);
  }

  /** From every undisturbed idle state the trust number can go back to one, whatever it has reached. */
  lemma NumberCanRestart(run: seq<State>) returns (run': seq<State>)
    requires Run(run) && run[|run| - 1].pc.Idle? && Undisturbed(run[|run| - 1])
    ensures Run(run') && run <= run' && run'[|run'| - 1].pc.Reopened? && Number(run'[|run'| - 1]) == 1
  {
    var down := ReopenCanFail(run);
    run' := ReloadRecovers(down);
  }

  // ---------------------------------------------------------------------------------------------
  // The failing run

  /** The update thread ends the reclaim pass it owes after a publication. */
  lemma EndOwnPass(run: seq<State>) returns (run': seq<State>)
    requires Run(run) && var s := run[|run| - 1]; UPDATER in s.draining && s.reclaim.NotReclaiming?
    ensures Run(run') && run <= run'
    ensures var s, s' := run[|run| - 1], run'[|run'| - 1]; s' == s.(draining := s.draining - {UPDATER})
  {
    var s0 := run[|run| - 1];
    var s1 := s0.(reclaim := Scanning(UPDATER));
    assert ReclaimBegin(s0, UPDATER, s1);
    Extend(run, s1);
    var i := FirstUnread(s1.retired, s1.gens);
    if i == |s1.retired| {
      PassEnds(run + [s1]);
      run' := run + [s1] + [PassEnded(s1)];
    } else {
      PickedIsListed(run + [s1], s1.retired[i]);
      var s2 := s1.(reclaim := Picked(UPDATER, s1.retired[i]));
      PassPicks(run + [s1], s2);
      PassFails(run + [s1], s2);
      run' := run + [s1] + [s2] + [PassEnded(s1)];
    }
  }

  /** An initial state: generation one, in slot zero of a new environment. */
  function FirstState(records: set<Record>): State {
    State(File(map[Slot(0) := records], Meta(1, Slot(0)), records), None, 1, Some(0), [],
          map[0 := Gen(1, Slot(0), 0, records)], 1, 2, {}, false, map[], {}, NotReclaiming, Idle)
  }

  lemma FirstStateIsInitial(records: set<Record>)
    ensures Run([FirstState(records)]) && LowestFree(FirstState(records), 1)
  {
    var s := FirstState(records);
    assert s.gens.Keys == {0} && s.gens[0].name == Slot(0);
  }

  /** One publication, one failed reopen and one recovery: the trust number goes from two back to one. */
  lemma NumberFallsBack(records: set<Record>, lines: seq<Record>) returns (run: seq<State>, i: nat)
    ensures Run(run) && i < |run| && run[i].pc.Idle? && run[|run| - 1].pc.Reopened?
    ensures Number(run[i]) == 2 && Number(run[|run| - 1]) == 1
  {
    FirstStateIsInitial(records);
    var published := RebuildCanPublish([FirstState(records)], 1, lines);
    var idle := EndOwnPass(published);
    i := |idle| - 1;
    run := NumberCanRestart(idle);
    assert run[i] == idle[i];
  }
}
