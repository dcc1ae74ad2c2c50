/** Two runs of the store, step by step, that leave a file behind and then read what was
    deleted: a trivial move that lets a deletion pass below an older value, and a compaction
    that drops a deletion beside it (db/version_set.cc PickCompaction, db/db_impl.cc
    BackgroundCompaction).  The user key 1.0 stands for one of two megabytes, so that an
    output is full right after an entry of it; files to compact are chosen by their seeks. */
module BoundaryRuns {
  import opened Keys
  import opened Versions
  import opened Picking
  import opened Compactions
  import opened CompactionTheorems
  import opened Boundary
  import opened StoreRuns = Store
  import opened Reopening

  function FileOf(number: nat, fileSize: nat, entries: seq<Entry>): FileMeta
    requires entries != []
  {
    FileMeta(number, fileSize, entries[0].key, entries[|entries| - 1].key, entries)
  }

  /** A version with files at levels 2 to 4 only. */
  function Levels(l2: seq<FileMeta>, l3: seq<FileMeta>, l4: seq<FileMeta>): Version {
    Version([[], [], l2, l3, l4, [], []])
  }

  /** What the code asks of a step besides `Next`: a lone file is moved if nothing is two
      levels down, and compacted only with files of the next level; an output is closed
      before the last one only when it is full, there being no grandparents either. */
  ghost predicate ByRule(v: Version, step: Step)
    requires |v.files| == NumLevels
  {
    match step
    case TrivialMove(c) => NoGrandparents(v, c) && IsTrivialMove(c)
    case Compact(c, outputs) =>
      && NoGrandparents(v, c) && !IsTrivialMove(c)
      && forall i :: 0 <= i < |outputs| - 1 ==> outputs[i].fileSize >= TargetFileSize
    case _ => true
  }

  predicate NoGrandparents(v: Version, c: CompactionInputs)
    requires |v.files| == NumLevels
  {
    c.level + 2 < NumLevels && v.files[c.level + 2] == [] && c.grandparents == []
  }

  function Oldest(): Entry { Entry(IKey(0.0, 1, Put), [1]) }
  function Older(): Entry { Entry(IKey(1.0, 2, Put), [2]) }
  function Deleting(): Entry { Entry(IKey(1.0, 3, Deletion), []) }
  function Beside(): Entry { Entry(IKey(0.0, 4, Put), [4]) }
  function Later(): Entry { Entry(IKey(0.0, 5, Put), [5]) }

  function Bottom(): FileMeta { FileOf(10, 200, [Oldest()]) }
  function Whole(): FileMeta { FileOf(11, 2 * TargetFileSize + 400, [Beside(), Deleting(), Older()]) }
  function First(): FileMeta { FileOf(12, TargetFileSize + 300, [Beside(), Oldest(), Deleting()]) }
  function Second(): FileMeta { FileOf(13, TargetFileSize + 200, [Older()]) }

  function History4(): seq<Entry> { [Oldest(), Older(), Deleting(), Beside()] }

  function Start(): Store {
    Store([], [], None, Levels([], [], []), 0, [])
  }

  function Step1(): Store { Start().(history := [Oldest()], mem := [Oldest()], lastSequence := 1) }
  function Step2(): Store { Step1().(mem := [], imm := Some([Oldest()])) }
  function Step3(): Store { Step2().(imm := None, version := Levels([Bottom()], [], [])) }
  function Step4(): Store { Step3().(version := Levels([], [Bottom()], [])) }
  function Step5(): Store { Step4().(history := [Oldest(), Older()], mem := [Older()], lastSequence := 2) }
  function Step6(): Store { Step5().(snapshots := [2]) }
  function Step7(): Store {
    Step6().(history := History4(), mem := [Beside(), Deleting(), Older()], lastSequence := 4)
  }
  function Step8(): Store { Step7().(mem := [], imm := Some([Beside(), Deleting(), Older()])) }
  function Step9(): Store { Step8().(imm := None, version := Levels([Whole()], [Bottom()], [])) }
  function Step10(): Store { Step9().(version := Levels([], [First(), Second()], [])) }

  lemma FirstWrite()
    ensures Init(Start()) && Next(Start(), Write([Oldest()]), Step1()) && Next(Step1(), SwitchMemTable, Step2())
  {
  }

  lemma FirstFlush()
    ensures Next(Step2(), Flush(2, Some(Bottom())), Step3())
  {
  }

  function SinkInputs(): CompactionInputs {
    CompactionInputs(2, [Bottom()], [], [], Bottom().smallest, Bottom().largest)
  }

  /** The first file moves to level 3. */
  lemma TheSinking()
    ensures Next(Step3(), TrivialMove(SinkInputs()), Step4()) && ByRule(Step3().version, TrivialMove(SinkInputs()))
  {
    var v, c := Step3().version, SinkInputs();
    assert Bottom() in c.inputs0 && Bottom() in Step4().version.files[3];
    assert Others(v.files[2], c.inputs0) == {};
    assert NextLevel(v, c, [Bottom()]) == {Bottom()};
  }

  lemma SecondWrite()
    ensures Next(Step4(), Write([Older()]), Step5()) && Next(Step5(), TakeSnapshot, Step6())
    ensures Next(Step6(), Write([Deleting(), Beside()]), Step7()) && Next(Step7(), SwitchMemTable, Step8())
  {
    assert History4() == [Oldest(), Older()] + [Deleting(), Beside()];
  }

  lemma TheFlush()
    ensures Next(Step8(), Flush(2, Some(Whole())), Step9())
  {
  }

  function SplitInputs(): CompactionInputs {
    CompactionInputs(2, [Whole()], [Bottom()], [], Whole().smallest, Whole().largest)
  }

  lemma {:induction false} BottomOverlaps(lo: Bound, hi: Bound)
    requires lo == Some(0.0) && hi == Some(1.0)
    ensures Overlapping([Bottom()], lo, hi) == [Bottom()]
  {
    assert [Bottom()][..0] == [] && Overlapping([], lo, hi) == [];
  }

  lemma SplitIsChosen()
    ensures ChosenInputs(Step9().version, SplitInputs())
  {
    assert Whole() in SplitInputs().inputs0;
    BottomOverlaps(Some(0.0), Some(1.0));
  }

  function SplitInput(): seq<Entry> { [Beside(), Oldest(), Deleting(), Older()] }

  /** Every input entry survives: the snapshot at 2 still needs the older ones. */
  lemma {:induction false} SplitSurvivors(v: Version)
    requires |v.files| == NumLevels
    ensures Survivors(v, 2, 2, SplitInput(), 4) == SplitInput()
  {
    var input := SplitInput();
    assert Survivors(v, 2, 2, input, 0) == [];
    assert Survivors(v, 2, 2, input, 1) == [Beside()];
    assert Survivors(v, 2, 2, input, 2) == [Beside(), Oldest()];
    assert Survivors(v, 2, 2, input, 3) == [Beside(), Oldest(), Deleting()];
  }

  /** One file of each level gives the entries of both. */
  lemma TwoInputs(c: CompactionInputs, f: FileMeta, g: FileMeta, input: seq<Entry>)
    requires c.inputs0 == [f] && c.inputs1 == [g] && Sorted(input)
    requires forall e :: e in input <==> e in f.entries || e in g.entries
    ensures Merged(c, input)
  {
    assert f in c.inputs0 && g in c.inputs1;
    assert forall h :: h in c.inputs0 || h in c.inputs1 <==> h == f || h == g;
  }

  lemma TwoOutputs(f: FileMeta, g: FileMeta)
    ensures Contents([f, g]) == f.entries + g.entries
  {
    assert [f, g][..1] == [f] && [f][..0] == [];
    assert Contents([]) == [] && Contents([f]) == f.entries;
  }

  lemma SplitIsWritten()
    ensures Written(Step9().version, SplitInputs(), 2, [First(), Second()])
  {
    TwoInputs(SplitInputs(), Whole(), Bottom(), SplitInput());
    SplitSurvivors(Step9().version);
    TwoOutputs(First(), Second());
    assert First().entries + Second().entries == SplitInput();
    assert Merged(SplitInputs(), SplitInput());
  }

  lemma SplitIsInstalled()
    ensures Installed(Step9().version, SplitInputs(), [First(), Second()], Step10().version)
  {
    var v, c := Step9().version, SplitInputs();
    assert First() in Step10().version.files[3] && Second() in Step10().version.files[3];
    assert Others(v.files[2], c.inputs0) == {} && Others(v.files[3], c.inputs1) == {};
    assert NextLevel(v, c, [First(), Second()]) == {First(), Second()};
  }

  lemma CompactsTo(s: Store, c: CompactionInputs, outputs: seq<FileMeta>, s': Store)
    requires |s.version.files| == NumLevels && ChosenInputs(s.version, c)
    requires Written(s.version, c, Floor(s), outputs) && Installed(s.version, c, outputs, s'.version)
    requires s' == s.(version := s'.version)
    ensures Next(s, Compact(c, outputs), s')
  {
  }

  lemma SplitIsByRule()
    ensures ByRule(Step9().version, Compact(SplitInputs(), [First(), Second()]))
  {
  }

  lemma TheSplit()
    ensures Next(Step9(), Compact(SplitInputs(), [First(), Second()]), Step10())
  {
    SplitIsChosen();
    SplitIsWritten();
    SplitIsInstalled();
    CompactsTo(Step9(), SplitInputs(), [First(), Second()], Step10());
  }

  /** A run in which every step is one the code performs. */
  ghost predicate CodeRun(states: seq<Store>, steps: seq<Step>) {
    && Steps(states, steps)
    && forall i :: 0 <= i < |steps| ==> |states[i].version.files| == NumLevels && ByRule(states[i].version, steps[i])
  }

  lemma Extended(states: seq<Store>, steps: seq<Step>, step: Step, s': Store)
    returns (states': seq<Store>, steps': seq<Step>)
    requires CodeRun(states, steps) && Next(states[|steps|], step, s') && ByRule(states[|steps|].version, step)
    ensures CodeRun(states', steps') && |steps'| == |steps| + 1 && states'[|steps'|] == s'
    ensures states'[|steps|] == states[|steps|] && steps'[|steps|] == step
  {
    states', steps' := states + [s'], steps + [step];
  }

  lemma SinkRun() returns (states: seq<Store>, steps: seq<Step>)
    ensures CodeRun(states, steps) && |steps| == 4 && states[4] == Step4()
  {
    FirstWrite();
    FirstFlush();
    TheSinking();
    states, steps := [Start()], [];
    states, steps := Extended(states, steps, Write([Oldest()]), Step1());
    states, steps := Extended(states, steps, SwitchMemTable, Step2());
    states, steps := Extended(states, steps, Flush(2, Some(Bottom())), Step3());
    states, steps := Extended(states, steps, TrivialMove(SinkInputs()), Step4());
  }

  /** The first ten steps of both runs. */
  lemma SplitRun() returns (states: seq<Store>, steps: seq<Step>)
    ensures CodeRun(states, steps) && |steps| == 10 && states[10] == Step10()
  {
    states, steps := SinkRun();
    SecondWrite();
    TheFlush();
    TheSplit();
    SplitIsByRule();
    states, steps := Extended(states, steps, Write([Older()]), Step5());
    states, steps := Extended(states, steps, TakeSnapshot, Step6());
    states, steps := Extended(states, steps, Write([Deleting(), Beside()]), Step7());
    states, steps := Extended(states, steps, SwitchMemTable, Step8());
    states, steps := Extended(states, steps, Flush(2, Some(Whole())), Step9());
    states, steps := Extended(states, steps, Compact(SplitInputs(), [First(), Second()]), Step10());
  }

  // The deletion moves below the value it deletes

  function MoveInputs(): CompactionInputs {
    CompactionInputs(3, [First()], [], [], First().smallest, First().largest)
  }

  function Moved(): Store { Step10().(version := Levels([], [Second()], [First()])) }

  lemma MoveIsInstalled()
    ensures ChosenInputs(Step10().version, MoveInputs()) && !ClearBoundary(Step10().version, MoveInputs())
    ensures Installed(Step10().version, MoveInputs(), [First()], Moved().version)
  {
    var v, c := Step10().version, MoveInputs();
    assert First() in c.inputs0 && Second() in v.files[3] && Second() !in c.inputs0;
    assert Continues(First(), Second());
    assert Others(v.files[3], c.inputs0) == {Second()};
    assert NextLevel(v, c, [First()]) == {First()};
    assert Second() in Moved().version.files[3] && First() in Moved().version.files[4];
  }

  lemma TheMove()
    ensures Next(Step10(), TrivialMove(MoveInputs()), Moved()) && !Safe(Step10(), TrivialMove(MoveInputs()))
    ensures ByRule(Step10().version, TrivialMove(MoveInputs()))
  {
    MoveIsInstalled();
  }

  lemma {:induction false} LatestOfKey(history: seq<Entry>, more: seq<Entry>, snapshot: SequenceNumber)
    requires history == History4() + more && snapshot >= 3
    requires forall e :: e in more ==> e.key.user != 1.0
    requires |more| <= 1
    ensures Latest(history, 1.0, snapshot) == Some(Deleting())
  {
    assert History4()[..3] == [Oldest(), Older(), Deleting()];
    assert Latest(History4()[..3], 1.0, snapshot) == Some(Deleting());
    assert Latest(History4(), 1.0, snapshot) == Some(Deleting());
    if more == [] {
      assert history == History4();
    } else {
      assert history[..4] == History4();
    }
  }

  /** With nothing above level 3, its newest entry is the first hit. */
  lemma ThirdLevelAnswers(v: Version, user: UserKey, snapshot: SequenceNumber, e: Entry)
    requires |v.files| == NumLevels && v.files[0] == v.files[1] == v.files[2] == []
    requires IsNewest(FileEntries(v.files[3]), user, snapshot, e)
    ensures FirstHit(v, user, snapshot, Some(e))
  {
    assert AnswersLevel(v.files[3], 3, user, snapshot, e);
  }

  lemma ValueAnswersFirst(v: Version, snapshot: SequenceNumber)
    requires v == Levels([], [Second()], [First()]) && snapshot >= 3
    ensures FirstHit(v, 1.0, snapshot, Some(Older()))
  {
    assert Second() in v.files[3] && Older() in Second().entries;
    ThirdLevelAnswers(v, 1.0, snapshot, Older());
  }

  lemma MovedReadsValue()
    ensures var s := Moved();
            && Looked(s, 1.0, 4, Some(Older())) && Latest(s.history, 1.0, 4) == Some(Deleting())
  {
    ValueAnswersFirst(Moved().version, 4);
    LatestOfKey(Moved().history, [], 4);
  }

  /** After a trivial move the present reads a value that was deleted. */
  lemma StaleReadRun() returns (states: seq<Store>, steps: seq<Step>)
    ensures CodeRun(states, steps) && |steps| == 11 && steps[10].TrivialMove? && !Safe(states[10], steps[10])
    ensures var s := states[11];
            && |s.version.files| == NumLevels && s.mem == [] && s.imm.None?
            && Looked(s, 1.0, s.lastSequence, Some(Older())) && Meaning(Some(Older())) == Some([2])
            && Meaning(Latest(s.history, 1.0, s.lastSequence)) == None
  {
    states, steps := SplitRun();
    TheMove();
    states, steps := Extended(states, steps, TrivialMove(MoveInputs()), Moved());
    MovedReadsValue();
  }

  // The deletion is dropped beside the value it deletes

  function Third(): FileMeta { FileOf(14, 200, [Later()]) }
  function Output(): FileMeta { FileOf(15, 200, [Later()]) }

  function Step11(): Store { Step10().(snapshots := []) }
  function Step12(): Store { Step11().(history := History4() + [Later()], mem := [Later()], lastSequence := 5) }
  function Step13(): Store { Step12().(mem := [], imm := Some([Later()])) }
  function Step14(): Store { Step13().(imm := None, version := Levels([Third()], [First(), Second()], [])) }
  function Step15(): Store { Step14().(version := Levels([], [Output(), Second()], [])) }

  lemma ThirdWrite()
    ensures Next(Step10(), ReleaseSnapshot(0), Step11()) && Next(Step11(), Write([Later()]), Step12())
    ensures Next(Step12(), SwitchMemTable, Step13())
  {
  }

  lemma SecondFlush()
    ensures Next(Step13(), Flush(2, Some(Third())), Step14())
  {
  }

  function DropInputs(): CompactionInputs {
    CompactionInputs(2, [Third()], [First()], [], Third().smallest, Third().largest)
  }

  lemma {:induction false} FirstOverlaps(lo: Bound, hi: Bound)
    requires lo == Some(0.0) && hi == Some(0.0)
    ensures Overlapping([First(), Second()], lo, hi) == [First()]
  {
    assert [First(), Second()][..1] == [First()] && [First()][..0] == [];
    assert Overlapping([], lo, hi) == [] && Overlapping([First()], lo, hi) == [First()];
  }

  lemma DropIsChosen()
    ensures ChosenInputs(Step14().version, DropInputs())
  {
    assert Third() in DropInputs().inputs0;
    FirstOverlaps(Some(0.0), Some(0.0));
  }

  function DropInput(): seq<Entry> { [Later(), Beside(), Oldest(), Deleting()] }

  /** The older values of the other key are hidden, and the deletion is obsolete. */
  lemma {:induction false} DropSurvivors(v: Version, smallest: SequenceNumber)
    requires v == Step14().version && smallest >= 5
    ensures Survivors(v, 2, smallest, DropInput(), 4) == [Later()]
  {
    var input := DropInput();
    assert Survivors(v, 2, smallest, input, 0) == [];
    assert Survivors(v, 2, smallest, input, 1) == [Later()];
    assert Survivors(v, 2, smallest, input, 2) == [Later()];
    assert Survivors(v, 2, smallest, input, 3) == [Later()];
    assert Obsolete(v, 2, smallest, Deleting());
  }

  lemma DropIsWritten(smallest: SequenceNumber)
    requires smallest >= 5
    ensures Written(Step14().version, DropInputs(), smallest, [Output()])
  {
    TwoInputs(DropInputs(), Third(), First(), DropInput());
    DropSurvivors(Step14().version, smallest);
    assert [Output()][..0] == [] && Contents([]) == [];
    assert Contents([Output()]) == [Later()];
    assert Merged(DropInputs(), DropInput());
  }

  lemma DropIsInstalled()
    ensures Installed(Step14().version, DropInputs(), [Output()], Step15().version)
  {
    var v, c := Step14().version, DropInputs();
    assert Others(v.files[2], c.inputs0) == {} && Others(v.files[3], c.inputs1) == {Second()};
    assert NextLevel(v, c, [Output()]) == {Output(), Second()};
    assert Output() in Step15().version.files[3] && Second() in Step15().version.files[3];
  }

  lemma DropIsByRule()
    ensures ByRule(Step14().version, Compact(DropInputs(), [Output()]))
  {
  }

  lemma TheDrop()
    ensures Next(Step14(), Compact(DropInputs(), [Output()]), Step15())
  {
    DropIsChosen();
    DropIsWritten(5);
    DropIsInstalled();
    CompactsTo(Step14(), DropInputs(), [Output()], Step15());
  }

  lemma LevelIsBack(files: seq<FileMeta>)
    requires files == [Output(), Second()]
    ensures FileEntries(files) == {Later(), Older()}
  {
    assert Output() in files && Second() in files;
    assert Later() in Output().entries && Older() in Second().entries;
  }

  lemma OnlyThirdLevel(v: Version, files: seq<FileMeta>)
    requires v == Levels([], files, [])
    ensures VersionEntries(v) == FileEntries(files)
  {
    forall e | e in VersionEntries(v)
      ensures e in FileEntries(files)
    {
      var l, f :| 0 <= l < NumLevels && f in v.files[l] && e in f.entries;
      assert l == 3;
    }
    forall e | e in FileEntries(files)
      ensures e in VersionEntries(v)
    {
      var f :| f in files && e in f.entries;
      assert f in v.files[3];
    }
  }

  lemma {:induction false} WrongAnswerBreaksInv(s: Store, user: UserKey, snapshot: SequenceNumber, found: Option<Entry>)
    requires |s.version.files| == NumLevels && Floor(s) <= snapshot && Finds(All(s), user, snapshot, found)
    requires Meaning(found) != Meaning(Latest(s.history, user, snapshot))
    ensures !Inv(s)
  {
    if Inv(s) {
      LatestFinds(s.history, user, snapshot);
    }
  }

  lemma DroppedEntries()
    ensures VersionEntries(Step15().version) == {Later(), Older()}
    ensures FirstHit(Step15().version, 1.0, 5, Some(Older()))
  {
    var v := Step15().version;
    LevelIsBack(v.files[3]);
    OnlyThirdLevel(v, v.files[3]);
    ThirdLevelAnswers(v, 1.0, 5, Older());
  }

  /** Where only these two entries are left and the memtables are empty, the value is found. */
  lemma ValueIsFound(s: Store)
    requires |s.version.files| == NumLevels && VersionEntries(s.version) == {Later(), Older()}
    requires s.mem == [] && s.imm.None? && FirstHit(s.version, 1.0, 5, Some(Older()))
    ensures Finds(All(s), 1.0, 5, Some(Older())) && Looked(s, 1.0, 5, Some(Older()))
  {
    assert All(s) == {Later(), Older()};
  }

  lemma ValueIsBack()
    ensures var s := Step15();
            && Finds(All(s), 1.0, 5, Some(Older())) && Looked(s, 1.0, 5, Some(Older()))
            && Latest(s.history, 1.0, 5) == Some(Deleting()) && !Inv(s)
  {
    DroppedEntries();
    ValueIsFound(Step15());
    LatestOfKey(Step15().history, [Later()], 5);
    WrongAnswerBreaksInv(Step15(), 1.0, 5, Some(Older()));
  }

  /** The four steps before the compaction. */
  lemma SecondFlushRun() returns (states: seq<Store>, steps: seq<Step>)
    ensures CodeRun(states, steps) && |steps| == 14 && states[14] == Step14()
  {
    states, steps := SplitRun();
    ThirdWrite();
    SecondFlush();
    states, steps := Extended(states, steps, ReleaseSnapshot(0), Step11());
    states, steps := Extended(states, steps, Write([Later()]), Step12());
    states, steps := Extended(states, steps, SwitchMemTable, Step13());
    states, steps := Extended(states, steps, Flush(2, Some(Third())), Step14());
  }

  /** After a compaction with no live snapshot a deleted value is back for good. */
  lemma ResurfacingRun() returns (states: seq<Store>, steps: seq<Step>)
    ensures CodeRun(states, steps) && |steps| == 15 && steps[14].Compact? && states[14].snapshots == []
    ensures !Inv(states[15])
    ensures var s := states[15];
            && |s.version.files| == NumLevels && s.mem == [] && s.imm.None?
            && Looked(s, 1.0, s.lastSequence, Some(Older())) && Finds(All(s), 1.0, s.lastSequence, Some(Older()))
            && Meaning(Some(Older())) == Some([2]) && Meaning(Latest(s.history, 1.0, s.lastSequence)) == None
  {
    states, steps := SecondFlushRun();
    TheDrop();
    DropIsByRule();
    states, steps := Extended(states, steps, Compact(DropInputs(), [Output()]), Step15());
    ValueIsBack();
  }

  // The deletion is dropped while a newer write hides it, and a crash loses that write

  function Newest(): Entry { Entry(IKey(1.0, 6, Put), [6]) }

  function Hiding(): Store {
    Step14().(history := History4() + [Later()] + [Newest()], mem := [Newest()], lastSequence := 6)
  }

  function Dropped(): Store { Hiding().(version := Levels([], [Output(), Second()], [])) }

  function Crashed(): Store { Dropped().(history := History4() + [Later()], mem := [], lastSequence := 5) }

  lemma FourthWrite()
    ensures Next(Step14(), Write([Newest()]), Hiding())
  {
  }

  lemma HiddenDrop()
    ensures Next(Hiding(), Compact(DropInputs(), [Output()]), Dropped())
  {
    DropIsChosen();
    DropIsWritten(6);
    DropIsInstalled();
    CompactsTo(Hiding(), DropInputs(), [Output()], Dropped());
  }

  lemma HiddenResurfacesNot(g: FileMeta, f: FileMeta, e: Entry, x: Entry)
    ensures !Resurfaces(Step14().version, DropInputs(), 6, {Newest()}, g, f, e, x)
  {
    var v, c := Step14().version, DropInputs();
    var rest := {Newest()} + Untouched(v, c);
    if LeftBehind(v, c, g, f) && e in g.entries && Obsolete(v, 2, 6, e) {
      assert g == First() || g == Third();
      assert e == Deleting();
      assert Newest() in rest + InputEntries(c) && Visible(Newest(), 1.0, 6);
    }
  }

  /** As long as the newer write is in memory, the step is safe. */
  lemma HiddenDropIsSafe()
    ensures Safe(Hiding(), Compact(DropInputs(), [Output()]))
  {
    var v, c := Step14().version, DropInputs();
    assert forall f :: f in v.files[2] ==> f in c.inputs0;
    assert Memory(Hiding()) == {Newest()};
    forall g, f, e, x
      ensures !Resurfaces(v, c, 6, Memory(Hiding()), g, f, e, x)
    {
      HiddenResurfacesNot(g, f, e, x);
    }
  }

  lemma NewestIsLost()
    ensures Without(Dropped().history, {Newest()}) == Crashed().history
  {
    var history := History4() + [Later()];
    assert Dropped().history == history + [Newest()] && Dropped().history[..5] == history;
    WithoutNone(history, {Newest()});
  }

  lemma NewestIsInMemory()
    ensures Memory(Dropped()) == {Newest()}
  {
  }

  lemma TheCrash()
    ensures Reopen(Dropped(), {}, [], Crashed())
  {
    CrashIsReopening();
    CrashedIsNumbered();
    LosesMemory(Dropped(), Crashed());
  }

  lemma CrashIsReopening()
    ensures var s, s' := Dropped(), Crashed();
            s' == s.(mem := [], imm := None, snapshots := [], history := Without(s.history, Memory(s)),
                     lastSequence := s'.lastSequence)
  {
    NewestIsLost();
    NewestIsInMemory();
  }

  lemma CrashedIsNumbered()
    ensures var s := Crashed();
            && |Dropped().version.files| == NumLevels && Dropped().version.files[0] == []
            && s.lastSequence < MaxSequence && forall e :: e in s.history ==> e.key.sequence <= s.lastSequence
  {
  }

  /** A crash that keeps nothing of the memtables. */
  lemma LosesMemory(s: Store, s': Store)
    requires |s.version.files| == NumLevels && s.version.files[0] == []
    requires s' == s.(mem := [], imm := None, snapshots := [], history := Without(s.history, Memory(s)),
                      lastSequence := s'.lastSequence)
    requires s'.lastSequence < MaxSequence && forall e :: e in s'.history ==> e.key.sequence <= s'.lastSequence
    ensures Reopen(s, {}, [], s')
  {
    var none: set<Entry> := {};
    assert Memory(s) - none == Memory(s);
    assert FileEntries([]) == {};
  }

  lemma {:induction false} WithoutNone(history: seq<Entry>, lost: set<Entry>)
    requires forall e :: e in history ==> e !in lost
    ensures Without(history, lost) == history
  {
    if history != [] {
      var n := |history| - 1;
      WithoutNone(history[..n], lost);
      assert history == history[..n] + [history[n]];
    }
  }

  lemma CrashedReadsValue()
    ensures var s := Crashed();
            && Looked(s, 1.0, 5, Some(Older())) && Latest(s.history, 1.0, 5) == Some(Deleting())
  {
    ThirdLevelIsBack();
    LatestOfKey(Crashed().history, [Later()], 5);
  }

  lemma ThirdLevelIsBack()
    ensures FirstHit(Crashed().version, 1.0, 5, Some(Older()))
  {
    var v := Crashed().version;
    LevelIsBack(v.files[3]);
    ThirdLevelAnswers(v, 1.0, 5, Older());
  }

  /** A run whose last step is safe while the memtables live.  After a crash that loses the
      newest write a value is read that was deleted before it. */
  lemma HiddenDropRun() returns (states: seq<Store>, steps: seq<Step>, s: Store)
    ensures CodeRun(states, steps) && |steps| == 16 && steps[15].Compact? && Safe(states[15], steps[15])
    ensures Reopen(states[16], {}, [], s)
    ensures && |s.version.files| == NumLevels && s.mem == [] && s.imm.None? && s.lastSequence == 5
            && Looked(s, 1.0, 5, Some(Older())) && Meaning(Some(Older())) == Some([2])
            && Meaning(Latest(s.history, 1.0, 5)) == None
  {
    states, steps := SecondFlushRun();
    FourthWrite();
    HiddenDrop();
    HiddenDropIsSafe();
    DropIsByRule();
    states, steps := Extended(states, steps, Write([Newest()]), Hiding());
    states, steps := Extended(states, steps, Compact(DropInputs(), [Output()]), Dropped());
    s := Crashed();
    TheCrash();
    CrashedReadsValue();
  }
}
