/** The pure part of the scene transition sequencer: the index arithmetic of
    GameSceneManager, the trace one LoadScene cycle leaves behind, and what the
    scene host holds after it has carried out such a trace. */
module SceneCycle {

  /** C#'s `int`: the values of CurrentLevel, of the build's scene count and
      of every build index the sequencer computes. */
  type Int32 = x: int | -0x8000_0000 <= x <= 0x7fff_ffff

  const MinInt32: Int32 := -0x8000_0000
  const MaxInt32: Int32 := 0x7fff_ffff

  /** The sentinel for "no level loaded yet". */
  const NoLevel: Int32 := -1

  /** One entry of the observable trace of the sequencer. The two events carry
      the values of isLoadingScene and CurrentLevel that a subscriber reads at
      the moment the event is invoked; the two host calls carry the build index
      they were issued for. */
  datatype Entry =
    | OnLoadingSceneBegin(isLoadingScene: bool, currentLevel: int)
    | Unload(index: int)
    | LoadAdditive(index: int)
    | OnLoadingSceneComplete(isLoadingScene: bool, currentLevel: int)

  /** The build index after `current`, wrapping past the last scene of the
      build back to the main menu. `current + 1` is C#'s unchecked addition, so
      it wraps to the smallest int at the largest one, and that negative value
      is returned as it is. */
  function NextSceneIndex(current: Int32, sceneCount: Int32, mainMenu: Int32): (r: Int32)
    requires 0 <= mainMenu < sceneCount
    ensures current < MaxInt32 ==> (r == current + 1 <==> current + 1 < sceneCount)
    ensures current < MaxInt32 && r != current + 1 ==> r == mainMenu
    ensures current == MaxInt32 ==> r == MinInt32
    ensures current >= NoLevel ==> (0 <= r < sceneCount <==> current != MaxInt32)
  {
    var nextIndex := if current == MaxInt32 then MinInt32 else current + 1;
    if nextIndex >= sceneCount then mainMenu else nextIndex
  }

  /** The build index before `current`, clamped at the main menu. `current - 1`
      is C#'s unchecked subtraction, so it wraps to the largest int at the
      smallest one, which is then above the menu and returned. */
  function PreviousSceneIndex(current: Int32, mainMenu: Int32): (r: Int32)
    ensures r >= mainMenu
    ensures current > MinInt32 ==> r >= current - 1 && (r == mainMenu || r == current - 1)
    ensures current == MinInt32 && mainMenu < MaxInt32 ==> r == MaxInt32
  {
    var previousIndex := if current == MinInt32 then MaxInt32 else current - 1;
    if previousIndex <= mainMenu then mainMenu else previousIndex
  }

  /** LoadPreviousLevel stays within the build whenever the current level does
      (or is one past it), except at the smallest int, where the subtraction
      wraps and the result is the largest int, outside every build. */
  lemma PreviousSceneIndexInRange(current: Int32, sceneCount: Int32, mainMenu: Int32)
    requires 0 <= mainMenu < sceneCount
    requires current <= sceneCount
    ensures 0 <= PreviousSceneIndex(current, mainMenu) < sceneCount <==> current != MinInt32
  {
  }

  /** The cycle first unloads the level it leaves only when one is loaded and
      it differs from the target. */
  predicate UnloadsCurrent(from: int, target: int) {
    from != NoLevel && from != target
  }

  /** The trace of one LoadScene(target) cycle started while CurrentLevel is
      `from`: the begin event (flag already set, level not yet changed), the
      optional unload of the old level, the additive load of the target, and
      the complete event (flag cleared, level already updated). */
  function Cycle(from: int, target: int): seq<Entry> {
    [OnLoadingSceneBegin(true, from)]
    + (if UnloadsCurrent(from, target) then [Unload(from)] else [])
    + [LoadAdditive(target), OnLoadingSceneComplete(false, target)]
  }

  /** The begin event fires exactly once per cycle, first, before any host call,
      and its subscribers see isLoadingScene set and the old CurrentLevel. */
  lemma CycleBeginsWithEvent(from: int, target: int)
    ensures Cycle(from, target)[0] == OnLoadingSceneBegin(true, from)
    ensures forall i :: 0 < i < |Cycle(from, target)| ==> !Cycle(from, target)[i].OnLoadingSceneBegin?
  {
  }

  /** Unload is issued exactly once, for the old level, when a level is loaded
      and differs from the target; otherwise no unload is issued at all. */
  lemma CycleUnloadsOldLevelOnly(from: int, target: int, x: int)
    ensures multiset(Cycle(from, target))[Unload(x)]
         == if UnloadsCurrent(from, target) && x == from then 1 else 0
  {
  }

  /** LoadAdditive is issued exactly once, for the target, and strictly after
      any unload. */
  lemma CycleLoadsTargetOnceAfterUnload(from: int, target: int, x: int)
    ensures multiset(Cycle(from, target))[LoadAdditive(x)] == if x == target then 1 else 0
    ensures forall i, j ::
              (0 <= i < |Cycle(from, target)| && 0 <= j < |Cycle(from, target)|
               && Cycle(from, target)[i].Unload? && Cycle(from, target)[j].LoadAdditive?) ==> i < j
  {
  }

  /** The complete event is the last entry and fires exactly once; its
      subscribers already see isLoadingScene cleared and the new CurrentLevel. */
  lemma CycleEndsWithEvent(from: int, target: int)
    ensures Cycle(from, target)[|Cycle(from, target)| - 1] == OnLoadingSceneComplete(false, target)
    ensures forall i :: 0 <= i < |Cycle(from, target)| - 1 ==> !Cycle(from, target)[i].OnLoadingSceneComplete?
  {
  }

  // ---------------------------------------------------------------------------
  // The scene host: what the engine holds after carrying out a trace.
  // ---------------------------------------------------------------------------

  /** The scenes the host holds after one trace entry: an unload drops one
      copy of the scene (if it holds one), an additive load of a scene of the
      build adds one copy, a load of an index outside the build adds nothing,
      and events change nothing. */
  function HostStep(sceneCount: int, loaded: multiset<int>, e: Entry): multiset<int> {
    match e
    case Unload(i) => loaded - multiset{i}
    case LoadAdditive(i) => if 0 <= i < sceneCount then loaded + multiset{i} else loaded
    case _ => loaded
  }

  /** The scenes the host holds after carrying out the whole trace `t`. */
  function Hosted(sceneCount: int, loaded: multiset<int>, t: seq<Entry>): multiset<int>
    decreases |t|
  {
    if t == [] then loaded else Hosted(sceneCount, HostStep(sceneCount, loaded, t[0]), t[1..])
  }

  /** Carrying out two traces in turn is carrying out their concatenation. */
  lemma {:induction false} HostedConcat(sceneCount: int, loaded: multiset<int>, a: seq<Entry>, b: seq<Entry>)
    ensures Hosted(sceneCount, loaded, a + b) == Hosted(sceneCount, Hosted(sceneCount, loaded, a), b)
    decreases |a|
  {
    if a == [] {
      assert a + b == b;
    } else {
      assert (a + b)[0] == a[0];
      assert (a + b)[1..] == a[1..] + b;
      HostedConcat(sceneCount, HostStep(sceneCount, loaded, a[0]), a[1..], b);
    }
  }

  /** What one load of `i` adds to the host. */
  function Loaded(sceneCount: int, i: int): multiset<int> {
    if 0 <= i < sceneCount then multiset{i} else multiset{}
  }

  /** One cycle drops one copy of the old level when it unloads it, and adds
      one copy of the target when the target is a scene of the build. */
  lemma CycleHosted(sceneCount: int, loaded: multiset<int>, from: int, target: int)
    ensures Hosted(sceneCount, loaded, Cycle(from, target))
         == (if UnloadsCurrent(from, target) then loaded - multiset{from} else loaded) + Loaded(sceneCount, target)
  {
    var t := Cycle(from, target);
    var rest := [LoadAdditive(target), OnLoadingSceneComplete(false, target)];
    var unloaded := if UnloadsCurrent(from, target) then loaded - multiset{from} else loaded;
    var after := unloaded + Loaded(sceneCount, target);
    assert Hosted(sceneCount, unloaded, rest) == after by {
      assert rest[1..] == [OnLoadingSceneComplete(false, target)];
      assert rest[1..][1..] == [];
      assert HostStep(sceneCount, unloaded, rest[0]) == after;
      assert Hosted(sceneCount, unloaded, rest) == Hosted(sceneCount, after, rest[1..]);
      assert Hosted(sceneCount, after, rest[1..]) == Hosted(sceneCount, after, []);
    }
    if UnloadsCurrent(from, target) {
      assert t[1..][1..] == rest;
    } else {
      assert t[1..] == rest;
    }
  }

  /** What the host should hold while CurrentLevel is `level`: exactly one
      copy of that level when it is a scene of the build, and nothing
      otherwise (in particular before the first load). */
  function Presented(sceneCount: int, level: int): multiset<int> {
    Loaded(sceneCount, level)
  }

  /** A cycle to a level other than the current one leaves the host holding
      exactly what the target calls for, provided it held exactly what the old
      level called for. */
  lemma CycleSwitchesPresentedLevel(sceneCount: int, from: int, target: int)
    requires target != from
    ensures Hosted(sceneCount, Presented(sceneCount, from), Cycle(from, target)) == Presented(sceneCount, target)
  {
    CycleHosted(sceneCount, Presented(sceneCount, from), from, target);
  }

  /** A cycle back to the level already current issues no unload, so the host
      ends up holding a second copy of that level. */
  lemma CycleToCurrentLevelLoadsSecondCopy(sceneCount: int, level: int)
    requires 0 <= level < sceneCount
    ensures Hosted(sceneCount, Presented(sceneCount, level), Cycle(level, level)) == multiset{level, level}
  {
    CycleHosted(sceneCount, Presented(sceneCount, level), level, level);
  }

  // ---------------------------------------------------------------------------
  // Several cycles in turn.
  // ---------------------------------------------------------------------------

  /** The trace of the cycles to `targets`, one after another, starting while
      CurrentLevel is `from`. */
  function Run(from: int, targets: seq<int>): seq<Entry>
    decreases |targets|
  {
    if targets == [] then [] else Cycle(from, targets[0]) + Run(targets[0], targets[1..])
  }

  /** The CurrentLevel after the cycles to `targets`. */
  function LevelAfter(from: int, targets: seq<int>): int {
    if targets == [] then from else targets[|targets| - 1]
  }

  /** A run of at least one cycle ends with the complete event of its last
      cycle, whose subscribers see the flag cleared and the final level. */
  lemma {:induction false} RunEndsWithComplete(from: int, targets: seq<int>)
    requires targets != []
    ensures |Run(from, targets)| > 0
    ensures Run(from, targets)[|Run(from, targets)| - 1] == OnLoadingSceneComplete(false, LevelAfter(from, targets))
    decreases |targets|
  {
    var rest := targets[1..];
    if rest != [] {
      RunEndsWithComplete(targets[0], rest);
      assert LevelAfter(targets[0], rest) == LevelAfter(from, targets);
    } else {
      assert Run(targets[0], rest) == [];
      assert Run(from, targets) == Cycle(from, targets[0]);
    }
  }

  /** One more cycle at the end of a run extends its trace by that cycle,
      started from the level the run ended on. */
  lemma {:induction false} RunSnoc(from: int, targets: seq<int>, target: int)
    ensures Run(from, targets + [target]) == Run(from, targets) + Cycle(LevelAfter(from, targets), target)
    decreases |targets|
  {
    if targets == [] {
      assert targets + [target] == [target];
      assert Run(target, []) == [];
    } else {
      assert (targets + [target])[0] == targets[0];
      assert (targets + [target])[1..] == targets[1..] + [target];
      RunSnoc(targets[0], targets[1..], target);
      assert LevelAfter(targets[0], targets[1..]) == LevelAfter(from, targets);
    }
  }

  /** Every cycle of the run moves to a level other than the current one. */
  predicate AlwaysMoves(from: int, targets: seq<int>)
    decreases |targets|
  {
    targets == [] || (targets[0] != from && AlwaysMoves(targets[0], targets[1..]))
  }

  /** A run extended by one cycle always moves exactly when the run did and
      the new cycle leaves the level the run ended on. */
  lemma {:induction false} AlwaysMovesSnoc(from: int, targets: seq<int>, target: int)
    ensures AlwaysMoves(from, targets + [target])
        <==> AlwaysMoves(from, targets) && target != LevelAfter(from, targets)
    decreases |targets|
  {
    if targets == [] {
      assert targets + [target] == [target];
    } else {
      assert (targets + [target])[0] == targets[0];
      assert (targets + [target])[1..] == targets[1..] + [target];
      AlwaysMovesSnoc(targets[0], targets[1..], target);
      assert LevelAfter(targets[0], targets[1..]) == LevelAfter(from, targets);
    }
  }

  /** As long as no cycle reloads the level already current, the host holds
      exactly the current level (or nothing, when it is outside the build)
      after every run of cycles. */
  lemma {:induction false} RunPresentsCurrentLevel(sceneCount: int, from: int, targets: seq<int>)
    requires AlwaysMoves(from, targets)
    ensures Hosted(sceneCount, Presented(sceneCount, from), Run(from, targets))
         == Presented(sceneCount, LevelAfter(from, targets))
    decreases |targets|
  {
    if targets != [] {
      var rest := targets[1..];
      HostedConcat(sceneCount, Presented(sceneCount, from), Cycle(from, targets[0]), Run(targets[0], rest));
      CycleSwitchesPresentedLevel(sceneCount, from, targets[0]);
      RunPresentsCurrentLevel(sceneCount, targets[0], rest);
      if rest != [] {
        assert LevelAfter(targets[0], rest) == LevelAfter(from, targets);
      }
    }
  }

  /** Whatever came before, the level that is current after a cycle has been
      loaded by it when it is a scene of the build: the host holds at least
      one copy of it. */
  lemma CurrentLevelStaysLoaded(sceneCount: int, loaded: multiset<int>, t: seq<Entry>, from: int, target: int)
    requires 0 <= target < sceneCount
    ensures target in Hosted(sceneCount, loaded, t + Cycle(from, target))
  {
    HostedConcat(sceneCount, loaded, t, Cycle(from, target));
    CycleHosted(sceneCount, Hosted(sceneCount, loaded, t), from, target);
  }
}
