/** The scene transition sequencer itself: the fields of GameSceneManager, the
    LoadScene cycle carried out step by step, and the public entry points that
    start one cycle each. The engine's SceneManager is the `trace` field: every
    host call and every event invocation is appended to it in order, and each
    `yield return` of the coroutine is one atomic host call. */
module SceneManagement {
  import opened SceneCycle

  class GameSceneManager {
    /** SceneManager.sceneCountInBuildSettings. */
    const sceneCount: Int32
    /** The configured build index of the main menu. */
    const mainMenuSceneIndex: Int32

    var isLoadingScene: bool
    var currentLevel: Int32
    /** Host calls and event invocations, oldest first. */
    var trace: seq<Entry>
    /** The targets of the cycles run so far, oldest first. */
    ghost var targets: seq<int>

    /** The configuration is a valid build index, no cycle is half done between
        calls, and the trace is the run of cycles to the targets requested so
        far, ending on the current level. Afterwards the current level, when it
        is a scene of the build, is one the host holds; and as long as every
        cycle has moved to a different level, the host holds exactly it. */
    ghost predicate Valid()
      reads this
    {
      0 <= mainMenuSceneIndex < sceneCount
      && !isLoadingScene
      && trace == Run(NoLevel, targets)
      && currentLevel == LevelAfter(NoLevel, targets)
      && (trace == [] ==> currentLevel == NoLevel)
      && (trace != [] && 0 <= currentLevel < sceneCount ==> currentLevel in Hosted(sceneCount, multiset{}, trace))
      && (AlwaysMoves(NoLevel, targets) ==> Hosted(sceneCount, multiset{}, trace) == Presented(sceneCount, currentLevel))
    }

    constructor (sceneCount: Int32, mainMenuSceneIndex: Int32)
      requires 0 <= mainMenuSceneIndex < sceneCount
      ensures Valid()
      ensures this.sceneCount == sceneCount && this.mainMenuSceneIndex == mainMenuSceneIndex
      ensures currentLevel == NoLevel && !isLoadingScene && trace == [] && targets == []
    {
      this.sceneCount := sceneCount;
      this.mainMenuSceneIndex := mainMenuSceneIndex;
      isLoadingScene := false;
      currentLevel := NoLevel;
      trace := [];
      targets := [];
    }

    /** One transition cycle to `sceneIndex`. */
    method LoadScene(sceneIndex: Int32)
      requires Valid()
      modifies this
      ensures Valid()
      ensures targets == old(targets) + [sceneIndex]
      ensures trace == old(trace) + Cycle(old(currentLevel), sceneIndex)
      ensures currentLevel == sceneIndex
    {
      ghost var from := currentLevel;
      ghost var before := trace;
      isLoadingScene := true;
      trace := trace + [OnLoadingSceneBegin(isLoadingScene, currentLevel)];
      if currentLevel != NoLevel && currentLevel != sceneIndex {
        trace := trace + [Unload(currentLevel)];
      }
      trace := trace + [LoadAdditive(sceneIndex)];
      isLoadingScene := false;
      currentLevel := sceneIndex;
      trace := trace + [OnLoadingSceneComplete(isLoadingScene, currentLevel)];
      assert trace == before + Cycle(from, sceneIndex);
      RunSnoc(NoLevel, targets, sceneIndex);
      AlwaysMovesSnoc(NoLevel, targets, sceneIndex);
      if 0 <= sceneIndex < sceneCount {
        CurrentLevelStaysLoaded(sceneCount, multiset{}, before, from, sceneIndex);
      }
      HostedConcat(sceneCount, multiset{}, before, Cycle(from, sceneIndex));
      if AlwaysMoves(NoLevel, targets + [sceneIndex]) {
        CycleSwitchesPresentedLevel(sceneCount, from, sceneIndex);
      }
      targets := targets + [sceneIndex];
    }

    /** The engine's first call: a cycle to the main menu which, starting from
        no level, unloads nothing. */
    method Start()
      requires Valid()
      modifies this
      ensures Valid()
      ensures trace == old(trace) + Cycle(old(currentLevel), mainMenuSceneIndex)
      ensures currentLevel == mainMenuSceneIndex
      ensures old(currentLevel) == NoLevel ==>
        trace == old(trace) + [OnLoadingSceneBegin(true, NoLevel), LoadAdditive(mainMenuSceneIndex),
                               OnLoadingSceneComplete(false, mainMenuSceneIndex)]
    {
      GoToMainMenu();
    }

    method GoToMainMenu()
      requires Valid()
      modifies this
      ensures Valid()
      ensures trace == old(trace) + Cycle(old(currentLevel), mainMenuSceneIndex)
      ensures currentLevel == mainMenuSceneIndex
    {
      LoadScene(mainMenuSceneIndex);
    }

    /** No range check: any index is passed on to the host as it is. */
    method GoToLevel(sceneIndex: Int32)
      requires Valid()
      modifies this
      ensures Valid()
      ensures trace == old(trace) + Cycle(old(currentLevel), sceneIndex)
      ensures currentLevel == sceneIndex
    {
      LoadScene(sceneIndex);
    }

    method LoadNextLevel()
      requires Valid()
      modifies this
      ensures Valid()
      ensures var target := NextSceneIndex(old(currentLevel), sceneCount, mainMenuSceneIndex);
        trace == old(trace) + Cycle(old(currentLevel), target) && currentLevel == target
      ensures old(currentLevel) >= NoLevel ==> (0 <= currentLevel < sceneCount <==> old(currentLevel) != MaxInt32)
    {
      LoadScene(NextSceneIndex(currentLevel, sceneCount, mainMenuSceneIndex));
    }

    method LoadPreviousLevel()
      requires Valid()
      modifies this
      ensures Valid()
      ensures var target := PreviousSceneIndex(old(currentLevel), mainMenuSceneIndex);
        trace == old(trace) + Cycle(old(currentLevel), target) && currentLevel == target
      ensures currentLevel >= mainMenuSceneIndex
      ensures old(currentLevel) <= sceneCount ==> (0 <= currentLevel < sceneCount <==> old(currentLevel) != MinInt32)
    {
      if currentLevel <= sceneCount {
        PreviousSceneIndexInRange(currentLevel, sceneCount, mainMenuSceneIndex);
      }
      LoadScene(PreviousSceneIndex(currentLevel, mainMenuSceneIndex));
    }
  }

  /** A build of three scenes with the menu at index 0: the engine starts the
      sequencer, then the player advances three times. The third advance wraps
      back to the menu, and the host ends up holding the menu alone. */
  method ThreeSceneTour() returns (t: seq<Entry>)
    ensures t == [
      OnLoadingSceneBegin(true, -1), LoadAdditive(0), OnLoadingSceneComplete(false, 0),
      OnLoadingSceneBegin(true, 0), Unload(0), LoadAdditive(1), OnLoadingSceneComplete(false, 1),
      OnLoadingSceneBegin(true, 1), Unload(1), LoadAdditive(2), OnLoadingSceneComplete(false, 2),
      OnLoadingSceneBegin(true, 2), Unload(2), LoadAdditive(0), OnLoadingSceneComplete(false, 0)]
    ensures Hosted(3, multiset{}, t) == multiset{0}
  {
    var manager := new GameSceneManager(3, 0);
    manager.Start();
    manager.LoadNextLevel();
    manager.LoadNextLevel();
    manager.LoadNextLevel();
    t := manager.trace;
    TourEndsHoldingMenu(t);
  }

  /** The trace of the tour above leaves the host holding the menu alone: every
      cycle of it moves to a different level. */
  lemma TourEndsHoldingMenu(t: seq<Entry>)
    requires t == [
      OnLoadingSceneBegin(true, -1), LoadAdditive(0), OnLoadingSceneComplete(false, 0),
      OnLoadingSceneBegin(true, 0), Unload(0), LoadAdditive(1), OnLoadingSceneComplete(false, 1),
      OnLoadingSceneBegin(true, 1), Unload(1), LoadAdditive(2), OnLoadingSceneComplete(false, 2),
      OnLoadingSceneBegin(true, 2), Unload(2), LoadAdditive(0), OnLoadingSceneComplete(false, 0)]
    ensures Hosted(3, multiset{}, t) == multiset{0}
  {
    var targets := [0, 1, 2, 0];
    assert t == Run(NoLevel, targets);
    RunPresentsCurrentLevel(3, NoLevel, targets);
  }
}
