# UCC scene sequencer and singleton registration, modelled in Dafny

This project models the two pieces of logic in the UCC Unity prototype that have
state and ordering.

- The **scene transition sequencer** `GameSceneManager`:
  - `NextSceneIndex` wraps past the last scene of the build back to the main menu.
  - `PreviousSceneIndex` clamps at the main menu.
  - Both compute with C#'s unchecked 32-bit `int`. The model writes this out with an `Int32` subset type. `CurrentLevel + 1` wraps to the smallest int at the largest one, and `CurrentLevel - 1` wraps the other way. `GoToLevel` has no range check, so `CurrentLevel` can reach either limit.
  - The `LoadScene` coroutine is one transition cycle. It sets `isLoadingScene` and fires `OnLoadingSceneBegin`. It unloads the current level if one is loaded and it differs from the target. It then loads the target additively, clears the flag, updates `CurrentLevel` and fires `OnLoadingSceneComplete`.
  - The entry points `Start`, `GoToMainMenu`, `GoToLevel`, `LoadNextLevel` and `LoadPreviousLevel` each run one such cycle.
- The **singleton registration** in `MonoBehaviourSingleton<T>.Awake`.
  - The first component of a type that wakes up becomes `Instance`.
  - A different component that wakes up while that instance is alive is destroyed, and its `Awake` throws.
  - The comparison is UnityEngine.Object's overloaded `!=`, under which a destroyed object equals null. So once the registered component has been destroyed, the next component registers in its place.

Files:

- `scene_cycle.dfy` (module `SceneCycle`) holds the pure part:
  - the index arithmetic;
  - the `Entry` trace datatype. Events carry the `isLoadingScene` and `CurrentLevel` values a subscriber reads when the event fires. Host calls carry their build index;
  - `Cycle`, the trace of one cycle;
  - `Hosted`, the multiset of scenes the engine holds after carrying out a trace. A load of an index outside the build adds nothing;
  - `Run`, several cycles one after another;
  - the lemmas about all of these.
- `game_scene_manager.dfy` (module `SceneManagement`) holds the class `GameSceneManager`. Its fields are `isLoadingScene`, `currentLevel` and `trace`. `LoadScene` is written step by step. Every method is proved to append exactly `Cycle(old level, target)` to the trace. A ghost field `targets` records the targets requested so far. The invariant `Valid()` ties the trace to `Run(NoLevel, targets)` and the current level to the last target. It also says two things about the host. The current level, when it is a scene of the build, is held by the host. And as long as every cycle has moved to a different level, the host holds exactly the current level. Every method keeps this invariant.
- `singleton.dfy` (module `Singletons`) holds:
  - the static `Instance` as an `InstanceSlot` object, one per type;
  - components with a `destroyed` flag, each tied to the slot of its type;
  - `Awake`, which returns `Registered` or `Thrown(message)` in place of throwing.

The engine's `SceneManager` is modelled as an append-only trace. Each `yield return` of the coroutine is one atomic host call. `sceneCountInBuildSettings` and `MainMenuSceneIndex` are constructor parameters, with `0 <= MainMenuSceneIndex < sceneCount`.

Policies that follow the code:

- `GoToLevel` has no range check. Any index is passed on to the host, and `CurrentLevel` becomes that index.
- Host failures are not handled.
- Overlapping requests are not guarded against, so transitions are modelled as strictly sequential.
- A cycle to the level that is already current issues no unload but still loads the scene additively. For example, `LoadPreviousLevel` on the menu does this. `CycleToCurrentLevelLoadsSecondCopy` states the result: the host then holds two copies of that scene. `RunPresentsCurrentLevel` covers the complementary case. As long as every cycle moves to a different level, the host holds exactly the current level, or nothing when that level is outside the build.

## Model

| member | source | states |
|---|---|---|
| SceneCycle.NextSceneIndex | Assets/Scripts/Managers/GameSceneManager.cs:49-53 | below the largest int, the result is `current + 1` exactly when that is below the scene count, and the main menu otherwise. At the largest int the addition wraps and the smallest int is returned. For `current >= -1` the result is a valid build index exactly when `current` is not the largest int |
| SceneCycle.PreviousSceneIndex | Assets/Scripts/Managers/GameSceneManager.cs:55-59 | the result is never below the menu. Above the smallest int it is the larger of `current - 1` and the menu. At the smallest int the subtraction wraps and the largest int is returned |
| SceneCycle.PreviousSceneIndexInRange | Assets/Scripts/Managers/GameSceneManager.cs:55-59 | stepping back from a level at most the scene count gives a valid build index exactly when the level is not the smallest int |
| SceneCycle.CycleBeginsWithEvent | Assets/Scripts/Managers/GameSceneManager.cs:63-64 | the begin event is the first entry of a cycle and fires only once; its subscribers see `isLoadingScene == true` and the old level |
| SceneCycle.CycleUnloadsOldLevelOnly | Assets/Scripts/Managers/GameSceneManager.cs:65-68 | an unload of scene x occurs once if x is the old level, a level was loaded and it differs from the target; otherwise it occurs zero times |
| SceneCycle.CycleLoadsTargetOnceAfterUnload | Assets/Scripts/Managers/GameSceneManager.cs:65-69 | the additive load is issued exactly once, for the target only, and every unload precedes it |
| SceneCycle.CycleEndsWithEvent | Assets/Scripts/Managers/GameSceneManager.cs:70-72 | the complete event is the last entry and fires only once; its subscribers see `isLoadingScene == false` and `CurrentLevel == target` |
| SceneCycle.HostedConcat | Assets/Scripts/Managers/GameSceneManager.cs:67-69 | the host's scenes after two traces in turn equal those after their concatenation |
| SceneCycle.CycleHosted | Assets/Scripts/Managers/GameSceneManager.cs:65-69 | a cycle removes one copy of the old level when it unloads it. It adds one copy of the target when the target is a scene of the build, and nothing otherwise |
| SceneCycle.CycleSwitchesPresentedLevel | Assets/Scripts/Managers/GameSceneManager.cs:65-71 | suppose the host held exactly what the old level calls for: one copy if it is in the build, nothing otherwise. Then a cycle to a different level leaves it holding exactly what the target calls for |
| SceneCycle.CycleToCurrentLevelLoadsSecondCopy | Assets/Scripts/Managers/GameSceneManager.cs:65-69 | a cycle to the level already current (a scene of the build) unloads nothing, so the host holds two copies of it |
| SceneCycle.RunEndsWithComplete | Assets/Scripts/Managers/GameSceneManager.cs:70-72 | a run of one or more cycles ends with the complete event of its last cycle, showing the flag cleared and the final level |
| SceneCycle.RunSnoc | Assets/Scripts/Managers/GameSceneManager.cs:61-73 | one more cycle at the end of a run extends its trace by that cycle, started from the level the run ended on |
| SceneCycle.AlwaysMovesSnoc | Assets/Scripts/Managers/GameSceneManager.cs:65 | a run extended by one cycle always moves exactly when the run did and the new target differs from the level the run ended on |
| SceneCycle.RunPresentsCurrentLevel | Assets/Scripts/Managers/GameSceneManager.cs:61-73 | suppose every cycle of a run moves to a different level, and the host starts out holding what the first level calls for. Then it ends holding exactly what the final level calls for |
| SceneCycle.CurrentLevelStaysLoaded | Assets/Scripts/Managers/GameSceneManager.cs:69-71 | after any history followed by a cycle to a scene of the build, that scene is held by the host |
| SceneManagement.GameSceneManager.constructor | Assets/Scripts/Managers/GameSceneManager.cs:8-22 | a new manager has `CurrentLevel == NoLevel (-1)`, `isLoadingScene == false` and an empty trace |
| SceneManagement.GameSceneManager.LoadScene | Assets/Scripts/Managers/GameSceneManager.cs:61-73 | the step-by-step cycle appends exactly `Cycle(old level, target)`, records the target, sets `CurrentLevel` to it and leaves the flag cleared. It keeps the trace equal to the run of all targets so far, and keeps the host holding the current level whenever that level is in the build. While every cycle has moved, the host holds exactly the current level |
| SceneManagement.GameSceneManager.Start | Assets/Scripts/Managers/GameSceneManager.cs:24-27 | one cycle to the main menu; from no level it is begin, load of the menu, complete, with no unload |
| SceneManagement.GameSceneManager.GoToMainMenu | Assets/Scripts/Managers/GameSceneManager.cs:29-32 | exactly one cycle, with the main menu as target |
| SceneManagement.GameSceneManager.GoToLevel | Assets/Scripts/Managers/GameSceneManager.cs:34-37 | exactly one cycle, with the argument as target and no range check |
| SceneManagement.GameSceneManager.LoadNextLevel | Assets/Scripts/Managers/GameSceneManager.cs:39-42 | exactly one cycle, with `NextSceneIndex` as target. From a level `>= -1`, the new level is a valid build index exactly when the old one was not the largest int |
| SceneManagement.GameSceneManager.LoadPreviousLevel | Assets/Scripts/Managers/GameSceneManager.cs:44-47 | exactly one cycle, with `PreviousSceneIndex` as target. The new level is not below the menu. From a level at most the scene count, it is a valid build index exactly when the old one was not the smallest int |
| SceneManagement.ThreeSceneTour | Assets/Scripts/Managers/GameSceneManager.cs:24-53 | with three scenes and the menu at 0, start and three advances produce load 0; unload 0, load 1; unload 1, load 2; unload 2, load 0 |
| SceneManagement.TourEndsHoldingMenu | Assets/Scripts/Managers/GameSceneManager.cs:61-73 | the trace of that tour leaves the host holding the menu alone |
| Singletons.InstanceSlot.constructor | Assets/Scripts/MonoBehaviourSingleton.cs:5 | `Instance` starts out null |
| Singletons.InstanceAfterAwake | Assets/Scripts/MonoBehaviourSingleton.cs:9-15 | an empty (or dead) slot takes the waking component; a slot holding a live object keeps it |
| Singletons.InstanceAfterAwakes | Assets/Scripts/MonoBehaviourSingleton.cs:5-15 | over any sequence of Awake calls during which the registered component stays alive, a set `Instance` never changes, and an empty one ends holding the first component that woke up |
| Singletons.LaterAwakeFailsForOthers | Assets/Scripts/MonoBehaviourSingleton.cs:9-13 | after the first component registered, a later Awake is rejected exactly when it is on a different component |
| Singletons.MonoBehaviourSingleton.Awake | Assets/Scripts/MonoBehaviourSingleton.cs:7-16 | when `Instance` is null, destroyed or this object, Awake succeeds and `Instance == this`. For a different live object it throws "An Instance of T already exists", marks this object destroyed and leaves `Instance` unchanged |
| Singletons.TwoComponentsWakeUp | Assets/Scripts/MonoBehaviourSingleton.cs:7-16 | a second component of a type is destroyed and throws; the first stays registered and may wake again |
| Singletons.RegistersAfterInstanceDestroyed | Assets/Scripts/MonoBehaviourSingleton.cs:9-15 | once the registered component is destroyed, the next component of the type registers in its place |

## Left out

- Real asynchrony of `UnloadSceneAsync` and `LoadSceneAsync`. Each is one atomic host call, so `isLoadingScene` is never observed true between public calls, except by the begin event's subscribers.
- Overlapping coroutines. The code has no guard, so the model runs cycles strictly one after another. It adds no queuing and no rejection.
- Host failures and out-of-range indices. The code handles neither, so the model has no error path for them. `Hosted` takes a load of an index outside the build to add nothing and leave the cycle running. What the engine does in that case (log an error, throw and stop the coroutine with `isLoadingScene` still set) is not modelled.
- The engine's scene semantics beyond counting copies. `Hosted` treats the host as a multiset of build indices. An unload drops one copy and an additive load adds one. Scene handles, the persistent scene and asset loading are not modelled.
- Event subscription and unsubscription. Each event is one trace entry, whatever the number of subscribers, including none (the `?.Invoke()` null check).
- The static-generic mechanics of `MonoBehaviourSingleton<T>`. One `InstanceSlot` stands for the static field of one type T.
- Unity's deferred `Destroy`. The engine destroys the object at the end of the frame. The model sets the `destroyed` flag at once, so a rejected component compares equal to null immediately rather than a frame later. Destruction by the engine itself, for example on unloading a scene, is not an operation of the model. A client sets the flag to stand for it.
- `MainMenuController.OnAnyInput`. It calls `LoadNextLevel` only on a press while `isLoadingScene` is false. In this model that flag is always false between calls, so the guard reduces to the press.
- Player movement, camera aiming, snowball throwing, projectile lifetime and constant rotation. These are float vector math, physics and timers driven by the engine.
