# Scene manager

A model, in Dafny, of a small stack-based scene manager written in C. A host
registers an array of scenes. Each scene is a record of four optional hook
pointers: `initialize`, `reinitialize`, `execute` and `terminate`. The manager
keeps a LIFO stack of live scene instances, each an id into the registry plus
the handle its `initialize` returned. It offers four entry points:

- **initialize_scene_manager** validates the registry and pushes the initial scene, rolling back if that push fails;
- **execute_top_scene** runs the top scene and reads the integer it returns:
  - `POP_REQUEST` (-1) pops it, then runs the resume cascade. The newly exposed scene is reinitialized, and it is popped too while its `reinitialize` fails;
  - an id of the registry pushes that scene;
  - anything else is an invalid value;
- **terminate_scene_manager** pops every scene, top to bottom, and forgets the registry;
- **send_critical_error_signal** is terminate with a diagnostic.

The model has three modules:

- `Scene` (`scene.dfy`) holds the pop sentinel, the descriptor of a scene and the classification of an `execute` result into `Pop`, `Push(id)` or `Invalid(value)`.
- `SceneManager` (`scene_manager.dfy`) holds the class `Manager`, whose fields are the global `sm_data` and `sm_stack` of the C code:
  - `initialized`, `nScenes`, `scenes`;
  - `stack`, whose length is the height.

  Its methods update the fields in place as the C functions do. The hooks are code the model cannot see, so what each one returns is an input of the entry point that calls it:
  - `result` is what `execute` returns;
  - `grown` says whether the stack reallocation succeeded;
  - `data` is what `initialize` returns, with `Null` (0) the null pointer;
  - `resumes(k)` is what the `reinitialize` of the scene at height `k` returns.

  Every hook call is recorded in a ghost `trace` of events. The ghost logs `created` and `terminated` list the instances brought into existence and destroyed. Two predicates tie them together:
  - `Accounted()`: every created instance is either still on the stack or terminated, and never both or twice;
  - `Logged()`: the logs are exactly what the trace says.

  Every entry point preserves both predicates.
- `HostScenario` (`host_scenario.dfy`) is the demonstration host's run with its two scenes, proved step by step.

The cascade is specified by functions over a stack `s` and a height `h`:
- `Kept(s, h, …)` is the height the cascade leaves;
- `ResumeEvents(s, h, …)` is the hook calls it makes;
- `TopDown(s, lo, hi)` lists the scenes at heights `hi - 1` down to `lo`, which is the order in which popping terminates them;
- `CascadeStopsAt` is the stopping condition stated without recursion, and `CascadeStopsOnlyAtKept` proves that it holds exactly at `Kept`.

The header comment of `scene.h` (lines 22-23) says that a failed push of a
non-initial scene lets the manager "proceed as if no PUSH request was
received". The code leaves the stack as before, but `execute_top_scene`
returns the push's `false` (scene_manager.c:150), and the demonstration host
then leaves its loop (main.c:97-99). The model follows the code.
`ExecuteTopScene` reports `ok == false` with the stack unchanged.

## Model

| member | source | states |
|---|---|---|
| Scene.Classify | scene_manager.c:115-158 | the result is a pop exactly for the sentinel and a push exactly for an id in `[0, n)`, anything else is invalid, and encoding the request gives back the integer |
| Scene.PopRequestIsNoSceneId | scene.h:8 | the sentinel -1 is never a scene id, whatever the registry size, so it always reads as a pop |
| Scene.ClassifyEncode | scene.h:33-38 | every well-formed request a scene can return is read back as itself |
| SceneManager.TopDownAt | scene_manager.c:229-232 | the k-th scene terminated by popping a segment is the k-th below the segment's top |
| SceneManager.TopDownSameInstances | scene_manager.c:229-232 | popping a segment terminates each of its instances exactly once: the same multiset |
| SceneManager.BalancedRemoved | scene_manager.c:198-218 | popping any number of scenes off the top moves them from the stack to the terminated log and keeps every instance accounted for |
| SceneManager.Kept | scene_manager.c:119-143 | the resume cascade never leaves more scenes than it started on |
| SceneManager.KeptStops | scene_manager.c:122-143 | the cascade stops at a scene that resumed or has no `reinitialize`, or on an empty stack, and every scene it popped had a `reinitialize` that failed |
| SceneManager.CascadeStopsOnlyAtKept | scene_manager.c:122-143 | that stopping condition holds at exactly one height, the one the cascade leaves (both directions) |
| SceneManager.CascadeStep | scene_manager.c:124-143 | one round of the do-while: no `reinitialize`, or one that succeeds, ends the cascade with nothing popped; one that fails pops the top and the cascade goes on one lower, ending at once on an empty stack |
| SceneManager.PopThenResume | scene_manager.c:117-143 | the popped top followed by what the cascade beneath it removed is the old stack's segment above what is left, read top-down |
| SceneManager.InitializeLogs | scene_manager.c:181-193 | an `initialize` call creates an instance exactly when it returns non-null data and terminates none |
| SceneManager.ExecuteLogs | scene_manager.c:112 | an `execute` call creates and terminates nothing |
| SceneManager.TerminateLogs | scene_manager.c:213-217 | a `terminate` call terminates exactly its instance and creates nothing |
| SceneManager.UnwindLogs | scene_manager.c:229-232 | for any starting trace, the `terminate` calls of an unwinding terminate the popped scenes once each, top to bottom, and create none |
| SceneManager.ResumeLogs | scene_manager.c:119-143 | for any starting trace, the cascade's hook calls terminate exactly the scenes it removes, top to bottom, and create none |
| SceneManager.CascadeEndsLogs | scene_manager.c:131-134 | a cascade that ends at once keeps every scene and its single `reinitialize` call, if any, terminates nothing |
| SceneManager.ReinitializeFailed | scene_manager.c:134-141 | a failed `reinitialize` followed by the pop of its scene and the rest of the cascade keeps the logs in step with the trace |
| SceneManager.FailedReinitializeLogs | scene_manager.c:134-140 | a failing `reinitialize` and the `terminate` of its scene terminate that scene and create nothing |
| SceneManager.FailedReinitializeStep | scene_manager.c:134-143 | after a failed `reinitialize`, the cascade's calls and removals are that scene's, followed by those of the cascade one lower |
| SceneManager.CheckDescriptors | scene_manager.c:61-70 | the scan accepts exactly when each of the first `n` descriptors has `initialize`, `execute` and `terminate` |
| SceneManager.Manager.constructor | scene_manager.c:16-27 | the manager starts uninitialized with no registry, an empty stack and empty logs, accounted and logged |
| SceneManager.Manager.IsEmpty | scene_manager.c:237-247 | true exactly at height zero, which always holds while uninitialized |
| SceneManager.Manager.IsNotEmpty | scene_manager.c:249-252 | true exactly when some scene is live, which implies the manager is initialized |
| SceneManager.Manager.PushScene | scene_manager.c:163-196 | succeeds exactly when the reallocation and `initialize` both succeed. On success the new instance is on top, all lower entries are unchanged and it is logged as created; otherwise the stack is as before. `initialize` is called only after a successful reallocation. Accounting and logs are preserved |
| SceneManager.Manager.PopScene | scene_manager.c:198-218 | removes exactly the top entry, makes exactly one `terminate` call, on it, and logs it as terminated; nothing else changes |
| SceneManager.Manager.InitializeSceneManager | scene_manager.c:44-83 | on an initialized manager it returns true and changes nothing. On an invalid configuration (no scenes, no registry, initial id out of range, a missing hook) it returns false and leaves the manager uninitialized and empty. Otherwise it succeeds exactly when the initial push does; success gives height 1 with the initial scene on top, and failure rolls back to uninitialized. Accounting and logs are preserved |
| SceneManager.Manager.ResumeCascade | scene_manager.c:119-144 | leaves the stack's bottom part of height `Kept`, terminates the removed scenes top-down and makes exactly the calls `ResumeEvents` lists; accounting and logs are preserved |
| SceneManager.Manager.PopAndResume | scene_manager.c:115-146 | pops the top, terminating it, then runs the cascade from the scene beneath it: what is left is a proper prefix of the old stack, the cascade stops there, and every removed scene is terminated once, topmost first |
| SceneManager.Manager.ExecuteTopScene | scene_manager.c:85-161 | with no live scene (empty, or uninitialized): false and nothing changes. A pop request: true and `PoppedAndResumed` after the `execute` call. A push request: exactly the push's result and state, with no `reinitialize` of the requesting scene. An invalid value: false with only the `execute` call recorded. Accounting and logs are preserved |
| SceneManager.Manager.TerminateSceneManager | scene_manager.c:220-235 | pops every scene, terminating each top to bottom, and leaves the manager uninitialized. On an uninitialized manager nothing changes, so a second call is harmless. Afterwards every instance ever created has been terminated exactly once |
| SceneManager.Manager.SendCriticalErrorSignal | scene_manager.c:33-42 | the same state change as terminate, whatever the error code and description |
| HostScenario.Start | main.c:89-93 | initializing with the two demonstration scenes and scene one succeeds with scene one alone on the stack |
| HostScenario.OpenSceneTwo | main.c:48-56 | scene one's first run asks for scene two, which is pushed on top of it |
| HostScenario.PopTwoResumesOne | main.c:75-79 | popping scene two off the demonstration stack leaves scene one, reinitialized |
| HostScenario.PopOneEmpties | main.c:57-60 | popping scene one off the stack it holds alone empties it, with no reinitialization |
| HostScenario.CloseSceneTwo | main.c:75-79 | scene two pops itself, and scene one's `reinitialize` succeeds, so it stays |
| HostScenario.CloseSceneOne | main.c:57-60 | scene one's second run pops it and empties the stack |
| HostScenario.DemonstrationRun | main.c:87-105 | the run passes through heights 1, 2, 1, 0 with exactly the listed hook calls and ends uninitialized; both scenes are created once and terminated once, the newer first |

## Left out

- Diagnostics on `stderr` are not modelled: warnings, error messages and the critical error's message.
- The C `assert` calls become the model's preconditions and the class invariant `Valid()`; nothing aborts.
- `misc_util.c` (`safer_realloc`, `safe_dealloc`) and the `size_t` byte sizes are not modelled. A growth is the input `grown`, and a shrink always keeps the old entries, as `safe_dealloc` does when `realloc` fails.
- Integer widths are not modelled: ids, `n_scenes` and the height are unbounded integers. Stack heights beyond `INT_MAX` are not considered.
- The hook bodies are not modelled: their results are inputs. A hook that calls back into the manager (for example `send_critical_error_signal` from inside `execute`) is not modelled.
- `resumes` gives the `reinitialize` outcome by stack height. Within one cascade each height is tried at most once, so this is as general as a list of outcomes.
- The registry is not deep-copied by the C code. The model copies the descriptors, so a host that changes its array after initialization is not modelled.
- InitializeSceneManager: requires that a registry of `n` positive scenes have at least `n` descriptors. The C code would read beyond the array.
- The global singleton is one `Manager` object; handles are abstract naturals, with 0 the null pointer.
- `scene_manager.h` only declares prototypes and is not part of this model.
- The demonstration host's loop (main.c:95-101) is modelled only for its own scenes, as the fixed run `HostScenario.DemonstrationRun`, not as a general loop.
- PopScene: does not itself state that accounting and logs are preserved, because it is always called in the middle of an entry point. Its callers prove the preservation with `BalancedPop` and `TerminateLogs`.
