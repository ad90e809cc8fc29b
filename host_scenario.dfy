/**
 The demonstration host: a registry of two scenes, the first with a
 `reinitialize` hook, the second without, and the host loop that executes
 the top scene until the stack is empty or a call reports failure, then
 terminates the manager. The handles 1 and 2 stand for the data the two
 `initialize` hooks return; scene one's `reinitialize` always succeeds.
 */
module HostScenario {
  import opened Wrappers
  import opened Scene
  import opened SceneManager

  /** Scene one has all four hooks; scene two has no `reinitialize`. */
  const Registry: seq<Descriptor> := [Descriptor(true, true, true, true), Descriptor(true, false, true, true)]

  const One: SceneInstance := SceneInstance(0, 1)
  const Two: SceneInstance := SceneInstance(1, 2)

  /** Scene one's `reinitialize`, which succeeds wherever it is called. */
  function AlwaysResumes(k: nat): bool {
    true
  }

  /** The manager is initialized on the registry and holds exactly the given stack and logs. */
  ghost predicate At(m: Manager, stack: seq<SceneInstance>, trace: seq<Event>,
                     created: seq<SceneInstance>, terminated: seq<SceneInstance>)
    reads m
  {
    && m.Valid() && m.initialized && m.nScenes == 2 && m.scenes == Registry
    && m.stack == stack && m.trace == trace && m.created == created && m.terminated == terminated
  }

  /** initialize_scene_manager(NUM_SCENES, scenes, SCENE_ONE) succeeds with scene one alone on the stack. */
  method Start() returns (m: Manager, ok: bool)
    ensures fresh(m)
    ensures ok && At(m, [One], [Initialize(0, 1)], [One], [])
  {
    m := new Manager();
    assert ValidConfiguration(2, Some(Registry), 0) by {
      assert Registry[0].HasRequiredHooks() && Registry[1].HasRequiredHooks();
    }
    ok := m.InitializeSceneManager(2, Some(Registry), 0, true, 1);
  }

  /** Scene one's first execution asks for scene two, which is pushed. */
  method OpenSceneTwo(m: Manager) returns (ok: bool)
    requires At(m, [One], [Initialize(0, 1)], [One], [])
    modifies m
    ensures ok && At(m, [One, Two], [Initialize(0, 1), Execute(One, 1), Initialize(1, 2)], [One, Two], [])
  {
    assert Classify(1, 2) == Push(1);
    ok := m.ExecuteTopScene(1, AlwaysResumes, true, 2);
    assert [One] + [Two] == [One, Two];
  }

  /** Popping scene two off `[One, Two]`: scene one resumes and stays. */
  lemma PopTwoResumesOne(left: seq<SceneInstance>, terminated0: seq<SceneInstance>, terminated: seq<SceneInstance>,
                         trace0: seq<Event>, trace: seq<Event>)
    requires PoppedAndResumed([One, Two], left, terminated0, terminated, trace0, trace, Registry, AlwaysResumes)
    ensures left == [One] && terminated == terminated0 + [Two]
    ensures trace == trace0 + [Terminate(Two), Reinitialize(One, true)]
  {
    var whole := [One, Two];
    assert Reinitializable(Registry, whole[0]);
    assert Kept(whole, 1, Registry, AlwaysResumes) == 1;
    assert ResumeEvents(whole, 1, Registry, AlwaysResumes) == [Reinitialize(One, true)];
    assert TopDown(whole, 1, 2) == [Two];
  }

  /** Popping scene one off `[One]` empties the stack. */
  lemma PopOneEmpties(left: seq<SceneInstance>, terminated0: seq<SceneInstance>, terminated: seq<SceneInstance>,
                      trace0: seq<Event>, trace: seq<Event>)
    requires PoppedAndResumed([One], left, terminated0, terminated, trace0, trace, Registry, AlwaysResumes)
    ensures left == [] && terminated == terminated0 + [One] && trace == trace0 + [Terminate(One)]
  {
    assert ResumeEvents([One], 0, Registry, AlwaysResumes) == [];
    assert TopDown([One], 0, 1) == [One];
  }

  /** Scene two pops itself; scene one is reinitialized and stays. */
  method CloseSceneTwo(m: Manager) returns (ok: bool)
    requires At(m, [One, Two], [Initialize(0, 1), Execute(One, 1), Initialize(1, 2)], [One, Two], [])
    modifies m
    ensures ok && At(m, [One],
                     [Initialize(0, 1), Execute(One, 1), Initialize(1, 2),
                      Execute(Two, PopRequest), Terminate(Two), Reinitialize(One, true)],
                     [One, Two], [Two])
  {
    ghost var trace0 := m.trace + [Execute(Two, PopRequest)];
    assert Classify(PopRequest, 2) == Pop;
    ok := m.ExecuteTopScene(PopRequest, AlwaysResumes, true, 3);
    PopTwoResumesOne(m.stack, [], m.terminated, trace0, m.trace);
  }

  /** Scene one pops itself and leaves the stack empty. */
  method CloseSceneOne(m: Manager) returns (ok: bool)
    requires At(m, [One],
                [Initialize(0, 1), Execute(One, 1), Initialize(1, 2),
                 Execute(Two, PopRequest), Terminate(Two), Reinitialize(One, true)],
                [One, Two], [Two])
    modifies m
    ensures ok && At(m, [],
                     [Initialize(0, 1), Execute(One, 1), Initialize(1, 2),
                      Execute(Two, PopRequest), Terminate(Two), Reinitialize(One, true),
                      Execute(One, PopRequest), Terminate(One)],
                     [One, Two], [Two, One])
  {
    ghost var trace0 := m.trace + [Execute(One, PopRequest)];
    assert Classify(PopRequest, 2) == Pop;
    ok := m.ExecuteTopScene(PopRequest, AlwaysResumes, true, 4);
    PopOneEmpties(m.stack, [Two], m.terminated, trace0, m.trace);
  }

  /**
   The demonstration run: scene one starts, asks for scene two, scene two
   pops itself and scene one resumes, then scene one pops itself, the loop
   sees an empty stack, and the manager is terminated. Both scenes are
   created once and terminated once, the newer first.
   */
  method DemonstrationRun() returns (m: Manager, heights: seq<nat>)
    ensures heights == [1, 2, 1, 0]
    ensures !m.initialized && m.stack == []
    ensures m.trace == [
      Initialize(0, 1),
      Execute(One, 1), Initialize(1, 2),
      Execute(Two, PopRequest), Terminate(Two), Reinitialize(One, true),
      Execute(One, PopRequest), Terminate(One)]
    ensures m.created == [One, Two] && m.terminated == [Two, One]
  {
    var ok;
    m, ok := Start();
    heights := [|m.stack|];
    ok := OpenSceneTwo(m);
    heights := heights + [|m.stack|];
    ok := CloseSceneTwo(m);
    heights := heights + [|m.stack|];
    ok := CloseSceneOne(m);
    heights := heights + [|m.stack|];
    m.TerminateSceneManager();
  }
}
