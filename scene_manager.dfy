/**
 The stack-based scene manager: a registry of scene descriptors, a LIFO stack
 of live scene instances, and the four entry points that drive them
 (initialize, execute the top scene, terminate, critical error signal).

 The hooks of a scene are not code the model can see. Each call into one is
 recorded as an `Event` in the manager's ghost `trace`, and what the hook
 returns is an input of the entry point that calls it.
 */
module SceneManager {
  import opened Wrappers
  import opened Scene

  /** One live occurrence of a scene on the stack: its registry id and its private data. */
  datatype SceneInstance = SceneInstance(id: int, data: Handle)

  /** One call the manager makes into a scene's hooks, with what the hook returned. */
  datatype Event =
    | Initialize(id: int, handle: Handle)
    | Reinitialize(instance: SceneInstance, resumed: bool)
    | Execute(instance: SceneInstance, result: int)
    | Terminate(instance: SceneInstance)

  /** The instance an event brings into existence, if any: a successful `initialize`. */
  function Creates(e: Event): seq<SceneInstance> {
    if e.Initialize? && e.handle != Null then [SceneInstance(e.id, e.handle)] else []
  }

  /** The instance an event destroys, if any: a `terminate`. */
  function Terminates(e: Event): seq<SceneInstance> {
    if e.Terminate? then [e.instance] else []
  }

  /** Every instance created along a trace, oldest first. */
  function Created(trace: seq<Event>): seq<SceneInstance> {
    if trace == [] then [] else Created(trace[..|trace| - 1]) + Creates(trace[|trace| - 1])
  }

  /** Every instance terminated along a trace, in the order of the `terminate` calls. */
  function Terminated(trace: seq<Event>): seq<SceneInstance> {
    if trace == [] then [] else Terminated(trace[..|trace| - 1]) + Terminates(trace[|trace| - 1])
  }

  lemma AppendEvent(trace: seq<Event>, e: Event)
    ensures Created(trace + [e]) == Created(trace) + Creates(e)
    ensures Terminated(trace + [e]) == Terminated(trace) + Terminates(e)
  {
    assert (trace + [e])[..|trace|] == trace;
  }

  /**
   The instances at heights `lo` to `hi - 1` of the stack `s`, the topmost
   first: the order in which popping them one by one terminates them.
   */
  function TopDown(s: seq<SceneInstance>, lo: nat, hi: nat): (r: seq<SceneInstance>)
    requires lo <= hi <= |s|
    ensures |r| == hi - lo
    decreases hi - lo
  {
    if lo == hi then [] else TopDown(s, lo + 1, hi) + [s[lo]]
  }

  /** The `k`-th instance of a top-down reading is the `k`-th below the top of the segment. */
  lemma {:induction false} TopDownAt(s: seq<SceneInstance>, lo: nat, hi: nat, k: int)
    requires lo <= hi <= |s| && 0 <= k < hi - lo
    ensures TopDown(s, lo, hi)[k] == s[hi - 1 - k]
    decreases hi - lo
  {
    if k < hi - lo - 1 {
      TopDownAt(s, lo + 1, hi, k);
    }
  }

  /** A top-down reading starts with the topmost instance of the segment. */
  lemma {:induction false} TopDownTop(s: seq<SceneInstance>, lo: nat, hi: nat)
    requires lo < hi <= |s|
    ensures TopDown(s, lo, hi) == [s[hi - 1]] + TopDown(s, lo, hi - 1)
    decreases hi - lo
  {
    if lo + 1 < hi {
      TopDownTop(s, lo + 1, hi);
    }
  }

  /** Reading a segment top-down loses and duplicates no instance. */
  lemma {:induction false} TopDownSameInstances(s: seq<SceneInstance>, lo: nat, hi: nat)
    requires lo <= hi <= |s|
    ensures multiset(TopDown(s, lo, hi)) == multiset(s[lo..hi])
    decreases hi - lo
  {
    if lo < hi {
      assert s[lo..hi] == [s[lo]] + s[lo + 1..hi];
      TopDownSameInstances(s, lo + 1, hi);
    }
  }

  /** How many times `x` occurs in `s`. */
  function Count(s: seq<SceneInstance>, x: SceneInstance): nat {
    if s == [] then 0 else Count(s[..|s| - 1], x) + (if s[|s| - 1] == x then 1 else 0)
  }

  lemma CountPush(s: seq<SceneInstance>, y: SceneInstance, x: SceneInstance)
    ensures Count(s + [y], x) == Count(s, x) + (if y == x then 1 else 0)
  {
    assert (s + [y])[..|s|] == s;
  }

  /** `Count` is the multiplicity of the instance in the multiset of the sequence. */
  lemma {:induction false} CountIsMultiplicity(s: seq<SceneInstance>, x: SceneInstance)
    ensures Count(s, x) == multiset(s)[x]
    decreases |s|
  {
    if s != [] {
      var rest, top := s[..|s| - 1], s[|s| - 1];
      assert s == rest + [top];
      CountIsMultiplicity(rest, x);
    }
  }

  /**
   Every instance occurs in `created` exactly as often as it occurs in
   `terminated` and on `stack` together.
   */
  ghost predicate Balanced(created: seq<SceneInstance>, terminated: seq<SceneInstance>, stack: seq<SceneInstance>) {
    forall x :: Count(created, x) == Count(terminated, x) + Count(stack, x)
  }

  lemma BalancedPush(created: seq<SceneInstance>, terminated: seq<SceneInstance>, stack: seq<SceneInstance>, y: SceneInstance)
    requires Balanced(created, terminated, stack)
    ensures Balanced(created + [y], terminated, stack + [y])
  {
    forall x ensures Count(created + [y], x) == Count(terminated, x) + Count(stack + [y], x) {
      CountPush(created, y, x);
      CountPush(stack, y, x);
    }
  }

  lemma BalancedPop(created: seq<SceneInstance>, terminated: seq<SceneInstance>, stack: seq<SceneInstance>)
    requires Balanced(created, terminated, stack) && stack != []
    ensures Balanced(created, terminated + [stack[|stack| - 1]], stack[..|stack| - 1])
  {
    var top := stack[|stack| - 1];
    forall x ensures Count(created, x) == Count(terminated + [top], x) + Count(stack[..|stack| - 1], x) {
      CountPush(terminated, top, x);
      assert stack == stack[..|stack| - 1] + [top];
      CountPush(stack[..|stack| - 1], top, x);
    }
  }

  /**
   Popping the scenes from height `hi - 1` down to height `lo` off a stack
   terminates them top-down and keeps the balance.
   */
  lemma {:induction false} BalancedRemoved(created: seq<SceneInstance>, terminated: seq<SceneInstance>,
                                           s: seq<SceneInstance>, lo: nat, hi: nat)
    requires lo <= hi <= |s| && Balanced(created, terminated, s[..hi])
    ensures Balanced(created, terminated + TopDown(s, lo, hi), s[..lo])
    decreases hi - lo
  {
    if lo == hi {
      assert terminated + TopDown(s, lo, hi) == terminated;
    } else {
      BalancedRemoved(created, terminated, s, lo + 1, hi);
      BalancedPop(created, terminated + TopDown(s, lo + 1, hi), s[..lo + 1]);
      assert s[..lo + 1][..lo] == s[..lo];
      assert terminated + TopDown(s, lo + 1, hi) + [s[lo]] == terminated + TopDown(s, lo, hi);
    }
  }

  /** Every id held by the stack names one of the first `n` registry entries. */
  predicate IdsWithin(s: seq<SceneInstance>, n: int) {
    forall k :: 0 <= k < |s| ==> 0 <= s[k].id < n
  }

  /** Every instance on the stack holds non-null private data. */
  predicate NonNull(s: seq<SceneInstance>) {
    forall k :: 0 <= k < |s| ==> s[k].data != Null
  }

  lemma IdsWithinPush(s: seq<SceneInstance>, x: SceneInstance, n: int)
    requires IdsWithin(s, n) && 0 <= x.id < n
    ensures IdsWithin(s + [x], n)
  {
  }

  lemma NonNullPush(s: seq<SceneInstance>, x: SceneInstance)
    requires NonNull(s) && x.data != Null
    ensures NonNull(s + [x])
  {
  }

  /** The hook calls that popping heights `hi - 1` down to `lo` of `s` makes: one `terminate` each. */
  function Unwind(s: seq<SceneInstance>, lo: nat, hi: nat): seq<Event>
    requires lo <= hi <= |s|
    decreases hi - lo
  {
    if lo == hi then [] else Unwind(s, lo + 1, hi) + [Terminate(s[lo])]
  }

  /** The scene of instance `x` has a `reinitialize` hook. */
  predicate Reinitializable(scenes: seq<Descriptor>, x: SceneInstance) {
    0 <= x.id < |scenes| && scenes[x.id].hasReinitialize
  }

  /**
   The height the resume cascade leaves when it starts on the bottom `h`
   scenes of `s`: a top scene whose `reinitialize` is present and fails is
   popped and the one beneath it is tried, until a scene resumes, has no
   `reinitialize`, or nothing is left. `resumes(k)` is what the
   `reinitialize` hook of the scene at height `k` returns when the cascade
   reaches it.
   */
  function Kept(s: seq<SceneInstance>, h: nat, scenes: seq<Descriptor>, resumes: nat -> bool): (k: nat)
    requires h <= |s|
    ensures k <= h
    decreases h
  {
    if h == 0 then 0
    else if !Reinitializable(scenes, s[h - 1]) || resumes(h - 1) then h
    else Kept(s, h - 1, scenes, resumes)
  }

  /** The hook calls the resume cascade on the bottom `h` scenes of `s` makes, in order. */
  function ResumeEvents(s: seq<SceneInstance>, h: nat, scenes: seq<Descriptor>, resumes: nat -> bool): seq<Event>
    requires h <= |s|
    decreases h
  {
    if h == 0 then []
    else
      var top := s[h - 1];
      if !Reinitializable(scenes, top) then []
      else if resumes(h - 1) then [Reinitialize(top, true)]
      else [Reinitialize(top, false), Terminate(top)] + ResumeEvents(s, h - 1, scenes, resumes)
  }

  /**
   The resume cascade on the bottom `h` scenes of `s` may stop at height
   `kept`: the scene it stops at, if any, resumed or has no `reinitialize`,
   and every scene above it, up to height `h - 1`, has a `reinitialize` that
   failed.
   */
  ghost predicate CascadeStopsAt(s: seq<SceneInstance>, h: nat, kept: nat, scenes: seq<Descriptor>, resumes: nat -> bool)
    requires kept <= h <= |s|
  {
    && (kept == 0 || !Reinitializable(scenes, s[kept - 1]) || resumes(kept - 1))
    && forall k :: kept <= k < h ==> Reinitializable(scenes, s[k]) && !resumes(k)
  }

  /** The cascade stops at the height `Kept` computes. */
  lemma {:induction false} KeptStops(s: seq<SceneInstance>, h: nat, scenes: seq<Descriptor>, resumes: nat -> bool)
    requires h <= |s|
    ensures CascadeStopsAt(s, h, Kept(s, h, scenes, resumes), scenes, resumes)
    decreases h
  {
    if 0 < h && Reinitializable(scenes, s[h - 1]) && !resumes(h - 1) {
      KeptStops(s, h - 1, scenes, resumes);
    }
  }

  /** There is only one height the cascade can stop at: the one `Kept` computes. */
  lemma CascadeStopsOnlyAtKept(s: seq<SceneInstance>, h: nat, kept: nat, scenes: seq<Descriptor>, resumes: nat -> bool)
    requires kept <= h <= |s|
    ensures CascadeStopsAt(s, h, kept, scenes, resumes) <==> kept == Kept(s, h, scenes, resumes)
  {
    KeptStops(s, h, scenes, resumes);
  }

  /**
   One round of the resume cascade at height `h`, where the whole cascade
   from here stops at height `final` and leaves the trace `finalTrace`: a top
   without `reinitialize` or with one that succeeds ends it here, and a top
   whose `reinitialize` fails is popped and the cascade goes on beneath it.
   */
  lemma CascadeStep(s: seq<SceneInstance>, h: nat, h0: nat,
                    terminated: seq<SceneInstance>, terminated0: seq<SceneInstance>, trace: seq<Event>,
                    scenes: seq<Descriptor>, resumes: nat -> bool, final: nat, finalTrace: seq<Event>)
    requires 0 < h <= h0 <= |s|
    requires terminated == terminated0 + TopDown(s, h, h0)
    requires Kept(s, h, scenes, resumes) == final
    requires trace + ResumeEvents(s, h, scenes, resumes) == finalTrace
    ensures !Reinitializable(scenes, s[h - 1]) ==> h == final && trace == finalTrace
    ensures Reinitializable(scenes, s[h - 1]) && resumes(h - 1) ==>
              h == final && trace + [Reinitialize(s[h - 1], true)] == finalTrace
    ensures Reinitializable(scenes, s[h - 1]) && !resumes(h - 1) ==>
              var trace1 := trace + [Reinitialize(s[h - 1], false)] + [Terminate(s[h - 1])];
              && s[..h][..h - 1] == s[..h - 1]
              && terminated + [s[h - 1]] == terminated0 + TopDown(s, h - 1, h0)
              && Kept(s, h - 1, scenes, resumes) == final
              && trace1 + ResumeEvents(s, h - 1, scenes, resumes) == finalTrace
              && (h == 1 ==> final == 0 && trace1 == finalTrace)
  {
    var top := s[h - 1];
    if Reinitializable(scenes, top) && !resumes(h - 1) {
      var events := ResumeEvents(s, h - 1, scenes, resumes);
      assert trace + [Reinitialize(top, false)] + [Terminate(top)] + events
          == trace + ([Reinitialize(top, false), Terminate(top)] + events);
    }
  }

  /**
   A pop request's bookkeeping: the popped top followed by what the cascade
   beneath it removed is the segment of the old stack above what is left,
   read top-down.
   */
  lemma PopThenResume(s: seq<SceneInstance>, kept: nat,
                      terminated0: seq<SceneInstance>, terminated1: seq<SceneInstance>, terminated2: seq<SceneInstance>)
    requires kept < |s|
    requires terminated1 == terminated0 + [s[|s| - 1]]
    requires terminated2 == terminated1 + TopDown(s, kept, |s| - 1)
    ensures terminated2 == terminated0 + TopDown(s, kept, |s|)
  {
    TopDownTop(s, kept, |s|);
  }

  /**
   What a pop request does to a non-empty stack `whole`: the top is popped and
   terminated, then the resume cascade runs from the scene beneath it. `left`
   is the part of `whole` that stays, strictly shorter than `whole`, and the
   cascade stops there; from `terminated0` and `trace0` the log of
   terminations becomes `terminated` and the trace becomes `trace`.
   */
  ghost predicate PoppedAndResumed(whole: seq<SceneInstance>, left: seq<SceneInstance>,
                                   terminated0: seq<SceneInstance>, terminated: seq<SceneInstance>,
                                   trace0: seq<Event>, trace: seq<Event>,
                                   scenes: seq<Descriptor>, resumes: nat -> bool)
    requires whole != []
  {
    var h := |whole|;
    && |left| == Kept(whole, h - 1, scenes, resumes) && left == whole[..|left|] && |left| < h
    && CascadeStopsAt(whole, h - 1, |left|, scenes, resumes)
    && terminated == terminated0 + TopDown(whole, |left|, h)
    && trace == trace0 + [Terminate(whole[h - 1])] + ResumeEvents(whole, h - 1, scenes, resumes)
  }

  /**
   The logs agree with a trace: `created` is what its successful `initialize`
   calls returned and `terminated` what its `terminate` calls were made on.
   */
  ghost predicate LogsAgree(trace: seq<Event>, created: seq<SceneInstance>, terminated: seq<SceneInstance>) {
    Created(trace) == created && Terminated(trace) == terminated
  }

  /** A push's `initialize` call creates the instance exactly when it returns non-null data. */
  lemma InitializeLogs(trace0: seq<Event>, created0: seq<SceneInstance>, terminated0: seq<SceneInstance>,
                       id: int, data: Handle,
                       trace1: seq<Event>, created1: seq<SceneInstance>, terminated1: seq<SceneInstance>)
    requires LogsAgree(trace0, created0, terminated0)
    requires trace1 == trace0 + [Initialize(id, data)] && terminated1 == terminated0
    requires created1 == created0 + if data == Null then [] else [SceneInstance(id, data)]
    ensures LogsAgree(trace1, created1, terminated1)
  {
    AppendEvent(trace0, Initialize(id, data));
  }

  /** A call to `execute` neither creates nor terminates an instance. */
  lemma ExecuteLogs(trace0: seq<Event>, created0: seq<SceneInstance>, terminated0: seq<SceneInstance>,
                    top: SceneInstance, result: int)
    requires LogsAgree(trace0, created0, terminated0)
    ensures LogsAgree(trace0 + [Execute(top, result)], created0, terminated0)
  {
    AppendEvent(trace0, Execute(top, result));
  }

  /** A call to `terminate` terminates its instance and creates nothing. */
  lemma TerminateLogs(trace0: seq<Event>, created0: seq<SceneInstance>, terminated0: seq<SceneInstance>,
                      top: SceneInstance,
                      trace1: seq<Event>, created1: seq<SceneInstance>, terminated1: seq<SceneInstance>)
    requires LogsAgree(trace0, created0, terminated0)
    requires trace1 == trace0 + [Terminate(top)] && created1 == created0 && terminated1 == terminated0 + [top]
    ensures LogsAgree(trace1, created1, terminated1)
  {
    AppendEvent(trace0, Terminate(top));
  }

  /**
   Unwinding keeps the logs in step with the trace: it terminates the popped
   scenes once each, top-down, and creates none.
   */
  lemma {:induction false} UnwindLogs(trace0: seq<Event>, created0: seq<SceneInstance>, terminated0: seq<SceneInstance>,
                                      s: seq<SceneInstance>, lo: nat, hi: nat)
    requires lo <= hi <= |s| && LogsAgree(trace0, created0, terminated0)
    ensures LogsAgree(trace0 + Unwind(s, lo, hi), created0, terminated0 + TopDown(s, lo, hi))
    decreases hi - lo
  {
    if lo == hi {
      assert trace0 + Unwind(s, lo, hi) == trace0;
      assert terminated0 + TopDown(s, lo, hi) == terminated0;
    } else {
      var trace1, terminated1 := trace0 + Unwind(s, lo + 1, hi), terminated0 + TopDown(s, lo + 1, hi);
      UnwindLogs(trace0, created0, terminated0, s, lo + 1, hi);
      TerminateLogs(trace1, created0, terminated1, s[lo], trace1 + [Terminate(s[lo])], created0, terminated1 + [s[lo]]);
      UnwindBottom(trace0, terminated0, s, lo, hi);
    }
  }

  /** The last pop of an unwinding is that of the bottom scene of the segment. */
  lemma UnwindBottom(trace0: seq<Event>, terminated0: seq<SceneInstance>, s: seq<SceneInstance>, lo: nat, hi: nat)
    requires lo < hi <= |s|
    ensures trace0 + Unwind(s, lo, hi) == trace0 + Unwind(s, lo + 1, hi) + [Terminate(s[lo])]
    ensures terminated0 + TopDown(s, lo, hi) == terminated0 + TopDown(s, lo + 1, hi) + [s[lo]]
  {
  }

  /**
   The resume cascade keeps the logs in step with the trace: it terminates
   exactly the scenes it removes, once each, top-down, and creates none.
   `trace1` and `terminated1` are the trace and the log after it.
   */
  lemma {:induction false} ResumeLogs(trace0: seq<Event>, created0: seq<SceneInstance>, terminated0: seq<SceneInstance>,
                                      s: seq<SceneInstance>, h: nat, scenes: seq<Descriptor>, resumes: nat -> bool,
                                      trace1: seq<Event>, terminated1: seq<SceneInstance>)
    requires h <= |s| && LogsAgree(trace0, created0, terminated0)
    requires trace1 == trace0 + ResumeEvents(s, h, scenes, resumes)
    requires terminated1 == terminated0 + TopDown(s, Kept(s, h, scenes, resumes), h)
    ensures LogsAgree(trace1, created0, terminated1)
    decreases h
  {
    if h == 0 || !Reinitializable(scenes, s[h - 1]) || resumes(h - 1) {
      CascadeEndsLogs(trace0, created0, terminated0, s, h, scenes, resumes);
    } else {
      ReinitializeFailed(trace0, created0, terminated0, s, h, scenes, resumes, trace1, terminated1);
    }
  }

  /**
   The part of `ResumeLogs` where the cascade ends at once: nothing is left to
   try, the top has no `reinitialize`, or it resumes. Nothing is terminated.
   */
  lemma CascadeEndsLogs(trace0: seq<Event>, created0: seq<SceneInstance>, terminated0: seq<SceneInstance>,
                        s: seq<SceneInstance>, h: nat, scenes: seq<Descriptor>, resumes: nat -> bool)
    requires h <= |s| && LogsAgree(trace0, created0, terminated0)
    requires h == 0 || !Reinitializable(scenes, s[h - 1]) || resumes(h - 1)
    ensures Kept(s, h, scenes, resumes) == h
    ensures LogsAgree(trace0 + ResumeEvents(s, h, scenes, resumes), created0, terminated0 + TopDown(s, h, h))
  {
    assert terminated0 + TopDown(s, h, h) == terminated0;
    if h == 0 || !Reinitializable(scenes, s[h - 1]) {
      assert trace0 + ResumeEvents(s, h, scenes, resumes) == trace0;
    } else {
      AppendEvent(trace0, Reinitialize(s[h - 1], true));
    }
  }

  /** The part of `ResumeLogs` where the top's `reinitialize` fails and the cascade goes on beneath it. */
  lemma {:induction false} ReinitializeFailed(trace0: seq<Event>, created0: seq<SceneInstance>, terminated0: seq<SceneInstance>,
                                              s: seq<SceneInstance>, h: nat, scenes: seq<Descriptor>, resumes: nat -> bool,
                                              trace1: seq<Event>, terminated1: seq<SceneInstance>)
    requires 0 < h <= |s| && LogsAgree(trace0, created0, terminated0)
    requires Reinitializable(scenes, s[h - 1]) && !resumes(h - 1)
    requires trace1 == trace0 + ResumeEvents(s, h, scenes, resumes)
    requires terminated1 == terminated0 + TopDown(s, Kept(s, h, scenes, resumes), h)
    ensures LogsAgree(trace1, created0, terminated1)
    decreases h, 0
  {
    var top := s[h - 1];
    FailedReinitializeLogs(trace0, created0, terminated0, top);
    FailedReinitializeStep(trace0, terminated0, s, h, scenes, resumes);
    ResumeLogs(trace0 + [Reinitialize(top, false)] + [Terminate(top)], created0, terminated0 + [top],
               s, h - 1, scenes, resumes, trace1, terminated1);
  }

  /** A `reinitialize` that fails and the `terminate` of its scene terminate that scene and create nothing. */
  lemma FailedReinitializeLogs(trace0: seq<Event>, created0: seq<SceneInstance>, terminated0: seq<SceneInstance>,
                               top: SceneInstance)
    requires LogsAgree(trace0, created0, terminated0)
    ensures LogsAgree(trace0 + [Reinitialize(top, false)] + [Terminate(top)], created0, terminated0 + [top])
  {
    AppendEvent(trace0, Reinitialize(top, false));
    AppendEvent(trace0 + [Reinitialize(top, false)], Terminate(top));
  }

  /**
   A failing `reinitialize` at height `h - 1`: the cascade's calls are that
   one and the `terminate` of its scene, then those of the cascade beneath,
   and its removals are that scene, then those of the cascade beneath.
   */
  lemma FailedReinitializeStep(trace0: seq<Event>, terminated0: seq<SceneInstance>,
                               s: seq<SceneInstance>, h: nat, scenes: seq<Descriptor>, resumes: nat -> bool)
    requires 0 < h <= |s|
    requires Reinitializable(scenes, s[h - 1]) && !resumes(h - 1)
    ensures trace0 + ResumeEvents(s, h, scenes, resumes)
         == trace0 + [Reinitialize(s[h - 1], false)] + [Terminate(s[h - 1])] + ResumeEvents(s, h - 1, scenes, resumes)
    ensures terminated0 + TopDown(s, Kept(s, h, scenes, resumes), h)
         == terminated0 + [s[h - 1]] + TopDown(s, Kept(s, h - 1, scenes, resumes), h - 1)
  {
    var top, kept := s[h - 1], Kept(s, h - 1, scenes, resumes);
    assert Kept(s, h, scenes, resumes) == kept;
    TopDownTop(s, kept, h);
  }

  /** The checks initialize_scene_manager applies to its arguments before pushing any scene. */
  predicate ValidConfiguration(n: int, registry: Option<seq<Descriptor>>, initialId: int)
    requires registry.Some? && 0 < n ==> n <= |registry.value|
  {
    && 0 < n
    && registry.Some?
    && 0 <= initialId < n
    && forall i :: 0 <= i < n ==> registry.value[i].HasRequiredHooks()
  }

  /** The scan of the first `n` descriptors for a missing required hook. */
  method CheckDescriptors(registry: seq<Descriptor>, n: int) returns (valid: bool)
    requires 0 <= n <= |registry|
    ensures valid <==> forall i :: 0 <= i < n ==> registry[i].HasRequiredHooks()
  {
    for i := 0 to n
      invariant forall j :: 0 <= j < i ==> registry[j].HasRequiredHooks()
    {
      if !registry[i].HasRequiredHooks() {
        return false;
      }
    }
    return true;
  }

  class Manager {
    var initialized: bool
    var nScenes: int
    /** The registry as supplied by the host; empty while uninitialized (the null pointer). */
    var scenes: seq<Descriptor>
    /** The scene stack, bottom first; its length is the stack height. */
    var stack: seq<SceneInstance>
    /** Every call made into the scenes' hooks, in order. */
    ghost var trace: seq<Event>
    /** Every instance a successful push has created, in order. */
    ghost var created: seq<SceneInstance>
    /** Every instance a pop has terminated, in order. */
    ghost var terminated: seq<SceneInstance>

    /**
     The manager's invariant: an initialized manager holds a validated registry,
     an uninitialized one holds nothing, and every stacked instance has a valid
     id and non-null data.
     */
    ghost predicate Valid()
      reads this
    {
      && (initialized ==>
            && 0 < nScenes <= |scenes|
            && forall i :: 0 <= i < nScenes ==> scenes[i].HasRequiredHooks())
      && (!initialized ==> nScenes == 0 && scenes == [] && stack == [])
      && IdsWithin(stack, nScenes)
      && NonNull(stack)
    }

    /**
     The lifetime accounting: every instance ever created is either still on
     the stack or has been terminated, and only once.
     */
    ghost predicate Accounted()
      reads this
    {
      Balanced(created, terminated, stack)
    }

    /**
     The ghost logs agree with the hook calls: `created` is what the successful
     `initialize` calls returned and `terminated` what `terminate` was called on.
     */
    ghost predicate Logged()
      reads this
    {
      LogsAgree(trace, created, terminated)
    }

    constructor ()
      ensures Valid()
      ensures !initialized && stack == []
      ensures trace == [] && created == [] && terminated == []
      ensures Accounted() && Logged()
    {
      initialized, nScenes, scenes, stack := false, 0, [], [];
      trace, created, terminated := [], [], [];
    }

    /** scene_stack_is_empty: the stack height is zero, which it always is while uninitialized. */
    function IsEmpty(): (empty: bool)
      reads this
      requires Valid()
      ensures empty <==> |stack| == 0
      ensures !initialized ==> empty
    {
      |stack| == 0
    }

    /** scene_stack_is_not_empty: some scene is live, which implies the manager is initialized. */
    function IsNotEmpty(): (nonEmpty: bool)
      reads this
      requires Valid()
      ensures nonEmpty <==> stack != []
      ensures nonEmpty ==> initialized
    {
      !IsEmpty()
    }

    /**
     push_scene: grow the stack (`grown` says whether the reallocation
     succeeded), call the scene's `initialize`, whose result is `data`, and
     store the instance. On either failure the stack is as before.
     */
    method PushScene(id: int, grown: bool, data: Handle) returns (ok: bool)
      requires Valid() && initialized && 0 <= id < nScenes
      modifies this
      ensures Valid()
      ensures initialized && nScenes == old(nScenes) && scenes == old(scenes)
      ensures ok <==> grown && data != Null
      ensures stack == if ok then old(stack) + [SceneInstance(id, data)] else old(stack)
      ensures created == if ok then old(created) + [SceneInstance(id, data)] else old(created)
      ensures terminated == old(terminated)
      ensures trace == old(trace) + if grown then [Initialize(id, data)] else []
      ensures old(Accounted()) ==> Accounted()
      ensures old(Logged()) ==> Logged()
    {
      if !grown {
        return false;
      }
      trace := trace + [Initialize(id, data)];
      if data == Null {
        if old(Logged()) {
          InitializeLogs(old(trace), old(created), old(terminated), id, data, trace, created, terminated);
        }
        return false;
      }
      var instance := SceneInstance(id, data);
      NonNullPush(stack, instance);
      IdsWithinPush(stack, instance, nScenes);
      stack := stack + [instance];
      created := created + [instance];
      if old(Logged()) {
        InitializeLogs(old(trace), old(created), old(terminated), id, data, trace, created, terminated);
      }
      if old(Accounted()) {
        BalancedPush(old(created), old(terminated), old(stack), instance);
      }
      ok := true;
    }

    /** pop_scene: remove the top instance and call its `terminate`. */
    method PopScene()
      requires Valid() && initialized && stack != []
      modifies this
      ensures Valid()
      ensures initialized && nScenes == old(nScenes) && scenes == old(scenes)
      ensures stack == old(stack)[..|old(stack)| - 1]
      ensures created == old(created)
      ensures terminated == old(terminated) + [old(stack)[|old(stack)| - 1]]
      ensures trace == old(trace) + [Terminate(old(stack)[|old(stack)| - 1])]
    {
      var top := stack[|stack| - 1];
      stack := stack[..|stack| - 1];
      terminated := terminated + [top];
      trace := trace + [Terminate(top)];
    }

    /**
     initialize_scene_manager: a second call on an initialized manager succeeds
     and changes nothing; invalid arguments fail and change nothing; otherwise
     the registry is adopted and the initial scene pushed, and if that push
     fails the manager is rolled back to uninitialized. `grown` and `data` are
     the outcome of that push's reallocation and `initialize` call.
     */
    method InitializeSceneManager(n: int, registry: Option<seq<Descriptor>>, initialId: int,
                                  grown: bool, data: Handle) returns (ok: bool)
      requires Valid()
      requires registry.Some? && 0 < n ==> n <= |registry.value|
      modifies this
      ensures Valid()
      ensures terminated == old(terminated)
      ensures old(initialized) ==>
                && ok && initialized && nScenes == old(nScenes) && scenes == old(scenes)
                && stack == old(stack) && created == old(created) && trace == old(trace)
      ensures !old(initialized) && !ValidConfiguration(n, registry, initialId) ==>
                && !ok && !initialized && nScenes == 0 && scenes == [] && stack == []
                && created == old(created) && trace == old(trace)
      ensures !old(initialized) && ValidConfiguration(n, registry, initialId) ==>
                && (ok <==> grown && data != Null)
                && (ok ==> && initialized && nScenes == n && scenes == registry.value
                           && stack == [SceneInstance(initialId, data)]
                           && created == old(created) + [SceneInstance(initialId, data)])
                && (!ok ==> && !initialized && nScenes == 0 && scenes == [] && stack == []
                            && created == old(created))
                && trace == old(trace) + if grown then [Initialize(initialId, data)] else []
      ensures old(Accounted()) ==> Accounted()
      ensures old(Logged()) ==> Logged()
    {
      if initialized {
        return true;
      }
      if n <= 0 || registry.None? || initialId < 0 || initialId >= n {
        return false;
      }
      var valid := CheckDescriptors(registry.value, n);
      if !valid {
        return false;
      }
      initialized, nScenes, scenes := true, n, registry.value;
      ok := PushScene(initialId, grown, data);
      if !ok {
        initialized, nScenes, scenes := false, 0, [];
      }
    }


    /**
     The resume cascade of a pop request, run on the stack `PopScene` left:
     while there is a top scene with a `reinitialize` hook and that hook fails,
     pop the scene. `whole` is any stack of which the current one is the
     bottom part, such as the stack before the pop, so that heights and the
     `resumes` positions are read on it.
     */
    method ResumeCascade(ghost whole: seq<SceneInstance>, resumes: nat -> bool)
      requires Valid() && initialized && |stack| <= |whole| && stack == whole[..|stack|]
      modifies this
      ensures Valid() && initialized && nScenes == old(nScenes) && scenes == old(scenes)
      ensures |stack| == Kept(whole, |old(stack)|, scenes, resumes) && stack == whole[..|stack|]
      ensures created == old(created)
      ensures terminated == old(terminated) + TopDown(whole, |stack|, |old(stack)|)
      ensures trace == old(trace) + ResumeEvents(whole, |old(stack)|, scenes, resumes)
      ensures old(Accounted()) ==> Accounted()
      ensures old(Logged()) ==> Logged()
    {
      ghost var h0 := |stack|;
      ghost var final := Kept(whole, h0, scenes, resumes);
      ghost var finalTrace := trace + ResumeEvents(whole, h0, scenes, resumes);
      var more := IsNotEmpty();
      while more
        invariant Valid() && initialized && nScenes == old(nScenes) && scenes == old(scenes)
        invariant created == old(created)
        invariant |stack| <= h0 && stack == whole[..|stack|]
        invariant terminated == old(terminated) + TopDown(whole, |stack|, h0)
        invariant more ==> stack != []
        invariant more ==> Kept(whole, |stack|, scenes, resumes) == final
        invariant more ==> trace + ResumeEvents(whole, |stack|, scenes, resumes) == finalTrace
        invariant !more ==> |stack| == final && trace == finalTrace
        decreases |stack|, more
      {
        var k := |stack| - 1;
        var top := stack[k];
        CascadeStep(whole, |stack|, h0, terminated, old(terminated), trace, scenes, resumes, final, finalTrace);
        var reinit := true;
        if scenes[top.id].hasReinitialize {
          reinit := resumes(k);
          trace := trace + [Reinitialize(top, reinit)];
          if !reinit {
            PopScene();
          }
        }
        more := IsNotEmpty() && !reinit;
      }
      if old(Accounted()) {
        BalancedRemoved(created, old(terminated), whole, |stack|, h0);
      }
      if old(Logged()) {
        ResumeLogs(old(trace), old(created), old(terminated), whole, h0, scenes, resumes, trace, terminated);
      }
    }

    /**
     The pop request of execute_top_scene: pop the scene that asked for it,
     then run the resume cascade on what is left, starting one below it.
     */
    method PopAndResume(resumes: nat -> bool)
      requires Valid() && initialized && stack != []
      modifies this
      ensures Valid() && initialized && nScenes == old(nScenes) && scenes == old(scenes)
      ensures PoppedAndResumed(old(stack), stack, old(terminated), terminated, old(trace), trace, scenes, resumes)
      ensures created == old(created)
      ensures old(Accounted()) ==> Accounted()
      ensures old(Logged()) ==> Logged()
    {
      ghost var whole := stack;
      PopScene();
      if old(Logged()) {
        TerminateLogs(old(trace), old(created), old(terminated), whole[|whole| - 1], trace, created, terminated);
      }
      if old(Accounted()) {
        BalancedPop(old(created), old(terminated), whole);
      }
      ghost var midTerminated, midTrace := terminated, trace;
      ResumeCascade(whole, resumes);
      KeptStops(whole, |whole| - 1, scenes, resumes);
      PopThenResume(whole, |stack|, old(terminated), midTerminated, terminated);
    }

    /**
     execute_top_scene: run the top scene's `execute`, whose return value is
     `result`, and act on it. A pop request pops the top and runs the resume
     cascade (`resumes` gives the `reinitialize` outcomes); a push request
     pushes that id (`grown` and `data` are the push's reallocation and
     `initialize` outcomes) and reports the push's success; an invalid value
     reports failure and leaves the stack alone. Without a live scene nothing
     is called and failure is reported.
     */
    method ExecuteTopScene(result: int, resumes: nat -> bool, grown: bool, data: Handle) returns (ok: bool)
      requires Valid()
      modifies this
      ensures Valid()
      ensures initialized == old(initialized) && nScenes == old(nScenes) && scenes == old(scenes)
      ensures old(stack) == [] ==>
                && !ok && stack == old(stack) && trace == old(trace)
                && created == old(created) && terminated == old(terminated)
      ensures old(stack) != [] && Classify(result, nScenes).Pop? ==>
                && ok && created == old(created)
                && PoppedAndResumed(old(stack), stack, old(terminated), terminated,
                                    old(trace) + [Execute(old(stack)[|old(stack)| - 1], result)], trace, scenes, resumes)
      ensures old(stack) != [] && Classify(result, nScenes).Push? ==>
                var top := old(stack)[|old(stack)| - 1];
                && (ok <==> grown && data != Null)
                && stack == (if ok then old(stack) + [SceneInstance(result, data)] else old(stack))
                && created == (if ok then old(created) + [SceneInstance(result, data)] else old(created))
                && terminated == old(terminated)
                && trace == old(trace) + [Execute(top, result)] + (if grown then [Initialize(result, data)] else [])
      ensures old(stack) != [] && Classify(result, nScenes).Invalid? ==>
                && !ok && stack == old(stack) && created == old(created) && terminated == old(terminated)
                && trace == old(trace) + [Execute(old(stack)[|old(stack)| - 1], result)]
      ensures old(Accounted()) ==> Accounted()
      ensures old(Logged()) ==> Logged()
    {
      if !initialized {
        return false;
      }
      if IsEmpty() {
        return false;
      }
      var top := stack[|stack| - 1];
      trace := trace + [Execute(top, result)];
      if old(Logged()) {
        ExecuteLogs(old(trace), old(created), old(terminated), top, result);
      }
      match Classify(result, nScenes)
      case Pop =>
        PopAndResume(resumes);
        ok := true;
      case Push(id) =>
        ok := PushScene(id, grown, data);
      case Invalid(_) =>
        ok := false;
    }

    /**
     terminate_scene_manager: pop and terminate every scene, top to bottom,
     then forget the registry. On an uninitialized manager nothing happens.
     */
    method TerminateSceneManager()
      requires Valid()
      modifies this
      ensures Valid()
      ensures !initialized && nScenes == 0 && scenes == [] && stack == []
      ensures created == old(created)
      ensures terminated == old(terminated) + TopDown(old(stack), 0, |old(stack)|)
      ensures trace == old(trace) + Unwind(old(stack), 0, |old(stack)|)
      ensures !old(initialized) ==> trace == old(trace) && terminated == old(terminated)
      ensures old(Accounted()) ==> Accounted() && forall x :: Count(created, x) == Count(terminated, x)
      ensures old(Logged()) ==> Logged()
    {
      if initialized {
        while IsNotEmpty()
          invariant Valid() && initialized
          invariant created == old(created)
          invariant |stack| <= |old(stack)| && stack == old(stack)[..|stack|]
          invariant terminated == old(terminated) + TopDown(old(stack), |stack|, |old(stack)|)
          invariant trace == old(trace) + Unwind(old(stack), |stack|, |old(stack)|)
          decreases |stack|
        {
          assert stack[..|stack| - 1] == old(stack)[..|stack| - 1];
          PopScene();
        }
        initialized, nScenes, scenes := false, 0, [];
      }
      if old(Accounted()) {
        assert old(stack)[..|old(stack)|] == old(stack);
        BalancedRemoved(created, old(terminated), old(stack), 0, |old(stack)|);
      }
      if old(Logged()) {
        UnwindLogs(old(trace), old(created), old(terminated), old(stack), 0, |old(stack)|);
      }
    }

    /**
     send_critical_error_signal: the same unwinding as terminate; `error` and
     `description` only choose whether a diagnostic is written.
     */
    method SendCriticalErrorSignal(error: int, description: Option<string>)
      requires Valid()
      modifies this
      ensures Valid()
      ensures !initialized && nScenes == 0 && scenes == [] && stack == []
      ensures created == old(created)
      ensures terminated == old(terminated) + TopDown(old(stack), 0, |old(stack)|)
      ensures trace == old(trace) + Unwind(old(stack), 0, |old(stack)|)
      ensures !old(initialized) ==> trace == old(trace) && terminated == old(terminated)
      ensures old(Accounted()) ==> Accounted() && forall x :: Count(created, x) == Count(terminated, x)
      ensures old(Logged()) ==> Logged()
    {
      TerminateSceneManager();
    }
  }
}
