/** `ensureNet`: lazy initialisation of the TensorFlow.js backend and the
    BodyPix network, cached in three refs of the page (`tfReadyRef`,
    `bodyPixModuleRef`, `netRef`, plus `tfModuleRef`). Each awaited library
    call is an abstract step whose outcome an `InitOracle` supplies. */
module ModelInit {
  import opened Common

  /** The fixed options passed to `bodyPix.load`. */
  datatype NetConfig = NetConfig(architecture: string, outputStride: nat, multiplier: real, quantBytes: nat)

  const LoadConfig := NetConfig("MobileNetV1", 16, 0.75, 2)

  /** An opaque handle to a loaded BodyPix network. */
  datatype Net = Net(id: nat)

  /** How one awaited call turns out: it resolves, or it throws. */
  datatype Attempt = Completes | Throws(err: Thrown)

  datatype LoadAttempt = Loaded(net: Net) | LoadThrows(err: Thrown)

  /** The outcome each awaited call of one `ensureNet` call would have, if
      the call reaches it. */
  datatype InitOracle = InitOracle(
    importTf: Attempt,
    importWebglBackend: Attempt,
    setWebgl: Attempt,
    setCpu: Attempt,
    ready: Attempt,
    importBodyPix: Attempt,
    load: LoadAttempt)

  /** The library calls `ensureNet` performs, in order. */
  datatype Action =
    | ImportTf
    | ImportWebglBackend
    | SetBackend(name: string)
    | Ready
    | ImportBodyPix
    | Load(config: NetConfig)

  /** The cached refs: whether the tfjs module and the BodyPix module have
      been imported, whether the backend is ready, and the loaded network. */
  datatype Refs = Refs(tfModule: bool, tfReady: bool, bodyPixModule: bool, net: Option<Net>)
  {
    /** What the refs can look like between calls: the backend is ready only
        with the tfjs module imported, BodyPix is imported only after the
        backend is ready, and a network exists only once BodyPix is there. */
    predicate Valid()
    {
      && (tfReady ==> tfModule)
      && (bodyPixModule ==> tfReady)
      && (net.Some? ==> bodyPixModule)
    }
  }

  const InitialRefs := Refs(false, false, false, None)

  /** The state after one stage: the refs, the error it threw (if any), and
      the calls it made. */
  datatype Stage = Stage(refs: Refs, failure: Option<Thrown>, actions: seq<Action>)

  datatype Outcome = Outcome(refs: Refs, result: Result<Net, Thrown>, actions: seq<Action>)

  /** `setBackend("webgl")`, falling back to `setBackend("cpu")` only when it
      throws; an error of the fallback escapes. */
  function SelectBackend(o: InitOracle): (s: (Option<Thrown>, seq<Action>))
    ensures 1 <= |s.1| <= 2 && s.1[0] == SetBackend("webgl")
    ensures |s.1| == 2 <==> o.setWebgl.Throws?
    ensures s.0.Some? <==> o.setWebgl.Throws? && o.setCpu.Throws?
    ensures s.0.Some? ==> s.0.value == o.setCpu.err
  {
    if o.setWebgl.Completes? then (None, [SetBackend("webgl")])
    else if o.setCpu.Throws? then (Some(o.setCpu.err), [SetBackend("webgl"), SetBackend("cpu")])
    else (None, [SetBackend("webgl"), SetBackend("cpu")])
  }

  /** Lines 38-48: the backend block, skipped once `tfReadyRef` is set. */
  function BackendStage(refs: Refs, o: InitOracle): (s: Stage)
  {
    if refs.tfReady then Stage(refs, None, [])
    else if o.importTf.Throws? then Stage(refs, Some(o.importTf.err), [ImportTf])
    else
      var imported := refs.(tfModule := true);
      if o.importWebglBackend.Throws? then
        Stage(imported, Some(o.importWebglBackend.err), [ImportTf, ImportWebglBackend])
      else
        var (backendFailure, backendCalls) := SelectBackend(o);
        var calls := [ImportTf, ImportWebglBackend] + backendCalls;
        if backendFailure.Some? then Stage(imported, backendFailure, calls)
        else if o.ready.Throws? then Stage(imported, Some(o.ready.err), calls + [Ready])
        else Stage(imported.(tfReady := true), None, calls + [Ready])
  }

  /** Lines 49-51: import BodyPix unless it is already cached. */
  function BodyPixStage(refs: Refs, o: InitOracle): (s: Stage)
  {
    if refs.bodyPixModule then Stage(refs, None, [])
    else if o.importBodyPix.Throws? then Stage(refs, Some(o.importBodyPix.err), [ImportBodyPix])
    else Stage(refs.(bodyPixModule := true), None, [ImportBodyPix])
  }

  /** Lines 52-59: load the network unless it is already cached. */
  function LoadStage(refs: Refs, o: InitOracle): (s: Stage)
  {
    if refs.net.Some? then Stage(refs, None, [])
    else if o.load.LoadThrows? then Stage(refs, Some(o.load.err), [Load(LoadConfig)])
    else Stage(refs.(net := Some(o.load.net)), None, [Load(LoadConfig)])
  }

  /** The whole of `ensureNet`: the three stages in order, stopping at the
      first one that throws; on success the cached network is returned. */
  function EnsureNetSpec(refs: Refs, o: InitOracle): (out: Outcome)
  {
    var s1 := BackendStage(refs, o);
    if s1.failure.Some? then Outcome(s1.refs, Err(s1.failure.value), s1.actions)
    else
      var s2 := BodyPixStage(s1.refs, o);
      if s2.failure.Some? then Outcome(s2.refs, Err(s2.failure.value), s1.actions + s2.actions)
      else
        var s3 := LoadStage(s2.refs, o);
        var actions := s1.actions + s2.actions + s3.actions;
        if s3.failure.Some? then Outcome(s3.refs, Err(s3.failure.value), actions)
        else Outcome(s3.refs, Ok(s3.refs.net.value), actions)
  }

  /** Every call keeps the refs in a shape a sequence of calls can produce. */
  lemma EnsureNetKeepsRefsValid(refs: Refs, o: InitOracle)
    requires refs.Valid()
    ensures EnsureNetSpec(refs, o).refs.Valid()
  {
  }

  /** A successful call returns the network now held in `netRef`, and leaves
      the backend ready and BodyPix imported. */
  lemma SuccessCachesNet(refs: Refs, o: InitOracle)
    ensures var out := EnsureNetSpec(refs, o);
            out.result.Ok? ==>
              && out.refs.net == Some(out.result.value)
              && out.refs.tfReady && out.refs.bodyPixModule
  {
  }

  /** Once a call has succeeded, every later call, whatever its library
      calls would do, performs no call at all and returns the same handle. */
  lemma IdempotentAfterSuccess(refs: Refs, o: InitOracle, later: InitOracle)
    ensures var out := EnsureNetSpec(refs, o);
            out.result.Ok? ==> EnsureNetSpec(out.refs, later) == Outcome(out.refs, out.result, [])
  {
  }

  /** `setBackend("cpu")` is called exactly when the backend block runs, both
      imports resolve and `setBackend("webgl")` throws; it always comes right
      after the webgl attempt. */
  lemma CpuOnlyAfterWebglFails(refs: Refs, o: InitOracle)
    ensures var acts := EnsureNetSpec(refs, o).actions;
            SetBackend("cpu") in acts
            <==> !refs.tfReady && o.importTf.Completes? && o.importWebglBackend.Completes? && o.setWebgl.Throws?
    ensures var acts := EnsureNetSpec(refs, o).actions;
            forall k :: 0 <= k < |acts| && acts[k] == SetBackend("cpu") ==> k > 0 && acts[k - 1] == SetBackend("webgl")
  {
    var s1 := BackendStage(refs, o);
    var s2 := BodyPixStage(s1.refs, o);
    var s3 := LoadStage(s2.refs, o);
    var rest := if s1.failure.Some? then [] else s2.actions + (if s2.failure.Some? then [] else s3.actions);
    assert EnsureNetSpec(refs, o).actions == s1.actions + rest;
    assert SetBackend("cpu") !in rest;
    BackendStageCpu(refs, o);
  }

  /** The backend stage alone: its calls hold "cpu" exactly under the fallback
      condition, and only right after "webgl". */
  lemma BackendStageCpu(refs: Refs, o: InitOracle)
    ensures var acts := BackendStage(refs, o).actions;
            SetBackend("cpu") in acts
            <==> !refs.tfReady && o.importTf.Completes? && o.importWebglBackend.Completes? && o.setWebgl.Throws?
    ensures var acts := BackendStage(refs, o).actions;
            forall k :: 0 <= k < |acts| && acts[k] == SetBackend("cpu") ==> k > 0 && acts[k - 1] == SetBackend("webgl")
  {
  }

  /** `tfReadyRef` turns true only through a backend that was set without
      throwing followed by a `ready()` that resolved. */
  lemma ReadyOnlyAfterBackendAndReady(refs: Refs, o: InitOracle)
    ensures var out := EnsureNetSpec(refs, o);
            !refs.tfReady && out.refs.tfReady ==>
              && o.importTf.Completes? && o.importWebglBackend.Completes?
              && (o.setWebgl.Completes? || o.setCpu.Completes?)
              && o.ready.Completes?
              && Ready in out.actions
  {
  }

  /** When both backends fail the call throws the cpu attempt's error, the
      ready flag stays false and nothing is loaded; the next call starts the
      backend block again from the tfjs import. */
  lemma BothBackendsFailThenRetry(refs: Refs, o: InitOracle, later: InitOracle)
    requires !refs.tfReady && refs.net.None?
    requires o.importTf.Completes? && o.importWebglBackend.Completes?
    requires o.setWebgl.Throws? && o.setCpu.Throws?
    ensures var out := EnsureNetSpec(refs, o);
            && out.result == Err(o.setCpu.err)
            && !out.refs.tfReady && out.refs.net.None?
            && out.actions == [ImportTf, ImportWebglBackend, SetBackend("webgl"), SetBackend("cpu")]
            && EnsureNetSpec(out.refs, later).actions[0] == ImportTf
  {
  }

  /** The page's refs: the model keeps them in one object whose methods change
      them in place, as the `useRef` boxes are. */
  class ModelManager {
    var tfModule: bool
    var tfReady: bool
    var bodyPixModule: bool
    var net: Option<Net>

    function Cached(): Refs
      reads this
    {
      Refs(tfModule, tfReady, bodyPixModule, net)
    }

    /** The refs as `useRef` creates them: all empty. */
    constructor ()
      ensures Cached() == InitialRefs
    {
      tfModule, tfReady, bodyPixModule, net := false, false, false, None;
    }

    /** `ensureNet`: returns the network or the error one of its awaited
        calls threw, and the library calls it made. */
    method EnsureNet(o: InitOracle) returns (result: Result<Net, Thrown>, actions: seq<Action>)
      modifies this
      ensures Outcome(Cached(), result, actions) == EnsureNetSpec(old(Cached()), o)
    {
      var failure, calls := RunBackendStage(o);
      actions := calls;
      if failure.Some? {
        return Err(failure.value), actions;
      }
      failure, calls := RunBodyPixStage(o);
      actions := actions + calls;
      if failure.Some? {
        return Err(failure.value), actions;
      }
      failure, calls := RunLoadStage(o);
      actions := actions + calls;
      if failure.Some? {
        return Err(failure.value), actions;
      }
      result := Ok(net.value);
    }

    /** Lines 38-48: import tfjs and the webgl backend, set the backend with
        the cpu fallback, and wait for `ready()`, unless the backend is ready. */
    method RunBackendStage(o: InitOracle) returns (failure: Option<Thrown>, calls: seq<Action>)
      modifies this
      ensures Stage(Cached(), failure, calls) == BackendStage(old(Cached()), o)
    {
      failure, calls := None, [];
      if tfReady {
        return;
      }
      calls := [ImportTf];
      if o.importTf.Throws? {
        return Some(o.importTf.err), calls;
      }
      tfModule := true;
      calls := calls + [ImportWebglBackend];
      if o.importWebglBackend.Throws? {
        return Some(o.importWebglBackend.err), calls;
      }
      calls := calls + [SetBackend("webgl")];
      if o.setWebgl.Throws? {
        calls := calls + [SetBackend("cpu")];
        if o.setCpu.Throws? {
          return Some(o.setCpu.err), calls;
        }
      }
      calls := calls + [Ready];
      if o.ready.Throws? {
        return Some(o.ready.err), calls;
      }
      tfReady := true;
    }

    /** Lines 49-51: import BodyPix unless it is already cached. */
    method RunBodyPixStage(o: InitOracle) returns (failure: Option<Thrown>, calls: seq<Action>)
      modifies this
      ensures Stage(Cached(), failure, calls) == BodyPixStage(old(Cached()), o)
    {
      failure, calls := None, [];
      if !bodyPixModule {
        calls := [ImportBodyPix];
        if o.importBodyPix.Throws? {
          return Some(o.importBodyPix.err), calls;
        }
        bodyPixModule := true;
      }
    }

    /** Lines 52-59: load the network unless it is already cached. */
    method RunLoadStage(o: InitOracle) returns (failure: Option<Thrown>, calls: seq<Action>)
      modifies this
      ensures Stage(Cached(), failure, calls) == LoadStage(old(Cached()), o)
    {
      failure, calls := None, [];
      if net.None? {
        calls := [Load(LoadConfig)];
        if o.load.LoadThrows? {
          return Some(o.load.err), calls;
        }
        net := Some(o.load.net);
      }
    }
  }
}
