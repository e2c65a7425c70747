/**
  The earlier tracking script. Its session is the same as in module Count3
  except that the current-region name is declared global in the mouse
  callback but never bound at start-up: until a press lands in a region, a
  pointer move or a button release fails with a name-lookup error before it
  changes anything. Its device placement has no automatic choice.
 */
module Count2 {
  import opened Session
  import opened SessionLemmas
  import opened Engine

  /** The name that the callback looks up before it has ever been bound. */
  const CURRENT_REGION: string := "current_region"

  /** What one callback does: the new session state, or the name-lookup error it raises. */
  datatype Outcome = Ok(state: State) | NameError(name: string)

  /**
    The mouse callback. With current = None the current-region name is still
    unbound: a press only binds it if some region contains the point, while a
    move or a release reads it and raises.
   */
  function Callback(s: State, e: MouseEvent): (r: Outcome)
    requires DragConsistent(s)
    ensures r.NameError? <==> s.current.None? && (e.MouseMove? || e.LButtonUp?)
    ensures r.NameError? ==> r.name == CURRENT_REGION
    ensures r.Ok? ==> r.state == OnMouse(s, e)
  {
    match e
    case LButtonDown(x, y) => Ok(Press(s, x, y))
    case MouseMove(x, y) => if s.current.None? then NameError(CURRENT_REGION) else Ok(Move(s, x, y))
    case LButtonUp(_, _) => if s.current.None? then NameError(CURRENT_REGION) else Ok(Release(s))
    case OtherMouseEvent => Ok(s)
  }

  /** One input; a frame never raises. */
  function Step2(s: State, e: Event): (r: Outcome)
    requires Inv(s)
    ensures r.NameError? <==> s.current.None? && e.Mouse? && (e.event.MouseMove? || e.event.LButtonUp?)
    ensures r.Ok? ==> r.state == Step(s, e)
  {
    match e
    case Frame(res) => Ok(ProcessFrame(s, res))
    case Mouse(m) => Callback(s, m)
  }

  /** The session after a run, and how many callbacks raised along the way. */
  datatype Trace = Trace(state: State, errors: nat)

  /**
    A run: the inputs in order. A raising callback leaves the session as it
    was, and the run goes on with the next input.
   */
  function Run2(s: State, evs: seq<Event>): (r: Trace)
    requires Inv(s)
    ensures Inv(r.state)
    decreases |evs|
  {
    if evs == [] then Trace(s, 0)
    else
      var t := Run2(s, evs[..|evs| - 1]);
      match Step2(t.state, evs[|evs| - 1])
      case Ok(u) => Trace(u, t.errors)
      case NameError(_) => Trace(t.state, t.errors + 1)
  }

  /** A raising input leaves the session where the other script's no-op branch would have left it. */
  lemma RaiseIsNoOp(s: State, e: Event)
    requires Inv(s)
    ensures Step2(s, e).NameError? ==> Step(s, e) == s
  {
  }

  /**
    The failing callbacks change nothing that the other script's no-op
    branches would have changed: over any run the session state is exactly
    the other script's.
   */
  lemma {:induction false} Run2State(s: State, evs: seq<Event>)
    requires Inv(s)
    ensures Run2(s, evs).state == Run(s, evs)
    decreases |evs|
  {
    if evs != [] {
      var init, e := evs[..|evs| - 1], evs[|evs| - 1];
      Run2State(s, init);
      var t := Run2(s, init).state;
      RaiseIsNoOp(t, e);
      RunSnoc(s, init, e);
      assert init + [e] == evs;
    }
  }

  /** Once a region has been grabbed, no callback raises any more. */
  lemma {:induction false} Run2NoErrorsOnceBound(s: State, evs: seq<Event>)
    requires Inv(s) && s.current.Some?
    ensures Run2(s, evs).errors == 0
    decreases |evs|
  {
    if evs != [] {
      var init := evs[..|evs| - 1];
      Run2NoErrorsOnceBound(s, init);
      Run2State(s, init);
    }
  }

  /** At start-up nothing is bound yet: a first pointer move raises. */
  lemma MoveBeforePressRaises(x: int, y: int)
    ensures Run2(Initial(), [Mouse(MouseMove(x, y))]).errors == 1
  {
    assert [Mouse(MouseMove(x, y))][..0] == [];
  }

  /** The mouse callback on the session object; `raised` reports the name-lookup error, which leaves the session unchanged. */
  method MouseCallback(c: RegionCounter, e: MouseEvent) returns (raised: bool)
    requires c.Valid()
    modifies c, c.regions
    ensures c.Valid() && c.regions == old(c.regions)
    ensures raised == Callback(old(c.Model()), e).NameError?
    ensures raised ==> c.Model() == old(c.Model())
    ensures !raised ==> c.Model() == Callback(old(c.Model()), e).state
  {
    raised := false;
    match e
    case LButtonDown(x, y) =>
      c.Press(x, y);
    case MouseMove(x, y) =>
      if c.current.None? {
        raised := true;
      } else {
        c.Move(x, y);
      }
    case LButtonUp(_, _) =>
      if c.current.None? {
        raised := true;
      } else {
        c.Release();
      }
    case OtherMouseEvent =>
  }

  /** The main loop over frames and pointer events; `errors` counts the callbacks that raised. */
  method RunEvents(c: RegionCounter, evs: seq<Event>) returns (errors: nat)
    requires c.Valid()
    modifies c, c.regions
    ensures c.Valid() && c.regions == old(c.regions)
    ensures Trace(c.Model(), errors) == Run2(old(c.Model()), evs)
  {
    ghost var s0 := c.Model();
    errors := 0;
    for k := 0 to |evs|
      invariant c.Valid() && c.regions == old(c.regions)
      invariant Trace(c.Model(), errors) == Run2(s0, evs[..k])
    {
      assert evs[..k + 1][..k] == evs[..k];
      match evs[k]
      case Frame(res) =>
        c.ProcessFrame(res);
      case Mouse(m) =>
        var raised := MouseCallback(c, m);
        if raised {
          errors := errors + 1;
        }
    }
    assert evs[..|evs|] == evs;
  }

  /** The whole script session from start-up; `errors` counts the callbacks that raised. */
  method RunScript(evs: seq<Event>) returns (c: RegionCounter, errors: nat)
    ensures c.Valid() && Trace(c.Model(), errors) == Run2(Initial(), evs)
  {
    c := new RegionCounter();
    errors := RunEvents(c, evs);
  }

  /** Placement of the detector: a GPU exactly for the setting "0", the CPU for anything else. */
  function Place(device: string): (t: Target)
    ensures t.Gpu? <==> device == "0"
    ensures t.Gpu? ==> t.name == "cuda"
  {
    if device == "0" then Gpu("cuda") else Cpu
  }

  /** The default setting "cpu" places on the CPU, and so do "auto" and "cuda": only "0" selects a GPU. */
  lemma OnlyZeroSelectsGpu()
    ensures Place("cpu") == Cpu && Place("auto") == Cpu && Place("cuda") == Cpu
  {
  }
}
