/**
  The tracking script with an automatic device choice: its mouse callback,
  its main loop over frames and pointer events, and how it places the
  detector on a device.
 */
module Count3 {
  import opened Session
  import opened SessionLemmas
  import opened Engine

  /**
    The mouse callback: a button press, a pointer move and a button release
    go to the session's matching operation; every other kind of event is
    ignored.
   */
  method MouseCallback(c: RegionCounter, e: MouseEvent)
    requires c.Valid()
    modifies c, c.regions
    ensures c.Valid() && c.regions == old(c.regions)
    ensures c.Model() == OnMouse(old(c.Model()), e)
  {
    match e
    case LButtonDown(x, y) => c.Press(x, y);
    case MouseMove(x, y) => c.Move(x, y);
    case LButtonUp(_, _) => c.Release();
    case OtherMouseEvent =>
  }

  /** One input of the main loop: a frame's tracker result, or a pointer event through the callback. */
  method Handle(c: RegionCounter, e: Event)
    requires c.Valid()
    modifies c, c.regions
    ensures c.Valid() && c.regions == old(c.regions)
    ensures c.Model() == Step(old(c.Model()), e)
  {
    match e
    case Frame(res) => c.ProcessFrame(res);
    case Mouse(m) => MouseCallback(c, m);
  }

  /**
    The main loop: tracker results of successive frames, with the pointer
    events the window delivers between them, handled in arrival order. The
    session ends in the state the whole run prescribes.
   */
  method RunEvents(c: RegionCounter, evs: seq<Event>)
    requires c.Valid()
    modifies c, c.regions
    ensures c.Valid() && c.regions == old(c.regions)
    ensures c.Model() == Run(old(c.Model()), evs)
  {
    ghost var s0 := c.Model();
    for k := 0 to |evs|
      invariant c.Valid() && c.regions == old(c.regions)
      invariant c.Model() == Run(s0, evs[..k])
    {
      Handle(c, evs[k]);
      RunSnoc(s0, evs[..k], evs[k]);
      assert evs[..k + 1] == evs[..k] + [evs[k]];
    }
    assert evs[..|evs|] == evs;
  }

  /** The whole script session: the start-up regions with nothing tracked yet, then the main loop over the inputs. */
  method RunScript(evs: seq<Event>) returns (c: RegionCounter)
    ensures c.Valid() && c.Model() == Run(Initial(), evs)
  {
    c := new RegionCounter();
    RunEvents(c, evs);
  }

  /** The "auto" setting becomes the first GPU when one is available and the CPU otherwise; any other setting is kept. */
  function ResolveDevice(device: string, cudaAvailable: bool): (d: string)
    ensures device == "auto" && cudaAvailable ==> d == "0"
    ensures device == "auto" && !cudaAvailable ==> d == "cpu"
    ensures device != "auto" ==> d == device
  {
    if device == "auto" then (if cudaAvailable then "0" else "cpu") else device
  }

  /** Placement of the detector: the first GPU for the three spellings of it, the CPU for anything else. */
  function Place(device: string): (t: Target)
    ensures t.Gpu? <==> device == "0" || device == "cuda" || device == "cuda:0"
    ensures t.Gpu? ==> t.name == "cuda:0"
  {
    if device == "0" || device == "cuda" || device == "cuda:0" then Gpu("cuda:0") else Cpu
  }

  /**
    The device the detector runs on for a given setting: the first GPU
    exactly when the setting is "auto" with a GPU available or names the
    first GPU; never any other GPU.
   */
  function SelectDevice(device: string, cudaAvailable: bool): (t: Target)
    ensures t.Gpu? <==> (device == "auto" && cudaAvailable) || device == "0" || device == "cuda" || device == "cuda:0"
    ensures t.Gpu? ==> t.name == "cuda:0"
  {
    Place(ResolveDevice(device, cudaAvailable))
  }

  /** Only the "auto" setting looks at GPU availability; any named setting is placed the same either way. */
  lemma NamedDeviceIgnoresAvailability(device: string, a: bool, b: bool)
    requires device != "auto"
    ensures SelectDevice(device, a) == SelectDevice(device, b)
  {
  }

  /** A second GPU is not recognised: "cuda:1" lands on the CPU even with a GPU available. */
  lemma SecondGpuLandsOnCpu()
    ensures SelectDevice("cuda:1", true) == Cpu
  {
  }
}
