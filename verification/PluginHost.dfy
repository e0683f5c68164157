/** The plugin lifecycle. The host object reacts to load, create, start, stop and unload calls in any
    order; whether the library opens, its descriptor is usable, create and start succeed is up to the
    plugin. The callbacks it makes always follow one life story per loaded library. */
module PluginHost {
  import opened Options

  datatype Callback = DlOpen | CreateFailed | CreateOk | StartFailed | StartOk | Stop | Destroy | DlClose
  datatype Phase = Closed | Loaded | Created | Started | Destroyed
  datatype Error = OpenFailed | NoSymbol | NullEntry | WrongAbi | Incomplete | NoPlugin | AlreadyCreated
                 | CreateError | NotCreated | StartError

  /** The story of one library: open, any failed creates, at most one successful create, start and stop
      alternating, one destroy if created, close. */
  function Follow(p: Phase, c: Callback): Option<Phase> {
    match (p, c)
    case (Closed, DlOpen) => Some(Loaded)
    case (Loaded, CreateFailed) => Some(Loaded)
    case (Loaded, CreateOk) => Some(Created)
    case (Loaded, DlClose) => Some(Closed)
    case (Created, StartFailed) => Some(Created)
    case (Created, StartOk) => Some(Started)
    case (Created, Destroy) => Some(Destroyed)
    case (Started, Stop) => Some(Created)
    case (Destroyed, DlClose) => Some(Closed)
    case _ => None
  }

  /** Where a sequence of callbacks leads from no library at all; None if it breaks the story. */
  function PhaseAfter(trace: seq<Callback>): Option<Phase> {
    if trace == [] then Some(Closed)
    else
      match PhaseAfter(trace[..|trace| - 1])
      case None => None
      case Some(p) => Follow(p, trace[|trace| - 1])
  }

  function Count(trace: seq<Callback>, c: Callback): nat {
    if trace == [] then 0 else Count(trace[..|trace| - 1], c) + if trace[|trace| - 1] == c then 1 else 0
  }

  lemma OneMore(trace: seq<Callback>, c: Callback)
    ensures PhaseAfter(trace + [c]) == match PhaseAfter(trace) case None => None case Some(p) => Follow(p, c)
    ensures Count(trace + [c], DlOpen) == Count(trace, DlOpen) + if c == DlOpen then 1 else 0
  {
    assert (trace + [c])[..|trace|] == trace;
  }

  /** In any story told so far each open library accounts for one open without a close, each live
      instance for one create without a destroy, each running one for one start without a stop; so once
      everything is closed they all match. */
  lemma {:induction false} StoryBalances(trace: seq<Callback>)
    requires PhaseAfter(trace).Some?
    ensures var p := PhaseAfter(trace).value;
            && Count(trace, DlOpen) == Count(trace, DlClose) + (if p == Closed then 0 else 1)
            && Count(trace, CreateOk) == Count(trace, Destroy) + (if p == Created || p == Started then 1 else 0)
            && Count(trace, StartOk) == Count(trace, Stop) + (if p == Started then 1 else 0)
  {
    if trace != [] {
      StoryBalances(trace[..|trace| - 1]);
    }
  }

  /** Once a library is closed no callback occurs until another is opened, and an instance is never used
      again after its destroy. */
  lemma {:induction false} NothingAfterClose(trace: seq<Callback>, k: nat)
    requires PhaseAfter(trace).Some? && k + 1 < |trace|
    ensures trace[k] == DlClose ==> trace[k + 1] == DlOpen
    ensures trace[k] == Destroy ==> trace[k + 1] == DlClose
    ensures trace[k] == StartOk ==> trace[k + 1] == Stop
  {
    PrefixLegal(trace, k + 2);
    var upTo := trace[..k + 2];
    assert upTo[..|upTo| - 1] == trace[..k + 1] && trace[..k + 1][..k] == trace[..k];
  }

  lemma {:induction false} PrefixLegal(trace: seq<Callback>, k: nat)
    requires PhaseAfter(trace).Some? && k <= |trace|
    ensures PhaseAfter(trace[..k]).Some?
  {
    if k == |trace| {
      assert trace[..k] == trace;
    } else {
      PrefixLegal(trace[..|trace| - 1], k);
      assert trace[..|trace| - 1][..k] == trace[..k];
    }
  }

  const ABI_VERSION := 1

  /** What a plugin's entry point returns: the ABI it was built for, and which of its five entries are filled in. */
  datatype Descriptor = Descriptor(abi: int, name: bool, create: bool, start: bool, stop: bool, destroy: bool)

  /** How a library reacts to being loaded. */
  datatype Library = Library(opens: bool, symbol: bool, entry: Option<Descriptor>)

  predicate Usable(lib: Library) {
    lib.opens && lib.symbol && lib.entry == Some(Descriptor(1, true, true, true, true, true))
  }

  /** The host's calls, with what the plugin makes of each. */
  datatype HostOp = Load(lib: Library) | Create(ok: bool) | Start(rc: int) | StopOp | Unload

  /** How many of the loads opened their library. */
  function Opens(ops: seq<HostOp>): nat {
    if ops == [] then 0
    else Opens(ops[..|ops| - 1]) + if ops[|ops| - 1].Load? && ops[|ops| - 1].lib.opens then 1 else 0
  }

  class PluginHost {
    var handle: bool
    var plugin: bool
    var instance: bool
    var started: bool
    ghost var trace: seq<Callback>

    ghost function PhaseNow(): Phase
      reads this
    {
      if started then Started else if instance then Created else if handle then Loaded else Closed
    }

    /** Between calls the fields agree with the story told so far. */
    ghost predicate Valid()
      reads this
    {
      && (started ==> instance) && (instance ==> plugin) && (plugin ==> handle)
      && PhaseAfter(trace) == Some(PhaseNow())
    }

    constructor ()
      ensures Valid() && trace == [] && !handle
    {
      handle, plugin, instance, started, trace := false, false, false, false, [];
    }

    method StopPlugin()
      requires Valid()
      modifies this
      ensures Valid() && !started && handle == old(handle) && plugin == old(plugin) && instance == old(instance)
      ensures Count(trace, DlOpen) == Count(old(trace), DlOpen)
      ensures trace == if old(started) then old(trace) + [Stop] else old(trace)
    {
      if instance && started {
        OneMore(trace, Stop);
        trace := trace + [Stop];
        started := false;
      }
    }

    /** Also what the destructor does. */
    method UnloadPlugin()
      requires Valid()
      modifies this
      ensures Valid() && !handle && PhaseNow() == Closed && Count(trace, DlOpen) == Count(old(trace), DlOpen)
      ensures trace == old(trace) + (if old(started) then [Stop] else []) + (if old(instance) then [Destroy] else [])
                       + (if old(handle) then [DlClose] else [])
    {
      hide PhaseAfter, Count;
      StopPlugin();
      if instance {
        OneMore(trace, Destroy);
        trace := trace + [Destroy];
        instance := false;
      }
      plugin := false;
      if handle {
        OneMore(trace, DlClose);
        trace := trace + [DlClose];
        handle := false;
      }
    }

    /** Opens a library and checks its descriptor; a library that fails a check is closed again. */
    method LoadPlugin(lib: Library) returns (err: Option<Error>)
      requires Valid()
      modifies this
      ensures Valid() && (handle <==> err.None?) && (plugin <==> handle) && !instance
      ensures PhaseNow() == if err.None? then Loaded else Closed
      ensures err.None? <==> Usable(lib)
      ensures Count(trace, DlOpen) == Count(old(trace), DlOpen) + if lib.opens then 1 else 0
      ensures err == Some(OpenFailed) <==> !lib.opens
      ensures err == Some(NoSymbol) <==> lib.opens && !lib.symbol
      ensures err == Some(NullEntry) <==> lib.opens && lib.symbol && lib.entry.None?
      ensures err == Some(WrongAbi) <==> lib.opens && lib.symbol && lib.entry.Some? && lib.entry.value.abi != 1
      ensures trace == old(trace) + (if old(started) then [Stop] else []) + (if old(instance) then [Destroy] else [])
                       + (if old(handle) then [DlClose] else [])
                       + (if Usable(lib) then [DlOpen] else if lib.opens then [DlOpen, DlClose] else [])
    {
      hide PhaseAfter, Count;
      UnloadPlugin();
      ghost var start := trace;
      if !lib.opens {
        return Some(OpenFailed);
      }
      OneMore(trace, DlOpen);
      trace := trace + [DlOpen];
      handle := true;
      if !lib.symbol {
        UnloadPlugin();
        Reclosed(start, trace);
        return Some(NoSymbol);
      }
      if lib.entry.None? {
        UnloadPlugin();
        Reclosed(start, trace);
        return Some(NullEntry);
      }
      var p := lib.entry.value;
      if p.abi != ABI_VERSION {
        UnloadPlugin();
        Reclosed(start, trace);
        return Some(WrongAbi);
      }
      if !p.name || !p.create || !p.start || !p.stop || !p.destroy {
        UnloadPlugin();
        Reclosed(start, trace);
        return Some(Incomplete);
      }
      plugin := true;
      return None;
    }

    method CreateInstance(ok: bool) returns (err: Option<Error>)
      requires Valid()
      modifies this
      ensures Valid() && Count(trace, DlOpen) == Count(old(trace), DlOpen)
      ensures handle == old(handle) && plugin == old(plugin) && started == old(started)
      ensures !old(plugin) ==> err == Some(NoPlugin) && trace == old(trace) && instance == old(instance)
      ensures old(instance) ==> err == Some(AlreadyCreated) && trace == old(trace) && instance == old(instance)
      ensures old(plugin) && !old(instance) ==>
                && instance == ok && err.None? == ok && (!ok ==> err == Some(CreateError))
                && trace == old(trace) + [if ok then CreateOk else CreateFailed]
    {
      if !plugin {
        return Some(NoPlugin);
      }
      if instance {
        return Some(AlreadyCreated);
      }
      OneMore(trace, if ok then CreateOk else CreateFailed);
      trace := trace + [if ok then CreateOk else CreateFailed];
      instance := ok;
      return if ok then None else Some(CreateError);
    }

    method StartInstance(rc: int) returns (err: Option<Error>)
      requires Valid()
      modifies this
      ensures Valid() && Count(trace, DlOpen) == Count(old(trace), DlOpen)
      ensures handle == old(handle) && plugin == old(plugin) && instance == old(instance)
      ensures !old(instance) ==> err == Some(NotCreated) && trace == old(trace) && started == old(started)
      ensures old(started) ==> err == None && trace == old(trace) && started == old(started)
      ensures old(instance) && !old(started) ==>
                && started == (rc == 0) && err.None? == (rc == 0) && (rc != 0 ==> err == Some(StartError))
                && trace == old(trace) + [if rc == 0 then StartOk else StartFailed]
    {
      if !instance {
        return Some(NotCreated);
      }
      if started {
        return None;
      }
      OneMore(trace, if rc == 0 then StartOk else StartFailed);
      trace := trace + [if rc == 0 then StartOk else StartFailed];
      if rc != 0 {
        return Some(StartError);
      }
      started := true;
      return None;
    }

    /** Any sequence of host calls, then the destructor: every library that could be opened was opened, once, and
        has been closed, every instance destroyed, every start stopped, and the story was never broken on
        the way. */
    method Lifetime(ops: seq<HostOp>)
      requires Valid() && trace == []
      modifies this
      ensures PhaseAfter(trace) == Some(Closed)
      ensures Count(trace, DlOpen) == Count(trace, DlClose) == Opens(ops)
      ensures Count(trace, CreateOk) == Count(trace, Destroy) && Count(trace, StartOk) == Count(trace, Stop)
    {
      assert Count(trace, DlOpen) == 0;
      hide PhaseAfter, Count;
      for i := 0 to |ops|
        invariant Valid() && Count(trace, DlOpen) == Opens(ops[..i])
      {
        assert ops[..i + 1][..i] == ops[..i];
        match ops[i] {
          case Load(lib) => var e := LoadPlugin(lib);
          case Create(ok) => var e := CreateInstance(ok);
          case Start(rc) => var e := StartInstance(rc);
          case StopOp => StopPlugin();
          case Unload => UnloadPlugin();
        }
      }
      UnloadPlugin();
      assert ops[..|ops|] == ops;
      StoryBalances(trace);
    }
  }

  /** Nothing but the closing of what was just opened. */
  lemma Reclosed(start: seq<Callback>, trace: seq<Callback>)
    requires trace == start + [DlOpen] + [] + [] + [DlClose]
    ensures trace == start + [DlOpen, DlClose]
  {
  }
}
