/** The engine thread's two states: which messages it accepts, which list it holds, and what becomes of the extensions. */
module EngineProtocol {
  import opened SegmentExtensions
  import opened SegmentTypes

  /** The engine's answer to a request. */
  datatype Reply = SeSuccess | SeCommandIgnored | SeDeletedCurrentSegment

  datatype Message =
    | Timeout
    | Start(list: SegmentList)
    | StartInternal(list: SegmentList)
    | Stop
    | StopInternal
    | ModifySegmentList(segments: seq<Segment>)
    | GotoNextSegment
    | Terminate

  /** A caller waits for the answer to these. */
  predicate IsSync(m: Message) {
    m.Start? || m.ModifySegmentList? || m.GotoNextSegment?
  }

  /** What the application sees of a run. */
  datatype Event = Started | Ended | Terminated

  /** Every run is started once, and ended or terminated once before the next one starts. */
  ghost predicate Alternates(log: seq<Event>) {
    forall i :: 0 <= i < |log| ==> (log[i].Started? <==> i % 2 == 0)
  }

  /** A list the engine can be given: distinct tags, each of which names the same command wherever it is used. */
  ghost predicate Conforms(segments: seq<Segment>, commandOf: nat -> Command) {
    && DistinctTags(segments) && Paired(segments) && OnlySetUp(segments)
    && forall i :: 0 <= i < |segments| ==> segments[i].command == commandOf(segments[i].tag)
  }

  lemma ConformsStays(a: seq<Segment>, b: seq<Segment>, commandOf: nat -> Command)
    requires Conforms(a, commandOf) && SameBits(a, b) && OnlySetUp(b)
    ensures Conforms(b, commandOf)
  {
  }

  /** The run goes on at the same segment of another list, and each segment the lists share keeps its extension. */
  ghost predicate Continues(was: seq<Segment>, wasAt: int, blank: seq<Segment>, now: seq<Segment>, at: int) {
    && 0 <= wasAt < |was| && 0 <= at < |now| && was[wasAt].tag == now[at].tag
    && SameBits(blank, now) && Inherits(was, now)
  }

  class Engine {
    const app: Application
    const commandOf: nat -> Command
    var running: bool
    var active: SegmentList?
    var startNewSegment: bool
    var runStatus: EngineRunStatus
    var log: seq<Event>
    /** All lists there are. */
    ghost var lists: set<SegmentList>

    /** The active list is the one in use, and runs start and finish in turn. */
    ghost predicate InTurn()
      reads this, lists
    {
      && Alternates(log) && (running <==> |log| % 2 == 1)
      && (forall l :: l in lists ==> Conforms(l.segments, commandOf) && TagsIn(l.segments) == l.tags)
      && (forall l :: l in lists ==> (l.inUse <==> running && l == active))
      && (running ==> active != null && active in lists && 0 <= active.curIndex <= |active.segments|)
    }

    /** Moreover, the segments of the active list own every extension that is out. */
    ghost predicate Valid()
      reads this, app, lists
    {
      && InTurn()
      && OwnReturns(app.cleaned, app.cleaners)
      && (running ==> Owning(active.segments) && Balanced(app.issued, app.cleaned, Held(active.segments)))
      && (!running ==> Balanced(app.issued, app.cleaned, multiset{}))
    }

    constructor (lists: set<SegmentList>, commandOf: nat -> Command)
      requires forall l :: l in lists ==> Conforms(l.segments, commandOf) && TagsIn(l.segments) == l.tags && !l.inUse
      ensures Valid() && !running && log == [] && this.lists == lists && this.commandOf == commandOf
      ensures fresh(app)
    {
      app := new Application();
      this.commandOf, this.lists := commandOf, lists;
      running, active, startNewSegment, runStatus, log := false, null, true, RunInvalid, [];
      new;
      assert multiset(app.cleaned) + multiset{} == Issued([]);
    }

    /** Takes a list, to run it from its first segment. */
    method Acquire(list: SegmentList)
      requires InTurn() && !running && list in lists
      modifies this, list
      ensures InTurn() && running && active == list && list.curIndex == 0 && startNewSegment
      ensures log == old(log) + [Started] && lists == old(lists) && runStatus == old(runStatus)
      ensures list.segments == old(list.segments)
    {
      running := true;
      list.inUse := true;
      active := list;
      list.curIndex := 0;
      startNewSegment := true;
      log := log + [Started];
    }

    /** Takes a list and sets it up. */
    method Begin(list: SegmentList)
      requires Valid() && !running && list in lists
      modifies this, app, list
      ensures Valid() && running && active == list && list.curIndex == 0 && startNewSegment
      ensures log == old(log) + [Started] && lists == old(lists) && app.cleaned == old(app.cleaned)
      ensures runStatus == old(runStatus) && SameBits(old(list.segments), list.segments)
    {
      Acquire(list);
      SetupAllSegments(list, app);
      SameTags(old(list.segments), list.segments);
      assert Conforms(list.segments, commandOf) by { ConformsStays(old(list.segments), list.segments, commandOf); }
    }

    /** Lets go of the active list. */
    method Release(event: Event)
      requires InTurn() && running && !event.Started?
      modifies this, active
      ensures InTurn() && !running && !old(active).inUse && old(active).curIndex == -1
      ensures log == old(log) + [event] && lists == old(lists)
      ensures runStatus == old(runStatus) && startNewSegment == old(startNewSegment)
      ensures old(active).segments == old(active.segments)
    {
      active.curIndex := -1;
      active.inUse := false;
      running := false;
      log := log + [event];
    }

    /** Cleans up the active list and lets go of it. */
    method Finish(event: Event)
      requires Valid() && running && !event.Started?
      modifies this, app, active
      ensures Valid() && !running && !old(active).inUse && old(active).curIndex == -1
      ensures log == old(log) + [event] && lists == old(lists) && app.issued == old(app.issued)
      ensures runStatus == old(runStatus) && startNewSegment == old(startNewSegment)
      ensures old(active).segments == old(active.segments)
    {
      CleanupSettlesIffOwning(app.issued, app.cleaned, app.cleaners, active.segments);
      CleanupAllSegments(active, app);
      Release(event);
    }

    /** Where the run goes on in the other list, or a negative number if the current segment is not in it. */
    method FindNewSegmentIndex(segments: seq<Segment>) returns (index: int)
      requires Valid() && running && active.curIndex < |active.segments|
      ensures -1 <= index < |segments|
      ensures index >= 0 <==> HasTag(segments, |segments|, active.segments[active.curIndex].tag)
      ensures index >= 0 ==> segments[index].tag == active.segments[active.curIndex].tag
    {
      index := FindTag(segments, active.segments[active.curIndex].tag);
    }

    /** Makes another list, which holds every extension that its segments share with the active one. */
    method HandOver(segments: seq<Segment>) returns (new_: SegmentList)
      requires Valid() && running && Conforms(segments, commandOf) && Blank(segments)
      modifies app, active
      ensures InTurn() && fresh(new_) && Conforms(new_.segments, commandOf) && TagsIn(new_.segments) == new_.tags
      ensures SameBits(segments, new_.segments) && Inherits(old(active.segments), new_.segments)
      ensures OwnReturns(app.cleaned, app.cleaners) && Owning(new_.segments)
      ensures Balanced(app.issued, app.cleaned, Held(new_.segments))
    {
      new_ := new SegmentList(segments);
      ghost var was := active.segments;
      ImportSegmentExtensions(active, new_, app);
      ConformsStays(segments, new_.segments, commandOf);
      ConformsStays(was, active.segments, commandOf);
      SameTags(segments, new_.segments);
      SameTags(was, active.segments);
    }

    /** Carries on the run with another list, which holds every extension that its segments share with the old one. */
    method Replace(segments: seq<Segment>, index: nat)
      requires Valid() && running && Conforms(segments, commandOf) && Blank(segments) && index < |segments|
      modifies this, app, active
      ensures Valid() && running && fresh(active) && lists == old(lists) + {active}
      ensures SameBits(segments, active.segments) && active.curIndex == index
      ensures Inherits(old(active.segments), active.segments) && !old(active).inUse && old(active).curIndex == -1
      ensures log == old(log) && runStatus == old(runStatus) && startNewSegment == old(startNewSegment)
    {
      var new_ := HandOver(segments);
      SwitchTo(new_, index);
    }

    /** The other list is in use instead of the active one. */
    method SwitchTo(new_: SegmentList, index: nat)
      requires InTurn() && running && new_ !in lists && Conforms(new_.segments, commandOf) && index < |new_.segments|
      requires TagsIn(new_.segments) == new_.tags
      modifies this, active, new_
      ensures InTurn() && running && active == new_ && active.curIndex == index && lists == old(lists) + {new_}
      ensures !old(active).inUse && old(active).curIndex == -1 && new_.segments == old(new_.segments)
      ensures log == old(log) && runStatus == old(runStatus) && startNewSegment == old(startNewSegment)
    {
      active.inUse := false;
      new_.inUse := true;
      active.curIndex := -1;
      active := new_;
      active.curIndex := index;
      lists := lists + {new_};
    }

    /** Replaces the running list if its current segment is in the new one too. */
    method Modify(segments: seq<Segment>) returns (status: Reply)
      requires Valid() && running && Conforms(segments, commandOf) && Blank(segments)
      requires active.curIndex < |active.segments|
      modifies this, app, active
      ensures Valid() && running && log == old(log) && old(lists) <= lists && fresh(lists - old(lists))
      ensures runStatus == old(runStatus) && startNewSegment == old(startNewSegment)
      ensures status ==
        if HasTag(segments, |segments|, old(active.segments[active.curIndex].tag)) then SeSuccess else SeDeletedCurrentSegment
      ensures status.SeSuccess? ==>
        && fresh(active) && !old(active).inUse && old(active).curIndex == -1
        && Continues(old(active.segments), old(active.curIndex), segments, active.segments, active.curIndex)
      ensures !status.SeSuccess? ==>
        && active == old(active) && active.segments == old(active.segments)
        && active.curIndex == old(active.curIndex) && app.issued == old(app.issued) && app.cleaned == old(app.cleaned)
    {
      var index := FindNewSegmentIndex(segments);
      if index < 0 { return SeDeletedCurrentSegment; }
      Replace(segments, index);
      return SeSuccess;
    }

    /** The segments of the active list have run, and it stands at `index` now. */
    method Pass(outcome: EngineRunStatus, index: nat, skipped: bool) returns (stopQueued: bool)
      requires Valid() && running && index <= |active.segments|
      modifies this, active
      ensures Valid() && running && active == old(active) && active.curIndex == index && active.segments == old(active.segments)
      ensures log == old(log) && lists == old(lists) && runStatus == outcome && (stopQueued <==> !outcome.RunContinue?)
      ensures startNewSegment == if outcome.RunContinue? then skipped else old(startNewSegment)
    {
      stopQueued := false;
      runStatus, active.curIndex := outcome, index;
      if outcome.RunContinue? {
        startNewSegment := skipped;
      } else {
        stopQueued := true;
      }
    }

    /**
     * One message. `outcome` and `index` are what the segments of the active list answer if the message makes them
     * run: how ExecuteSegments or SkipSegment ended, and the index it left behind.
     */
    method Handle(m: Message, outcome: EngineRunStatus, index: nat) returns (reply: Option<Reply>, stopQueued: bool)
      requires Valid()
      requires m.Start? || m.StartInternal? ==> m.list in lists
      requires m.ModifySegmentList? ==> Conforms(m.segments, commandOf) && Blank(m.segments)
      requires running && m.ModifySegmentList? ==> active.curIndex < |active.segments|
      requires running ==> index <= |active.segments|
      modifies this, app, lists
      ensures Valid() && old(lists) <= lists && fresh(lists - old(lists))
      ensures reply.Some? <==> IsSync(m)
      ensures !old(running) ==> !stopQueued && lists == old(lists)
      ensures !old(running) ==>
        if m.Start? || m.StartInternal? then log == old(log) + [Started] && active == m.list else log == old(log)
      ensures running && !old(running) ==> startNewSegment && active.curIndex == 0 && SameBits(old(m.list.segments), active.segments)
      ensures old(running) && (m.Timeout? || m.GotoNextSegment?) ==>
        runStatus == outcome && startNewSegment == if outcome.RunContinue? then m.GotoNextSegment? else old(startNewSegment)
      ensures !old(running) || !(m.Timeout? || m.GotoNextSegment?) ==> runStatus == old(runStatus)
      ensures (!old(running) && !running) || (old(running) && !(m.Timeout? || m.GotoNextSegment?)) ==>
        startNewSegment == old(startNewSegment)
      ensures !old(running) && reply.Some? ==> reply.value == if m.Start? then SeSuccess else SeCommandIgnored
      ensures !m.ModifySegmentList? ==> lists == old(lists)
      ensures old(running) && (m.Start? || m.StartInternal? || (m.ModifySegmentList? && reply != Some(SeSuccess))) ==>
        active == old(active) && active.segments == old(active.segments) && active.curIndex == old(active.curIndex)
      ensures old(running) ==> match m
        case Start(_) => reply == Some(SeCommandIgnored) && log == old(log) && active == old(active)
        case StartInternal(_) => log == old(log) && active == old(active)
        case Stop => log == old(log) + [Ended]
        case Terminate => log == old(log) + [Terminated]
        case StopInternal => log == old(log) + [if old(runStatus).RunEnd? then Ended else Terminated]
        case Timeout => log == old(log) && active == old(active) && active.curIndex == index
          && active.segments == old(active.segments) && (stopQueued <==> !outcome.RunContinue?)
        case GotoNextSegment => log == old(log) && active == old(active) && active.curIndex == index
          && active.segments == old(active.segments) && reply == Some(SeSuccess) && (stopQueued <==> !outcome.RunContinue?)
        case ModifySegmentList(segments) =>
          && log == old(log) && running && reply.Some?
          && reply.value ==
            (if HasTag(segments, |segments|, old(active.segments[active.curIndex].tag)) then SeSuccess else SeDeletedCurrentSegment)
          && (reply.value.SeSuccess? ==> fresh(active))
          && (reply.value.SeSuccess? ==>
              Continues(old(active.segments), old(active.curIndex), segments, active.segments, active.curIndex))
          && (!reply.value.SeSuccess? ==> active == old(active) && active.segments == old(active.segments))
          && (!reply.value.SeSuccess? ==> app.issued == old(app.issued) && app.cleaned == old(app.cleaned))
    {
      reply, stopQueued := None, false;
      match m {
        case Start(list) =>
          if running {
            reply := Some(SeCommandIgnored);
          } else {
            Begin(list);
            reply := Some(SeSuccess);
          }
        case StartInternal(list) =>
          if !running { Begin(list); }
        case Timeout =>
          if running { stopQueued := Pass(outcome, index, false); }
        case Stop =>
          if running { Finish(Ended); }
        case StopInternal =>
          if running { Finish(if runStatus.RunEnd? then Ended else Terminated); }
        case Terminate =>
          if running { Finish(Terminated); }
        case ModifySegmentList(segments) =>
          if running {
            var status := Modify(segments);
            reply := Some(status);
          } else {
            reply := Some(SeCommandIgnored);
          }
        case GotoNextSegment =>
          reply := Some(SeCommandIgnored);
          if running {
            stopQueued := Pass(outcome, index, true);
            reply := Some(SeSuccess);
          }
      }
    }
  }

  /** What somebody does with the engine: a list is started by the handle that its creator was given. */
  datatype Call =
    | StartSegmentList(handle: nat)
    | StartSegmentListFromEndCallback(handle: nat)
    | Send(message: Message)

  /** A call, and what the segments of the active list answer if it makes them run. */
  datatype Input = Input(call: Call, outcome: EngineRunStatus, index: nat)

  /** A replacement comes straight from the parser. */
  ghost predicate MayBeMade(c: Call, commandOf: nat -> Command) {
    c.Send? ==>
      && !c.message.Start? && !c.message.StartInternal?
      && (c.message.ModifySegmentList? ==> Conforms(c.message.segments, commandOf) && Blank(c.message.segments))
  }

  /**
   * What a call finds: whether a list runs, how its last pass ended, whether the next one starts a segment, which list it is
   * and at which index, and how many handles there are.
   */
  datatype Found = Found(
    running: bool, runStatus: EngineRunStatus, startNew: bool, active: SegmentList?, at: int, handles: nat)

  ghost function Now(engine: Engine, handles: nat): Found
    reads engine, engine.active
  {
    var active := if engine.running then engine.active else null;
    Found(engine.running, engine.runStatus, engine.startNewSegment, active, if active != null then active.curIndex else -1, handles)
  }

  /** The tag of the segment that the run is at. */
  function Current(f: Found): Option<nat> {
    if f.active != null && 0 <= f.at < |f.active.tags| then Some(f.active.tags[f.at]) else None
  }

  /** The list of a start is known: its handle has been given out. */
  predicate IsStart(c: Call, handles: nat) {
    !c.Send? && c.handle < handles
  }

  /** The current segment is in the replacement. */
  ghost predicate Stays(f: Found, segments: seq<Segment>) {
    Current(f).Some? && HasTag(segments, |segments|, Current(f).value)
  }

  /** What the caller is answered; nothing, if it does not wait for an answer. */
  ghost function Answer(f: Found, c: Call): Option<Reply> {
    match c
    case StartSegmentList(_) =>
      if !IsStart(c, f.handles) then None else Some(if f.running then SeCommandIgnored else SeSuccess)
    case StartSegmentListFromEndCallback(_) => None
    case Send(m) =>
      if !IsSync(m) then None
      else if !f.running then Some(SeCommandIgnored)
      else if m.ModifySegmentList? && !Stays(f, m.segments) then Some(SeDeletedCurrentSegment)
      else Some(SeSuccess)
  }

  /** What a call makes the application see: a start if no list runs, and an end if one does. */
  ghost function Effect(f: Found, c: Call): seq<Event> {
    if !f.running then if IsStart(c, f.handles) then [Started] else []
    else if !c.Send? then []
    else match c.message
      case Stop => [Ended]
      case StopInternal => [if f.runStatus.RunEnd? then Ended else Terminated]
      case Terminate => [Terminated]
      case _ => []
  }

  /**
   * What the next call finds, when `known` are the lists whose handles have been given out by then. A start makes the list
   * of its handle run from its first segment; a pass leaves the run where its segments say; a replacement adds a handle,
   * and its list goes on at the same segment; and nothing else moves a run.
   */
  ghost predicate Leads(f: Found, input: Input, f': Found, known: seq<SegmentList>) {
    && f'.running == (if f.running then Effect(f, input.call) == [] else Effect(f, input.call) != [])
    && f'.runStatus == (if f.running && RunsSegments(input.call) then input.outcome else f.runStatus)
    && f'.startNew == NextStarts(f, input)
    && f'.handles == f.handles + (if Replaces(f, input.call) then 1 else 0) && f'.handles <= |known|
    && if !f'.running then f'.active == null
       else if !f.running then f'.active == known[input.call.handle] && f'.at == 0
       else if Replaces(f, input.call) then
         && f'.active == known[f.handles] && f'.active.tags == TagsIn(input.call.message.segments)
         && Current(f') == Current(f)
       else
         && f.active != null && f'.active == f.active
         && f'.at == if !RunsSegments(input.call) then f.at
                     else if input.index <= |f.active.tags| then input.index else |f.active.tags|
  }

  /** Whether the next pass starts a segment: after a start or a skip, and not after a pass that found one that waits. */
  ghost predicate NextStarts(f: Found, input: Input) {
    if !f.running then f.startNew || IsStart(input.call, f.handles)
    else if RunsSegments(input.call) && input.outcome.RunContinue? then input.call.message.GotoNextSegment?
    else f.startNew
  }

  /** The running list is replaced. */
  ghost predicate Replaces(f: Found, c: Call) {
    f.running && IsReplacement(c) && Answer(f, c) == Some(SeSuccess)
  }

  predicate RunsSegments(c: Call) {
    c.Send? && (c.message.Timeout? || c.message.GotoNextSegment?)
  }

  predicate IsReplacement(c: Call) {
    c.Send? && c.message.ModifySegmentList?
  }

  /** A request to start a list is answered with success exactly if the application sees a start. */
  lemma SuccessIsStart(f: Found, handle: nat)
    ensures Answer(f, StartSegmentList(handle)) == Some(SeSuccess) <==> Effect(f, StartSegmentList(handle)) == [Started]
    ensures Answer(f, StartSegmentList(handle)) == Some(SeCommandIgnored) ==> f.running && Effect(f, StartSegmentList(handle)) == []
  {
  }

  /** A replacement arrives after the active list has run off its end. */
  ghost predicate TooLate(engine: Engine, c: Call)
    requires engine.running ==> engine.active != null
    reads engine, engine.active
  {
    engine.running && c.Send? && c.message.ModifySegmentList? && engine.active.curIndex >= |engine.active.segments|
  }

  /** A start, whether a caller waits for it or not, of a list whose handle has been given out. */
  method DeliverStart(engine: Engine, message: Message, input: Input, ghost known: seq<SegmentList>) returns (reply: Option<Reply>)
    requires engine.Valid() && IsStart(input.call, |known|)
    requires if input.call.StartSegmentList? then message.Start? else message.StartInternal?
    requires message.list == known[input.call.handle] && message.list in engine.lists
    modifies engine, engine.app, engine.lists
    ensures engine.Valid() && engine.lists == old(engine.lists)
    ensures reply == Answer(old(Now(engine, |known|)), input.call)
    ensures engine.log == old(engine.log) + Effect(old(Now(engine, |known|)), input.call)
    ensures !old(engine.running) ==> engine.active == message.list && engine.active.curIndex == 0
    ensures Leads(old(Now(engine, |known|)), input, Now(engine, |known|), known)
  {
    var stopQueued;
    reply, stopQueued := engine.Handle(message, input.outcome, 0);
  }

  /** A message that makes the segments of a running list run. */
  method DeliverPass(engine: Engine, message: Message, input: Input, ghost known: seq<SegmentList>) returns (reply: Option<Reply>)
    requires engine.Valid() && input.call == Send(message) && RunsSegments(input.call)
    modifies engine, engine.app, engine.lists
    ensures engine.Valid() && engine.lists == old(engine.lists)
    ensures reply == Answer(old(Now(engine, |known|)), input.call)
    ensures engine.log == old(engine.log) + Effect(old(Now(engine, |known|)), input.call)
    ensures Leads(old(Now(engine, |known|)), input, Now(engine, |known|), known)
  {
    var index := input.index;
    if engine.running && index > |engine.active.segments| {
      index := |engine.active.segments|;
    }
    var stopQueued;
    reply, stopQueued := engine.Handle(message, input.outcome, index);
  }

  /** Stops the engine, whether a list runs or not. */
  method StopNow(engine: Engine, message: Message)
    requires engine.Valid() && (message.Stop? || message.StopInternal? || message.Terminate?)
    modifies engine, engine.app, engine.lists
    ensures engine.Valid() && !engine.running && engine.lists == old(engine.lists) && engine.runStatus == old(engine.runStatus)
    ensures engine.startNewSegment == old(engine.startNewSegment)
    ensures engine.log == old(engine.log)
      + if !old(engine.running) then []
        else if message.Stop? || (message.StopInternal? && old(engine.runStatus).RunEnd?) then [Ended] else [Terminated]
  {
    var reply, stopQueued := engine.Handle(message, RunInvalid, 0);
  }

  lemma StopLeads(f: Found, message: Message, input: Input, known: seq<SegmentList>)
    requires input.call == Send(message) && (message.Stop? || message.StopInternal? || message.Terminate?) && f.handles == |known|
    ensures Answer(f, input.call) == None && Leads(f, input, Found(false, f.runStatus, f.startNew, null, -1, f.handles), known)
  {
  }

  /** A message that stops a running list. */
  method DeliverStop(engine: Engine, message: Message, input: Input, ghost known: seq<SegmentList>) returns (reply: Option<Reply>)
    requires engine.Valid() && input.call == Send(message) && (message.Stop? || message.StopInternal? || message.Terminate?)
    modifies engine, engine.app, engine.lists
    ensures engine.Valid() && engine.lists == old(engine.lists)
    ensures reply == Answer(old(Now(engine, |known|)), input.call)
    ensures engine.log == old(engine.log) + Effect(old(Now(engine, |known|)), input.call)
    ensures Leads(old(Now(engine, |known|)), input, Now(engine, |known|), known)
  {
    ghost var f := Now(engine, |known|);
    StopLeads(f, message, input, known);
    StopNow(engine, message);
    assert Now(engine, |known|) == Found(false, f.runStatus, f.startNew, null, -1, |known|);
    reply := None;
  }

  /** Replaces the running list, if there is one and its current segment is in the new one. */
  method ReplaceNow(engine: Engine, message: Message) returns (reply: Reply)
    requires engine.Valid() && message.ModifySegmentList? && Conforms(message.segments, engine.commandOf) && Blank(message.segments)
    requires engine.running ==> engine.active.curIndex < |engine.active.segments|
    modifies engine, engine.app, engine.lists
    ensures engine.Valid() && old(engine.lists) <= engine.lists && fresh(engine.lists - old(engine.lists))
    ensures engine.log == old(engine.log) && engine.running == old(engine.running)
    ensures engine.runStatus == old(engine.runStatus) && engine.startNewSegment == old(engine.startNewSegment)
    ensures reply ==
      if !old(engine.running) then SeCommandIgnored
      else if HasTag(message.segments, |message.segments|, old(engine.active.segments[engine.active.curIndex].tag)) then SeSuccess
      else SeDeletedCurrentSegment
    ensures reply == SeSuccess ==>
      && 0 <= engine.active.curIndex < |engine.active.segments| && TagsIn(engine.active.segments) == TagsIn(message.segments)
      && engine.active.segments[engine.active.curIndex].tag == old(engine.active.segments[engine.active.curIndex].tag)
    ensures engine.running && reply != SeSuccess ==>
      engine.active == old(engine.active) && engine.active.curIndex == old(engine.active.curIndex)
  {
    var r, stopQueued := engine.Handle(message, RunInvalid, 0);
    reply := r.value;
    if reply == SeSuccess {
      SameTags(message.segments, engine.active.segments);
    }
  }

  /** The current segment of a list in use, by its tag. */
  lemma CurrentIs(engine: Engine, handles: nat)
    requires engine.running && engine.active != null && TagsIn(engine.active.segments) == engine.active.tags
    requires 0 <= engine.active.curIndex < |engine.active.segments|
    ensures Current(Now(engine, handles)) == Some(engine.active.segments[engine.active.curIndex].tag)
  {
  }

  lemma ReplacementLeads(f: Found, input: Input, reply: Reply, f': Found, known: seq<SegmentList>)
    requires IsReplacement(input.call) && Answer(f, input.call) == Some(reply)
    requires f'.running == f.running && f'.runStatus == f.runStatus && f'.startNew == f.startNew
    requires if f.running && reply == SeSuccess then
        && f'.handles == f.handles + 1 <= |known| && f'.active == known[f.handles]
        && f'.active.tags == TagsIn(input.call.message.segments) && Current(f') == Current(f)
      else f' == f && f.handles <= |known| && (f.active != null <==> f.running)
    ensures Leads(f, input, f', known)
  {
  }

  /** A replacement, which has a handle of its own if it is accepted. */
  method DeliverReplacement(engine: Engine, message: Message, input: Input, known: seq<SegmentList>)
    returns (reply: Option<Reply>, known': seq<SegmentList>)
    requires engine.Valid() && input.call == Send(message) && message.ModifySegmentList?
    requires MayBeMade(input.call, engine.commandOf) && !TooLate(engine, input.call)
    modifies engine, engine.app, engine.lists
    ensures engine.Valid() && old(engine.lists) <= engine.lists && fresh(engine.lists - old(engine.lists))
    ensures reply == Answer(old(Now(engine, |known|)), input.call)
    ensures engine.log == old(engine.log) + Effect(old(Now(engine, |known|)), input.call)
    ensures if reply == Some(SeSuccess) then engine.running && known' == known + [engine.active] else known' == known
    ensures Leads(old(Now(engine, |known|)), input, Now(engine, |known'|), known')
  {
    ghost var f := Now(engine, |known|);
    assert Effect(f, input.call) == [];
    if engine.running { CurrentIs(engine, |known|); }
    var r := ReplaceNow(engine, message);
    assert Answer(f, input.call) == Some(r);
    reply, known' := Some(r), known;
    if r == SeSuccess {
      CurrentIs(engine, |known| + 1);
      var list: SegmentList := engine.active;
      known' := known + [list];
    }
    ReplacementLeads(f, input, r, Now(engine, |known'|), known');
  }

  /** One call. `known` are the lists whose handles have been given out; a replacement that succeeds adds its own. */
  method Serve(engine: Engine, input: Input, known: seq<SegmentList>)
    returns (reply: Option<Reply>, known': seq<SegmentList>)
    requires engine.Valid() && MayBeMade(input.call, engine.commandOf) && !TooLate(engine, input.call)
    requires forall l :: l in known ==> l in engine.lists
    modifies engine, engine.app, engine.lists
    ensures engine.Valid() && old(engine.lists) <= engine.lists && fresh(engine.lists - old(engine.lists))
    ensures known <= known' && forall l :: l in known' ==> l in engine.lists
    ensures reply == Answer(old(Now(engine, |known|)), input.call)
    ensures engine.log == old(engine.log) + Effect(old(Now(engine, |known|)), input.call)
    ensures !old(engine.running) && IsStart(input.call, |known|) ==>
      engine.running && engine.active == known[input.call.handle] && engine.active.curIndex == 0
    ensures Leads(old(Now(engine, |known|)), input, Now(engine, |known'|), known')
  {
    reply, known' := None, known;
    match input.call {
      case StartSegmentList(handle) =>
        if handle < |known| {
          reply := DeliverStart(engine, Start(known[handle]), input, known);
        }
      case StartSegmentListFromEndCallback(handle) =>
        if handle < |known| {
          reply := DeliverStart(engine, StartInternal(known[handle]), input, known);
        }
      case Send(message) =>
        if RunsSegments(input.call) {
          reply := DeliverPass(engine, message, input, known);
        } else if !message.ModifySegmentList? {
          reply := DeliverStop(engine, message, input, known);
        } else {
          reply, known' := DeliverReplacement(engine, message, input, known);
        }
    }
  }

  method StartIdle(engine: Engine, list: SegmentList)
    requires engine.Valid() && !engine.running && list in engine.lists
    modifies engine, engine.app, engine.lists
    ensures engine.Valid() && engine.running && engine.active == list && engine.lists == old(engine.lists)
    ensures list.curIndex == 0 && |list.segments| == |old(list.segments)| && engine.startNewSegment
    ensures engine.log == old(engine.log) + [Started]
  {
    var reply, stopQueued := engine.Handle(Start(list), RunInvalid, 0);
  }

  /** A tick of a running list, whose segments end it as `outcome` says, and the stop that the engine then sends itself. */
  method TickAndStop(engine: Engine, outcome: EngineRunStatus, index: nat)
    requires engine.Valid() && engine.running && index <= |engine.active.segments|
    modifies engine, engine.app, engine.lists
    ensures engine.Valid() && engine.lists == old(engine.lists)
    ensures engine.running <==> outcome.RunContinue?
    ensures engine.running ==> engine.active == old(engine.active) && engine.active.segments == old(engine.active.segments)
    ensures engine.running ==> engine.active.curIndex == index && !engine.startNewSegment
    ensures engine.log == old(engine.log) + if outcome.RunContinue? then [] else if outcome.RunEnd? then [Ended] else [Terminated]
  {
    var reply, stopQueued := engine.Handle(Timeout, outcome, index);
    if stopQueued {
      StopNow(engine, StopInternal);
    }
  }

  /** The application has got back every extension it ever handed out, exactly once and in its own Cleanup, and no null. */
  ghost predicate Settled(app: Application)
    reads app
  {
    && (forall e: Extension :: multiset(app.cleaned)[Some(e)] == if IsIssued(app.issued, e) then 1 else 0)
    && None !in app.cleaned && OwnReturns(app.cleaned, app.cleaners)
  }

  lemma IdleMeansSettled(engine: Engine)
    requires engine.Valid() && !engine.running
    ensures Settled(engine.app)
  {
    var app := engine.app;
    forall e: Extension ensures multiset(app.cleaned)[Some(e)] == if IsIssued(app.issued, e) then 1 else 0 {
      BalancedMeansCleanedOnce(app.issued, app.cleaned, e);
    }
    BalancedMeansCleanedOnce(app.issued, app.cleaned, Extension(0, 0));
  }

  /**
   * What each of the calls found, and what the state after the last one is: one follows from the other. `known` are all
   * lists whose handles have been given out by then.
   */
  ghost predicate Chain(found: seq<Found>, inputs: seq<Input>, replies: seq<Option<Reply>>, known: seq<SegmentList>) {
    && |found| == |replies| + 1 && |replies| <= |inputs|
    && forall i :: 0 <= i < |replies| ==> Follows(found[i], inputs[i], replies[i], found[i + 1], known)
  }

  /** A call is answered as the state it finds asks for, and leads to the next one. */
  ghost predicate Follows(f: Found, input: Input, reply: Option<Reply>, f': Found, known: seq<SegmentList>) {
    reply == Answer(f, input.call) && Leads(f, input, f', known)
  }

  lemma FollowsStill(f: Found, input: Input, reply: Option<Reply>, f': Found, known: seq<SegmentList>, more: seq<SegmentList>)
    requires Follows(f, input, reply, f', known) && known <= more
    ensures Follows(f, input, reply, f', more)
  {
  }

  /** What the application sees of the first n calls. */
  ghost function Effects(found: seq<Found>, inputs: seq<Input>, n: nat): seq<Event>
    requires n <= |found| && n <= |inputs|
  {
    if n == 0 then [] else Effects(found, inputs, n - 1) + Effect(found[n - 1], inputs[n - 1].call)
  }

  lemma {:induction false} EffectsOf(found: seq<Found>, more: seq<Found>, inputs: seq<Input>, n: nat)
    requires n <= |found| && n <= |inputs| && found <= more
    ensures Effects(more, inputs, n) == Effects(found, inputs, n)
  {
    if n > 0 { EffectsOf(found, more, inputs, n - 1); }
  }

  /** The application has seen what the calls so far made it see. */
  ghost predicate HasSeen(before: seq<Event>, log: seq<Event>, found: seq<Found>, inputs: seq<Input>, n: nat) {
    n <= |found| && n <= |inputs| && log == before + Effects(found, inputs, n)
  }

  lemma {:induction false} ChainOneMore(
      found: seq<Found>, inputs: seq<Input>, replies: seq<Option<Reply>>, known: seq<SegmentList>,
      reply: Option<Reply>, f: Found, more: seq<SegmentList>)
    requires Chain(found, inputs, replies, known) && |replies| < |inputs| && known <= more
    requires Follows(found[|replies|], inputs[|replies|], reply, f, more)
    ensures Chain(found + [f], inputs, replies + [reply], more)
  {
    var longer := found + [f];
    forall i | 0 <= i <= |replies| ensures Follows(longer[i], inputs[i], (replies + [reply])[i], longer[i + 1], more) {
      if i < |replies| {
        FollowsStill(found[i], inputs[i], replies[i], found[i + 1], known, more);
      }
    }
  }

  lemma {:induction false} SeenOneMore(
      found: seq<Found>, inputs: seq<Input>, n: nat, f: Found, before: seq<Event>, log: seq<Event>, log': seq<Event>)
    requires HasSeen(before, log, found, inputs, n) && n + 1 == |found| && n < |inputs|
    requires log' == log + Effect(found[n], inputs[n].call)
    ensures HasSeen(before, log', found + [f], inputs, n + 1)
  {
    var more := found + [f];
    EffectsOf(found, more, inputs, n);
    assert more[n] == found[n];
    assert log' == before + (Effects(found, inputs, n) + Effect(found[n], inputs[n].call));
  }

  /** The next of a sequence of calls. */
  method ServeNext(
      engine: Engine, inputs: seq<Input>, replies: seq<Option<Reply>>, known: seq<SegmentList>,
      ghost found: seq<Found>, ghost before: seq<Event>)
    returns (reply: Option<Reply>, known': seq<SegmentList>, ghost f: Found)
    requires engine.Valid() && forall l :: l in known ==> l in engine.lists
    requires |replies| < |inputs| && Chain(found, inputs, replies, known) && HasSeen(before, engine.log, found, inputs, |replies|)
    requires found[|replies|] == Now(engine, |known|)
    requires MayBeMade(inputs[|replies|].call, engine.commandOf) && !TooLate(engine, inputs[|replies|].call)
    modifies engine, engine.app, engine.lists
    ensures engine.Valid() && old(engine.lists) <= engine.lists && fresh(engine.lists - old(engine.lists))
    ensures known <= known' && forall l :: l in known' ==> l in engine.lists
    ensures f == Now(engine, |known'|)
    ensures Chain(found + [f], inputs, replies + [reply], known') && HasSeen(before, engine.log, found + [f], inputs, |replies| + 1)
  {
    ghost var log := engine.log;
    reply, known' := Serve(engine, inputs[|replies|], known);
    f := Now(engine, |known'|);
    ChainOneMore(found, inputs, replies, known, reply, f, known');
    SeenOneMore(found, inputs, |replies|, f, before, log, engine.log);
  }

  /**
   * Any sequence of calls, with all lists known at the start and those that replacements add. Each call is answered as the
   * state it finds asks for, and leaves the state that the next one finds; the application sees the starts and ends that
   * follow from that, in turn; and whenever no list runs, all extensions are back. It stops only before a replacement that
   * comes too late.
   */
  method RunEngine(engine: Engine, inputs: seq<Input>, handles: seq<SegmentList>)
    returns (replies: seq<Option<Reply>>, known: seq<SegmentList>, ghost found: seq<Found>)
    requires engine.Valid()
    requires forall l :: l in handles ==> l in engine.lists
    requires forall i :: 0 <= i < |inputs| ==> MayBeMade(inputs[i].call, engine.commandOf)
    modifies engine, engine.app, engine.lists
    ensures engine.Valid() && Alternates(engine.log) && (engine.running <==> |engine.log| % 2 == 1)
    ensures handles <= known && Chain(found, inputs, replies, known)
    ensures found[0] == old(Now(engine, |handles|)) && found[|replies|] == Now(engine, |known|)
    ensures HasSeen(old(engine.log), engine.log, found, inputs, |replies|)
    ensures |replies| < |inputs| ==> TooLate(engine, inputs[|replies|].call)
    ensures !engine.running ==> Settled(engine.app)
    ensures engine.running ==> Owning(engine.active.segments)
  {
    ghost var first, before := Now(engine, |handles|), engine.log;
    replies, known, found := [], handles, [first];
    while |replies| < |inputs|
      invariant engine.Valid() && old(engine.lists) <= engine.lists && fresh(engine.lists - old(engine.lists))
      invariant handles <= known && forall l :: l in known ==> l in engine.lists
      invariant Chain(found, inputs, replies, known)
      invariant found[0] == first && found[|replies|] == Now(engine, |known|)
      invariant HasSeen(before, engine.log, found, inputs, |replies|)
    {
      var input := inputs[|replies|];
      if engine.running && input.call.Send? && input.call.message.ModifySegmentList?
         && engine.active.curIndex >= |engine.active.segments| {
        break;
      }
      ghost var f;
      var reply;
      reply, known, f := ServeNext(engine, inputs, replies, known, found, before);
      replies, found := replies + [reply], found + [f];
    }
    if !engine.running {
      IdleMeansSettled(engine);
    }
  }
}
