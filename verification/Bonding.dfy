/**
 Bonding as the library runs it: one request at a time, its outcome reported once, and a headset that
 refused the fixed PIN bonded again by itself, after the agent has been told not to answer for it.
 */
module Bonding {
  import opened Text
  import opened Address
  import PA = PairingAgent

  datatype Error =
    | NoError
    | AccessDenied
    | CancelByUser
    | InProgress
    | AuthenticationFailed
    | HostDown
    | ParingFailed
    | TimedOut

  /** What the rest of the system is told: a request to create the device, the calling off of one, the
      automatic second bonding (and the address the agent is told to leave alone), the final result. */
  datatype Event =
    | CreateSent(addr: string)
    | CreationCancelled(addr: string)
    | Rebond(told: string, address: DeviceAddress)
    | Finished(error: Error)

  /** What `bluetooth_bond_device` finds when it is called: an adapter that is on, one that is busy
      discovering, a call that can be sent. */
  datatype Env = Env(enabled: bool, discovering: bool, sends: bool)

  datatype BondResult = Bonded | InvalidParam | NotEnabled | Busy | Internal | NotInOperation

  /** How BlueZ ends the request. `devices` are the classes of the devices it knows, by their addresses,
      among which a refused one is looked up. */
  datatype Answer =
    | Created
    | AlreadyExists(found: bool, removed: bool)
    | Rejected
    | Canceled
    | StillInProgress
    | AuthFailed(devices: map<DeviceAddress, nat>)
    | PageTimeout
    | OtherError

  datatype LibState = LibState(
    timer: bool,
    isBondingReq: bool,
    isHeadsetBonding: bool,
    isHeadsetPinReq: bool,
    addrStr: string,
    outbox: seq<string>,
    log: seq<Event>)

  const INITIAL: LibState := LibState(false, false, false, false, "", [], [])

  // ----- steps -----

  function Log(s: LibState, e: Event): LibState {
    s.(log := s.log + [e])
  }

  function Sent(s: LibState, sends: bool): LibState {
    if sends then Log(s, CreateSent(s.addrStr)) else s
  }

  predicate GoesOut(env: Env) {
    env.enabled && !env.discovering && env.sends
  }

  function ResultOf(address: Option<DeviceAddress>, env: Env): BondResult {
    if address.None? then InvalidParam
    else if !env.enabled then NotEnabled
    else if env.discovering then Busy
    else if !env.sends then Internal
    else Bonded
  }

  function Requested(s: LibState, address: Option<DeviceAddress>, env: Env): LibState {
    match ResultOf(address, env)
    case Bonded => Sent(s.(addrStr := Print(address.value)), true).(isBondingReq := true, timer := true)
    case Internal => s.(addrStr := Print(address.value))
    case _ => s
  }

  predicate Retries(s: LibState, error: Error, isHeadset: bool) {
    error == AuthenticationFailed && !s.isHeadsetPinReq && isHeadset
  }

  function Reset(s: LibState, pinReq: bool): LibState {
    s.(timer := false, isBondingReq := false, isHeadsetBonding := false, isHeadsetPinReq := pinReq, addrStr := "")
  }

  function Ended(s: LibState, error: Error): LibState {
    var t := if error == NoError then s else Log(s, CreationCancelled(s.addrStr));
    Log(Reset(t, false), Finished(error))
  }

  /** The retry is announced: the request is called off and the agent told whom to leave alone. */
  function Announced(s: LibState): LibState {
    Log(Log(s, CreationCancelled(s.addrStr)), Rebond(s.addrStr, Parse(s.addrStr))).(outbox := s.outbox + [s.addrStr])
  }

  function Retried(s: LibState, env: Env): LibState {
    Requested(Reset(Announced(s), true), Some(Parse(s.addrStr)), env)
  }

  function Replied(s: LibState, error: Error, isHeadset: bool, env: Env): LibState {
    if Retries(s, error, isHeadset) then Retried(s, env) else Ended(s, error)
  }

  /** The class of the device whose printed address is `t`, 0 if there is none. */
  function ClassOf(devices: map<DeviceAddress, nat>, t: string): nat {
    if Print(Parse(t)) == t && Parse(t) in devices then devices[Parse(t)] else 0
  }

  /** The error an answer stands for, and whether it is taken to come from a headset. */
  function Verdict(s: LibState, a: Answer): (Error, bool) {
    match a
    case Created => (NoError, false)
    case AlreadyExists(_, _) => (ParingFailed, false)
    case Rejected => (AccessDenied, false)
    case Canceled => (CancelByUser, false)
    case StillInProgress => (InProgress, false)
    case AuthFailed(devices) => (AuthenticationFailed, PA.IsHeadset(ClassOf(devices, s.addrStr)))
    case PageTimeout =>
      if !s.isBondingReq then (CancelByUser, false)
      else if s.isHeadsetBonding then (AuthenticationFailed, true)
      else (HostDown, false)
    case OtherError => (ParingFailed, false)
  }

  function Answered(s: LibState, a: Answer, env: Env): LibState {
    if a.AlreadyExists? && a.found && a.removed then Sent(s, env.sends)
    else Replied(s, Verdict(s, a).0, Verdict(s, a).1, env)
  }

  datatype Op =
    | BondDevice(address: Option<DeviceAddress>, env: Env)
    | CancelBonding(enabled: bool)
    | CreateAnswered(answer: Answer, env: Env)
    | TimerFired
    | PairedChanged(paired: bool)
    | DeviceCreated(added: bool, cls: nat)

  function Step(s: LibState, op: Op): LibState {
    match op
    case BondDevice(address, env) => Requested(s, address, env)
    case CancelBonding(enabled) => if enabled then Log(s.(timer := false), CreationCancelled(s.addrStr)) else s
    case CreateAnswered(a, env) => Answered(s, a, env)
    case TimerFired => Ended(s, TimedOut)
    case PairedChanged(paired) => if s.isBondingReq || !paired then s else Ended(s, NoError)
    case DeviceCreated(added, cls) => if added then s.(isHeadsetBonding := PA.IsHeadset(cls)) else s
  }

  /** The step is the automatic retry. */
  predicate IsRetry(s: LibState, op: Op) {
    op.CreateAnswered? && !(op.answer.AlreadyExists? && op.answer.found && op.answer.removed) &&
    Retries(s, Verdict(s, op.answer).0, Verdict(s, op.answer).1)
  }

  function Run(s: LibState, ops: seq<Op>): LibState
    decreases ops
  {
    if ops == [] then s else Run(Step(s, ops[0]), ops[1..])
  }

  // ----- the library -----

  /** The bonding part of the library's state. */
  class BtInfo {
    var timer: bool
    var isBondingReq: bool
    var isHeadsetBonding: bool
    var isHeadsetPinReq: bool
    var addrStr: string
    var outbox: seq<string>
    ghost var log: seq<Event>

    ghost function State(): LibState
      reads this
    {
      LibState(timer, isBondingReq, isHeadsetBonding, isHeadsetPinReq, addrStr, outbox, log)
    }

    constructor ()
      ensures State() == INITIAL
    {
      timer, isBondingReq, isHeadsetBonding, isHeadsetPinReq := false, false, false, false;
      addrStr, outbox, log := "", [], [];
    }

    ghost method Emit(e: Event)
      modifies this`log
      ensures State() == Log(old(State()), e)
    {
      log := log + [e];
    }

    method BondingReq(sends: bool) returns (r: BondResult)
      modifies this
      ensures State() == Sent(old(State()), sends)
      ensures r == if sends then Bonded else Internal
    {
      if !sends {
        return Internal;
      }
      Emit(CreateSent(addrStr));
      return Bonded;
    }

    method Bond(address: Option<DeviceAddress>, env: Env) returns (r: BondResult)
      modifies this
      ensures r == ResultOf(address, env)
      ensures State() == Requested(old(State()), address, env)
    {
      hide Print;
      if address.None? {
        return InvalidParam;
      }
      if !env.enabled {
        return NotEnabled;
      }
      if env.discovering {
        return Busy;
      }
      addrStr := Print(address.value);
      r := BondingReq(env.sends);
      if r != Bonded {
        return Internal;
      }
      isBondingReq, timer := true, true;
    }

    method Cancel(enabled: bool, accepted: bool) returns (r: BondResult)
      modifies this
      ensures State() == Step(old(State()), CancelBonding(enabled))
      ensures r == if !enabled then NotEnabled else if accepted then Bonded else NotInOperation
    {
      if !enabled {
        return NotEnabled;
      }
      if timer {
        timer := false;
      }
      Emit(CreationCancelled(addrStr));
      return if accepted then Bonded else NotInOperation;
    }

    /** The end of a request, or its automatic repetition. */
    method ReplyCb(error: Error, isHeadset: bool, env: Env)
      modifies this
      ensures State() == Replied(old(State()), error, isHeadset, env)
    {
      hide Parse, Print;
      timer := false;
      if error != NoError {
        Emit(CreationCancelled(addrStr));
        if error == AuthenticationFailed && !isHeadsetPinReq {
          if isHeadset {
            outbox := outbox + [addrStr];
            var address := Parse(addrStr);
            Emit(Rebond(addrStr, address));
            isHeadsetPinReq, isBondingReq, isHeadsetBonding, addrStr := true, false, false, "";
            var _ := Bond(Some(address), env);
            return;
          }
        }
      }
      isHeadsetPinReq, isBondingReq, isHeadsetBonding, addrStr := false, false, false, "";
      Emit(Finished(error));
    }

    method CreatedCb(cls: nat, env: Env)
      modifies this
      ensures State() == Ended(old(State()), NoError)
    {
      isHeadsetPinReq := false;
      ReplyCb(NoError, PA.IsHeadset(cls), env);
    }

    method FinishCb(a: Answer, env: Env)
      modifies this
      ensures State() == Answered(old(State()), a, env)
    {
      hide Retried, ClassOf;
      match a {
        case Created => CreatedCb(0, env);
        case AlreadyExists(found, removed) =>
          if found {
            if !removed {
              ReplyCb(ParingFailed, false, env);
            } else {
              var _ := BondingReq(env.sends);
            }
          } else {
            ReplyCb(ParingFailed, false, env);
          }
        case Rejected => ReplyCb(AccessDenied, false, env);
        case Canceled => ReplyCb(CancelByUser, false, env);
        case StillInProgress => ReplyCb(InProgress, false, env);
        case AuthFailed(devices) =>
          var remoteClass := ClassOf(devices, addrStr);
          ReplyCb(AuthenticationFailed, PA.IsHeadset(remoteClass), env);
        case PageTimeout =>
          if !isBondingReq {
            ReplyCb(CancelByUser, false, env);
          } else if isHeadsetBonding {
            ReplyCb(AuthenticationFailed, true, env);
          } else {
            ReplyCb(HostDown, false, env);
          }
        case OtherError => ReplyCb(ParingFailed, false, env);
      }
    }

    method TimeoutCb(env: Env)
      modifies this
      ensures State() == Ended(old(State()), TimedOut)
    {
      ReplyCb(TimedOut, false, env);
    }

    method PairedProperty(paired: bool, cls: nat, env: Env)
      modifies this
      ensures State() == Step(old(State()), PairedChanged(paired))
    {
      if isBondingReq {
        return;
      }
      if paired {
        CreatedCb(cls, env);
      }
    }

    method DeviceAdded(added: bool, cls: nat)
      modifies this
      ensures State() == Step(old(State()), DeviceCreated(added, cls))
    {
      if added {
        isHeadsetBonding := PA.IsHeadset(cls);
      }
    }
  }

  // ----- one automatic retry -----

  /** The automatic bondings since the last final result. */
  function RebondsSince(log: seq<Event>): nat {
    if log == [] then 0
    else
      match log[|log| - 1]
      case Finished(_) => 0
      case Rebond(_, _) => 1 + RebondsSince(log[..|log| - 1])
      case _ => RebondsSince(log[..|log| - 1])
  }

  ghost predicate FinishedBetween(log: seq<Event>, i: int, j: int) {
    exists k :: i < k < j && k < |log| && 0 <= k && log[k].Finished?
  }

  /** Two automatic bondings have a final result between them. */
  ghost predicate OneRetryEach(log: seq<Event>) {
    forall i, j :: 0 <= i < j < |log| && log[i].Rebond? && log[j].Rebond? ==> FinishedBetween(log, i, j)
  }

  predicate IsPrinted(t: string) {
    t == "" || Print(Parse(t)) == t
  }

  /** `isHeadsetPinReq` says that the one retry has been made. */
  ghost predicate Inv(s: LibState) {
    RebondsSince(s.log) == (if s.isHeadsetPinReq then 1 else 0) && OneRetryEach(s.log) &&
    IsPrinted(s.addrStr) && (s.isBondingReq ==> s.addrStr != "")
  }

  lemma SnocSplit<T>(a: seq<T>, x: T)
    ensures (a + [x])[..|a|] == a
  {
  }

  lemma {:induction false} NoneSince(log: seq<Event>, i: nat)
    requires i < |log| && log[i].Rebond? && RebondsSince(log) == 0
    ensures FinishedBetween(log, i, |log|)
  {
    var n := |log| - 1;
    if log[n].Finished? {
      assert i < n < |log|;
    } else {
      NoneSince(log[..n], i);
    }
  }

  /** Any event but a second retry keeps the runs apart. */
  lemma LogKeeps(log: seq<Event>, e: Event)
    requires OneRetryEach(log)
    requires e.Rebond? ==> RebondsSince(log) == 0
    ensures OneRetryEach(log + [e])
    ensures RebondsSince(log + [e]) == if e.Finished? then 0 else if e.Rebond? then 1 else RebondsSince(log)
  {
    SnocSplit(log, e);
    var more := log + [e];
    forall i, j | 0 <= i < j < |more| && more[i].Rebond? && more[j].Rebond? ensures FinishedBetween(more, i, j) {
      if j < |log| {
        assert FinishedBetween(log, i, j);
        var k :| i < k < j && k < |log| && 0 <= k && log[k].Finished?;
        assert more[k].Finished?;
      } else {
        NoneSince(log, i);
        var k :| i < k < |log| && 0 <= k && log[k].Finished?;
        assert more[k].Finished?;
      }
    }
  }

  lemma PrintedText(a: DeviceAddress)
    ensures Print(a) != "" && IsPrinted(Print(a))
  {
    ParsePrinted(a);
    hide Parse;
    assert |Print(a)| == BT_ADDRESS_STRING_SIZE - 1;
  }

  lemma RequestedKeeps(s: LibState, address: Option<DeviceAddress>, env: Env)
    requires Inv(s)
    ensures Inv(Requested(s, address, env))
  {
    hide Parse, Print, OneRetryEach, RebondsSince, IsPrinted;
    if address.Some? {
      PrintedText(address.value);
      LogKeeps(s.log, CreateSent(Print(address.value)));
    }
  }

  lemma EndedKeeps(s: LibState, error: Error)
    requires Inv(s)
    ensures Inv(Ended(s, error)) && !Ended(s, error).isHeadsetPinReq
  {
    hide Parse, Print, OneRetryEach, RebondsSince;
    var t := if error == NoError then s else Log(s, CreationCancelled(s.addrStr));
    if error != NoError {
      LogKeeps(s.log, CreationCancelled(s.addrStr));
    }
    LogKeeps(t.log, Finished(error));
  }

  lemma RetriedKeeps(s: LibState, env: Env)
    requires Inv(s) && !s.isHeadsetPinReq
    ensures Inv(Retried(s, env))
  {
    hide Parse, Print, OneRetryEach, RebondsSince, Requested;
    var t := Log(s, CreationCancelled(s.addrStr));
    LogKeeps(s.log, CreationCancelled(s.addrStr));
    LogKeeps(t.log, Rebond(s.addrStr, Parse(s.addrStr)));
    RequestedKeeps(Reset(Announced(s), true), Some(Parse(s.addrStr)), env);
  }

  lemma StepKeeps(s: LibState, op: Op)
    requires Inv(s)
    ensures Inv(Step(s, op))
  {
    hide Requested, Ended, Retried, Parse, Print, OneRetryEach, RebondsSince, Verdict;
    match op {
      case BondDevice(address, env) => RequestedKeeps(s, address, env);
      case CancelBonding(enabled) => LogKeeps(s.log, CreationCancelled(s.addrStr));
      case CreateAnswered(a, env) =>
        LogKeeps(s.log, CreateSent(s.addrStr));
        EndedKeeps(s, Verdict(s, a).0);
        if !s.isHeadsetPinReq {
          RetriedKeeps(s, env);
        }
      case TimerFired => EndedKeeps(s, TimedOut);
      case PairedChanged(paired) => EndedKeeps(s, NoError);
      case DeviceCreated(added, cls) =>
    }
  }

  lemma {:induction false} RunKeeps(s: LibState, ops: seq<Op>)
    requires Inv(s)
    ensures Inv(Run(s, ops))
    decreases ops
  {
    if ops != [] {
      StepKeeps(s, ops[0]);
      RunKeeps(Step(s, ops[0]), ops[1..]);
    }
  }

  // ----- for whom the retry is -----

  function NewlyAsked(op: Op): set<string> {
    if op.BondDevice? && op.address.Some? then {Print(op.address.value)} else {}
  }

  /** The addresses a run asks to be bonded. */
  function Asked(ops: seq<Op>): set<string>
    decreases ops
  {
    if ops == [] then {} else NewlyAsked(ops[0]) + Asked(ops[1..])
  }

  /** An automatic bonding of the device the agent was told about, which is one that was asked for. */
  predicate ForAsked(e: Event, asked: set<string>) {
    e.Rebond? ==> e.told in asked && e.told == Print(e.address)
  }

  ghost predicate AllForAsked(log: seq<Event>, asked: set<string>) {
    forall i :: 0 <= i < |log| ==> ForAsked(log[i], asked)
  }

  /** What is stored is an address that was asked for, and while a request is running there is one. */
  ghost predicate KnowsWhom(s: LibState, asked: set<string>) {
    (s.isBondingReq ==> s.addrStr != "") &&
    (s.addrStr != "" ==> s.addrStr in asked && s.addrStr == Print(Parse(s.addrStr)))
  }

  lemma RequestedKnows(s: LibState, address: Option<DeviceAddress>, env: Env, asked: set<string>)
    requires KnowsWhom(s, asked) && (address.Some? ==> Print(address.value) in asked)
    ensures KnowsWhom(Requested(s, address, env), asked)
  {
    if address.Some? {
      PrintedText(address.value);
    }
    hide Parse, Print;
  }

  /** Nobody is looked up under the empty text. */
  lemma NobodyWithoutAddress(devices: map<DeviceAddress, nat>)
    ensures ClassOf(devices, "") == 0
  {
    PrintedText(Parse(""));
    hide Print, Parse;
  }

  /** A retry always has an address: a refused headset is looked up under it, and a page timeout counts
      as a headset's only while a request is running. */
  lemma RetryHasAddress(s: LibState, op: Op)
    requires IsRetry(s, op) && (s.isBondingReq ==> s.addrStr != "")
    ensures s.addrStr != ""
  {
    if op.answer.AuthFailed? {
      NobodyWithoutAddress(op.answer.devices);
    }
    hide ClassOf;
  }

  lemma RetriedKnows(s: LibState, env: Env, asked: set<string>)
    requires KnowsWhom(s, asked) && s.addrStr != ""
    ensures KnowsWhom(Retried(s, env), asked)
  {
    hide Parse, Print, Requested;
    RequestedKnows(Reset(Announced(s), true), Some(Parse(s.addrStr)), env, asked);
  }

  lemma EndedKnows(s: LibState, error: Error, asked: set<string>)
    ensures KnowsWhom(Ended(s, error), asked)
  {
  }

  lemma SentKnows(s: LibState, sends: bool, asked: set<string>)
    requires KnowsWhom(s, asked)
    ensures KnowsWhom(Sent(s, sends), asked)
  {
    hide Print, Parse;
  }

  lemma QuietKnows(s: LibState, op: Op, asked: set<string>, more: set<string>)
    requires KnowsWhom(s, asked)
    ensures KnowsWhom(s, asked + more)
    ensures op.CancelBonding? || op.DeviceCreated? ==> KnowsWhom(Step(s, op), asked)
  {
    hide Print, Parse, Answered, Requested, Ended;
  }

  lemma AddressAtRetry(s: LibState, op: Op, asked: set<string>)
    requires KnowsWhom(s, asked) && IsRetry(s, op)
    ensures s.addrStr != ""
  {
    hide Print, Parse, IsRetry;
    RetryHasAddress(s, op);
  }

  lemma StepKnows(s: LibState, op: Op, asked: set<string>)
    requires KnowsWhom(s, asked)
    ensures KnowsWhom(Step(s, op), asked + NewlyAsked(op))
  {
    var more := asked + NewlyAsked(op);
    hide Parse, Print, Sent, Requested, Retried, Ended, KnowsWhom, Verdict, Retries;
    QuietKnows(s, op, asked, NewlyAsked(op));
    match op {
      case BondDevice(address, env) => RequestedKnows(s, address, env, more);
      case CreateAnswered(a, env) =>
        SentKnows(s, env.sends, more);
        if IsRetry(s, op) {
          AddressAtRetry(s, op, asked);
          RetriedKnows(s, env, more);
        }
        EndedKnows(s, Verdict(s, a).0, more);
      case TimerFired => EndedKnows(s, TimedOut, more);
      case PairedChanged(paired) => EndedKnows(s, NoError, more);
      case CancelBonding(_) => assert more == asked;
      case DeviceCreated(_, _) => assert more == asked;
    }
  }

  /** A step logs no retry but the one it is. */
  ghost predicate AddsRetry(s: LibState, t: LibState, retry: bool) {
    s.log <= t.log &&
    forall i :: |s.log| <= i < |t.log| && t.log[i].Rebond? ==> retry && t.log[i] == Rebond(s.addrStr, Parse(s.addrStr))
  }

  lemma StepAdds(s: LibState, op: Op)
    ensures AddsRetry(s, Step(s, op), IsRetry(s, op))
  {
    hide Parse, Print, Verdict;
  }

  lemma StepForAsked(s: LibState, op: Op, asked: set<string>)
    requires KnowsWhom(s, asked) && AllForAsked(s.log, asked)
    ensures AllForAsked(Step(s, op).log, asked + NewlyAsked(op))
  {
    StepAdds(s, op);
    var t, more := Step(s, op), asked + NewlyAsked(op);
    hide Parse, Print, Step, NewlyAsked, IsRetry;
    if IsRetry(s, op) {
      AddressAtRetry(s, op, asked);
    }
    forall i | 0 <= i < |t.log| ensures ForAsked(t.log[i], more) {
      assert i < |s.log| ==> t.log[i] == s.log[i] && ForAsked(s.log[i], asked);
    }
  }

  /** From a state that knows whom it was asked for, every run stays so, and so do its retries. */
  lemma {:induction false} RetriesForAsked(s: LibState, ops: seq<Op>, asked: set<string>)
    requires KnowsWhom(s, asked) && AllForAsked(s.log, asked)
    ensures AllForAsked(Run(s, ops).log, asked + Asked(ops)) && KnowsWhom(Run(s, ops), asked + Asked(ops))
    decreases ops
  {
    if ops == [] {
      assert asked + Asked(ops) == asked;
    } else {
      assert asked + Asked(ops) == (asked + NewlyAsked(ops[0])) + Asked(ops[1..]);
      hide Step, KnowsWhom, NewlyAsked, Asked, ForAsked;
      StepKnows(s, ops[0], asked);
      StepForAsked(s, ops[0], asked);
      RetriesForAsked(Step(s, ops[0]), ops[1..], asked + NewlyAsked(ops[0]));
    }
  }

  /** In every run there is a final result between any two automatic bondings, and each of them is for
      the device the agent was told about, which is one the run has asked for. */
  lemma OneAutomaticRetry(ops: seq<Op>)
    ensures OneRetryEach(Run(INITIAL, ops).log)
    ensures AllForAsked(Run(INITIAL, ops).log, Asked(ops))
  {
    assert IsPrinted("");
    RunKeeps(INITIAL, ops);
    hide Step, Parse, Print, IsPrinted;
    RetriesForAsked(INITIAL, ops, {});
    assert {} + Asked(ops) == Asked(ops);
  }

  /** In every run a page timeout is retried only for an address the run has asked for. */
  lemma PageTimeoutRetriesSomething(ops: seq<Op>)
    ensures var s := Run(INITIAL, ops);
            Retries(s, Verdict(s, PageTimeout).0, Verdict(s, PageTimeout).1) ==>
              s.addrStr in Asked(ops) && s.addrStr == Print(Parse(s.addrStr))
  {
    RetriesForAsked(INITIAL, ops, {});
    assert {} + Asked(ops) == Asked(ops);
    hide Parse, Print, Run, Asked;
  }

  // ----- what becomes of a request -----

  function Finishes(log: seq<Event>): nat {
    if log == [] then 0 else Finishes(log[..|log| - 1]) + if log[|log| - 1].Finished? then 1 else 0
  }

  /** The requests that have gone out. */
  function Sends(log: seq<Event>): nat {
    if log == [] then 0 else Sends(log[..|log| - 1]) + if log[|log| - 1].CreateSent? then 1 else 0
  }

  lemma CountsSnoc(log: seq<Event>, e: Event)
    ensures Finishes(log + [e]) == Finishes(log) + if e.Finished? then 1 else 0
    ensures Sends(log + [e]) == Sends(log) + if e.CreateSent? then 1 else 0
  {
    SnocSplit(log, e);
  }

  lemma RequestedCounts(s: LibState, address: Option<DeviceAddress>, env: Env)
    ensures Finishes(Requested(s, address, env).log) == Finishes(s.log)
    ensures Sends(Requested(s, address, env).log) == Sends(s.log) + if address.Some? && GoesOut(env) then 1 else 0
  {
    if address.Some? {
      CountsSnoc(s.log, CreateSent(Print(address.value)));
      hide Print;
    }
  }

  /** The device is bonded already and that bond could be removed. */
  predicate Replaces(a: Answer) {
    a.AlreadyExists? && a.found && a.removed
  }

  /** The request is made again, and goes out. */
  predicate GoesOutAgain(s: LibState, a: Answer, env: Env) {
    if Replaces(a) then env.sends else Retries(s, Verdict(s, a).0, Verdict(s, a).1) && GoesOut(env)
  }

  /** The request was to be made again, but does not go out. */
  predicate IsDropped(s: LibState, a: Answer, env: Env) {
    !GoesOutAgain(s, a, env) && (Replaces(a) || Retries(s, Verdict(s, a).0, Verdict(s, a).1))
  }

  lemma RetriedCounts(s: LibState, env: Env)
    ensures Finishes(Retried(s, env).log) == Finishes(s.log)
    ensures Sends(Retried(s, env).log) == Sends(s.log) + if GoesOut(env) then 1 else 0
  {
    hide Parse, Print, Requested;
    CountsSnoc(s.log, CreationCancelled(s.addrStr));
    CountsSnoc(s.log + [CreationCancelled(s.addrStr)], Rebond(s.addrStr, Parse(s.addrStr)));
    RequestedCounts(Reset(Announced(s), true), Some(Parse(s.addrStr)), env);
  }

  lemma EndedCounts(s: LibState, error: Error)
    ensures Finishes(Ended(s, error).log) == Finishes(s.log) + 1 && Sends(Ended(s, error).log) == Sends(s.log)
  {
    CountsSnoc(s.log, CreationCancelled(s.addrStr));
    CountsSnoc(s.log, Finished(error));
    CountsSnoc(s.log + [CreationCancelled(s.addrStr)], Finished(error));
  }

  /** An answer of BlueZ is reported once, or the request goes out again once, or, exactly when it was to
      be made again and cannot be sent, neither. Then a removed bond leaves everything as it was, an
      older timer included, and a retry leaves neither timer nor request. */
  lemma AnswerFinishesIff(s: LibState, a: Answer, env: Env)
    ensures var t := Answered(s, a, env);
            Sends(t.log) == Sends(s.log) + (if GoesOutAgain(s, a, env) then 1 else 0) &&
            Finishes(t.log) == Finishes(s.log) + (if GoesOutAgain(s, a, env) || IsDropped(s, a, env) then 0 else 1) &&
            (IsDropped(s, a, env) ==> if Replaces(a) then t == s else !t.timer && !t.isBondingReq)
  {
    hide Parse, Print, Verdict;
    CountsSnoc(s.log, CreateSent(s.addrStr));
    RetriedCounts(s, env);
    EndedCounts(s, Verdict(s, a).0);
  }

  /** The retry of a device that was being bonded: the same address is asked for again and the timer
      runs again, if and only if the request goes out. If it does not, no answer and no timeout will
      report a result any more. */
  lemma RetryGoesOutIff(s: LibState, a: DeviceAddress, env: Env)
    requires s.addrStr == Print(a)
    ensures var t := Retried(s, env);
            (GoesOut(env) <==>
              t.timer && t.isBondingReq && t.addrStr == s.addrStr && t.log[|t.log| - 1] == CreateSent(s.addrStr)) &&
            (!GoesOut(env) ==> !t.timer && !t.isBondingReq && t.log[|t.log| - 1] == Rebond(s.addrStr, a))
  {
    ParsePrinted(a);
    hide Parse, Print;
  }

  // ----- library and agent together -----

  /** The library, the agent, and what the one has told the other that is still on its way. */
  datatype Joint = Joint(lib: LibState, agent: PA.AgentState)

  datatype JointOp = Lib(lib: Op) | Agent(agent: PA.Op) | Deliver

  function JointStep(j: Joint, op: JointOp): Joint {
    match op
    case Lib(o) => j.(lib := Step(j.lib, o))
    case Agent(o) => j.(agent := PA.Step(j.agent, o))
    case Deliver =>
      if j.lib.outbox == [] then j
      else Joint(j.lib.(outbox := j.lib.outbox[1..]), PA.Step(j.agent, PA.IgnoreAutoPairing(Some(j.lib.outbox[0]))))
  }

  function JointRun(j: Joint, ops: seq<JointOp>): Joint
    decreases ops
  {
    if ops == [] then j else JointRun(JointStep(j, ops[0]), ops[1..])
  }

  /** Once everything on its way is delivered, the agent will leave `a` alone. */
  predicate Armed(j: Joint, a: string) {
    j.agent.callbacks &&
    if j.lib.outbox == [] then j.agent.ignoring && j.agent.bondingAddr == a
    else j.lib.outbox[|j.lib.outbox| - 1] == a
  }

  /** A PIN request that gets as far as the device and finds its address. */
  predicate LooksAtClass(s: PA.AgentState, op: PA.Op) {
    op.RequestPinCode? && PA.Admits(s, op.sender) && op.device.Known? && op.device.address.Some?
  }

  /** What takes the flag away or turns it to another device: a PIN request or somebody else's "ignore"
      once the flag is set, and another retry. */
  predicate Disturbs(j: Joint, op: JointOp) {
    match op
    case Lib(o) => IsRetry(j.lib, o)
    case Agent(o) => j.lib.outbox == [] && (o.IgnoreAutoPairing? || LooksAtClass(j.agent, o))
    case Deliver => false
  }

  predicate Undisturbed(j: Joint, ops: seq<JointOp>)
    decreases ops
  {
    ops == [] || (!Disturbs(j, ops[0]) && Undisturbed(JointStep(j, ops[0]), ops[1..]))
  }

  predicate SameFlag(s: PA.AgentState, t: PA.AgentState) {
    t.ignoring == s.ignoring && t.bondingAddr == s.bondingAddr && t.callbacks == s.callbacks
  }

  lemma RequestedFlag(s: PA.AgentState, sender: Option<string>, e: PA.ExecType, path: string, c: PA.Context,
                      d: PA.Decision)
    ensures SameFlag(s, PA.Requested(s, sender, e, path, c, d))
  {
    hide PA.PathText;
  }

  lemma SettledFlag(s: PA.AgentState, o: PA.Outcome, own: Option<PA.Context>)
    ensures SameFlag(s, PA.Settle(s, o)) && SameFlag(s, PA.SettleAuthorization(s, o, own))
  {
  }

  lemma FlagStays(s: PA.AgentState, op: PA.Op)
    requires !op.IgnoreAutoPairing? && !LooksAtClass(s, op)
    ensures SameFlag(s, PA.Step(s, op))
  {
    hide PA.Requested, PA.PinDecision, PA.ConfirmDecision, PA.AuthorizeDecision, PA.OutcomeOf, PA.SameText, PA.Settle,
      PA.SettleAuthorization, PA.FromBluez;
    match op {
      case RequestPinCode(sender, path, d, passkey, c) =>
        RequestedFlag(s, sender, PA.Pairing, path, c, PA.PinDecision(s, d, passkey));
      case RequestPasskey(sender, path, d, c) => RequestedFlag(s, sender, PA.Pairing, path, c, PA.ConfirmDecision(d));
      case RequestConfirmation(sender, path, d, c) =>
        RequestedFlag(s, sender, PA.Pairing, path, c, PA.ConfirmDecision(d));
      case Authorize(sender, path, uuid, d, settings, c) =>
        RequestedFlag(s, sender, PA.Authorization, path, c, PA.AuthorizeDecision(d, uuid, settings));
      case CancelRequest(sender) =>
        SettledFlag(s, PA.Cancelled, None);
        SettledFlag(s, PA.Rejected, None);
      case ReplyPairing(accept, value) => SettledFlag(s, PA.OutcomeOf(accept, value), None);
      case ReplyAuthorize(accept, own) => SettledFlag(s, PA.OutcomeOf(accept, ""), own);
      case _ =>
    }
  }

  /** The callbacks of an agent never change. */
  lemma CallbacksStay(s: PA.AgentState, op: PA.Op)
    ensures PA.Step(s, op).callbacks == s.callbacks
  {
    if op.RequestPinCode? {
      RequestedFlag(s, op.sender, PA.Pairing, op.path, op.context, PA.PinDecision(s, op.device, op.passkey));
      hide PA.Requested, PA.PinDecision;
    } else if !op.IgnoreAutoPairing? {
      FlagStays(s, op);
      hide PA.Step;
    }
  }

  lemma OutboxStays(s: LibState, op: Op)
    requires !IsRetry(s, op)
    ensures Step(s, op).outbox == s.outbox
  {
    hide Parse, Print, Retried;
  }

  lemma RequestedOutbox(s: LibState, address: Option<DeviceAddress>, env: Env)
    ensures Requested(s, address, env).outbox == s.outbox
  {
    hide Print;
  }

  lemma StaysArmed(j: Joint, op: JointOp, a: string)
    requires Armed(j, a) && !Disturbs(j, op) && 0 < |a| <= PA.BT_AGENT_ADDR_SIZE
    ensures Armed(JointStep(j, op), a)
  {
    hide Step, PA.Step;
    match op {
      case Lib(o) => OutboxStays(j.lib, o);
      case Agent(o) =>
        CallbacksStay(j.agent, o);
        if j.lib.outbox == [] {
          FlagStays(j.agent, o);
        }
      case Deliver =>
        if j.lib.outbox != [] {
          Delivered(j.agent, j.lib.outbox[0]);
        }
    }
  }

  lemma Delivered(s: PA.AgentState, t: string)
    ensures var r := PA.Step(s, PA.IgnoreAutoPairing(Some(t)));
            r.callbacks == s.callbacks &&
            (s.callbacks && 0 < |t| <= PA.BT_AGENT_ADDR_SIZE ==> r.ignoring && r.bondingAddr == t)
  {
  }

  lemma {:induction false} RunStaysArmed(j: Joint, ops: seq<JointOp>, a: string)
    requires Armed(j, a) && Undisturbed(j, ops) && 0 < |a| <= PA.BT_AGENT_ADDR_SIZE
    ensures Armed(JointRun(j, ops), a)
    decreases ops
  {
    if ops != [] {
      hide Armed, Disturbs, JointStep;
      StaysArmed(j, ops[0], a);
      RunStaysArmed(JointStep(j, ops[0]), ops[1..], a);
    }
  }

  lemma RetryArms(j: Joint, op: Op)
    requires j.agent.callbacks && IsRetry(j.lib, op)
    ensures Armed(JointStep(j, Lib(op)), j.lib.addrStr)
  {
    hide Parse, Print, Requested, Verdict;
    var s := j.lib;
    RequestedOutbox(Reset(Announced(s), true), Some(Parse(s.addrStr)), op.env);
  }

  /** A PIN request for the device the agent is to leave alone waits for the user, and uses the flag up. */
  lemma ArmedAsksForPin(j: Joint, a: string, pin: PA.Op)
    requires Armed(j, a) && j.lib.outbox == []
    requires LooksAtClass(j.agent, pin) && pin.device.address == Some(a) && !PA.IsKeyboard(pin.device.cls)
    ensures var t := PA.Step(j.agent, pin);
            t.pending == Some(pin.context) && t.answers == j.agent.answers && !t.ignoring && t.bondingAddr == ""
  {
    hide PA.PathText;
  }

  lemma JointStepCallbacks(j: Joint, op: JointOp)
    ensures JointStep(j, op).agent.callbacks == j.agent.callbacks
  {
    hide Step, PA.Step;
    match op {
      case Lib(_) =>
      case Agent(o) => CallbacksStay(j.agent, o);
      case Deliver =>
        if j.lib.outbox != [] {
          Delivered(j.agent, j.lib.outbox[0]);
        }
    }
  }

  /** The library's invariant holds at every point of every joint run, and the agent keeps its callbacks. */
  lemma {:induction false} JointKeeps(j: Joint, ops: seq<JointOp>)
    requires Inv(j.lib)
    ensures Inv(JointRun(j, ops).lib) && JointRun(j, ops).agent.callbacks == j.agent.callbacks
    decreases ops
  {
    if ops != [] {
      JointStepCallbacks(j, ops[0]);
      hide Step, PA.Step, OneRetryEach, RebondsSince, IsPrinted;
      if ops[0].Lib? {
        StepKeeps(j.lib, ops[0].lib);
      }
      JointKeeps(JointStep(j, ops[0]), ops[1..]);
    }
  }

  /** A headset that refused the fixed PIN is bonded again, and when the next PIN request the agent
      handles is for it, everything sent having arrived, the user is asked and the flag is clear again. */
  lemma RetriedHeadsetIsAsked(j: Joint, a: DeviceAddress, op: Op, ops: seq<JointOp>, pin: PA.Op)
    requires j.lib.addrStr == Print(a) && j.agent.callbacks && IsRetry(j.lib, op)
    requires Undisturbed(JointStep(j, Lib(op)), ops)
    requires var k := JointRun(JointStep(j, Lib(op)), ops);
             k.lib.outbox == [] && LooksAtClass(k.agent, pin) && pin.device.address == Some(Print(a)) &&
             !PA.IsKeyboard(pin.device.cls)
    ensures var k := JointRun(JointStep(j, Lib(op)), ops);
            var t := PA.Step(k.agent, pin);
            t.pending == Some(pin.context) && t.answers == k.agent.answers && !t.ignoring && t.bondingAddr == ""
  {
    assert |Print(a)| == BT_ADDRESS_STRING_SIZE - 1;
    hide *;
    RetryArms(j, op);
    RunStaysArmed(JointStep(j, Lib(op)), ops, Print(a));
    ArmedAsksForPin(JointRun(JointStep(j, Lib(op)), ops), Print(a), pin);
  }

  /** The same from the very beginning, at any point of any joint run. */
  lemma RetriedHeadsetIsAskedInEveryRun(before: seq<JointOp>, op: Op, ops: seq<JointOp>, pin: PA.Op)
    requires var j := JointRun(Joint(INITIAL, PA.Initial(true)), before);
             IsRetry(j.lib, op) && Undisturbed(JointStep(j, Lib(op)), ops) &&
             var k := JointRun(JointStep(j, Lib(op)), ops);
             k.lib.outbox == [] && LooksAtClass(k.agent, pin) && pin.device.address == Some(j.lib.addrStr) &&
             !PA.IsKeyboard(pin.device.cls)
    ensures var k := JointRun(JointStep(JointRun(Joint(INITIAL, PA.Initial(true)), before), Lib(op)), ops);
            var t := PA.Step(k.agent, pin);
            t.pending == Some(pin.context) && t.answers == k.agent.answers && !t.ignoring && t.bondingAddr == ""
  {
    var start := Joint(INITIAL, PA.Initial(true));
    assert Inv(start.lib) && start.agent.callbacks by {
      assert IsPrinted("");
    }
    JointKeeps(start, before);
    var j := JointRun(start, before);
    assert IsPrinted(j.lib.addrStr) && (j.lib.isBondingReq ==> j.lib.addrStr != "");
    hide *;
    RetryHasAddress(j.lib, op);
    AddressOf(j.lib.addrStr);
    RetriedHeadsetIsAsked(j, Parse(j.lib.addrStr), op, ops, pin);
  }

  lemma AddressOf(t: string)
    requires IsPrinted(t) && t != ""
    ensures t == Print(Parse(t))
  {
    hide Parse, Print;
  }

  /** Without the flag a headset is answered with the fixed PIN, as it is once the flag is used up. */
  lemma FixedPinIff(s: PA.AgentState, pin: PA.Op)
    requires LooksAtClass(s, pin) && PA.IsHeadset(pin.device.cls)
    ensures PA.Step(s, pin).answers == s.answers + [PA.Answer(pin.context, PA.Returned(PA.FIXED_PIN))] <==>
            !(s.ignoring && pin.device.address == Some(s.bondingAddr))
  {
    hide PA.PathText;
  }
}
