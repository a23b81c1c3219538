/**
 The pairing agent: one stored D-Bus invocation waiting for its answer, the operation it is for, and
 the one-shot flag that keeps a headset from being paired with "0000" again.
 Each request is opened, looked up, and either answered on the spot or left for the user.
 */
module PairingAgent {
  import opened Text
  import Address
  import LL = LogicalLines

  /** A D-Bus invocation, by number. */
  type Context = nat

  datatype ExecType = NoOperation | Pairing | Authorization | ConfirmMode

  datatype Outcome = Returned(value: string) | Rejected | Cancelled

  datatype Answer = Answer(to: Context, outcome: Outcome)

  const ACCEPT: nat := 0
  const REJECT: nat := 1
  const CANCEL: nat := 2

  const FIXED_PIN: string := "0000"

  const HFP_AUDIO_GATEWAY_UUID: string := "0000111f-0000-1000-8000-00805f9b34fb"
  const A2DP_UUID: string := "0000110D-0000-1000-8000-00805F9B34FB"
  const AVRCP_TARGET_UUID: string := "0000110c-0000-1000-8000-00805f9b34fb"
  const OPP_UUID: string := "00001105-0000-1000-8000-00805f9b34fb"

  const BT_AGENT_ADDR_SIZE: nat := 18

  /** What `GetProperties` of the device yields, if it yields anything. */
  datatype Device =
    | Unreadable
    | Known(cls: nat, address: Option<string>, name: Option<string>, trusted: bool, paired: bool)

  /** What the agent reads of the settings when a service is to be authorized. */
  datatype Settings = Settings(noObexAgent: bool, rfcommUuid: Option<string>)

  /** `callbacks` says whether the callbacks were installed when the agent was set up. */
  datatype AgentState = AgentState(
    callbacks: bool,
    busname: Option<string>,
    adapter: bool,
    exec: ExecType,
    pending: Option<Context>,
    pairingAddr: string,
    authorizeAddr: string,
    ignoring: bool,
    bondingAddr: string,
    answers: seq<Answer>)

  // ----- device classes -----

  /** Major class audio, and none of the three video minors. */
  predicate IsHeadset(cls: nat) {
    var major, minor := cls / 0x100 % 0x20, cls / 4 % 0x40;
    major == 4 && minor != 0x0b && minor != 0x0c && minor != 0x0d
  }

  /** Major class peripheral, keyboard bit alone. */
  predicate IsKeyboard(cls: nat) {
    cls / 0x100 % 0x20 == 5 && cls / 0x40 % 4 == 1
  }

  predicate SameText(a: string, b: string) {
    LL.UpperAll(a) == LL.UpperAll(b)
  }

  predicate IsAudioService(uuid: string) {
    SameText(uuid, HFP_AUDIO_GATEWAY_UUID) || SameText(uuid, A2DP_UUID) || SameText(uuid, AVRCP_TARGET_UUID)
  }

  /** Services whose authorization another process is asked for. */
  predicate IsDelegated(uuid: string, settings: Settings) {
    (settings.noObexAgent && SameText(uuid, OPP_UUID)) ||
    (settings.rfcommUuid.Some? && SameText(uuid, settings.rfcommUuid.value))
  }

  // ----- what a request comes to -----

  /** A request is left to the user, or answered at once. */
  datatype Decision = Ask | Decided(outcome: Outcome)

  predicate AutoResponds(s: AgentState, cls: nat, address: Option<string>) {
    address.Some? && IsHeadset(cls) && !(s.ignoring && address.value == s.bondingAddr)
  }

  predicate Nameless(d: Device) {
    d.Known? && d.name.None? && d.address.None?
  }

  function PinDecision(s: AgentState, d: Device, passkey: string): Decision {
    if d.Unreadable? then Decided(Rejected)
    else if AutoResponds(s, d.cls, d.address) then Decided(Returned(FIXED_PIN))
    else if IsKeyboard(d.cls) then Decided(Returned(passkey))
    else if Nameless(d) then Decided(Rejected)
    else Ask
  }

  function ConfirmDecision(d: Device): Decision {
    if d.Unreadable? || Nameless(d) then Decided(Rejected) else Ask
  }

  function AuthorizeDecision(d: Device, uuid: string, settings: Settings): Decision {
    if IsAudioService(uuid) then Decided(Returned(""))
    else
      match d
      case Unreadable => Decided(Rejected)
      case Known(_, address, name, trusted, paired) =>
        if !paired then Decided(Rejected)
        else if IsDelegated(uuid, settings) then Ask
        else if trusted then Decided(Returned(""))
        else if name.None? && address.None? then Decided(Rejected)
        else Ask
  }

  // ----- steps -----

  predicate FromBluez(s: AgentState, sender: Option<string>) {
    sender.Some? && sender == s.busname
  }

  /** A request that gets as far as the device. */
  predicate Admits(s: AgentState, sender: Option<string>) {
    FromBluez(s, sender) && s.callbacks && s.adapter
  }

  predicate Waiting(s: AgentState) {
    s.exec != NoOperation && s.pending.Some?
  }

  function Tell(s: AgentState, c: Context, o: Outcome): AgentState {
    s.(answers := s.answers + [Answer(c, o)])
  }

  /** Answers whatever is pending and forgets it. */
  function Settle(s: AgentState, o: Outcome): AgentState {
    (if Waiting(s) then Tell(s, s.pending.value, o) else s).(exec := NoOperation, pending := None)
  }

  function SettlePairing(s: AgentState, o: Outcome): AgentState {
    Settle(s, o).(pairingAddr := "")
  }

  /** An authorization reply may come with an invocation of its own to answer. */
  function SettleAuthorization(s: AgentState, o: Outcome, own: Option<Context>): AgentState {
    var r := Settle(s, o).(authorizeAddr := "");
    if own.None? then r else Tell(r, own.value, if Waiting(s) then Returned("") else Rejected)
  }

  function OutcomeOf(accept: nat, value: string): Outcome {
    if accept == ACCEPT then Returned(value) else if accept == CANCEL then Cancelled else Rejected
  }

  function PathText(path: string, before: string): string {
    var a := Address.PathAddress(path);
    if a.Some? then a.value else before
  }

  /** The request is stored; one that was still waiting is overwritten. */
  function Opened(s: AgentState, e: ExecType, path: string, c: Context): AgentState {
    var o := s.(exec := e, pending := Some(c));
    if e == Authorization then o.(authorizeAddr := PathText(path, s.authorizeAddr))
    else o.(pairingAddr := PathText(path, s.pairingAddr))
  }

  /** A look at the class with an address at hand uses the flag up. */
  function FlagUsed(s: AgentState, d: Device): AgentState {
    if d.Known? && d.address.Some? then s.(ignoring := false, bondingAddr := "") else s
  }

  function Decide(s: AgentState, d: Decision): AgentState {
    if d.Ask? then s else if s.exec == Authorization then SettleAuthorization(s, d.outcome, None)
    else SettlePairing(s, d.outcome)
  }

  /** A request of BlueZ; without an adapter it is refused without being stored. */
  function Requested(s: AgentState, sender: Option<string>, e: ExecType, path: string, c: Context,
                     d: Decision): AgentState
  {
    if !FromBluez(s, sender) || !s.callbacks then s
    else if !s.adapter then Tell(s, c, Rejected)
    else Decide(Opened(s, e, path, c), d)
  }

  function PinRequested(s: AgentState, sender: Option<string>, path: string, d: Device, passkey: string,
                        c: Context): AgentState
  {
    var r := Requested(s, sender, Pairing, path, c, PinDecision(s, d, passkey));
    if Admits(s, sender) then FlagUsed(r, d) else r
  }

  /** The mode request is answered at once but stays stored. */
  function ModeRequested(s: AgentState, sender: Option<string>, mode: Option<string>, works: bool,
                         c: Context): AgentState
  {
    if sender.None? then s
    else if !s.callbacks || mode.None? || mode.value == "" then Tell(s, c, Rejected)
    else
      var known := SameText(mode.value, "enable") || SameText(mode.value, "disable");
      Tell(s.(exec := ConfirmMode, pending := Some(c)), c, if known && works then Returned("") else Rejected)
  }

  /** What waits is called off once: by the callback's own reply, or, without callbacks, by an error. */
  function CancelledBy(s: AgentState, sender: Option<string>): AgentState {
    if !FromBluez(s, sender) then s
    else
      match s.exec
      case Authorization => if s.callbacks then SettleAuthorization(s, Cancelled, None) else Settle(s, Rejected)
      case Pairing => if s.callbacks then SettlePairing(s, Cancelled) else Settle(s, Rejected)
      case _ => s.(exec := NoOperation, pending := None)
  }

  function Forgotten(s: AgentState): AgentState {
    s.(exec := NoOperation, pending := None, pairingAddr := "", authorizeAddr := "")
  }

  function ReleasedBy(s: AgentState, sender: Option<string>, c: Context): AgentState {
    if !FromBluez(s, sender) then s else Forgotten(Tell(s, c, Returned("")))
  }

  function BondingText(address: string): string {
    if |address| <= BT_AGENT_ADDR_SIZE then address else address[..BT_AGENT_ADDR_SIZE]
  }

  function IgnoringFor(s: AgentState, address: Option<string>): AgentState {
    if address.None? || address.value == "" || !s.callbacks then s
    else s.(ignoring := true, bondingAddr := BondingText(address.value))
  }

  datatype Op =
    | RequestPinCode(sender: Option<string>, path: string, device: Device, passkey: string, context: Context)
    | RequestPasskey(sender: Option<string>, path: string, device: Device, context: Context)
    | RequestConfirmation(sender: Option<string>, path: string, device: Device, context: Context)
    | Authorize(sender: Option<string>, path: string, uuid: string, device: Device, settings: Settings,
                context: Context)
    | ConfirmModeRequest(sender: Option<string>, mode: Option<string>, works: bool, context: Context)
    | CancelRequest(sender: Option<string>)
    | Release(sender: Option<string>, context: Context)
    | ReplyPairing(accept: nat, value: string)
    | ReplyAuthorize(accept: nat, own: Option<Context>)
    | ReplyAdapterEnable(accept: nat, works: bool, context: Context)
    | IgnoreAutoPairing(to: Option<string>)
    | Register(name: Option<string>)
    | Unregister

  function Step(s: AgentState, op: Op): AgentState {
    match op
    case RequestPinCode(sender, path, d, passkey, c) => PinRequested(s, sender, path, d, passkey, c)
    case RequestPasskey(sender, path, d, c) => Requested(s, sender, Pairing, path, c, ConfirmDecision(d))
    case RequestConfirmation(sender, path, d, c) => Requested(s, sender, Pairing, path, c, ConfirmDecision(d))
    case Authorize(sender, path, uuid, d, settings, c) =>
      Requested(s, sender, Authorization, path, c, AuthorizeDecision(d, uuid, settings))
    case ConfirmModeRequest(sender, mode, works, c) => ModeRequested(s, sender, mode, works, c)
    case CancelRequest(sender) => CancelledBy(s, sender)
    case Release(sender, c) => ReleasedBy(s, sender, c)
    case ReplyPairing(accept, value) => SettlePairing(s, OutcomeOf(accept, value))
    case ReplyAuthorize(accept, own) => SettleAuthorization(s, OutcomeOf(accept, ""), own)
    case ReplyAdapterEnable(accept, works, c) =>
      Tell(s, c, OutcomeOf(if accept == ACCEPT && !works then REJECT else accept, ""))
    case IgnoreAutoPairing(to) => IgnoringFor(s, to)
    case Register(name) => Forgotten(s).(busname := name, adapter := true)
    case Unregister => s.(adapter := false)
  }

  function Initial(callbacks: bool): AgentState {
    AgentState(callbacks, None, false, NoOperation, None, "", "", false, "", [])
  }

  function Run(s: AgentState, ops: seq<Op>): AgentState
    decreases ops
  {
    if ops == [] then s else Run(Step(s, ops[0]), ops[1..])
  }

  // ----- the agent -----

  /** The agent object together with the application data its callbacks keep. */
  class CoreAgent {
    const callbacks: bool
    var busname: Option<string>
    var adapter: bool
    var exec: ExecType
    var pending: Option<Context>
    var pairingAddr: string
    var authorizeAddr: string
    var ignoring: bool
    var bondingAddr: string
    ghost var answers: seq<Answer>

    ghost function State(): AgentState
      reads this
    {
      AgentState(callbacks, busname, adapter, exec, pending, pairingAddr, authorizeAddr, ignoring, bondingAddr, answers)
    }

    constructor (callbacks: bool)
      ensures State() == Initial(callbacks)
    {
      this.callbacks := callbacks;
      busname, adapter, exec, pending := None, false, NoOperation, None;
      pairingAddr, authorizeAddr, ignoring, bondingAddr, answers := "", "", false, "", [];
    }

    method Return(c: Context, o: Outcome)
      modifies this`answers
      ensures State() == Tell(old(State()), c, o)
    {
      answers := answers + [Answer(c, o)];
    }

    /** The three replies to a pairing request. */
    method ReplyToPairing(accept: nat, value: string)
      modifies this
      ensures State() == SettlePairing(old(State()), OutcomeOf(accept, value))
    {
      if exec != NoOperation && pending.Some? {
        Return(pending.value, OutcomeOf(accept, value));
      }
      exec, pending, pairingAddr := NoOperation, None, "";
    }

    method ReplyToAuthorization(accept: nat, own: Option<Context>) returns (ok: bool)
      modifies this
      ensures State() == SettleAuthorization(old(State()), OutcomeOf(accept, ""), own)
      ensures ok == Waiting(old(State()))
    {
      ok := exec != NoOperation && pending.Some?;
      if ok {
        Return(pending.value, OutcomeOf(accept, ""));
        if own.Some? {
          Return(own.value, Returned(""));
        }
      } else if own.Some? {
        Return(own.value, Rejected);
      }
      exec, pending, authorizeAddr := NoOperation, None, "";
    }

    /** Answers the invocation it is given, and changes nothing else. */
    method ReplyToMode(accept: nat, works: bool, c: Context)
      modifies this
      ensures State() == Tell(old(State()), c, OutcomeOf(if accept == ACCEPT && !works then REJECT else accept, ""))
    {
      var result := accept;
      if result == ACCEPT {
        if works {
          Return(c, Returned(""));
          return;
        }
        result := REJECT;
      }
      Return(c, OutcomeOf(result, ""));
    }

    /** The checks every request of BlueZ starts with, and the storing of the request. */
    method Admit(sender: Option<string>, e: ExecType, path: string, c: Context) returns (ok: bool)
      modifies this
      ensures ok == Admits(old(State()), sender)
      ensures ok ==> State() == Opened(old(State()), e, path, c)
      ensures !ok ==> forall d :: State() == Requested(old(State()), sender, e, path, c, d)
    {
      if sender.None? || sender != busname {
        return false;
      }
      if !callbacks {
        return false;
      }
      if !adapter {
        Return(c, Rejected);
        return false;
      }
      exec, pending := e, Some(c);
      var addr := Address.DevicePathToAddress(Some(path));
      if addr.Some? {
        if e == Authorization {
          authorizeAddr := addr.value;
        } else {
          pairingAddr := addr.value;
        }
      }
      ok := true;
    }

    /** Uses the flag up, whatever it finds. */
    method IsAutoResponse(cls: nat, address: Option<string>) returns (ret: bool)
      modifies this`ignoring, this`bondingAddr
      ensures ret == AutoResponds(old(State()), cls, address)
      ensures State() == if address.Some? then old(State()).(ignoring := false, bondingAddr := "") else old(State())
    {
      ret := false;
      if address.None? {
        return;
      }
      if IsHeadset(cls) {
        if !ignoring || address.value != bondingAddr {
          ret := true;
        }
      }
      ignoring, bondingAddr := false, "";
    }

    method OnPinCode(sender: Option<string>, path: string, d: Device, passkey: string, c: Context)
      modifies this
      ensures State() == PinRequested(old(State()), sender, path, d, passkey, c)
    {
      var ok := Admit(sender, Pairing, path, c);
      if !ok {
        return;
      }
      if d.Unreadable? {
        ReplyToPairing(REJECT, "");
        return;
      }
      var auto := IsAutoResponse(d.cls, d.address);
      if auto {
        ReplyToPairing(ACCEPT, FIXED_PIN);
      } else if IsKeyboard(d.cls) {
        ReplyToPairing(ACCEPT, passkey);
      } else if d.name.None? && d.address.None? {
        ReplyToPairing(REJECT, "");
      }
    }

    /** A passkey request and a confirmation request are decided alike. */
    method OnConfirmation(sender: Option<string>, path: string, d: Device, c: Context)
      modifies this
      ensures State() == Requested(old(State()), sender, Pairing, path, c, ConfirmDecision(d))
    {
      var ok := Admit(sender, Pairing, path, c);
      if !ok {
        return;
      }
      if d.Unreadable? {
        ReplyToPairing(REJECT, "");
      } else if d.name.None? && d.address.None? {
        ReplyToPairing(REJECT, "");
      }
    }

    method OnAuthorize(sender: Option<string>, path: string, uuid: string, d: Device, settings: Settings, c: Context)
      modifies this
      ensures State() == Requested(old(State()), sender, Authorization, path, c, AuthorizeDecision(d, uuid, settings))
    {
      hide SameText, IsAudioService;
      var ok := Admit(sender, Authorization, path, c);
      if !ok {
        return;
      }
      if IsAudioService(uuid) {
        var _ := ReplyToAuthorization(ACCEPT, None);
        return;
      }
      if d.Known? {
        if !d.paired {
          var _ := ReplyToAuthorization(REJECT, None);
          return;
        }
        if settings.noObexAgent && SameText(uuid, OPP_UUID) {
          return;
        }
        if settings.rfcommUuid.Some? && SameText(uuid, settings.rfcommUuid.value) {
          return;
        }
        if d.trusted {
          var _ := ReplyToAuthorization(ACCEPT, None);
        } else if d.name.None? && d.address.None? {
          var _ := ReplyToAuthorization(REJECT, None);
        }
      } else {
        var _ := ReplyToAuthorization(REJECT, None);
      }
    }

    method OnConfirmMode(sender: Option<string>, mode: Option<string>, works: bool, c: Context)
      modifies this
      ensures State() == ModeRequested(old(State()), sender, mode, works, c)
    {
      hide SameText;
      if sender.None? {
        return;
      }
      if !callbacks || mode.None? || mode.value == "" {
        Return(c, Rejected);
        return;
      }
      exec, pending := ConfirmMode, Some(c);
      if SameText(mode.value, "enable") || SameText(mode.value, "disable") {
        ReplyToMode(ACCEPT, works, c);
      } else {
        ReplyToMode(REJECT, works, c);
      }
    }

    /** The callback has replied before the code after it looks whether something is pending. */
    method OnCancel(sender: Option<string>)
      modifies this
      ensures State() == CancelledBy(old(State()), sender)
    {
      if sender.None? || sender != busname {
        return;
      }
      if callbacks && exec == Authorization {
        var _ := ReplyToAuthorization(CANCEL, None);
        authorizeAddr := "";
      } else if callbacks && exec == Pairing {
        ReplyToPairing(CANCEL, "");
        pairingAddr := "";
      }
      if exec != ConfirmMode && exec != NoOperation && pending.Some? {
        Return(pending.value, Rejected);
      }
      exec, pending := NoOperation, None;
    }

    method OnRelease(sender: Option<string>, c: Context)
      modifies this
      ensures State() == ReleasedBy(old(State()), sender, c)
    {
      if sender.None? || sender != busname {
        return;
      }
      Return(c, Returned(""));
      exec, pending, pairingAddr, authorizeAddr := NoOperation, None, "", "";
    }

    method OnIgnoreAutoPairing(address: Option<string>)
      modifies this`ignoring, this`bondingAddr
      ensures State() == IgnoringFor(old(State()), address)
    {
      if address.None? || |address.value| == 0 {
        return;
      }
      if !callbacks {
        return;
      }
      ignoring := true;
      bondingAddr := if |address.value| <= BT_AGENT_ADDR_SIZE then address.value
                     else address.value[..BT_AGENT_ADDR_SIZE];
    }

    method RegisterOnAdapter(name: Option<string>)
      modifies this
      ensures State() == Forgotten(old(State())).(busname := name, adapter := true)
    {
      exec, pairingAddr, authorizeAddr, pending := NoOperation, "", "", None;
      adapter, busname := true, name;
    }

    /** One D-Bus call. */
    method Handle(op: Op)
      modifies this
      ensures State() == Step(old(State()), op)
    {
      hide PinRequested, Requested, ModeRequested, CancelledBy, ReleasedBy, SettlePairing, SettleAuthorization,
        IgnoringFor, Forgotten, Tell, ConfirmDecision, AuthorizeDecision, PinDecision, OutcomeOf, Settle, Waiting,
        Admits, FromBluez, IsAudioService, SameText, Initial, Run;
      match op {
        case RequestPinCode(sender, path, d, passkey, c) => OnPinCode(sender, path, d, passkey, c);
        case RequestPasskey(sender, path, d, c) => OnConfirmation(sender, path, d, c);
        case RequestConfirmation(sender, path, d, c) => OnConfirmation(sender, path, d, c);
        case Authorize(sender, path, uuid, d, settings, c) => OnAuthorize(sender, path, uuid, d, settings, c);
        case ConfirmModeRequest(sender, mode, works, c) => OnConfirmMode(sender, mode, works, c);
        case CancelRequest(sender) => OnCancel(sender);
        case Release(sender, c) => OnRelease(sender, c);
        case ReplyPairing(accept, value) => ReplyToPairing(accept, value);
        case ReplyAuthorize(accept, own) => var _ := ReplyToAuthorization(accept, own);
        case ReplyAdapterEnable(accept, works, c) => ReplyToMode(accept, works, c);
        case IgnoreAutoPairing(to) => OnIgnoreAutoPairing(to);
        case Register(name) => RegisterOnAdapter(name);
        case Unregister => adapter := false;
      }
    }
  }
}
