/**
 What each call comes to, case by case and in terms of the device and the arguments alone: who is
 answered at once and with what, and who is left to the user.
 */
module PairingOutcomes {
  import opened Text
  import opened PairingAgent
  import LL = LogicalLines

  // ----- which requests get as far as the device -----

  predicate IsRequest(op: Op) {
    op.RequestPinCode? || op.RequestPasskey? || op.RequestConfirmation? || op.Authorize?
  }

  /** The owner of the bus name BlueZ has is the sender, and the agent has its callbacks and an adapter. */
  predicate Reaches(s: AgentState, sender: Option<string>) {
    sender.Some? && s.busname.Some? && sender.value == s.busname.value && s.callbacks && s.adapter
  }

  /** Nobody but BlueZ changes anything by a request, a cancel or a release. */
  lemma StrangersChangeNothing(s: AgentState, op: Op)
    requires IsRequest(op) || op.CancelRequest? || op.Release?
    requires op.sender.None? || s.busname.None? || op.sender.value != s.busname.value
    ensures Step(s, op) == s
  {
    hide PinDecision, ConfirmDecision, AuthorizeDecision;
  }

  /** Without callbacks a request changes nothing; without an adapter it is refused and not stored. */
  lemma WithoutCallbacksOrAdapter(s: AgentState, op: Op)
    requires IsRequest(op) && op.sender.Some? && s.busname.Some? && op.sender.value == s.busname.value
    ensures !s.callbacks ==> Step(s, op) == s
    ensures s.callbacks && !s.adapter ==> Step(s, op) == s.(answers := s.answers + [Answer(op.context, Rejected)])
  {
    hide PinDecision, ConfirmDecision, AuthorizeDecision;
  }

  /** The request is left to the user: stored, and nobody is answered. */
  predicate LeftToUser(s: AgentState, t: AgentState, e: ExecType, c: Context) {
    t.exec == e && t.pending == Some(c) && t.answers == s.answers
  }

  /** The request is answered and nothing is stored. */
  predicate AnsweredWith(s: AgentState, t: AgentState, c: Context, o: Outcome) {
    t.exec == NoOperation && t.pending == None && t.answers == s.answers + [Answer(c, o)]
  }

  /** Something to call the device by. */
  predicate CanBeNamed(d: Device) {
    d.Known? && (d.name.Some? || d.address.Some?)
  }

  /** A passkey or confirmation request is left to the user if and only if the device can be named, and
      is refused if not: it is never confirmed on the spot. */
  lemma ConfirmationIsLeftToUser(s: AgentState, op: Op)
    requires (op.RequestPasskey? || op.RequestConfirmation?) && Reaches(s, op.sender)
    ensures if CanBeNamed(op.device) then LeftToUser(s, Step(s, op), Pairing, op.context)
            else AnsweredWith(s, Step(s, op), op.context, Rejected)
  {
    hide PathText;
  }

  /** Audio, but no video recorder, camera or camcorder: the class as section 2.8 of the Bluetooth Assigned Numbers
      lays it out, major class in bits 8 to 12 and minor class in bits 2 to 7. */
  predicate IsAudioClass(cls: nat) {
    cls / 256 % 32 == 4 && cls / 4 % 64 != 11 && cls / 4 % 64 != 12 && cls / 4 % 64 != 13
  }

  /** A peripheral whose bits 6 and 7 say keyboard and no pointing device. */
  predicate IsKeyboardClass(cls: nat) {
    cls / 256 % 32 == 5 && cls / 64 % 4 == 1
  }

  /** A PIN request gets "0000" for an audio device with an address the flag does not stand for, the
      generated PIN for a keyboard, a refusal if the device cannot be named, and is left to the user
      otherwise. The flag is used up if and only if the address is known. */
  lemma PinRequestIs(s: AgentState, op: Op)
    requires op.RequestPinCode? && Reaches(s, op.sender)
    ensures var d, t := op.device, Step(s, op);
            (if d.Unreadable? then AnsweredWith(s, t, op.context, Rejected)
             else if d.address.Some? && IsAudioClass(d.cls) && !(s.ignoring && d.address.value == s.bondingAddr)
             then AnsweredWith(s, t, op.context, Returned("0000"))
             else if IsKeyboardClass(d.cls) then AnsweredWith(s, t, op.context, Returned(op.passkey))
             else if CanBeNamed(d) then LeftToUser(s, t, Pairing, op.context)
             else AnsweredWith(s, t, op.context, Rejected)) &&
            (if d.Known? && d.address.Some? then !t.ignoring && t.bondingAddr == ""
             else t.ignoring == s.ignoring && t.bondingAddr == s.bondingAddr)
  {
    hide PathText;
  }

  // ----- services -----

  /** Equal but for the case of letters. */
  predicate SameUuid(a: string, b: string) {
    |a| == |b| && forall i :: 0 <= i < |a| ==> LL.SameLetter(a[i], b[i])
  }

  lemma SameTextIff(a: string, b: string)
    ensures SameText(a, b) <==> SameUuid(a, b)
  {
    LL.SameUpperIff(a, b);
  }

  predicate IsAudioUuid(uuid: string) {
    SameUuid(uuid, "0000111f-0000-1000-8000-00805f9b34fb") || SameUuid(uuid, "0000110d-0000-1000-8000-00805f9b34fb") ||
    SameUuid(uuid, "0000110c-0000-1000-8000-00805f9b34fb")
  }

  lemma SameUuidTrans(a: string, b: string, c: string)
    requires SameUuid(b, c)
    ensures SameUuid(a, b) <==> SameUuid(a, c)
  {
    if |a| == |b| {
      forall i | 0 <= i < |a| ensures LL.SameLetter(a[i], b[i]) <==> LL.SameLetter(a[i], c[i]) {
        assert LL.SameLetter(b[i], c[i]);
      }
    }
  }

  lemma CaseOfA2dp(d: string)
    requires d == "0000110D-0000-1000-8000-00805F9B34FB"
    ensures SameUuid(d, "0000110d-0000-1000-8000-00805f9b34fb")
  {
  }

  /** The audio services are the audio gateway, A2DP and the remote control target, in either case. */
  lemma AudioServiceIff(uuid: string)
    ensures IsAudioService(uuid) <==> IsAudioUuid(uuid)
  {
    hide SameText, SameUuid;
    SameTextIff(uuid, HFP_AUDIO_GATEWAY_UUID);
    SameTextIff(uuid, A2DP_UUID);
    SameTextIff(uuid, AVRCP_TARGET_UUID);
    CaseOfA2dp(A2DP_UUID);
    SameUuidTrans(uuid, A2DP_UUID, "0000110d-0000-1000-8000-00805f9b34fb");
  }

  predicate IsAskedElsewhere(uuid: string, settings: Settings) {
    (settings.noObexAgent && SameUuid(uuid, "00001105-0000-1000-8000-00805f9b34fb")) ||
    (settings.rfcommUuid.Some? && SameUuid(uuid, settings.rfcommUuid.value))
  }

  lemma DelegatedIff(uuid: string, settings: Settings)
    ensures IsDelegated(uuid, settings) <==> IsAskedElsewhere(uuid, settings)
  {
    hide SameText, SameUuid;
    SameTextIff(uuid, OPP_UUID);
    if settings.rfcommUuid.Some? {
      SameTextIff(uuid, settings.rfcommUuid.value);
    }
  }

  /** An audio service is granted; of the others an unpaired device is refused, a service asked for
      elsewhere is left open, a trusted device is granted, and the rest is left to the user if the device
      can be named. */
  predicate AuthorizedAs(s: AgentState, t: AgentState, d: Device, c: Context, audio: bool, elsewhere: bool) {
    if audio then AnsweredWith(s, t, c, Returned(""))
    else
      match d
      case Unreadable => AnsweredWith(s, t, c, Rejected)
      case Known(_, address, name, trusted, paired) =>
        if !paired then AnsweredWith(s, t, c, Rejected)
        else if elsewhere then LeftToUser(s, t, Authorization, c)
        else if trusted then AnsweredWith(s, t, c, Returned(""))
        else if name.Some? || address.Some? then LeftToUser(s, t, Authorization, c)
        else AnsweredWith(s, t, c, Rejected)
  }

  lemma AuthorizationBy(s: AgentState, op: Op)
    requires op.Authorize? && Reaches(s, op.sender)
    ensures AuthorizedAs(s, Step(s, op), op.device, op.context,
                         IsAudioService(op.uuid), IsDelegated(op.uuid, op.settings))
  {
    hide PathText, IsAudioService, IsDelegated;
  }

  /** What an authorization request comes to. */
  lemma AuthorizationIs(s: AgentState, op: Op)
    requires op.Authorize? && Reaches(s, op.sender)
    ensures AuthorizedAs(s, Step(s, op), op.device, op.context,
                         IsAudioUuid(op.uuid), IsAskedElsewhere(op.uuid, op.settings))
  {
    hide *;
    AudioServiceIff(op.uuid);
    DelegatedIff(op.uuid, op.settings);
    AuthorizationBy(s, op);
  }

  // ----- replies -----

  /** What a verdict of the user is told as: 0 accepts, 2 cancels, anything else refuses. */
  function Told(accept: nat, value: string): Outcome {
    if accept == 0 then Returned(value) else if accept == 2 then Cancelled else Rejected
  }

  predicate IsIdle(t: AgentState) {
    t.exec == NoOperation && t.pending == None
  }

  /** A reply answers what waits with the verdict it carries, or nobody. */
  lemma PairingReplyIs(s: AgentState, accept: nat, value: string)
    ensures var t := Step(s, ReplyPairing(accept, value));
            IsIdle(t) && t.pairingAddr == "" &&
            t.answers == s.answers + if s.exec != NoOperation && s.pending.Some?
                                     then [Answer(s.pending.value, Told(accept, value))] else []
  {
    assert s.answers + [] == s.answers;
  }

  /** A reply to an authorization does the same, and its own invocation is answered too: with an error if
      nothing waited. */
  lemma AuthorizationReplyIs(s: AgentState, accept: nat, own: Option<Context>)
    ensures var t, waits := Step(s, ReplyAuthorize(accept, own)), s.exec != NoOperation && s.pending.Some?;
            IsIdle(t) && t.authorizeAddr == "" &&
            t.answers == s.answers +
                         (if waits then [Answer(s.pending.value, Told(accept, ""))] else []) +
                         (if own.None? then [] else [Answer(own.value, if waits then Returned("") else Rejected)])
  {
    assert s.answers + [] == s.answers;
    var said := s.answers + if s.exec != NoOperation && s.pending.Some? then [Answer(s.pending.value, Told(accept, ""))]
                            else [];
    assert said + [] == said;
  }

  /** A reply about the mode answers its own invocation and touches nothing else. */
  lemma ModeReplyIs(s: AgentState, accept: nat, works: bool, c: Context)
    ensures Step(s, ReplyAdapterEnable(accept, works, c)) ==
            s.(answers := s.answers + [Answer(c, if accept == 0 && !works then Rejected else Told(accept, ""))])
  {
  }

  /** A mode request is granted if and only if it asks for "enable" or "disable", in either case, and the
      change works; it is answered at once and, unless the mode is missing, stays stored. */
  lemma ModeRequestIs(s: AgentState, sender: Option<string>, mode: Option<string>, works: bool, c: Context)
    requires sender.Some? && s.callbacks
    ensures var t := Step(s, ConfirmModeRequest(sender, mode, works, c));
            var known := mode.Some? && (SameUuid(mode.value, "enable") || SameUuid(mode.value, "disable"));
            t.answers == s.answers + [Answer(c, if known && works then Returned("") else Rejected)] &&
            (if mode.None? || mode.value == "" then t.exec == s.exec && t.pending == s.pending
             else t.exec == ConfirmMode && t.pending == Some(c))
  {
    if mode.Some? {
      SameTextIff(mode.value, "enable");
      SameTextIff(mode.value, "disable");
    }
    hide SameText, SameUuid;
    assert mode.Some? && mode.value == "" ==> !SameUuid(mode.value, "enable") && !SameUuid(mode.value, "disable") by {
      EmptyIsNoMode();
    }
  }

  lemma EmptyIsNoMode()
    ensures !SameUuid("", "enable") && !SameUuid("", "disable")
  {
  }

  /** A release is answered, and what was stored is dropped without an answer. */
  lemma ReleaseIs(s: AgentState, sender: Option<string>, c: Context)
    requires sender.Some? && s.busname.Some? && sender.value == s.busname.value
    ensures var t := Step(s, Release(sender, c));
            IsIdle(t) && t.answers == s.answers + [Answer(c, Returned(""))] &&
            t.pairingAddr == "" && t.authorizeAddr == ""
  {
  }

  /** The flag is set for the first 18 octets of an address that is not empty. */
  lemma IgnoreIs(s: AgentState, address: Option<string>)
    requires s.callbacks
    ensures var t := Step(s, IgnoreAutoPairing(address));
            if address.None? || address.value == "" then t == s
            else t.ignoring && t.bondingAddr <= address.value &&
                 |t.bondingAddr| == (if |address.value| < 18 then |address.value| else 18)
  {
  }

  /** A remote cancel answers what waits for the user once and drops a stored mode request unanswered. */
  lemma CancelIs(s: AgentState, sender: Option<string>)
    requires sender.Some? && s.busname.Some? && sender.value == s.busname.value
    ensures var t := Step(s, CancelRequest(sender));
            IsIdle(t) &&
            t.answers == s.answers + if (s.exec == Pairing || s.exec == Authorization) && s.pending.Some?
                                     then [Answer(s.pending.value, if s.callbacks then Cancelled else Rejected)] else []
  {
    assert s.answers + [] == s.answers;
  }

  /** Registering on an adapter makes the agent idle without an answer. */
  lemma RegisterIs(s: AgentState, name: Option<string>)
    ensures var t := Step(s, Register(name));
            IsIdle(t) && t.answers == s.answers && t.adapter && t.busname == name && t.pairingAddr == "" &&
            t.authorizeAddr == "" && !Step(s, Unregister).adapter && Step(s, Unregister).answers == s.answers
  {
  }
}
