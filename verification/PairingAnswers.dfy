/**
 How often an invocation is answered over a whole run of the pairing agent. Every invocation is given
 to the agent once; the question is what happens to it from then on.
 */
module PairingAnswers {
  import opened Text
  import opened PairingAgent
  import Address

  function CountTo(answers: seq<Answer>, c: Context): nat {
    if answers == [] then 0
    else CountTo(answers[..|answers| - 1], c) + if answers[|answers| - 1].to == c then 1 else 0
  }

  ghost predicate AtMostOnce(answers: seq<Answer>) {
    forall c: Context :: CountTo(answers, c) <= 1
  }

  lemma CountSnoc(answers: seq<Answer>, a: Answer, c: Context)
    ensures CountTo(answers + [a], c) == CountTo(answers, c) + if a.to == c then 1 else 0
  {
    assert (answers + [a])[..|answers|] == answers;
  }

  lemma CountTold(s: AgentState, c: Context, o: Outcome)
    ensures forall d: Context :: CountTo(Tell(s, c, o).answers, d) == CountTo(s.answers, d) + if c == d then 1 else 0
  {
    forall d: Context ensures CountTo(Tell(s, c, o).answers, d) == CountTo(s.answers, d) + if c == d then 1 else 0 {
      CountSnoc(s.answers, Answer(c, o), d);
    }
  }

  /** The invocation an operation hands over to be answered. */
  function ContextOf(op: Op): Option<Context> {
    match op
    case RequestPinCode(_, _, _, _, c) => Some(c)
    case RequestPasskey(_, _, _, c) => Some(c)
    case RequestConfirmation(_, _, _, c) => Some(c)
    case Authorize(_, _, _, _, _, c) => Some(c)
    case ConfirmModeRequest(_, _, _, c) => Some(c)
    case Release(_, c) => Some(c)
    case ReplyAuthorize(_, own) => own
    case ReplyAdapterEnable(_, _, c) => Some(c)
    case _ => None
  }

  function Handed(op: Op): set<Context> {
    if ContextOf(op).Some? then {ContextOf(op).value} else {}
  }

  /** No invocation is handed over twice. */
  predicate Legal(ops: seq<Op>, used: set<Context>)
    decreases ops
  {
    ops == [] || (Handed(ops[0]) !! used && Legal(ops[1..], used + Handed(ops[0])))
  }

  predicate IsReply(op: Op) {
    op.ReplyPairing? || op.ReplyAuthorize?
  }

  /** A reply that comes while an answered mode request is still stored. */
  predicate Hits(s: AgentState, op: Op) {
    IsReply(op) && s.exec == ConfirmMode
  }

  predicate NeverHits(s: AgentState, ops: seq<Op>)
    decreases ops
  {
    ops == [] || (!Hits(s, ops[0]) && NeverHits(Step(s, ops[0]), ops[1..]))
  }

  // ----- what every step keeps -----

  ghost predicate Accounted(answers: seq<Answer>, used: set<Context>) {
    forall c: Context :: CountTo(answers, c) > 0 ==> c in used
  }

  /** What is stored is an invocation handed over; it is answered already only for a mode request. */
  ghost predicate Inv(s: AgentState, used: set<Context>) {
    (s.exec == NoOperation <==> s.pending == None) &&
    (s.pending.Some? ==> s.pending.value in used) &&
    (s.pending.Some? ==> CountTo(s.answers, s.pending.value) == if s.exec == ConfirmMode then 1 else 0) &&
    Accounted(s.answers, used) && AtMostOnce(s.answers)
  }

  lemma Widens(s: AgentState, used: set<Context>, more: set<Context>)
    requires Inv(s, used)
    ensures Inv(s, used + more)
  {
  }

  lemma SettleKeeps(s: AgentState, o: Outcome, used: set<Context>)
    requires Inv(s, used) && s.exec != ConfirmMode
    ensures Inv(Settle(s, o), used)
  {
    if Waiting(s) {
      CountTold(s, s.pending.value, o);
    }
  }

  /** The answer to an invocation that is handed over now is its first. */
  lemma TellKeeps(s: AgentState, c: Context, o: Outcome, used: set<Context>)
    requires Inv(s, used) && c !in used
    ensures Inv(Tell(s, c, o), used + {c})
  {
    CountTold(s, c, o);
  }

  lemma SettleAuthorizationKeeps(s: AgentState, o: Outcome, own: Option<Context>, used: set<Context>)
    requires Inv(s, used) && s.exec != ConfirmMode
    requires own.Some? ==> own.value !in used
    ensures Inv(SettleAuthorization(s, o, own), used + if own.Some? then {own.value} else {})
  {
    SettleKeeps(s, o, used);
    var r := Settle(s, o).(authorizeAddr := "");
    assert Inv(r, used);
    if own.Some? {
      TellKeeps(r, own.value, if Waiting(s) then Returned("") else Rejected, used);
    } else {
      assert used + {} == used;
    }
  }

  lemma OpenedKeeps(s: AgentState, e: ExecType, path: string, c: Context, used: set<Context>)
    requires Inv(s, used) && c !in used && (e == Pairing || e == Authorization)
    ensures Inv(Opened(s, e, path, c), used + {c})
  {
  }

  lemma RequestedKeeps(s: AgentState, sender: Option<string>, e: ExecType, path: string, c: Context, d: Decision,
                       used: set<Context>)
    requires Inv(s, used) && c !in used && (e == Pairing || e == Authorization)
    ensures Inv(Requested(s, sender, e, path, c, d), used + {c})
  {
    Widens(s, used, {c});
    TellKeeps(s, c, Rejected, used);
    OpenedKeeps(s, e, path, c, used);
    var o := Opened(s, e, path, c);
    assert o.exec == e;
    if d.Decided? {
      SettleKeeps(o, d.outcome, used + {c});
    }
    hide Inv, Opened, Settle, Tell;
    if d.Decided? {
      DecideKeeps(o, d.outcome, used + {c});
    }
  }

  lemma DecideKeeps(s: AgentState, o: Outcome, used: set<Context>)
    requires Inv(Settle(s, o), used)
    ensures Inv(Decide(s, Decided(o)), used)
  {
  }

  lemma PinRequestedKeeps(s: AgentState, sender: Option<string>, path: string, d: Device, passkey: string, c: Context,
                          used: set<Context>)
    requires Inv(s, used) && c !in used
    ensures Inv(PinRequested(s, sender, path, d, passkey, c), used + {c})
  {
    RequestedKeeps(s, sender, Pairing, path, c, PinDecision(s, d, passkey), used);
    hide Requested, PinDecision;
  }

  lemma ModeRequestedKeeps(s: AgentState, sender: Option<string>, mode: Option<string>, works: bool, c: Context,
                           used: set<Context>)
    requires Inv(s, used) && c !in used
    ensures Inv(ModeRequested(s, sender, mode, works, c), used + {c})
  {
    hide *;
    var known := mode.Some? && (SameText(mode.value, "enable") || SameText(mode.value, "disable"));
    var o := if known && works then Returned("") else Rejected;
    Widens(s, used, {c});
    TellKeeps(s, c, Rejected, used);
    ModeStoredKeeps(s, c, o, used);
    ModeRequestedIs(s, sender, mode, works, c);
  }

  lemma ModeRequestedIs(s: AgentState, sender: Option<string>, mode: Option<string>, works: bool, c: Context)
    ensures var known := mode.Some? && (SameText(mode.value, "enable") || SameText(mode.value, "disable"));
            var r := ModeRequested(s, sender, mode, works, c);
            r == s || r == Tell(s, c, Rejected) ||
            r == Tell(s.(exec := ConfirmMode, pending := Some(c)), c, if known && works then Returned("") else Rejected)
  {
    hide SameText, Tell;
  }

  lemma ModeStoredKeeps(s: AgentState, c: Context, o: Outcome, used: set<Context>)
    requires Inv(s, used) && c !in used
    ensures Inv(Tell(s.(exec := ConfirmMode, pending := Some(c)), c, o), used + {c})
  {
    CountTold(s.(exec := ConfirmMode, pending := Some(c)), c, o);
  }

  lemma CancelledKeeps(s: AgentState, sender: Option<string>, used: set<Context>)
    requires Inv(s, used)
    ensures Inv(CancelledBy(s, sender), used)
  {
    if s.exec == Authorization || s.exec == Pairing {
      SettleKeeps(s, Cancelled, used);
      SettleKeeps(s, Rejected, used);
    }
  }

  lemma StepKeeps(s: AgentState, op: Op, used: set<Context>)
    requires Inv(s, used) && Handed(op) !! used && !Hits(s, op)
    ensures Inv(Step(s, op), used + Handed(op))
  {
    hide Requested, PinRequested, ModeRequested, CancelledBy, SettleAuthorization, Settle, AtMostOnce, Accounted, Tell,
      ConfirmDecision, AuthorizeDecision;
    assert used + {} == used;
    match op {
      case RequestPinCode(sender, path, d, passkey, c) => PinRequestedKeeps(s, sender, path, d, passkey, c, used);
      case RequestPasskey(sender, path, d, c) => RequestedKeeps(s, sender, Pairing, path, c, ConfirmDecision(d), used);
      case RequestConfirmation(sender, path, d, c) =>
        RequestedKeeps(s, sender, Pairing, path, c, ConfirmDecision(d), used);
      case Authorize(sender, path, uuid, d, settings, c) =>
        RequestedKeeps(s, sender, Authorization, path, c, AuthorizeDecision(d, uuid, settings), used);
      case ConfirmModeRequest(sender, mode, works, c) => ModeRequestedKeeps(s, sender, mode, works, c, used);
      case CancelRequest(sender) => CancelledKeeps(s, sender, used);
      case Release(sender, c) =>
        Widens(s, used, {c});
        TellKeeps(s, c, Returned(""), used);
      case ReplyPairing(accept, value) => SettleKeeps(s, OutcomeOf(accept, value), used);
      case ReplyAuthorize(accept, own) => SettleAuthorizationKeeps(s, OutcomeOf(accept, ""), own, used);
      case ReplyAdapterEnable(accept, works, c) =>
        TellKeeps(s, c, OutcomeOf(if accept == ACCEPT && !works then REJECT else accept, ""), used);
      case IgnoreAutoPairing(to) =>
      case Register(name) =>
      case Unregister =>
    }
  }

  // ----- whole runs -----

  lemma PrefixCounts(a: seq<Answer>, b: seq<Answer>, c: Context)
    requires a <= b
    ensures CountTo(a, c) <= CountTo(b, c)
    decreases |b|
  {
    if |a| < |b| {
      PrefixCounts(a, b[..|b| - 1], c);
    }
  }

  /** What a step adds to the answers: at most one to what was stored and one to what was handed over. */
  ghost predicate Extends(s: AgentState, t: AgentState, own: Option<Context>) {
    exists first: seq<Answer>, second: seq<Answer> ::
      t.answers == s.answers + first + second && To(first, s.pending) && To(second, own)
  }

  predicate To(a: seq<Answer>, c: Option<Context>) {
    a == [] || (|a| == 1 && c == Some(a[0].to))
  }

  lemma Extended(s: AgentState, t: AgentState, own: Option<Context>, first: seq<Answer>, second: seq<Answer>)
    requires t.answers == s.answers + first + second && To(first, s.pending) && To(second, own)
    ensures Extends(s, t, own)
  {
  }

  lemma SettleExtends(s: AgentState, o: Outcome, own: Option<Context>)
    ensures Extends(s, Settle(s, o), own)
  {
    Extended(s, Settle(s, o), own, if Waiting(s) then [Answer(s.pending.value, o)] else [], []);
  }

  lemma TellExtends(s: AgentState, c: Context, o: Outcome)
    ensures Extends(s, Tell(s, c, o), Some(c))
  {
    Extended(s, Tell(s, c, o), Some(c), [], [Answer(c, o)]);
  }

  lemma SameExtends(s: AgentState, t: AgentState, own: Option<Context>)
    requires t.answers == s.answers
    ensures Extends(s, t, own)
  {
    Extended(s, t, own, [], []);
  }

  lemma SettleAuthorizationExtends(s: AgentState, o: Outcome, own: Option<Context>)
    ensures Extends(s, SettleAuthorization(s, o, own), own)
  {
    Extended(s, SettleAuthorization(s, o, own), own, if Waiting(s) then [Answer(s.pending.value, o)] else [],
             if own.None? then [] else [Answer(own.value, if Waiting(s) then Returned("") else Rejected)]);
  }

  /** What was opened is answered in the place of what was handed over. */
  lemma RequestedExtends(s: AgentState, sender: Option<string>, e: ExecType, path: string, c: Context, d: Decision)
    ensures Extends(s, Requested(s, sender, e, path, c, d), Some(c))
  {
    hide PathText;
    var r := Requested(s, sender, e, path, c, d);
    if r.answers == s.answers {
      SameExtends(s, r, Some(c));
    } else {
      Extended(s, r, Some(c), [], [Answer(c, if s.adapter && d.Decided? then d.outcome else Rejected)]);
    }
  }

  lemma ModeRequestedExtends(s: AgentState, sender: Option<string>, mode: Option<string>, works: bool, c: Context)
    ensures Extends(s, ModeRequested(s, sender, mode, works, c), Some(c))
  {
    hide SameText;
    var r := ModeRequested(s, sender, mode, works, c);
    if r.answers == s.answers {
      SameExtends(s, r, Some(c));
    } else {
      Extended(s, r, Some(c), [], [r.answers[|s.answers|]]);
    }
  }

  lemma CancelledExtends(s: AgentState, sender: Option<string>)
    ensures Extends(s, CancelledBy(s, sender), None)
  {
    SettleExtends(s, Cancelled, None);
    SettleExtends(s, Rejected, None);
    SameExtends(s, CancelledBy(s, sender).(answers := s.answers), None);
  }

  /** A step answers nobody but what was stored and what it was handed. */
  lemma StepExtends(s: AgentState, op: Op)
    ensures Extends(s, Step(s, op), ContextOf(op))
  {
    hide Requested, ModeRequested, CancelledBy, SettleAuthorization, Settle, Tell, ConfirmDecision, AuthorizeDecision,
      PinDecision;
    match op {
      case RequestPinCode(sender, path, d, passkey, c) =>
        RequestedExtends(s, sender, Pairing, path, c, PinDecision(s, d, passkey));
      case RequestPasskey(sender, path, d, c) => RequestedExtends(s, sender, Pairing, path, c, ConfirmDecision(d));
      case RequestConfirmation(sender, path, d, c) => RequestedExtends(s, sender, Pairing, path, c, ConfirmDecision(d));
      case Authorize(sender, path, uuid, d, settings, c) =>
        RequestedExtends(s, sender, Authorization, path, c, AuthorizeDecision(d, uuid, settings));
      case ConfirmModeRequest(sender, mode, works, c) => ModeRequestedExtends(s, sender, mode, works, c);
      case CancelRequest(sender) => CancelledExtends(s, sender);
      case Release(sender, c) =>
        TellExtends(s, c, Returned(""));
        SameExtends(s, s, Some(c));
      case ReplyPairing(accept, value) => SettleExtends(s, OutcomeOf(accept, value), None);
      case ReplyAuthorize(accept, own) => SettleAuthorizationExtends(s, OutcomeOf(accept, ""), own);
      case ReplyAdapterEnable(accept, works, c) =>
        TellExtends(s, c, OutcomeOf(if accept == ACCEPT && !works then REJECT else accept, ""));
      case IgnoreAutoPairing(to) => SameExtends(s, Step(s, op), None);
      case Register(name) => SameExtends(s, Step(s, op), None);
      case Unregister => SameExtends(s, Step(s, op), None);
    }
  }

  lemma AnswersGrow(s: AgentState, op: Op)
    ensures s.answers <= Step(s, op).answers
  {
    hide Step, To;
    StepExtends(s, op);
  }

  lemma {:induction false} RunGrows(s: AgentState, ops: seq<Op>)
    ensures s.answers <= Run(s, ops).answers
    decreases ops
  {
    if ops != [] {
      AnswersGrow(s, ops[0]);
      RunGrows(Step(s, ops[0]), ops[1..]);
    }
  }

  /** The stored mode request is answered a second time. */
  lemma HitAnswersTwice(s: AgentState, op: Op, used: set<Context>)
    requires Inv(s, used) && Hits(s, op)
    ensures CountTo(Step(s, op).answers, s.pending.value) >= 2
  {
    var c := s.pending.value;
    var o := if op.ReplyPairing? then OutcomeOf(op.accept, op.value) else OutcomeOf(op.accept, "");
    CountTold(s, c, o);
    assert Settle(s, o).answers <= Step(s, op).answers;
    PrefixCounts(Settle(s, o).answers, Step(s, op).answers, c);
  }

  predicate IdleIffNothingStored(s: AgentState) {
    s.exec == NoOperation <==> s.pending == None
  }

  lemma StepStaysIdle(s: AgentState, op: Op)
    requires IdleIffNothingStored(s)
    ensures IdleIffNothingStored(Step(s, op))
  {
    hide PinDecision, ConfirmDecision, AuthorizeDecision, OutcomeOf, SameText, PathText, BondingText;
  }

  /** Whatever happens, mode requests and double answers included, the agent is idle exactly when
      nothing is stored. */
  lemma {:induction false} IdleIffNothingStoredAlways(s: AgentState, ops: seq<Op>)
    requires IdleIffNothingStored(s)
    ensures IdleIffNothingStored(Run(s, ops))
    decreases ops
  {
    if ops != [] {
      hide Step, IdleIffNothingStored;
      StepStaysIdle(s, ops[0]);
      IdleIffNothingStoredAlways(Step(s, ops[0]), ops[1..]);
    }
  }

  /** Over every run from a sound state, no invocation is answered twice if and only if no reply comes
      while an answered mode request is still stored. */
  lemma {:induction false} AtMostOneAnswerIff(s: AgentState, ops: seq<Op>, used: set<Context>)
    requires Inv(s, used) && Legal(ops, used)
    ensures AtMostOnce(Run(s, ops).answers) <==> NeverHits(s, ops)
    ensures IdleIffNothingStored(Run(s, ops))
    decreases ops
  {
    IdleIffNothingStoredAlways(s, ops);
    if ops != [] {
      hide Step, Legal;
      var t := Step(s, ops[0]);
      if Hits(s, ops[0]) {
        var c := s.pending.value;
        HitAnswersTwice(s, ops[0], used);
        RunGrows(t, ops[1..]);
        PrefixCounts(t.answers, Run(t, ops[1..]).answers, c);
      } else {
        LegalHead(ops, used);
        StepKeeps(s, ops[0], used);
        AtMostOneAnswerIff(t, ops[1..], used + Handed(ops[0]));
      }
    }
  }

  lemma LegalHead(ops: seq<Op>, used: set<Context>)
    requires Legal(ops, used) && ops != []
    ensures Handed(ops[0]) !! used && Legal(ops[1..], used + Handed(ops[0]))
  {
  }

  predicate WithoutModes(ops: seq<Op>) {
    ops == [] || (!ops[0].ConfirmModeRequest? && WithoutModes(ops[1..]))
  }

  lemma {:induction false} WithoutModesNeverHits(s: AgentState, ops: seq<Op>)
    requires s.exec != ConfirmMode && WithoutModes(ops)
    ensures NeverHits(s, ops)
    decreases ops
  {
    if ops != [] {
      StaysOut(s, ops[0]);
      WithoutModesNeverHits(Step(s, ops[0]), ops[1..]);
    }
  }

  lemma StaysOut(s: AgentState, op: Op)
    requires s.exec != ConfirmMode && !op.ConfirmModeRequest?
    ensures Step(s, op).exec != ConfirmMode
  {
    hide PinDecision, ConfirmDecision, AuthorizeDecision, OutcomeOf, SameText, PathText, BondingText;
  }

  /** Over every run of requests, replies, remote cancels and releases of a new agent, no invocation is
      answered twice, and the agent is idle exactly when nothing is stored. */
  lemma AtMostOneAnswer(callbacks: bool, ops: seq<Op>)
    requires Legal(ops, {}) && WithoutModes(ops)
    ensures AtMostOnce(Run(Initial(callbacks), ops).answers)
    ensures Run(Initial(callbacks), ops).exec == NoOperation <==> Run(Initial(callbacks), ops).pending == None
  {
    IdleIffNothingStoredAlways(Initial(callbacks), ops);
    WithoutModesNeverHits(Initial(callbacks), ops);
    AtMostOneAnswerIff(Initial(callbacks), ops, {});
  }

  /** A mode request that is granted, and then any reply: the one invocation is answered twice. */
  lemma ModeAnsweredTwice()
    ensures var ops := [ConfirmModeRequest(Some("a"), Some("enable"), true, 0), ReplyPairing(CANCEL, "")];
            Legal(ops, {}) && CountTo(Run(Initial(true), ops).answers, 0) == 2
  {
    var m, r := ConfirmModeRequest(Some("a"), Some("enable"), true, 0), ReplyPairing(CANCEL, "");
    assert [m, r][1..] == [r];
    assert Legal([r], {0});
    var s := Step(Initial(true), m);
    assert SameText("enable", "enable");
    assert Run(Initial(true), [m, r]) == Run(s, [r]) == Step(s, r);
    assert Step(s, r).answers == [Answer(0, Returned("")), Answer(0, Cancelled)];
    CountSnoc([], Answer(0, Returned("")), 0);
    CountSnoc([Answer(0, Returned(""))], Answer(0, Cancelled), 0);
    assert [Answer(0, Returned(""))] + [Answer(0, Cancelled)] == [Answer(0, Returned("")), Answer(0, Cancelled)];
  }

  // ----- who is answered, and with what -----

  lemma CountOthers(a: seq<Answer>, more: seq<Answer>, to: Option<Context>, c: Context)
    requires To(more, to) && to != Some(c)
    ensures CountTo(a + more, c) == CountTo(a, c)
  {
    if more == [] {
      assert a + more == a;
    } else {
      assert more == [more[0]];
      CountSnoc(a, more[0], c);
    }
  }

  /** A step answers nobody but the invocation that was stored and the one it was handed. */
  lemma OnlyTheseAreAnswered(s: AgentState, op: Op, c: Context)
    requires s.pending != Some(c) && ContextOf(op) != Some(c)
    ensures CountTo(Step(s, op).answers, c) == CountTo(s.answers, c)
  {
    StepExtends(s, op);
    hide Step, To, CountTo, ContextOf;
    var first: seq<Answer>, second: seq<Answer> :|
      Step(s, op).answers == s.answers + first + second && To(first, s.pending) && To(second, ContextOf(op));
    CountOthers(s.answers, first, s.pending, c);
    CountOthers(s.answers + first, second, ContextOf(op), c);
  }

  lemma NotStored(s: AgentState, op: Op, c: Context)
    requires s.pending != Some(c) && ContextOf(op) != Some(c)
    ensures Step(s, op).pending != Some(c)
  {
    hide PinDecision, ConfirmDecision, AuthorizeDecision, OutcomeOf, SameText, PathText, BondingText;
  }

  predicate NotHanded(ops: seq<Op>, c: Context) {
    ops == [] || (ContextOf(ops[0]) != Some(c) && NotHanded(ops[1..], c))
  }

  /** An invocation that is no longer stored, overwritten or settled, is never heard of again. */
  lemma {:induction false} LostForGood(s: AgentState, ops: seq<Op>, c: Context)
    requires s.pending != Some(c) && NotHanded(ops, c)
    ensures CountTo(Run(s, ops).answers, c) == CountTo(s.answers, c)
    decreases ops
  {
    if ops != [] {
      hide Step;
      OnlyTheseAreAnswered(s, ops[0], c);
      NotStored(s, ops[0], c);
      LostForGood(Step(s, ops[0]), ops[1..], c);
    }
  }

  lemma RequestedOrStored(s: AgentState, sender: Option<string>, e: ExecType, path: string, c: Context, d: Decision)
    requires CountTo(s.answers, c) == 0 && s.pending != Some(c)
    requires FromBluez(s, sender) && s.callbacks && (e == Pairing || e == Authorization)
    ensures var t := Requested(s, sender, e, path, c, d);
            CountTo(t.answers, c) == (if t.pending == Some(c) then 0 else 1) &&
            (t.pending == Some(c) <==> s.adapter && d.Ask?)
  {
    hide PathText, CountTo, AtMostOnce, Accounted;
    var t := Requested(s, sender, e, path, c, d);
    if !s.adapter {
      CountTold(s, c, Rejected);
    } else if d.Decided? {
      var o := Opened(s, e, path, c);
      CountTold(o, c, d.outcome);
      assert t.answers == Tell(o, c, d.outcome).answers && t.pending == None;
    } else {
      assert t == Opened(s, e, path, c);
    }
  }

  predicate IsRequest(op: Op) {
    op.RequestPinCode? || op.RequestPasskey? || op.RequestConfirmation? || op.Authorize?
  }

  function DecisionOf(s: AgentState, op: Op): Decision {
    match op
    case RequestPinCode(_, _, d, passkey, _) => PinDecision(s, d, passkey)
    case RequestPasskey(_, _, d, _) => ConfirmDecision(d)
    case RequestConfirmation(_, _, d, _) => ConfirmDecision(d)
    case Authorize(_, _, uuid, d, settings, _) => AuthorizeDecision(d, uuid, settings)
    case _ => Ask
  }

  /** A request of BlueZ comes out of the step either answered once or stored, and stored exactly when
      there is an adapter and nothing decides it. */
  lemma RequestIsAnsweredOrStored(s: AgentState, op: Op, used: set<Context>)
    requires Inv(s, used) && Handed(op) !! used && IsRequest(op) && FromBluez(s, op.sender) && s.callbacks
    ensures var t := Step(s, op);
            CountTo(t.answers, op.context) == (if t.pending == Some(op.context) then 0 else 1) &&
            (t.pending == Some(op.context) <==> s.adapter && DecisionOf(s, op).Ask?)
  {
    assert CountTo(s.answers, op.context) == 0 && s.pending != Some(op.context);
    hide Inv, Requested, PinDecision, ConfirmDecision, AuthorizeDecision, FromBluez, CountTo;
    var e := if op.Authorize? then Authorization else Pairing;
    RequestedOrStored(s, op.sender, e, op.path, op.context, DecisionOf(s, op));
  }

  /** A remote cancel of a request that waits is its only answer, "cancelled", although the callback's
      reply and the error behind it both aim at it. */
  lemma CancelAnswersOnce(s: AgentState, sender: Option<string>, used: set<Context>)
    requires Inv(s, used) && FromBluez(s, sender) && (s.exec == Pairing || s.exec == Authorization)
    ensures var t := Step(s, CancelRequest(sender));
            CountTo(t.answers, s.pending.value) == 1 && t.pending == None && t.exec == NoOperation &&
            t.answers == s.answers + [Answer(s.pending.value, if s.callbacks then Cancelled else Rejected)]
  {
    CountSnoc(s.answers, Answer(s.pending.value, if s.callbacks then Cancelled else Rejected), s.pending.value);
  }

  predicate IsTrusted(d: Device) {
    d.Known? && d.paired && d.trusted
  }

  /** A service is granted on the spot exactly to an audio service, or to a paired and trusted device for
      a service no other process is asked about. */
  lemma GrantedIff(s: AgentState, op: Op)
    requires op.Authorize? && Admits(s, op.sender)
    ensures Step(s, op).answers == s.answers + [Answer(op.context, Returned(""))] <==>
            (IsTrusted(op.device) && !IsDelegated(op.uuid, op.settings)) || IsAudioService(op.uuid)
  {
    hide PathText, IsAudioService, IsDelegated;
    var granted := s.answers + [Answer(op.context, Returned(""))];
    var refused := s.answers + [Answer(op.context, Rejected)];
    assert granted[|s.answers|] != refused[|s.answers|] && |granted| != |s.answers|;
  }

  /** A request that is left to the user remembers the device it came from. */
  lemma StoredDeviceIsKnown(s: AgentState, op: Op, adapter: string, a: Address.DeviceAddress)
    requires IsRequest(op) && Admits(s, op.sender) && DecisionOf(s, op).Ask?
    requires op.path == Address.DevicePath(adapter, a) && !Address.HasMark(Address.Base(adapter))
    ensures (if op.Authorize? then Step(s, op).authorizeAddr else Step(s, op).pairingAddr) == Address.Print(a)
  {
    Address.PathReads(adapter, a);
    hide Address.PathAddress, Address.DevicePath, Address.HasMark, Address.Print, Address.Parse, PinDecision,
      ConfirmDecision, AuthorizeDecision;
  }
}
