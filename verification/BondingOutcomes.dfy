/**
 What each call and callback of the bonding code comes to, case by case and in terms of its arguments
 alone: what is reported, what is asked for again, and what is left.
 */
module BondingOutcomes {
  import opened Text
  import opened Address
  import opened Bonding
  import PO = PairingOutcomes
  import PA = PairingAgent

  /** The result is reported, an error behind the calling off of the request, and everything is reset. */
  predicate Reports(s: LibState, t: LibState, error: Error) {
    t.log == (if error == NoError then s.log else s.log + [CreationCancelled(s.addrStr)]) + [Finished(error)] &&
    !t.timer && !t.isBondingReq && !t.isHeadsetBonding && !t.isHeadsetPinReq && t.addrStr == "" && t.outbox == s.outbox
  }

  // ----- whose refusal it is -----

  /** Among the devices there is one with that address, and it is an audio device. */
  ghost predicate IsAudioDevice(devices: map<DeviceAddress, nat>, t: string) {
    exists a :: a in devices && Print(a) == t && PO.IsAudioClass(devices[a])
  }

  lemma AudioDeviceIff(devices: map<DeviceAddress, nat>, t: string)
    ensures PA.IsHeadset(ClassOf(devices, t)) <==> IsAudioDevice(devices, t)
  {
    if IsAudioDevice(devices, t) {
      var a :| a in devices && Print(a) == t && PO.IsAudioClass(devices[a]);
      ParsePrinted(a);
      hide Print, Parse;
    } else {
      hide Print, Parse;
    }
  }

  /** BlueZ says that a headset did not take the PIN, or says nothing while one is being bonded. */
  ghost predicate IsHeadsetRefusal(s: LibState, a: Answer) {
    match a
    case AuthFailed(devices) => IsAudioDevice(devices, s.addrStr)
    case PageTimeout => s.isBondingReq && s.isHeadsetBonding
    case _ => false
  }

  lemma RefusalIff(s: LibState, a: Answer)
    ensures Verdict(s, a) == (AuthenticationFailed, true) <==> IsHeadsetRefusal(s, a)
    ensures Retries(s, Verdict(s, a).0, Verdict(s, a).1) <==> IsHeadsetRefusal(s, a) && !s.isHeadsetPinReq
  {
    if a.AuthFailed? {
      AudioDeviceIff(a.devices, s.addrStr);
    }
    hide ClassOf, IsAudioDevice, PA.IsHeadset;
  }

  /** The automatic retry is made for a headset's refusal, unless one was made since the last result. */
  lemma RetryIff(s: LibState, op: Op)
    ensures IsRetry(s, op) <==> op.CreateAnswered? && IsHeadsetRefusal(s, op.answer) && !s.isHeadsetPinReq
  {
    if op.CreateAnswered? {
      RefusalIff(s, op.answer);
      hide IsHeadsetRefusal, Retries, ClassOf;
      if op.answer.AlreadyExists? {
        ExistingIsNoRefusal(s, op.answer);
      }
    }
  }

  lemma ExistingIsNoRefusal(s: LibState, a: Answer)
    requires a.AlreadyExists?
    ensures !IsHeadsetRefusal(s, a)
  {
  }

  // ----- what is reported -----

  /** What an answer of BlueZ is reported as, when the request is not made again. */
  lemma AnswerIsReported(s: LibState, a: Answer, env: Env)
    requires !(a.AlreadyExists? && a.found && a.removed) && !(IsHeadsetRefusal(s, a) && !s.isHeadsetPinReq)
    ensures var t := Step(s, CreateAnswered(a, env));
            (a.Created? ==> Reports(s, t, NoError)) &&
            (a.AlreadyExists? ==> Reports(s, t, ParingFailed)) &&
            (a.Rejected? ==> Reports(s, t, AccessDenied)) &&
            (a.Canceled? ==> Reports(s, t, CancelByUser)) &&
            (a.StillInProgress? ==> Reports(s, t, InProgress)) &&
            (a.AuthFailed? ==> Reports(s, t, AuthenticationFailed)) &&
            (a.PageTimeout? && !s.isBondingReq ==> Reports(s, t, CancelByUser)) &&
            (a.PageTimeout? && s.isBondingReq && s.isHeadsetBonding ==> Reports(s, t, AuthenticationFailed)) &&
            (a.PageTimeout? && s.isBondingReq && !s.isHeadsetBonding ==> Reports(s, t, HostDown)) &&
            (a.OtherError? ==> Reports(s, t, ParingFailed))
  {
    RefusalIff(s, a);
    hide ClassOf, IsHeadsetRefusal, Retries, PA.IsHeadset, Reports;
    EndedReports(s, Verdict(s, a).0);
    hide Ended;
  }

  lemma EndedReports(s: LibState, error: Error)
    ensures Reports(s, Ended(s, error), error)
  {
  }

  /** The timer reports a timeout; a device that becomes paired is reported as bonded unless a request of
      the library's own is running. */
  lemma TimerAndPairing(s: LibState, paired: bool)
    ensures Reports(s, Step(s, TimerFired), TimedOut)
    ensures if paired && !s.isBondingReq then Reports(s, Step(s, PairedChanged(paired)), NoError)
            else Step(s, PairedChanged(paired)) == s
  {
    EndedReports(s, TimedOut);
    EndedReports(s, NoError);
    hide Ended, Reports;
  }

  /** A step logs this event. */
  ghost predicate Logs(s: LibState, t: LibState, e: Event) {
    exists i :: |s.log| <= i < |t.log| && t.log[i] == e
  }

  /** Success is reported if and only if BlueZ has created the device, or it became paired with no request
      running. */
  lemma SuccessIff(s: LibState, op: Op)
    ensures Logs(s, Step(s, op), Finished(NoError)) <==>
            (op.CreateAnswered? && op.answer.Created?) || (op.PairedChanged? && op.paired && !s.isBondingReq)
  {
    hide Print, Parse, ClassOf, PA.IsHeadset;
    var t := Step(s, op);
    if (op.CreateAnswered? && op.answer.Created?) || (op.PairedChanged? && op.paired && !s.isBondingReq) {
      assert t.log[|s.log|] == Finished(NoError);
    }
  }

  // ----- what is asked for -----

  /** A call for a device is answered with the first thing that is in the way, and only one that can be
      sent leaves a request and a timer. */
  lemma BondIs(s: LibState, a: DeviceAddress, env: Env)
    ensures var t := Step(s, BondDevice(Some(a), env));
            if !env.enabled || env.discovering then t == s
            else if !env.sends then t == s.(addrStr := Print(a))
            else t == s.(addrStr := Print(a), isBondingReq := true, timer := true,
                         log := s.log + [CreateSent(Print(a))])
    ensures ResultOf(Some(a), env) ==
            (if !env.enabled then NotEnabled
             else if env.discovering then Busy
             else if !env.sends then Internal
             else Bonded)
    ensures Step(s, BondDevice(None, env)) == s && ResultOf(None, env) == InvalidParam
  {
    hide Print;
  }

  /** The retry calls the request off, tells the agent whom to leave alone, and is remembered. */
  lemma RetryIs(s: LibState, op: Op)
    requires IsRetry(s, op)
    ensures var t := Step(s, op);
            s.log + [CreationCancelled(s.addrStr), Rebond(s.addrStr, Parse(s.addrStr))] <= t.log &&
            t.outbox == s.outbox + [s.addrStr] && t.isHeadsetPinReq && !t.isHeadsetBonding &&
            (t.timer <==> op.env.enabled && !op.env.discovering && op.env.sends) && t.isBondingReq == t.timer
  {
    hide Print, Parse, Verdict;
  }

  /** A bond that could be removed is asked for again and nothing else changes. */
  lemma ReplacedIs(s: LibState, env: Env)
    ensures Step(s, CreateAnswered(AlreadyExists(true, true), env)) ==
            if env.sends then s.(log := s.log + [CreateSent(s.addrStr)]) else s
  {
  }

  /** Cancelling stops the timer and calls the request off; a new device sets the headset mark by its class. */
  lemma CancelAndDevice(s: LibState, added: bool, cls: nat)
    ensures Step(s, CancelBonding(true)) == s.(timer := false, log := s.log + [CreationCancelled(s.addrStr)])
    ensures Step(s, CancelBonding(false)) == s
    ensures Step(s, DeviceCreated(added, cls)) == if added then s.(isHeadsetBonding := PO.IsAudioClass(cls)) else s
  {
  }
}
