/**
 Step-up verification: WebAuthn leaves a short-lived "passkey ready" marker, /api/verify turns a TOTP
 code or that marker into a verified session, and sensitive handlers require a recent verification by
 a given method. The session is one record that every saved request replaces.
 */
module SecureSession {
  import opened Options

  datatype Method = TwoFA | Passkey

  /** A timestamp key of the session: absent, a value of another type, or a time. */
  datatype Stamp = Missing | Garbled | At(time: int)

  datatype Session = Session(readyAt: Stamp, verifiedAt: Stamp, how: Option<Method>)

  const VERIFICATION_TIMEOUT := 300
  const READY_TIMEOUT := 60

  /** Requests that touch the session; `saved` flags say whether session.Save succeeded. A passkey
      verification reads the clock when it checks the marker and again when it sets the session. */
  datatype Event =
    | PasskeyFinish(now: int, saved: bool)
    | Verify2FA(now: int, codeOk: bool, saved: bool)
    | VerifyPasskey(now: int, setAt: int, consumed: bool, saved: bool)
    | Require(how: Method, now: int, saved: bool)
    | Gate(now: int, saved: bool)

  const EMPTY := Session(Missing, Missing, None)

  function Verified(m: Method, now: int): Session {
    Session(Missing, At(now), Some(m))
  }

  function Cleared(s: Session): Session {
    s.(verifiedAt := Missing, how := None)
  }

  predicate Fresh(s: Session, now: int) {
    s.verifiedAt.At? && now - s.verifiedAt.time < VERIFICATION_TIMEOUT
  }

  predicate ReadyNow(s: Session, now: int) {
    s.readyAt.At? && now - s.readyAt.time < READY_TIMEOUT
  }

  /** Whether the request succeeds, and the session it leaves. */
  function Handle(s: Session, e: Event): (bool, Session) {
    match e
    case PasskeyFinish(now, saved) =>
      (saved, if saved then Session(At(now), Missing, None) else s)
    case Verify2FA(now, codeOk, saved) =>
      if codeOk && saved then (true, Verified(TwoFA, now)) else (false, s)
    case VerifyPasskey(now, setAt, consumed, saved) =>
      if s.readyAt.Missing? || !consumed then (false, s)
      else if !ReadyNow(s, now) || !saved then (false, s.(readyAt := Missing))
      else (true, Verified(Passkey, setAt))
    case Require(m, now, saved) =>
      if !Fresh(s, now) then (false, if saved then Cleared(s) else s)
      else (s.how == Some(m), s)
    case Gate(now, saved) =>
      if s.verifiedAt.Missing? then (false, s)
      else if !Fresh(s, now) then (false, if saved then Cleared(s) else s)
      else (true, s)
  }

  function After(events: seq<Event>): Session {
    if events == [] then EMPTY else Handle(After(events[..|events| - 1]), events[|events| - 1]).1
  }

  /** Whether request `i` of the run succeeded. */
  predicate Succeeded(events: seq<Event>, i: nat)
    requires i < |events|
  {
    Handle(After(events[..i]), events[i]).0
  }

  /** The method a request verifies by. */
  function VerifiesBy(e: Event): Option<Method> {
    match e
    case Verify2FA(_, _, _) => Some(TwoFA)
    case VerifyPasskey(_, _, _, _) => Some(Passkey)
    case _ => None
  }

  /** The clock reading a request ends with, and the time it records if it verifies. */
  function VerifiedTime(e: Event): int {
    if e.VerifyPasskey? then e.setAt else e.now
  }

  /** The clock never goes back. */
  ghost predicate Timely(events: seq<Event>) {
    && (forall i :: 0 <= i < |events| ==> events[i].now <= VerifiedTime(events[i]))
    && (forall i, j :: 0 <= i < j < |events| ==> VerifiedTime(events[i]) <= events[j].now)
  }

  // The verification in force

  /** Request `j` is the latest saved passkey ceremony or successful verification of the run. */
  ghost predicate LastWord(events: seq<Event>, j: nat) {
    && j < |events| && Decides(events, j)
    && forall k :: j < k < |events| ==> !Decides(events, k)
  }

  predicate Decides(events: seq<Event>, j: nat)
    requires j < |events|
  {
    Succeeded(events, j) && (events[j].PasskeyFinish? || VerifiesBy(events[j]).Some?)
  }

  /** What the session records after a run whose last word is request `j`. */
  ghost predicate Records(events: seq<Event>, s: Session, j: nat)
    requires j < |events|
  {
    if events[j].PasskeyFinish? then s.verifiedAt.Missing? && s.how.None?
    else
      || (s.verifiedAt == At(VerifiedTime(events[j])) && s.how == VerifiesBy(events[j]))
      // an expired verification may have been cleared since
      || (s.verifiedAt.Missing? && s.how.None? &&
          exists k :: j < k < |events| && events[k].now - VerifiedTime(events[j]) >= VERIFICATION_TIMEOUT)
  }

  lemma SucceededInPrefix(events: seq<Event>, n: nat, i: nat)
    requires i < n <= |events|
    ensures Succeeded(events[..n], i) == Succeeded(events, i)
    ensures Decides(events[..n], i) == Decides(events, i)
  {
    assert events[..n][..i] == events[..i];
  }

  lemma {:induction false} SessionRecords(events: seq<Event>) returns (j: int)
    ensures -1 <= j < |events|
    ensures j >= 0 ==> LastWord(events, j) && Records(events, After(events), j)
    ensures j < 0 ==> (forall k :: 0 <= k < |events| ==> !Decides(events, k)) &&
                      After(events).verifiedAt.Missing? && After(events).how.None?
    decreases |events|
  {
    if events == [] {
      j := -1;
    } else {
      var n := |events| - 1;
      var init := events[..n];
      j := SessionRecords(init);
      forall k | 0 <= k < n ensures Decides(init, k) == Decides(events, k) {
        SucceededInPrefix(events, n, k);
      }
      if Decides(events, n) {
        j := n;
      } else if j >= 0 {
        StepRecords(events, j);
      }
    }
  }

  lemma StepRecords(events: seq<Event>, j: nat)
    requires |events| > 0 && j < |events| - 1 && !Decides(events, |events| - 1)
    requires var init := events[..|events| - 1]; Decides(init, j) && Records(init, After(init), j)
    ensures Records(events, After(events), j)
  {
    var n := |events| - 1;
    var init := events[..n];
    if !events[j].PasskeyFinish? && exists k :: j < k < n && init[k].now - VerifiedTime(init[j]) >= VERIFICATION_TIMEOUT {
      var k :| j < k < n && init[k].now - VerifiedTime(init[j]) >= VERIFICATION_TIMEOUT;
      assert events[k].now - VerifiedTime(events[j]) >= VERIFICATION_TIMEOUT;
    }
  }

  /** A verification by `m` that is in force at `now`: it is the last word of the run and not yet stale. */
  ghost predicate InForce(events: seq<Event>, j: nat, m: Method, now: int) {
    LastWord(events, j) && VerifiesBy(events[j]) == Some(m) && now - VerifiedTime(events[j]) < VERIFICATION_TIMEOUT
  }

  /** A handler that requires method `m` lets a request through exactly when the run's last passkey
      ceremony or successful verification is a verification by `m` less than 300 seconds old. */
  lemma RequireIff(events: seq<Event>, i: nat)
    requires Timely(events) && i < |events| && events[i].Require?
    ensures Succeeded(events, i) <==> exists j :: InForce(events[..i], j, events[i].how, events[i].now)
  {
    var run, e := events[..i], events[i];
    var j := SessionRecords(run);
    if Succeeded(events, i) {
      assert InForce(run, j, e.how, e.now);
    }
    if k :| InForce(run, k, e.how, e.now) {
      assert k == j;
      NotYetCleared(events, i, j);
    }
  }

  /** Nothing is cleared before it is stale, since the clock does not go back. */
  lemma NotYetCleared(events: seq<Event>, i: nat, j: nat)
    requires Timely(events) && j < i < |events|
    requires events[i].now - VerifiedTime(events[j]) < VERIFICATION_TIMEOUT
    ensures forall k :: j < k < i ==> events[k].now - VerifiedTime(events[j]) < VERIFICATION_TIMEOUT
  {
    forall k | j < k < i ensures events[k].now <= events[i].now {
      assert events[k].now <= VerifiedTime(events[k]) <= events[i].now;
    }
  }

  /** Without any assumption on the clock, a passed requirement still rests on such a verification. */
  lemma RequireSound(events: seq<Event>, i: nat) returns (j: nat)
    requires i < |events| && events[i].Require? && Succeeded(events, i)
    ensures j < i && Succeeded(events, j) && VerifiesBy(events[j]) == Some(events[i].how)
    ensures events[i].now - VerifiedTime(events[j]) < VERIFICATION_TIMEOUT
    ensures forall k :: j < k < i && events[k].PasskeyFinish? ==> !Succeeded(events, k)
  {
    var l := SessionRecords(events[..i]);
    j := l;
    SucceededInPrefix(events, i, j);
    forall k | j < k < i && events[k].PasskeyFinish? ensures !Succeeded(events, k) {
      SucceededInPrefix(events, i, k);
    }
  }

  /** The middleware that accepts any method passes exactly on a verification in force. */
  lemma GateIff(events: seq<Event>, i: nat)
    requires Timely(events) && i < |events| && events[i].Gate?
    ensures Succeeded(events, i) <==> exists j, m :: InForce(events[..i], j, m, events[i].now)
  {
    var run, e := events[..i], events[i];
    var j := SessionRecords(run);
    if Succeeded(events, i) {
      assert InForce(run, j, VerifiesBy(run[j]).value, e.now);
    }
    if k, m :| InForce(run, k, m, e.now) {
      assert k == j;
      NotYetCleared(events, i, j);
    }
  }

  // The passkey marker

  /** The ceremony whose marker is still unused after the run. */
  function Marker(events: seq<Event>): Option<nat> {
    if events == [] then None
    else
      var n := |events| - 1;
      match events[n]
      case PasskeyFinish(_, saved) => if saved then Some(n) else Marker(events[..n])
      case Verify2FA(_, codeOk, saved) => if codeOk && saved then None else Marker(events[..n])
      case VerifyPasskey(_, _, consumed, _) => if consumed then None else Marker(events[..n])
      case _ => Marker(events[..n])
  }

  lemma {:induction false} MarkerIsReady(events: seq<Event>)
    ensures Marker(events).Some? ==>
              Marker(events).value < |events| && events[Marker(events).value].PasskeyFinish? &&
              Succeeded(events, Marker(events).value)
    ensures After(events).readyAt ==
            if Marker(events).Some? then At(events[Marker(events).value].now) else Missing
    decreases |events|
  {
    if events != [] {
      var n := |events| - 1;
      MarkerIsReady(events[..n]);
      if Marker(events).Some? && Marker(events).value < n {
        SucceededInPrefix(events, n, Marker(events).value);
      }
    }
  }

  lemma {:induction false} MarkerUsedOnce(events: seq<Event>, i: nat)
    requires i < |events| && events[i].VerifyPasskey? && events[i].consumed
    ensures Marker(events).Some? ==> Marker(events).value > i
    decreases |events|
  {
    if i < |events| - 1 {
      MarkerUsedOnce(events[..|events| - 1], i);
    }
  }

  /** A passkey verification succeeds exactly when a ceremony's marker is unused and less than 60
      seconds old and the session can be saved. */
  lemma PasskeyIff(events: seq<Event>, i: nat)
    requires i < |events| && events[i].VerifyPasskey?
    ensures Succeeded(events, i) <==>
            var f := Marker(events[..i]);
            f.Some? && f.value < i && events[i].now - events[f.value].now < READY_TIMEOUT &&
            events[i].consumed && events[i].saved
  {
    MarkerIsReady(events[..i]);
  }

  /** Different passkey verifications use different ceremonies: each comes after its own ceremony and
      before the next one's. */
  lemma OneCeremonyEach(events: seq<Event>, i: nat, i': nat)
    requires i < i' < |events| && events[i].VerifyPasskey? && events[i'].VerifyPasskey?
    requires Succeeded(events, i) && Succeeded(events, i')
    ensures Marker(events[..i]).Some? && Marker(events[..i']).Some?
    ensures Marker(events[..i]).value < i < Marker(events[..i']).value < i'
    ensures var f := Marker(events[..i]).value; events[f].PasskeyFinish? && Succeeded(events, f)
  {
    PasskeyIff(events, i);
    PasskeyIff(events, i');
    MarkerIsReady(events[..i]);
    SucceededInPrefix(events, i, Marker(events[..i]).value);
    MarkerUsedOnce(events[..i'], i);
  }

  // The session object

  class SessionStore {
    var readyAt: Stamp
    var verifiedAt: Stamp
    var verifiedMethod: Option<Method>

    ghost function Value(): Session
      reads this
    {
      Session(readyAt, verifiedAt, verifiedMethod)
    }

    constructor ()
      ensures Value() == EMPTY
    {
      readyAt, verifiedAt, verifiedMethod := Missing, Missing, None;
    }

    /** The session writes at the end of PasskeyVerifyFinish. */
    method FinishPasskey(now: int, saved: bool) returns (ok: bool)
      modifies this
      ensures (ok, Value()) == Handle(old(Value()), PasskeyFinish(now, saved))
    {
      if !saved {
        return false;
      }
      readyAt := At(now);
      verifiedAt, verifiedMethod := Missing, None;
      return true;
    }

    /** setSecureVerificationSession. */
    method SetVerified(m: Method, now: int, saved: bool) returns (ok: bool)
      modifies this
      ensures ok == saved && Value() == if saved then Verified(m, now) else old(Value())
    {
      if saved {
        readyAt := Missing;
        verifiedAt := At(now);
        verifiedMethod := Some(m);
      }
      return saved;
    }

    /** consumePasskeyReady. */
    method ConsumeReady(now: int, saved: bool) returns (ready: bool)
      modifies this
      ensures ready == (ReadyNow(old(Value()), now) && saved)
      ensures Value() == if saved then old(Value()).(readyAt := Missing) else old(Value())
    {
      if readyAt.Missing? || !saved {
        return false;
      }
      var at := readyAt;
      readyAt := Missing;
      return at.At? && now - at.time < READY_TIMEOUT;
    }

    /** The method switch of UniversalVerify. */
    method UniversalVerify(e: Event) returns (ok: bool)
      requires VerifiesBy(e).Some?
      modifies this
      ensures (ok, Value()) == Handle(old(Value()), e)
    {
      match e
      case Verify2FA(now, codeOk, saved) =>
        if !codeOk {
          return false;
        }
        ok := SetVerified(TwoFA, now, saved);
      case VerifyPasskey(now, setAt, consumed, saved) =>
        var ready := ConsumeReady(now, consumed);
        if !ready {
          return false;
        }
        ok := SetVerified(Passkey, setAt, saved);
    }

    /** requireSecureVerificationMethod. */
    method RequireMethod(m: Method, now: int, saved: bool) returns (ok: bool)
      modifies this
      ensures (ok, Value()) == Handle(old(Value()), Require(m, now, saved))
    {
      if !verifiedAt.At? || now - verifiedAt.time >= VERIFICATION_TIMEOUT {
        if saved {
          verifiedAt, verifiedMethod := Missing, None;
        }
        return false;
      }
      return verifiedMethod == Some(m);
    }

    /** The SecureVerificationRequired middleware. */
    method PassGate(now: int, saved: bool) returns (ok: bool)
      modifies this
      ensures (ok, Value()) == Handle(old(Value()), Gate(now, saved))
    {
      if verifiedAt.Missing? {
        return false;
      }
      if verifiedAt.Garbled? || now - verifiedAt.time >= VERIFICATION_TIMEOUT {
        if saved {
          verifiedAt, verifiedMethod := Missing, None;
        }
        return false;
      }
      return true;
    }
  }
}
