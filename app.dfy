/**
 * The state App.js keeps for the APNs token (`apnsStatus`, `apnsToken`, `apnsError`),
 * the AsyncStorage entries it writes, the event feed, and the steps that update them:
 * permission, remote registration, the start-up sequence, the poll loop, the token
 * publisher and the refresh action. The platform answers come from a `Host.Environment`.
 */
module App {
  import opened Common
  import opened Host
  import opened TokenWorkflow
  import AdminPanel

  /** `apnsStatus`. */
  datatype ApnsStatus = Idle | Waiting | Ready | Error

  /** What the steps of the workflow change, seen between two steps: the APNs fields and
      the storage of the app, and how far the platform's scripts, timers, clock and call
      log have got. */
  datatype Snapshot = Snapshot(status: ApnsStatus, token: Option<string>, error: Option<string>,
                               store: map<string, string>, registered: nat, apnsGiven: nat, fcmGiven: nat,
                               postsGiven: nat, timersFired: nat, clock: int, log: seq<Call>)

  class AppState {
    const os: Os
    const env: Environment
    var status: ApnsStatus
    var token: Option<string>          // apnsToken
    var error: Option<string>          // apnsError
    var store: map<string, string>     // AsyncStorage
    var events: seq<AdminPanel.Event>  // the event feed

    /** Between steps the status is never 'waiting', 'ready' always comes with a token,
        'error' with a message, a stored APNs token is never empty, and the platform has
        seen every APNs read after a successful registration. */
    ghost predicate Valid()
      reads this, env
    {
      && env.Valid()
      && status != Waiting
      && (status == Ready ==> token.Some?)
      && (status == Error ==> error.Some?)
      && (token.Some? ==> token.value != "")
    }

    /** The first render: every `useState` at its initial value; AsyncStorage holds
        whatever earlier runs of the app left in it. */
    constructor (os: Os, env: Environment, stored: map<string, string>)
      requires env.Valid()
      ensures Valid() && this.os == os && this.env == env
      ensures status == Idle && token == None && error == None && store == stored && events == []
    {
      this.os, this.env := os, env;
      status, token, error := Idle, None, None;
      store, events := stored, [];
    }

    ghost function Snap(): Snapshot
      reads this, env
    {
      Snapshot(status, token, error, store, env.registered, env.apnsGiven, env.fcmGiven, env.postsGiven,
               env.timersFired, env.clock, env.log)
    }

    /** `s'` is the state after a poll run from `s` (see `TokenWorkflow.Poll`): a token
        found ends in 'ready' with the token kept and stored, otherwise 'error' with the
        failure message and the old token and storage. */
    ghost predicate Polled(s: Snapshot, s': Snapshot, timeoutMs: int, intervalMs: nat)
      requires intervalMs > 0
    {
      var r := Poll(env.apnsReads, env.lags, s.apnsGiven, s.timersFired, 0, timeoutMs, intervalMs, None);
      && s'.registered == s.registered && s'.fcmGiven == s.fcmGiven && s'.postsGiven == s.postsGiven
      && s'.apnsGiven == s.apnsGiven + r.attempts
      && s'.timersFired == s.timersFired + r.sleeps
      && s'.clock == s.clock + r.elapsed
      && s'.log == s.log + Reads(r.attempts)
      && if r.token.Some? then
           s'.status == Ready && s'.token == r.token && s'.error == None && s'.store == s.store[ApnTokenKey := r.token.value]
         else
           s'.status == Error && s'.token == s.token && s'.store == s.store && s'.error == Some(FailureMessage(r.lastErr))
    }

    /** `s'` is the state after step 3 of the start-up sequence from `s`: nothing happens
        unless on iOS with registration confirmed; then one immediate read, whose
        non-empty token goes straight to 'ready' and storage, whose throw ends in 'error'
        with `String(e)`, and whose null or empty answer is followed by a poll with the
        default window and interval. */
    ghost predicate ApnsStepped(s: Snapshot, s': Snapshot, regOk: bool)
    {
      if !(os == IOS && regOk) then s' == s
      else
        var first := ReadAt(env.apnsReads, s.apnsGiven);
        var read := s.(apnsGiven := s.apnsGiven + 1, log := s.log + [ApnsRead]);
        if IsToken(first) then
          s' == read.(status := Ready, token := Some(first.value), store := s.store[ApnTokenKey := first.value])
        else if first.Throw? then
          s' == read.(status := Error, error := Some(first.error.text))
        else
          Polled(read, s', DefaultTimeoutMs, DefaultIntervalMs)
    }

    /** What `sendTokensToBackend` does from `s`, with `cached` as the `apnsToken` its
        closure sees and the platform's next answers. */
    ghost function Publication(s: Snapshot, cached: Option<string>): PublishRun
    {
      Publish(os, cached, At(env.registrations, s.registered, Done), ReadAt(env.apnsReads, s.apnsGiven),
              ReadAt(env.fcmReads, s.fcmGiven), At(env.posts, s.postsGiven, Done))
    }

    /** `s'` is the state after `sendTokensToBackend` from `s`: its calls are logged, the
        truthy tokens it reached are stored, and the answers it asked for are used up;
        the APNs status, token and error, the timers and the clock are untouched. */
    ghost predicate Published(s: Snapshot, s': Snapshot, cached: Option<string>)
    {
      var reg := At(env.registrations, s.registered, Done);
      var a := ApnsBlock(os, cached, ReadAt(env.apnsReads, s.apnsGiven));
      var f := FcmBlock(os, ReadAt(env.fcmReads, s.fcmGiven));
      var p := Publication(s, cached);
      && s'.status == s.status && s'.token == s.token && s'.error == s.error
      && s'.timersFired == s.timersFired && s'.clock == s.clock
      && s'.store == SaveIfTruthy(SaveIfTruthy(s.store, ApnTokenKey, p.apnsSaved), FcmTokenKey, p.fcmSaved)
      && s'.registered == s.registered + 1
      && s'.apnsGiven == s.apnsGiven + (if reg.Done? then |a.calls| else 0)
      && s'.fcmGiven == s.fcmGiven + (if reg.Done? && a.thrown.None? then |f.calls| else 0)
      && s'.postsGiven == s.postsGiven + (if reg.Done? && a.thrown.None? && f.thrown.None? then 1 else 0)
      && s'.log == s.log + p.calls
    }

    /** `requestUserPermission`: true exactly for an authorized or provisional answer,
        false when the platform call throws. */
    method RequestUserPermission() returns (enabled: bool)
      ensures enabled == Enabled(env.permission)
      ensures env.permission.PermissionThrew? ==> !enabled
    {
      var answer := env.RequestPermission();
      enabled := Enabled(answer);
    }

    /** `ensureRemoteRegistration`: true exactly when the registration call did not throw. */
    method EnsureRemoteRegistration() returns (ok: bool)
      requires Valid()
      modifies env`registered, env`log, env`registrationOk
      ensures Valid() && env.registrationOk == ok
      ensures ok == At(env.registrations, old(env.registered), Done).Done?
      ensures env.registered == old(env.registered) + 1
      ensures env.log == old(env.log) + [Register(ok)]
    {
      var outcome := env.RegisterDevice();
      ok := outcome.Done?;
    }

    /** One pass through the body of the loop of `pollAPNSToken`: read the token; unless
        it is a non-empty one, remember what the read threw and wait `intervalMs`. */
    method Attempt(intervalMs: nat, lastErr: Option<Thrown>) returns (got: TokenRead, caught: Option<Thrown>)
      requires env.registrationOk && status == Waiting && error == None
      modifies env`apnsGiven, env`timersFired, env`clock, env`log
      ensures env.registrationOk
      ensures got == ReadAt(env.apnsReads, old(env.apnsGiven)) && env.apnsGiven == old(env.apnsGiven) + 1
      ensures env.log == old(env.log) + [ApnsRead]
      ensures IsToken(got) ==> env.timersFired == old(env.timersFired) && env.clock == old(env.clock)
      ensures !IsToken(got) ==>
                && caught == (if got.Throw? then Some(got.error) else lastErr)
                && env.timersFired == old(env.timersFired) + 1
                && env.clock == old(env.clock) + intervalMs + At(env.lags, old(env.timersFired), 0)
    {
      caught := lastErr;
      got := env.GetApnsToken();
      if !IsToken(got) {
        if got.Throw? {
          caught := Some(got.error);
        }
        env.Sleep(intervalMs);
      }
    }

    /** The loop of `pollAPNSToken`: read every `intervalMs` while less than `timeoutMs`
        has elapsed since `start`, until a read yields a non-empty token; hands back that
        token, or none and the last value caught. */
    method WaitForApnsToken(timeoutMs: int, intervalMs: nat) returns (found: Option<string>, lastErr: Option<Thrown>)
      requires env.registrationOk && intervalMs > 0 && status == Waiting && error == None
      modifies env`apnsGiven, env`timersFired, env`clock, env`log
      ensures env.registrationOk
      ensures var r := Poll(env.apnsReads, env.lags, old(env.apnsGiven), old(env.timersFired), 0, timeoutMs, intervalMs, None);
        && found == r.token && (found.None? ==> lastErr == r.lastErr)
        && env.apnsGiven == old(env.apnsGiven) + r.attempts && env.timersFired == old(env.timersFired) + r.sleeps
        && env.clock == old(env.clock) + r.elapsed && env.log == old(env.log) + Reads(r.attempts)
    {
      ghost var log0 := env.log;
      ghost var t0 := Turn(env.apnsGiven, env.timersFired, 0, None);
      var start := env.Now();
      lastErr, found := None, None;
      ghost var k: nat := 0;
      var now := env.Now();
      while now - start < timeoutMs
        invariant found.None? && env.registrationOk
        invariant now == env.clock && start == old(env.clock)
        invariant Turn(env.apnsGiven, env.timersFired, now - start, lastErr) == Misses(env.apnsReads, env.lags, intervalMs, t0, k)
        invariant AllMissed(env.apnsReads, env.lags, timeoutMs, intervalMs, t0, k)
        invariant env.log == log0 + Reads(k)
        decreases timeoutMs - (now - start)
      {
        ghost var i0, k0, k1 := env.apnsGiven, k, k + 1;
        var got;
        got, lastErr := Attempt(intervalMs, lastErr);
        ReadsStep(log0, k0, k1);
        if IsToken(got) {
          PollHit(env.apnsReads, env.lags, i0, env.timersFired, now - start, timeoutMs, intervalMs, lastErr);
          found := Some(got.value);
          break;
        }
        now := env.Now();
        k := k1;
        MissesStep(env.apnsReads, env.lags, timeoutMs, intervalMs, t0, k0, k);
      }
      PollAfterMisses(env.apnsReads, env.lags, timeoutMs, intervalMs, t0, k);
    }

    /** `pollAPNSToken`: 'waiting' with the error cleared, then the loop; the first
        non-empty token ends it in 'ready' and is stored under "apnToken"; otherwise it
        ends in 'error' with the last caught value or the timeout message. */
    method PollApnsToken(timeoutMs: int, intervalMs: nat) returns (t: Option<string>)
      requires Valid() && intervalMs > 0 && env.registrationOk
      modifies this`status, this`token, this`error, this`store, env`apnsGiven, env`timersFired, env`clock, env`log
      ensures Valid() && env.registrationOk
      ensures t == Poll(env.apnsReads, env.lags, old(env.apnsGiven), old(env.timersFired), 0, timeoutMs, intervalMs, None).token
      ensures Polled(old(Snap()), Snap(), timeoutMs, intervalMs)
    {
      ghost var log0 := env.log;
      ghost var r := Poll(env.apnsReads, env.lags, env.apnsGiven, env.timersFired, 0, timeoutMs, intervalMs, None);
      status := Waiting;
      error := None;
      var lastErr;
      t, lastErr := WaitForApnsToken(timeoutMs, intervalMs);
      ReadsAfterRegistration(log0, r.attempts);
      ghost var waited := Snap();
      if t.Some? {
        token := t;
        status := Ready;
        store := store[ApnTokenKey := t.value];
        assert Snap() == waited.(status := Ready, token := t, store := waited.store[ApnTokenKey := t.value]);
      } else {
        status := Error;
        error := Some(FailureMessage(lastErr));
        assert Snap() == waited.(status := Error, error := Some(FailureMessage(lastErr)));
      }
    }

    /** Step 3 of the start-up sequence: on iOS with registration confirmed, one
        immediate read; a non-empty token goes straight to 'ready' and is stored, an empty
        answer starts the poll, a throw ends in 'error' with `String(e)`. */
    method StartupApns(regOk: bool)
      requires Valid() && (regOk ==> env.registrationOk)
      modifies this`status, this`token, this`error, this`store, env`apnsGiven, env`timersFired, env`clock, env`log
      ensures Valid()
      ensures ApnsStepped(old(Snap()), Snap(), regOk)
    {
      ghost var s0 := Snap();
      if os == IOS && regOk {
        var first := env.GetApnsToken();
        ghost var read := s0.(apnsGiven := s0.apnsGiven + 1, log := s0.log + [ApnsRead]);
        assert Snap() == read;
        if IsToken(first) {
          token := Some(first.value);
          status := Ready;
          store := store[ApnTokenKey := first.value];
          assert Snap() == read.(status := Ready, token := Some(first.value), store := s0.store[ApnTokenKey := first.value]);
        } else if first.Throw? {
          status := Error;
          error := Some(first.error.text);
          assert Snap() == read.(status := Error, error := Some(first.error.text));
        } else {
          var _ := PollApnsToken(DefaultTimeoutMs, DefaultIntervalMs);
        }
      }
    }

    /** The iOS block of `sendTokensToBackend`: the cached token when truthy, else a
        fresh read; a truthy result is stored under "apnToken". A throwing read is handed
        back instead. */
    method GatherApns(cached: Option<string>) returns (apns: Option<string>, thrown: Option<Thrown>)
      requires Valid() && env.registrationOk
      modifies this`store, env`apnsGiven, env`log
      ensures Valid()
      ensures var b := ApnsBlock(os, cached, ReadAt(env.apnsReads, old(env.apnsGiven)));
        && apns == b.value && thrown == b.thrown
        && store == SaveIfTruthy(old(store), ApnTokenKey, apns)
        && env.log == old(env.log) + b.calls
        && env.apnsGiven == old(env.apnsGiven) + |b.calls|
    {
      apns, thrown := None, None;
      if os == IOS {
        if Truthy(cached) {
          apns := cached;
        } else {
          var read := env.GetApnsToken();
          if read.Throw? {
            return None, Some(read.error);
          }
          apns := ValueOf(read);
        }
        if Truthy(apns) {
          store := store[ApnTokenKey := apns.value];
        }
      }
    }

    /** The Android block of `sendTokensToBackend`: read the FCM token and store it under
        "fcmToken" when truthy. A throwing read is handed back instead. */
    method GatherFcm() returns (fcm: Option<string>, thrown: Option<Thrown>)
      requires Valid()
      modifies this`store, env`fcmGiven, env`log
      ensures Valid()
      ensures var b := FcmBlock(os, ReadAt(env.fcmReads, old(env.fcmGiven)));
        && fcm == b.value && thrown == b.thrown
        && store == SaveIfTruthy(old(store), FcmTokenKey, fcm)
        && env.log == old(env.log) + b.calls
        && env.fcmGiven == old(env.fcmGiven) + |b.calls|
    {
      fcm, thrown := None, None;
      if os == Android {
        var read := env.GetToken();
        if read.Throw? {
          return None, Some(read.error);
        }
        fcm := ValueOf(read);
        if Truthy(fcm) {
          store := store[FcmTokenKey := fcm.value];
        }
      }
    }

    /** `sendTokensToBackend` after its iOS block produced `apns`: the Android block,
        then one POST of `{fcmToken, apnToken}`. */
    method SendAfterApns(apns: Option<string>) returns (outcome: Outcome)
      requires Valid()
      modifies this`store, env`fcmGiven, env`postsGiven, env`log
      ensures Valid()
      ensures var f := FcmBlock(os, ReadAt(env.fcmReads, old(env.fcmGiven)));
        var r := PublishAfterApns(os, apns, ReadAt(env.fcmReads, old(env.fcmGiven)), At(env.posts, old(env.postsGiven), Done));
        && outcome == r.outcome
        && env.log == old(env.log) + r.calls
        && store == SaveIfTruthy(old(store), FcmTokenKey, r.fcmSaved)
        && env.fcmGiven == old(env.fcmGiven) + |f.calls|
        && env.postsGiven == old(env.postsGiven) + (if f.thrown.None? then 1 else 0)
    {
      ghost var log0 := env.log;
      ghost var f := FcmBlock(os, ReadAt(env.fcmReads, env.fcmGiven));
      var fcm, thrown := GatherFcm();
      if thrown.Some? {
        return Failed(thrown.value);
      }
      var body := TokenBody(fcm, OrNull(apns));
      outcome := env.Post(body);
      AppendInTwo(log0, f.calls, [Posted(body)]);
    }

    /** `sendTokensToBackend` after its registration succeeded: gather the tokens,
        store the truthy ones, post one `{fcmToken, apnToken}` body. */
    method SendRegistered(cached: Option<string>) returns (outcome: Outcome)
      requires Valid() && env.registrationOk
      modifies this`store, env`apnsGiven, env`fcmGiven, env`postsGiven, env`log
      ensures Valid()
      ensures var a := ApnsBlock(os, cached, ReadAt(env.apnsReads, old(env.apnsGiven)));
        var f := FcmBlock(os, ReadAt(env.fcmReads, old(env.fcmGiven)));
        var q := PublishRegistered(os, cached, ReadAt(env.apnsReads, old(env.apnsGiven)),
                                   ReadAt(env.fcmReads, old(env.fcmGiven)), At(env.posts, old(env.postsGiven), Done));
        && outcome == q.outcome
        && env.log == old(env.log) + q.calls
        && store == SaveIfTruthy(SaveIfTruthy(old(store), ApnTokenKey, q.apnsSaved), FcmTokenKey, q.fcmSaved)
        && env.apnsGiven == old(env.apnsGiven) + |a.calls|
        && env.fcmGiven == old(env.fcmGiven) + (if a.thrown.None? then |f.calls| else 0)
        && env.postsGiven == old(env.postsGiven) + (if a.thrown.None? && f.thrown.None? then 1 else 0)
    {
      ghost var log0 := env.log;
      var apns, thrown := GatherApns(cached);
      if thrown.Some? {
        return Failed(thrown.value);
      }
      ghost var r := PublishAfterApns(os, apns, ReadAt(env.fcmReads, env.fcmGiven), At(env.posts, env.postsGiven, Done));
      outcome := SendAfterApns(apns);
      AppendInTwo(log0, ApnsBlock(os, cached, ReadAt(env.apnsReads, old(env.apnsGiven))).calls, r.calls);
    }

    /** `sendTokensToBackend`, given the `apnsToken` its closure sees: register again,
        gather the APNs token (iOS) and the FCM token (Android), store the truthy ones,
        post one `{fcmToken, apnToken}` body; any failure is handed back to the caller. */
    method SendTokensToBackend(cached: Option<string>) returns (outcome: Outcome)
      requires Valid()
      modifies this`store, env`registered, env`registrationOk, env`apnsGiven, env`fcmGiven, env`postsGiven, env`log
      ensures Valid()
      ensures outcome == Publication(old(Snap()), cached).outcome
      ensures Published(old(Snap()), Snap(), cached)
    {
      ghost var s0 := Snap();
      var reg := env.RegisterDevice();
      if reg.Failed? {
        assert Publication(s0, cached) == PublishRun([Register(false)], None, None, reg);
        return reg;
      }
      ghost var a := ApnsBlock(os, cached, ReadAt(env.apnsReads, env.apnsGiven));
      ghost var f := FcmBlock(os, ReadAt(env.fcmReads, env.fcmGiven));
      ghost var q := PublishRegistered(os, cached, ReadAt(env.apnsReads, env.apnsGiven),
                                       ReadAt(env.fcmReads, env.fcmGiven), At(env.posts, env.postsGiven, Done));
      outcome := SendRegistered(cached);
      AppendInTwo(s0.log, [Register(true)], q.calls);
      PublishedAfterRegistration(s0, Snap(), cached, a, f, q);
    }

    /** A successful registration followed by what `PublishRegistered` describes is
        what `Publish` describes. */
    lemma PublishedAfterRegistration(s: Snapshot, s': Snapshot, cached: Option<string>, a: Block, f: Block, q: PublishRun)
      requires At(env.registrations, s.registered, Done).Done?
      requires a == ApnsBlock(os, cached, ReadAt(env.apnsReads, s.apnsGiven))
      requires f == FcmBlock(os, ReadAt(env.fcmReads, s.fcmGiven))
      requires q == PublishRegistered(os, cached, ReadAt(env.apnsReads, s.apnsGiven),
                                      ReadAt(env.fcmReads, s.fcmGiven), At(env.posts, s.postsGiven, Done))
      requires && s'.status == s.status && s'.token == s.token && s'.error == s.error
               && s'.timersFired == s.timersFired && s'.clock == s.clock
               && s'.store == SaveIfTruthy(SaveIfTruthy(s.store, ApnTokenKey, q.apnsSaved), FcmTokenKey, q.fcmSaved)
               && s'.registered == s.registered + 1
               && s'.apnsGiven == s.apnsGiven + |a.calls|
               && s'.fcmGiven == s.fcmGiven + (if a.thrown.None? then |f.calls| else 0)
               && s'.postsGiven == s.postsGiven + (if a.thrown.None? && f.thrown.None? then 1 else 0)
               && s'.log == s.log + [Register(true)] + q.calls
      ensures Published(s, s', cached) && Publication(s, cached).outcome == q.outcome
    {
      assert Publication(s, cached) == q.(calls := [Register(true)] + q.calls);
    }

    /** The one-time start-up sequence: permission, registration, the APNs step (iOS,
        registration confirmed), then the token publisher, whose failure is only logged.
        The publisher runs in the closure of the first render, where `apnsToken` is null.
        `registeredState` and `afterApns` are the states after registration and after the
        APNs step. */
    method Init() returns (ghost registeredState: Snapshot, ghost afterApns: Snapshot)
      requires Valid()
      modifies this`status, this`token, this`error, this`store, env
      ensures Valid()
      ensures var regOk := At(env.registrations, old(env.registered), Done).Done?;
        && registeredState == old(Snap()).(registered := old(env.registered) + 1, log := old(env.log) + [Register(regOk)])
        && ApnsStepped(registeredState, afterApns, regOk)
        && Published(afterApns, Snap(), None)
    {
      var _ := RequestUserPermission();
      var regOk := EnsureRemoteRegistration();
      registeredState := Snap();
      StartupApns(regOk);
      afterApns := Snap();
      var _ := SendTokensToBackend(None);
    }

    /** `refreshAPNs`: off iOS only an alert; on iOS register again and poll only if that
        succeeded. No guard keeps a second poll from starting while one is running. */
    method RefreshApns() returns (alerted: bool)
      requires Valid()
      modifies this`status, this`token, this`error, this`store, env`registered, env`registrationOk, env`apnsGiven, env`timersFired, env`clock, env`log
      ensures Valid()
      ensures alerted <==> os != IOS
      ensures os != IOS ==> Snap() == old(Snap())
      ensures os == IOS ==>
                var ok := At(env.registrations, old(env.registered), Done).Done?;
                var registeredState := old(Snap()).(registered := old(env.registered) + 1, log := old(env.log) + [Register(ok)]);
                if ok then Polled(registeredState, Snap(), DefaultTimeoutMs, DefaultIntervalMs)
                else Snap() == registeredState
    {
      if os != IOS {
        return true;
      }
      alerted := false;
      var ok := EnsureRemoteRegistration();
      if ok {
        var _ := PollApnsToken(DefaultTimeoutMs, DefaultIntervalMs);
      }
    }

    /** `handleEvent`: the new event goes in front of the feed. */
    method HandleEvent(e: AdminPanel.Event)
      modifies this`events
      ensures events == [e] + old(events)
    {
      events := [e] + events;
    }

    /** `clearEvents`. */
    method ClearEvents()
      modifies this`events
      ensures events == []
    {
      events := [];
    }
  }
}
