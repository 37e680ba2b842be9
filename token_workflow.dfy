/**
 * The pure logic of the APNs/FCM token workflow in App.js: which permission answers
 * count as enabled, what one run of the APNs poll loop observes and returns, and what
 * the token publisher sends.
 */
module TokenWorkflow {
  import opened Common
  import opened Host

  /** `Platform.OS`. */
  datatype Os = IOS | Android | OtherOs

  const ApnTokenKey: string := "apnToken"
  const FcmTokenKey: string := "fcmToken"
  const TimeoutMessage: string := "Timed out waiting for APNs token."
  const DefaultTimeoutMs: int := 12000
  const DefaultIntervalMs: nat := 800

  // ----- Permission gate -----

  /** The answer of `requestPermission()` counts as enabled. */
  predicate Enabled(a: PermissionAnswer)
  {
    a.Answered? && (a.status == Authorized || a.status == Provisional)
  }

  // ----- Poll loop -----

  /** What one run of the poll loop produced: the token it returned (if any), how many
      reads and sleeps it made, the elapsed time when it stopped, and the last value
      it caught. */
  datatype PollRun = PollRun(token: Option<string>, attempts: nat, sleeps: nat, elapsed: int, lastErr: Option<Thrown>)

  /** The poll loop of `pollAPNSToken` from the point where `elapsed` ms have passed since
      `start`: the next read gets the `i`-th of the scripted `answers`, the next timer
      fires `lags[j]` ms late, and `lastErr` is the value caught so far. */
  function Poll(answers: seq<TokenRead>, lags: seq<nat>, i: nat, j: nat, elapsed: int, timeoutMs: int,
                intervalMs: nat, lastErr: Option<Thrown>): (r: PollRun)
    requires intervalMs > 0
    ensures elapsed >= timeoutMs ==> r.attempts == 0 && r.token == None
    ensures r.token.Some? ==> r.token.value != "" && r.attempts >= 1 && r.sleeps == r.attempts - 1
    ensures r.token.Some? ==> elapsed <= r.elapsed < timeoutMs
    ensures r.token.None? ==> r.sleeps == r.attempts && r.elapsed >= timeoutMs && r.elapsed >= elapsed
    decreases timeoutMs - elapsed
  {
    if elapsed >= timeoutMs then PollRun(None, 0, 0, elapsed, lastErr)
    else
      var got := ReadAt(answers, i);
      if IsToken(got) then PollRun(Some(got.value), 1, 0, elapsed, lastErr)
      else
        var caught := if got.Throw? then Some(got.error) else lastErr;
        var rest := Poll(answers, lags, i + 1, j + 1, elapsed + intervalMs + At(lags, j, 0), timeoutMs, intervalMs, caught);
        rest.(attempts := rest.attempts + 1, sleeps := rest.sleeps + 1)
  }

  /** One turn of the loop that reads a non-empty token. */
  lemma PollHit(answers: seq<TokenRead>, lags: seq<nat>, i: nat, j: nat, elapsed: int, timeoutMs: int,
                intervalMs: nat, lastErr: Option<Thrown>)
    requires intervalMs > 0 && elapsed < timeoutMs && IsToken(ReadAt(answers, i))
    ensures Poll(answers, lags, i, j, elapsed, timeoutMs, intervalMs, lastErr)
         == PollRun(Some(ReadAt(answers, i).value), 1, 0, elapsed, lastErr)
  {
  }

  /** `rest` is what is left of the run `whole` after `k` reads that yielded no token. */
  predicate Continues(whole: PollRun, rest: PollRun, k: nat)
  {
    && rest.token == whole.token && rest.lastErr == whole.lastErr && rest.elapsed == whole.elapsed
    && whole.attempts == k + rest.attempts && whole.sleeps == k + rest.sleeps
  }

  /** One turn of the loop whose read yields no token: catch, sleep, go round again
      with the next answer and timer, the later time and the caught value. */
  lemma PollMiss(whole: PollRun, k: nat, answers: seq<TokenRead>, lags: seq<nat>, i: nat, j: nat, elapsed: int,
                 lastErr: Option<Thrown>, k': nat, i': nat, j': nat, elapsed': int, lastErr': Option<Thrown>,
                 timeoutMs: int, intervalMs: nat)
    requires intervalMs > 0 && elapsed < timeoutMs && !IsToken(ReadAt(answers, i))
    requires Continues(whole, Poll(answers, lags, i, j, elapsed, timeoutMs, intervalMs, lastErr), k)
    requires k' == k + 1 && i' == i + 1 && j' == j + 1 && elapsed' == elapsed + intervalMs + At(lags, j, 0)
    requires lastErr' == if ReadAt(answers, i).Throw? then Some(ReadAt(answers, i).error) else lastErr
    ensures Continues(whole, Poll(answers, lags, i', j', elapsed', timeoutMs, intervalMs, lastErr'), k')
  {
  }

  /** Where the loop stands before a read: the index of the next answer, of the next
      timer, the elapsed time and the value caught so far. */
  datatype Turn = Turn(next: nat, timer: nat, elapsed: int, lastErr: Option<Thrown>)

  /** Where the loop stands after `k` turns from `t0` whose reads yielded no token. */
  function Misses(answers: seq<TokenRead>, lags: seq<nat>, intervalMs: nat, t0: Turn, k: nat): (t: Turn)
    ensures t.next == t0.next + k && t.timer == t0.timer + k && t.elapsed >= t0.elapsed + k * intervalMs
  {
    if k == 0 then t0
    else
      var t := Misses(answers, lags, intervalMs, t0, k - 1);
      var got := ReadAt(answers, t.next);
      Turn(t.next + 1, t.timer + 1, t.elapsed + intervalMs + At(lags, t.timer, 0),
           if got.Throw? then Some(got.error) else t.lastErr)
  }

  /** Each of the first `k` turns from `t0` started inside the window and its read
      yielded no token. */
  predicate AllMissed(answers: seq<TokenRead>, lags: seq<nat>, timeoutMs: int, intervalMs: nat, t0: Turn, k: nat)
  {
    k == 0 ||
    (AllMissed(answers, lags, timeoutMs, intervalMs, t0, k - 1) &&
     var t := Misses(answers, lags, intervalMs, t0, k - 1);
     t.elapsed < timeoutMs && !IsToken(ReadAt(answers, t.next)))
  }

  /** One more turn that yields no token. */
  lemma MissesStep(answers: seq<TokenRead>, lags: seq<nat>, timeoutMs: int, intervalMs: nat, t0: Turn, k: nat, k': nat)
    requires k' == k + 1 && AllMissed(answers, lags, timeoutMs, intervalMs, t0, k)
    requires Misses(answers, lags, intervalMs, t0, k).elapsed < timeoutMs
    requires !IsToken(ReadAt(answers, Misses(answers, lags, intervalMs, t0, k).next))
    ensures AllMissed(answers, lags, timeoutMs, intervalMs, t0, k')
    ensures var t := Misses(answers, lags, intervalMs, t0, k);
            var got := ReadAt(answers, t.next);
      Misses(answers, lags, intervalMs, t0, k')
        == Turn(t.next + 1, t.timer + 1, t.elapsed + intervalMs + At(lags, t.timer, 0),
                if got.Throw? then Some(got.error) else t.lastErr)
  {
  }

  /** After `k` turns that yielded no token, the rest of the loop is the loop run from
      where those turns left it. */
  lemma {:induction false} PollAfterMisses(answers: seq<TokenRead>, lags: seq<nat>, timeoutMs: int, intervalMs: nat,
                                           t0: Turn, k: nat)
    requires intervalMs > 0 && AllMissed(answers, lags, timeoutMs, intervalMs, t0, k)
    ensures var t := Misses(answers, lags, intervalMs, t0, k);
      Continues(Poll(answers, lags, t0.next, t0.timer, t0.elapsed, timeoutMs, intervalMs, t0.lastErr),
                Poll(answers, lags, t.next, t.timer, t.elapsed, timeoutMs, intervalMs, t.lastErr), k)
  {
    if k > 0 {
      PollAfterMisses(answers, lags, timeoutMs, intervalMs, t0, k - 1);
      var t := Misses(answers, lags, intervalMs, t0, k - 1);
      var t' := Misses(answers, lags, intervalMs, t0, k);
      PollMiss(Poll(answers, lags, t0.next, t0.timer, t0.elapsed, timeoutMs, intervalMs, t0.lastErr), k - 1,
               answers, lags, t.next, t.timer, t.elapsed, t.lastErr, k, t'.next, t'.timer, t'.elapsed, t'.lastErr,
               timeoutMs, intervalMs);
    }
  }

  /** The value `lastErr` holds after the answers `seen`, starting from `init`. */
  function LastThrown(seen: seq<TokenRead>, init: Option<Thrown>): (r: Option<Thrown>)
    ensures r == init || (r.Some? && exists i :: 0 <= i < |seen| && seen[i] == Throw(r.value))
  {
    if seen == [] then init
    else LastThrown(seen[1..], if seen[0].Throw? then Some(seen[0].error) else init)
  }

  /** The message `pollAPNSToken` records when it gives up. */
  function FailureMessage(lastErr: Option<Thrown>): string
  {
    if lastErr.Some? && lastErr.value.truthy then lastErr.value.text else TimeoutMessage
  }

  /** With no throw among the answers, `LastThrown` keeps its start value. */
  lemma {:induction false} LastThrownNoThrow(seen: seq<TokenRead>, init: Option<Thrown>)
    requires forall i :: 0 <= i < |seen| ==> !seen[i].Throw?
    ensures LastThrown(seen, init) == init
  {
    if seen != [] {
      var rest := seen[1..];
      assert forall i :: 0 <= i < |rest| ==> rest[i] == seen[i + 1];
      LastThrownNoThrow(rest, init);
    }
  }

  /** Only the most recent throw survives: when the `j`-th answer is the last one that
      threw, `LastThrown` is its error, whatever came before. */
  lemma {:induction false} LastThrownIsLatest(seen: seq<TokenRead>, init: Option<Thrown>, j: nat)
    requires j < |seen| && seen[j].Throw?
    requires forall i :: j < i < |seen| ==> !seen[i].Throw?
    ensures LastThrown(seen, init) == Some(seen[j].error)
  {
    var rest := seen[1..];
    assert forall i :: 0 <= i < |rest| ==> rest[i] == seen[i + 1];
    if j == 0 {
      LastThrownNoThrow(rest, Some(seen[0].error));
    } else {
      LastThrownIsLatest(rest, if seen[0].Throw? then Some(seen[0].error) else init, j - 1);
    }
  }

  lemma AttemptedStep(answers: seq<TokenRead>, i: nat, n: nat)
    ensures Attempted(answers, i, n + 1) == [ReadAt(answers, i)] + Attempted(answers, i + 1, n)
  {
    var a, b := Attempted(answers, i, n + 1), [ReadAt(answers, i)] + Attempted(answers, i + 1, n);
    forall m | 0 <= m < n + 1 ensures a[m] == b[m] {
      if m > 0 { assert b[m] == ReadAt(answers, i + 1 + (m - 1)); }
    }
  }

  /** Every read that was followed by a sleep yielded null, the empty string or a
      throw: no token is skipped. */
  lemma {:induction false} PollSleepsOnlyAfterMisses(answers: seq<TokenRead>, lags: seq<nat>, i: nat, j: nat,
                                                     elapsed: int, timeoutMs: int, intervalMs: nat,
                                                     lastErr: Option<Thrown>, n: nat)
    requires intervalMs > 0
    requires i <= n < i + Poll(answers, lags, i, j, elapsed, timeoutMs, intervalMs, lastErr).sleeps
    ensures !IsToken(ReadAt(answers, n))
    decreases timeoutMs - elapsed
  {
    var got := ReadAt(answers, i);
    if n > i {
      var caught := if got.Throw? then Some(got.error) else lastErr;
      PollSleepsOnlyAfterMisses(answers, lags, i + 1, j + 1, elapsed + intervalMs + At(lags, j, 0), timeoutMs,
                                intervalMs, caught, n);
    }
  }

  /** A returned token is the answer of the last read. */
  lemma {:induction false} PollReturnsLastRead(answers: seq<TokenRead>, lags: seq<nat>, i: nat, j: nat,
                                               elapsed: int, timeoutMs: int, intervalMs: nat,
                                               lastErr: Option<Thrown>)
    requires intervalMs > 0
    ensures var r := Poll(answers, lags, i, j, elapsed, timeoutMs, intervalMs, lastErr);
      r.token.Some? ==> ReadAt(answers, i + r.attempts - 1) == Token(r.token.value)
    decreases timeoutMs - elapsed
  {
    if elapsed < timeoutMs {
      var got := ReadAt(answers, i);
      if !IsToken(got) {
        var caught := if got.Throw? then Some(got.error) else lastErr;
        PollReturnsLastRead(answers, lags, i + 1, j + 1, elapsed + intervalMs + At(lags, j, 0), timeoutMs,
                            intervalMs, caught);
      }
    }
  }

  /** When the loop gives up, `lastErr` is what the last throwing read threw (via
      `LastThrown`, see `LastThrownNoThrow` and `LastThrownIsLatest`), over exactly the answers it got. */
  lemma {:induction false} PollLastError(answers: seq<TokenRead>, lags: seq<nat>, i: nat, j: nat, elapsed: int,
                                         timeoutMs: int, intervalMs: nat, lastErr: Option<Thrown>)
    requires intervalMs > 0
    ensures var r := Poll(answers, lags, i, j, elapsed, timeoutMs, intervalMs, lastErr);
      r.token.None? ==> r.lastErr == LastThrown(Attempted(answers, i, r.attempts), lastErr)
    decreases timeoutMs - elapsed
  {
    if elapsed < timeoutMs {
      var got := ReadAt(answers, i);
      if !IsToken(got) {
        var caught := if got.Throw? then Some(got.error) else lastErr;
        var elapsed' := elapsed + intervalMs + At(lags, j, 0);
        PollLastError(answers, lags, i + 1, j + 1, elapsed', timeoutMs, intervalMs, caught);
        var r' := Poll(answers, lags, i + 1, j + 1, elapsed', timeoutMs, intervalMs, caught);
        AttemptedStep(answers, i, r'.attempts);
      }
    } else {
      assert Attempted(answers, i, 0) == [];
    }
  }

  /** The window bounds the number of reads: `attempts - 1` intervals after the start
      are still less than `timeoutMs`. (When each read starts is `PollReadsInWindow`.) */
  lemma {:induction false} PollWithinWindow(answers: seq<TokenRead>, lags: seq<nat>, i: nat, j: nat, elapsed: int,
                                            timeoutMs: int, intervalMs: nat, lastErr: Option<Thrown>)
    requires intervalMs > 0
    ensures var r := Poll(answers, lags, i, j, elapsed, timeoutMs, intervalMs, lastErr);
      r.attempts > 0 ==> elapsed + (r.attempts - 1) * intervalMs < timeoutMs
    decreases timeoutMs - elapsed
  {
    if elapsed < timeoutMs {
      var got := ReadAt(answers, i);
      if !IsToken(got) {
        var caught := if got.Throw? then Some(got.error) else lastErr;
        var elapsed' := elapsed + intervalMs + At(lags, j, 0);
        PollWithinWindow(answers, lags, i + 1, j + 1, elapsed', timeoutMs, intervalMs, caught);
        var r' := Poll(answers, lags, i + 1, j + 1, elapsed', timeoutMs, intervalMs, caught);
        assert Poll(answers, lags, i, j, elapsed, timeoutMs, intervalMs, lastErr).attempts == r'.attempts + 1;
        if r'.attempts > 0 {
          assert elapsed + r'.attempts * intervalMs <= elapsed' + (r'.attempts - 1) * intervalMs by {
            MulStep(r'.attempts, intervalMs);
          }
        }
      }
    }
  }

  /** Every read the loop makes starts inside the window, however late the timers fire:
      before the `k`-th read, the `k` earlier ones all yielded no token and less than
      `timeoutMs` has elapsed. */
  lemma {:induction false} PollReadsInWindow(answers: seq<TokenRead>, lags: seq<nat>, timeoutMs: int, intervalMs: nat,
                                             t0: Turn, k: nat)
    requires intervalMs > 0
    requires k < Poll(answers, lags, t0.next, t0.timer, t0.elapsed, timeoutMs, intervalMs, t0.lastErr).attempts
    ensures AllMissed(answers, lags, timeoutMs, intervalMs, t0, k)
    ensures Misses(answers, lags, intervalMs, t0, k).elapsed < timeoutMs
  {
    if k > 0 {
      PollReadsInWindow(answers, lags, timeoutMs, intervalMs, t0, k - 1);
      PollAfterMisses(answers, lags, timeoutMs, intervalMs, t0, k - 1);
      var t := Misses(answers, lags, intervalMs, t0, k - 1);
      var rest := Poll(answers, lags, t.next, t.timer, t.elapsed, timeoutMs, intervalMs, t.lastErr);
      assert rest.attempts > 1;
      assert !IsToken(ReadAt(answers, t.next));
      MissesStep(answers, lags, timeoutMs, intervalMs, t0, k - 1, k);
    }
  }

  lemma MulStep(a: nat, b: nat)
    requires a > 0
    ensures a * b == (a - 1) * b + b
  {
  }

  /** With timers that fire on time, a token that the `k`-th read yields after `k` empty
      answers is found, provided that read still starts inside the window. */
  lemma {:induction false} PollFindsToken(answers: seq<TokenRead>, i: nat, j: nat, elapsed: int, timeoutMs: int,
                                          intervalMs: nat, lastErr: Option<Thrown>, k: nat)
    requires intervalMs > 0
    requires forall n :: i <= n < i + k ==> !IsToken(ReadAt(answers, n))
    requires IsToken(ReadAt(answers, i + k))
    requires elapsed + k * intervalMs < timeoutMs
    ensures var r := Poll(answers, [], i, j, elapsed, timeoutMs, intervalMs, lastErr);
      r.token == Some(ReadAt(answers, i + k).value) && r.attempts == k + 1 && r.elapsed == elapsed + k * intervalMs
    decreases k
  {
    if k == 0 {
      PollHit(answers, [], i, j, elapsed, timeoutMs, intervalMs, lastErr);
    } else {
      var got := ReadAt(answers, i);
      assert !IsToken(got);
      var caught := if got.Throw? then Some(got.error) else lastErr;
      var elapsed' := elapsed + intervalMs;
      assert elapsed' + (k - 1) * intervalMs == elapsed + k * intervalMs by {
        MulStep(k, intervalMs);
      }
      PollFindsToken(answers, i + 1, j + 1, elapsed', timeoutMs, intervalMs, caught, k - 1);
      assert At([], j, 0) == 0;
    }
  }

  /** Null three times, then a token on the fourth read: with a 1000 ms window and a
      200 ms interval the loop returns that token, read 600 ms after it started. */
  lemma PollFourthReadExample()
    ensures var r := Poll([NoToken, NoToken, NoToken, Token("abc")], [], 0, 0, 0, 1000, 200, None);
      r.token == Some("abc") && r.attempts == 4 && r.elapsed == 600
  {
    var answers := [NoToken, NoToken, NoToken, Token("abc")];
    assert ReadAt(answers, 3) == Token("abc");
    assert forall n :: 0 <= n < 3 ==> ReadAt(answers, n) == NoToken;
    PollFindsToken(answers, 0, 0, 0, 1000, 200, None, 3);
  }

  // ----- Token publisher -----

  /** What one call of `sendTokensToBackend` does: the platform calls it makes in order,
      the tokens it hands to `if (token) setItem(...)` for "apnToken" and "fcmToken"
      (none when that line is not reached), and how it ends (a failure is rethrown to the
      caller). */
  datatype PublishRun = PublishRun(calls: seq<Call>, apnsSaved: Option<string>, fcmSaved: Option<string>, outcome: Outcome)

  /** `if (token) await AsyncStorage.setItem(key, token)`. */
  function SaveIfTruthy(store: map<string, string>, key: string, token: Option<string>): (s: map<string, string>)
    ensures Truthy(token) ==> s == store[key := token.value]
    ensures !Truthy(token) ==> s == store
  {
    if Truthy(token) then store[key := token.value] else store
  }

  /** The cached APNs token is skipped (a fresh read is made) unless it is truthy. */
  predicate ReadsApns(os: Os, cached: Option<string>)
  {
    os == IOS && !Truthy(cached)
  }

  /** What one platform block of `sendTokensToBackend` does: the calls it makes, the
      token it produces, and the error its read threw, if any. */
  datatype Block = Block(calls: seq<Call>, value: Option<string>, thrown: Option<Thrown>)

  /** The iOS block: `apnsToken || await getAPNSToken()`. */
  function ApnsBlock(os: Os, cached: Option<string>, read: TokenRead): (b: Block)
    ensures b.calls == (if ReadsApns(os, cached) then [ApnsRead] else [])
    ensures b.thrown.Some? <==> ReadsApns(os, cached) && read.Throw?
    ensures b.thrown.Some? ==> b.thrown == Some(read.error)
    ensures os != IOS ==> b.value == None
    ensures os == IOS && Truthy(cached) ==> b.value == cached
    ensures ReadsApns(os, cached) && !read.Throw? ==> b.value == ValueOf(read)
  {
    if os != IOS then Block([], None, None)
    else if Truthy(cached) then Block([], cached, None)
    else if read.Throw? then Block([ApnsRead], None, Some(read.error))
    else Block([ApnsRead], ValueOf(read), None)
  }

  /** The Android block: `await getToken()`. */
  function FcmBlock(os: Os, read: TokenRead): (b: Block)
    ensures b.calls == (if os == Android then [FcmRead] else [])
    ensures b.thrown.Some? <==> os == Android && read.Throw?
    ensures b.thrown.Some? ==> b.thrown == Some(read.error)
    ensures os != Android ==> b.value == None
    ensures os == Android && !read.Throw? ==> b.value == ValueOf(read)
  {
    if os != Android then Block([], None, None)
    else if read.Throw? then Block([FcmRead], None, Some(read.error))
    else Block([FcmRead], ValueOf(read), None)
  }

  /** What `sendTokensToBackend` does after its iOS block produced `apnsValue`. */
  function PublishAfterApns(os: Os, apnsValue: Option<string>, fcm: TokenRead, post: Outcome): (p: PublishRun)
  {
    var f := FcmBlock(os, fcm);
    if f.thrown.Some? then PublishRun(f.calls, apnsValue, None, Failed(f.thrown.value))
    else PublishRun(f.calls + [Posted(TokenBody(f.value, OrNull(apnsValue)))], apnsValue, f.value, post)
  }

  /** What `sendTokensToBackend` does once its registration has succeeded. */
  function PublishRegistered(os: Os, cached: Option<string>, apns: TokenRead, fcm: TokenRead, post: Outcome): (p: PublishRun)
  {
    var a := ApnsBlock(os, cached, apns);
    if a.thrown.Some? then PublishRun(a.calls, None, None, Failed(a.thrown.value))
    else
      var r := PublishAfterApns(os, a.value, fcm, post);
      r.(calls := a.calls + r.calls)
  }

  /** `sendTokensToBackend` with the cached `apnsToken` of its closure and the answers
      the platform gives to its calls. */
  function Publish(os: Os, cached: Option<string>, reg: Outcome, apns: TokenRead, fcm: TokenRead, post: Outcome): (p: PublishRun)
    ensures |p.calls| >= 1 && p.calls[0] == Register(reg.Done?)
  {
    if reg.Failed? then PublishRun([Register(false)], None, None, reg)
    else
      var q := PublishRegistered(os, cached, apns, fcm, post);
      q.(calls := [Register(true)] + q.calls)
  }

  /** The registration comes first; when it fails nothing else happens and its error is
      rethrown; an APNs read never comes before a successful registration. */
  lemma PublishRegistersFirst(os: Os, cached: Option<string>, reg: Outcome, apns: TokenRead, fcm: TokenRead, post: Outcome)
    ensures var p := Publish(os, cached, reg, apns, fcm, post);
      && (reg.Failed? ==> p.calls == [Register(false)] && p.apnsSaved == p.fcmSaved == None && p.outcome == reg)
      && ReadsFollowRegistration(p.calls)
  {
    var p := Publish(os, cached, reg, apns, fcm, post);
    if reg.Done? {
      RegisteredOnce(p.calls);
    }
  }

  /** The APNs token is read exactly when registration succeeded on iOS without a truthy
      cached token, the FCM token exactly when registration succeeded on Android and the
      iOS block did not throw. */
  lemma PublishReads(os: Os, cached: Option<string>, reg: Outcome, apns: TokenRead, fcm: TokenRead, post: Outcome)
    ensures var p := Publish(os, cached, reg, apns, fcm, post);
      && (ApnsRead in p.calls <==> reg.Done? && ReadsApns(os, cached))
      && (FcmRead in p.calls <==> reg.Done? && os == Android)
  {
  }

  /** At most one POST, only as the last call; it is made unless an earlier call threw,
      and then its own outcome is the outcome; otherwise the outcome is what the first
      failing call threw, rethrown. */
  lemma PublishPostsLast(os: Os, cached: Option<string>, reg: Outcome, apns: TokenRead, fcm: TokenRead, post: Outcome)
    ensures var p := Publish(os, cached, reg, apns, fcm, post);
      var last := p.calls[|p.calls| - 1];
      && (forall i :: 0 <= i < |p.calls| - 1 ==> !p.calls[i].Posted?)
      && (last.Posted? <==> reg.Done? && !(ReadsApns(os, cached) && apns.Throw?) && !(os == Android && fcm.Throw?))
      && (last.Posted? ==> p.outcome == post)
      && (!last.Posted? ==>
            p.outcome == (if reg.Failed? then reg
                          else if ReadsApns(os, cached) && apns.Throw? then Failed(apns.error)
                          else Failed(fcm.error)))
  {
  }

  /** The body posted: `apnToken` is the cached token when truthy, else the read value or
      null; `fcmToken` is the Android read as-is; the other platform's field is null. */
  lemma PublishBody(os: Os, cached: Option<string>, reg: Outcome, apns: TokenRead, fcm: TokenRead, post: Outcome)
    ensures var p := Publish(os, cached, reg, apns, fcm, post);
      var last := p.calls[|p.calls| - 1];
      last.Posted? ==>
        && last.body.apnToken == (if os != IOS then None else if Truthy(cached) then cached else OrNull(ValueOf(apns)))
        && last.body.fcmToken == (if os == Android then ValueOf(fcm) else None)
  {
    if reg.Done? {
      var a := ApnsBlock(os, cached, apns);
      var f := FcmBlock(os, fcm);
      if a.thrown.None? && f.thrown.None? {
        var r := PublishAfterApns(os, a.value, fcm, post);
        assert r.calls == f.calls + [Posted(TokenBody(f.value, OrNull(a.value)))];
      }
    }
  }

  /** Only the platform's own token is offered for storage: the APNs one on iOS once its
      block has finished, the FCM one on Android once its read has answered. */
  lemma PublishSaves(os: Os, cached: Option<string>, reg: Outcome, apns: TokenRead, fcm: TokenRead, post: Outcome)
    ensures var p := Publish(os, cached, reg, apns, fcm, post);
      && (os != IOS ==> p.apnsSaved == None)
      && (os != Android ==> p.fcmSaved == None)
      && (os == IOS ==>
            p.apnsSaved == (if reg.Failed? || (ReadsApns(os, cached) && apns.Throw?) then None
                            else if Truthy(cached) then cached else ValueOf(apns)))
      && (os == Android ==> p.fcmSaved == (if reg.Failed? || fcm.Throw? then None else ValueOf(fcm)))
  {
  }
}
