/**
 * The world App.js talks to, as an oracle: Firebase messaging (permission, remote
 * registration, APNs and FCM token reads), axios' POST, and the clock behind
 * `Date.now()` and `setTimeout`. Every answer comes from a queue fixed in advance;
 * an exhausted queue answers with a default. Calls that matter for ordering are
 * recorded in a log.
 */
module Host {
  import opened Common

  /** A value thrown by a platform call: `text` is `String(e)`, `truthy` says whether
      `e` itself is truthy (every Error object is; `throw null` or `throw ""` is not). */
  datatype Thrown = Thrown(text: string, truthy: bool)

  /** The answer of a call that yields a string or null (`getAPNSToken`, `getToken`). */
  datatype TokenRead = Token(value: string) | NoToken | Throw(error: Thrown)

  /** The answer of a call that yields nothing or throws. */
  datatype Outcome = Done | Failed(error: Thrown)

  /** `messaging.AuthorizationStatus`. */
  datatype AuthorizationStatus = NotDetermined | Denied | Authorized | Provisional | Ephemeral

  /** The answer of `messaging().requestPermission()`. */
  datatype PermissionAnswer = Answered(status: AuthorizationStatus) | PermissionThrew(error: Thrown)

  /** The JSON body posted to `/save-token`. */
  datatype TokenBody = TokenBody(fcmToken: Option<string>, apnToken: Option<string>)

  /** Platform calls whose order the model tracks. */
  datatype Call = Register(ok: bool) | ApnsRead | FcmRead | Posted(body: TokenBody)

  /** A token read that ends a wait: a non-empty string. */
  predicate IsToken(r: TokenRead)
  {
    r.Token? && r.value != ""
  }

  /** The string-or-null value of a read that did not throw. */
  function ValueOf(r: TokenRead): (v: Option<string>)
    requires !r.Throw?
    ensures Truthy(v) <==> IsToken(r)
    ensures v.Some? <==> r.Token?
    ensures v.Some? ==> v.value == r.value
  {
    if r.Token? then Some(r.value) else None
  }

  /** The `i`-th answer of the script `s`, or `default` once `s` is used up. */
  function At<T>(s: seq<T>, i: nat, default: T): (a: T)
    ensures i < |s| ==> a == s[i]
    ensures i >= |s| ==> a == default
  {
    if i < |s| then s[i] else default
  }

  /** The answer the `i`-th token read gets from the script `s`. */
  function ReadAt(s: seq<TokenRead>, i: nat): TokenRead
  {
    At(s, i, NoToken)
  }

  /** The answers of `n` token reads in a row, the first of them the `i`-th. */
  function Attempted(s: seq<TokenRead>, i: nat, n: nat): (a: seq<TokenRead>)
    ensures |a| == n && forall m :: 0 <= m < n ==> a[m] == ReadAt(s, i + m)
  {
    seq(n, (m: nat) => ReadAt(s, i + m))
  }

  /** `n` APNs reads in a row. */
  function Reads(n: nat): (calls: seq<Call>)
    ensures |calls| == n && forall i :: 0 <= i < n ==> calls[i] == ApnsRead
  {
    if n == 0 then [] else Reads(n - 1) + [ApnsRead]
  }

  lemma ReadsStep(log: seq<Call>, n: nat, n': nat)
    requires n' == n + 1
    ensures log + Reads(n') == (log + Reads(n)) + [ApnsRead]
  {
  }

  /** Calls appended in two batches are the calls of both batches appended at once. */
  lemma AppendInTwo(log: seq<Call>, first: seq<Call>, second: seq<Call>)
    ensures log + (first + second) == (log + first) + second
  {
  }

  /** The most recent registration recorded in `log` succeeded. */
  predicate LastRegistrationOk(log: seq<Call>)
  {
    if log == [] then false
    else if log[|log| - 1].Register? then log[|log| - 1].ok
    else LastRegistrationOk(log[..|log| - 1])
  }

  /** The ordering contract of the workflow: every APNs token read happens after a
      registration for remote messages, and the most recent one before it succeeded. */
  predicate ReadsFollowRegistration(log: seq<Call>)
  {
    log == [] ||
    (ReadsFollowRegistration(log[..|log| - 1]) &&
     (log[|log| - 1] == ApnsRead ==> LastRegistrationOk(log[..|log| - 1])))
  }

  /** The same contract stated call by call. */
  lemma {:induction false} ReadsFollowRegistrationAt(log: seq<Call>, i: nat)
    requires ReadsFollowRegistration(log)
    requires i < |log| && log[i] == ApnsRead
    ensures LastRegistrationOk(log[..i])
    decreases |log|
  {
    if i < |log| - 1 {
      var front := log[..|log| - 1];
      ReadsFollowRegistrationAt(front, i);
      assert front[..i] == log[..i];
    }
  }

  lemma {:induction false} AppendKeepsRegistration(log: seq<Call>, c: Call)
    requires !c.Register?
    ensures LastRegistrationOk(log + [c]) == LastRegistrationOk(log)
  {
    assert (log + [c])[..|log|] == log;
  }

  lemma {:induction false} AppendKeepsOrder(log: seq<Call>, c: Call)
    requires ReadsFollowRegistration(log)
    requires c == ApnsRead ==> LastRegistrationOk(log)
    ensures ReadsFollowRegistration(log + [c])
  {
    assert (log + [c])[..|log|] == log;
  }

  /** A log of reads only, appended after a successful registration, keeps the contract. */
  lemma {:induction false} ReadsAfterRegistration(log: seq<Call>, n: nat)
    requires ReadsFollowRegistration(log) && LastRegistrationOk(log)
    ensures ReadsFollowRegistration(log + Reads(n)) && LastRegistrationOk(log + Reads(n))
  {
    if n > 0 {
      ReadsAfterRegistration(log, n - 1);
      assert log + Reads(n) == (log + Reads(n - 1)) + [ApnsRead];
      AppendKeepsOrder(log + Reads(n - 1), ApnsRead);
      AppendKeepsRegistration(log + Reads(n - 1), ApnsRead);
    } else {
      assert log + Reads(n) == log;
    }
  }

  /** A log that opens with a successful registration and registers nothing after it
      keeps the contract. */
  lemma {:induction false} RegisteredOnce(log: seq<Call>)
    requires |log| >= 1 && log[0] == Register(true)
    requires forall i :: 0 < i < |log| ==> !log[i].Register?
    ensures ReadsFollowRegistration(log) && LastRegistrationOk(log)
    decreases |log|
  {
    var front := log[..|log| - 1];
    if |log| > 1 {
      RegisteredOnce(front);
      assert front + [log[|log| - 1]] == log;
      AppendKeepsOrder(front, log[|log| - 1]);
      AppendKeepsRegistration(front, log[|log| - 1]);
    } else {
      assert front == [];
    }
  }

  /** The platform as seen from App.js. The answers of each kind of call are scripted
      in advance (`registrations`, `apnsReads`, …); the counters say how many of them
      have been given, and `log` records the calls in order. */
  class Environment {
    const permission: PermissionAnswer
    const registrations: seq<Outcome>  // answers of registerDeviceForRemoteMessages; then Done
    const apnsReads: seq<TokenRead>    // answers of getAPNSToken; then NoToken
    const fcmReads: seq<TokenRead>     // answers of getToken; then NoToken
    const posts: seq<Outcome>          // answers of axios.post; then Done
    const lags: seq<nat>               // how late each timer fires beyond its delay; then 0
    var registered: nat                // answers given so far, per script
    var apnsGiven: nat
    var fcmGiven: nat
    var postsGiven: nat
    var timersFired: nat
    var clock: int                     // Date.now()
    var log: seq<Call>
    ghost var registrationOk: bool

    ghost predicate Valid()
      reads this
    {
      ReadsFollowRegistration(log) && registrationOk == LastRegistrationOk(log)
    }

    constructor (permission: PermissionAnswer, registrations: seq<Outcome>, apnsReads: seq<TokenRead>,
                 fcmReads: seq<TokenRead>, posts: seq<Outcome>, lags: seq<nat>, clock: int)
      ensures Valid() && log == []
      ensures this.permission == permission && this.registrations == registrations
      ensures this.apnsReads == apnsReads && this.fcmReads == fcmReads
      ensures this.posts == posts && this.lags == lags && this.clock == clock
      ensures registered == 0 && apnsGiven == 0 && fcmGiven == 0 && postsGiven == 0 && timersFired == 0
    {
      this.permission, this.registrations := permission, registrations;
      this.apnsReads, this.fcmReads := apnsReads, fcmReads;
      this.posts, this.lags, this.clock := posts, lags, clock;
      registered, apnsGiven, fcmGiven, postsGiven, timersFired := 0, 0, 0, 0, 0;
      log := [];
      registrationOk := false;
    }

    /** `messaging().requestPermission()`. */
    method RequestPermission() returns (a: PermissionAnswer)
      ensures a == permission
    {
      a := permission;
    }

    /** `messaging().registerDeviceForRemoteMessages()`. */
    method RegisterDevice() returns (o: Outcome)
      requires Valid()
      modifies this`registered, this`log, this`registrationOk
      ensures Valid() && registrationOk == o.Done?
      ensures o == At(registrations, old(registered), Done) && registered == old(registered) + 1
      ensures log == old(log) + [Register(o.Done?)]
      ensures LastRegistrationOk(log) == o.Done?
    {
      o := At(registrations, registered, Done);
      registered := registered + 1;
      AppendKeepsOrder(log, Register(o.Done?));
      log := log + [Register(o.Done?)];
      registrationOk := o.Done?;
    }

    /** `messaging().getAPNSToken()`: only to be called once registration has succeeded. */
    method GetApnsToken() returns (r: TokenRead)
      requires registrationOk
      modifies this`apnsGiven, this`log
      ensures old(Valid()) ==> Valid()
      ensures r == ReadAt(apnsReads, old(apnsGiven)) && apnsGiven == old(apnsGiven) + 1
      ensures log == old(log) + [ApnsRead]
    {
      r := ReadAt(apnsReads, apnsGiven);
      apnsGiven := apnsGiven + 1;
      if Valid() {
        AppendKeepsOrder(log, ApnsRead);
        AppendKeepsRegistration(log, ApnsRead);
      }
      log := log + [ApnsRead];
    }

    /** `messaging().getToken()`. */
    method GetToken() returns (r: TokenRead)
      requires Valid()
      modifies this`fcmGiven, this`log
      ensures Valid() && LastRegistrationOk(log) == old(LastRegistrationOk(log))
      ensures r == ReadAt(fcmReads, old(fcmGiven)) && fcmGiven == old(fcmGiven) + 1
      ensures log == old(log) + [FcmRead]
    {
      r := ReadAt(fcmReads, fcmGiven);
      fcmGiven := fcmGiven + 1;
      AppendKeepsOrder(log, FcmRead);
      AppendKeepsRegistration(log, FcmRead);
      log := log + [FcmRead];
    }

    /** `axios.post(<backend>/save-token, body)`. */
    method Post(body: TokenBody) returns (o: Outcome)
      requires Valid()
      modifies this`postsGiven, this`log
      ensures Valid() && LastRegistrationOk(log) == old(LastRegistrationOk(log))
      ensures o == At(posts, old(postsGiven), Done) && postsGiven == old(postsGiven) + 1
      ensures log == old(log) + [Posted(body)]
    {
      o := At(posts, postsGiven, Done);
      postsGiven := postsGiven + 1;
      AppendKeepsOrder(log, Posted(body));
      AppendKeepsRegistration(log, Posted(body));
      log := log + [Posted(body)];
    }

    /** `Date.now()`. */
    method Now() returns (t: int)
      ensures t == clock
    {
      t := clock;
    }

    /** `await new Promise(r => setTimeout(r, ms))`: the clock moves on by `ms` plus
        however late the timer fires. */
    method Sleep(ms: nat)
      modifies this`clock, this`timersFired
      ensures clock == old(clock) + ms + At(lags, old(timersFired), 0) && timersFired == old(timersFired) + 1
    {
      clock := clock + ms + At(lags, timersFired, 0);
      timersFired := timersFired + 1;
    }
  }
}
