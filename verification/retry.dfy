/** The completion call with retry on rate limiting: reading the server's
    suggested delay out of a thrown error, choosing how long to sleep, and the
    three-attempt loop. The completion service and the clock are not modelled:
    the loop is driven by a script of what each call would produce, and
    returns the sleeps it asked for instead of sleeping. */
module Retry {
  import opened JsValues
  import opened Text

  // ---------------------------------------------------------------------------
  // Errors
  // ---------------------------------------------------------------------------

  /** What `generateWithRetry` can throw: whatever the service call threw (an
      arbitrary value, seen through the properties the code reads), or the
      `Error("Empty response from model")` it raises itself for blank output,
      which has neither a status nor error details. */
  datatype Thrown = ServiceError(payload: Json) | EmptyResponse

  /** `e?.status || e?.response?.status` */
  function StatusOf(e: Thrown): Option<Json> {
    match e
    case ServiceError(p) => Or(Prop(Some(p), "status"), Prop(Prop(Some(p), "response"), "status"))
    case EmptyResponse => None
  }

  /** `status === 429`: only the number 429 counts, not the string "429". */
  predicate IsRateLimited(e: Thrown) {
    StatusOf(e) == Some(JNum(429.0))
  }

  /** The status is read with `||`: a falsy `e.status` (absent, null,
      false, 0, "") falls back to `e.response.status`; a truthy one is the
      status, and only the number 429 is a rate limit, not the string "429". */
  lemma StatusFallback(p: Json)
    requires p.JObj?
    ensures !Truthy(Prop(Some(p), "status")) ==>
      (IsRateLimited(ServiceError(p)) <==> Prop(Prop(Some(p), "response"), "status") == Some(JNum(429.0)))
    ensures Truthy(Prop(Some(p), "status")) ==>
      (IsRateLimited(ServiceError(p)) <==> p.fields["status"] == JNum(429.0))
  {
  }

  // ---------------------------------------------------------------------------
  // The delay string
  // ---------------------------------------------------------------------------

  /** Matches `^(\d+)(?:\.(\d+))?s$` and yields `parseInt` of the first group:
      only the whole seconds, so "1.5s" gives 1. */
  function ParseDelayString(s: string): Option<nat> {
    var n := LeadingDigits(s);
    if n == 0 then None
    else
      var rest := s[n..];
      if rest == "s" || IsFractionSuffix(rest) then Some(DigitsValue(s[..n])) else None
  }

  /** The optional group and the unit: ".", at least one digit, then "s" at
      the very end. */
  predicate IsFractionSuffix(rest: string) {
    |rest| >= 3 && rest[0] == '.' && rest[|rest| - 1] == 's' && LeadingDigits(rest[1..]) == |rest| - 2
  }

  lemma FractionSuffixOf(fraction: string)
    requires |fraction| >= 1 && AllDigits(fraction)
    ensures IsFractionSuffix("." + fraction + "s")
  {
    var rest := "." + fraction + "s";
    assert rest[1..] == fraction + "s";
    LeadingDigitsOfRun(fraction, "s");
  }

  /** Both shapes the pattern admits are read as their whole seconds. */
  lemma DelayPatternAccepted(whole: string, fraction: string)
    requires |whole| >= 1 && AllDigits(whole) && AllDigits(fraction)
    ensures ParseDelayString(whole + "s") == Some(DigitsValue(whole))
    ensures |fraction| >= 1 ==> ParseDelayString(whole + "." + fraction + "s") == Some(DigitsValue(whole))
  {
    WholeSecondsAccepted(whole);
    if |fraction| >= 1 {
      FractionalSecondsAccepted(whole, fraction);
    }
  }

  /** A digit run followed by an accepted unit part parses as the run. */
  lemma RunThenUnit(whole: string, rest: string)
    requires |whole| >= 1 && AllDigits(whole)
    requires rest == "s" || IsFractionSuffix(rest)
    ensures ParseDelayString(whole + rest) == Some(DigitsValue(whole))
  {
    var s := whole + rest;
    assert !IsDigit(rest[0]);
    LeadingDigitsOfRun(whole, rest);
    assert s[..|whole|] == whole;
    assert s[|whole|..] == rest;
  }

  lemma WholeSecondsAccepted(whole: string)
    requires |whole| >= 1 && AllDigits(whole)
    ensures ParseDelayString(whole + "s") == Some(DigitsValue(whole))
  {
    RunThenUnit(whole, "s");
  }

  lemma FractionalSecondsAccepted(whole: string, fraction: string)
    requires |whole| >= 1 && AllDigits(whole)
    requires |fraction| >= 1 && AllDigits(fraction)
    ensures ParseDelayString(whole + "." + fraction + "s") == Some(DigitsValue(whole))
  {
    var tail := "." + fraction + "s";
    FractionSuffixOf(fraction);
    RunThenUnit(whole, tail);
    ConcatAssoc(whole, ".", fraction, "s");
  }

  lemma ConcatAssoc(a: string, b: string, c: string, d: string)
    ensures a + b + c + d == a + (b + c + d)
  {
  }

  /** Nothing else is accepted: an accepted string is a digit run followed
      either by "s" or by ".", a second digit run and "s", and the value is
      the first run's. */
  lemma DelayPatternOnly(s: string) returns (whole: string, fraction: string)
    requires ParseDelayString(s).Some?
    ensures |whole| >= 1 && AllDigits(whole) && AllDigits(fraction)
    ensures s == whole + "s" || (|fraction| >= 1 && s == whole + "." + fraction + "s")
    ensures ParseDelayString(s) == Some(DigitsValue(whole))
  {
    var n := LeadingDigits(s);
    var rest := s[n..];
    whole := s[..n];
    assert s == whole + rest;
    if rest == "s" {
      fraction := "";
    } else {
      var m := LeadingDigits(rest[1..]);
      fraction := rest[1..][..m];
      assert rest == "." + fraction + "s";
    }
  }

  /** "43s" waits 43 seconds; "1.5s" keeps only the whole second. */
  lemma DelayExamplesAccepted()
    ensures ParseDelayString("43s") == Some(43)
    ensures ParseDelayString("1.5s") == Some(1)
    ensures ParseDelayString("0s") == Some(0)
  {
    FortyThreeSeconds();
    OneAndAHalfSeconds();
    ZeroSeconds();
  }

  lemma FortyThreeSeconds()
    ensures ParseDelayString("43s") == Some(43)
  {
    WholeSecondsAccepted("43");
    assert "43" + "s" == "43s";
    assert DigitsValue("43") == 43 by {
      assert "43"[..1] == "4";
      assert "4"[..0] == "";
    }
  }

  lemma OneAndAHalfSeconds()
    ensures ParseDelayString("1.5s") == Some(1)
  {
    FractionalSecondsAccepted("1", "5");
    assert "1" + "." + "5" + "s" == "1.5s";
    assert DigitsValue("1") == 1 by {
      assert "1"[..0] == "";
    }
  }

  lemma ZeroSeconds()
    ensures ParseDelayString("0s") == Some(0)
  {
    WholeSecondsAccepted("0");
    assert "0" + "s" == "0s";
    assert DigitsValue("0") == 0 by {
      assert "0"[..0] == "";
    }
  }

  /** No unit, an empty fraction, no whole part, or anything after the unit. */
  lemma DelayExamplesRejected()
    ensures ParseDelayString("43") == None
    ensures ParseDelayString("1.s") == None
    ensures ParseDelayString(".5s") == None
    ensures ParseDelayString("43s ") == None
    ensures ParseDelayString("") == None
  {
    assert LeadingDigits("43") == 2;
    assert "43"[2..] == "";
    assert LeadingDigits("1.s") == 1;
    assert "1.s"[1..] == ".s";
    assert LeadingDigits(".5s") == 0;
    assert LeadingDigits("43s ") == 2;
    assert "43s "[2..] == "s ";
  }

  // ---------------------------------------------------------------------------
  // Finding the RetryInfo entry
  // ---------------------------------------------------------------------------

  /** What `d?.["@type"]?.includes("RetryInfo")` does for one entry: a string
      type is searched for the substring, an array type for an element equal
      to the string, a missing or null type is falsy, and a number, boolean or
      object type has no `includes` method, so the call throws. */
  datatype TypeTest = Matches | NoMatch | Throws

  function TestEntry(d: Json): TypeTest {
    match Prop(Some(d), "@type")
    case None => NoMatch
    case Some(JNull) => NoMatch
    case Some(JStr(t)) => if Includes(t, "RetryInfo") then Matches else NoMatch
    case Some(JArr(xs)) => if JStr("RetryInfo") in xs then Matches else NoMatch
    case Some(_) => Throws
  }

  /** `details.find(...)`: the first matching entry's index, no match, or the
      exception thrown while testing an entry before any match. */
  datatype Lookup = Found(index: nat) | NotFound | Crashed

  function FindRetryInfo(ds: seq<Json>, from: nat): (r: Lookup)
    requires from <= |ds|
    ensures r.Found? ==>
      && from <= r.index < |ds| && TestEntry(ds[r.index]) == Matches
      && forall j :: from <= j < r.index ==> TestEntry(ds[j]) == NoMatch
    ensures r.NotFound? <==> forall j :: from <= j < |ds| ==> TestEntry(ds[j]) == NoMatch
    ensures r.Crashed? ==> exists j :: from <= j < |ds| && TestEntry(ds[j]) == Throws && forall k :: from <= k < j ==> TestEntry(ds[k]) == NoMatch
    decreases |ds| - from
  {
    if from == |ds| then NotFound
    else
      match TestEntry(ds[from])
      case Matches => Found(from)
      case NoMatch => FindRetryInfo(ds, from + 1)
      case Throws => Crashed
  }

  /** `retryInfo?.retryDelay`, read as a delay. A value that is not a string
      never yields a delay: numbers, booleans and objects never match the
      pattern once coerced to text, and an array that does match has no
      `match` method, so the call throws and the surrounding `catch` returns
      null. */
  function DelayOf(entry: Json): Option<nat> {
    match Prop(Some(entry), "retryDelay")
    case Some(JStr(s)) => ParseDelayString(s)
    case _ => None
  }

  /** The error details the parser looks at: `err?.errorDetails`, or
      `err?.response?.errorDetails` when the first is falsy. */
  function ErrorDetails(err: Json): Option<Json> {
    Or(Prop(Some(err), "errorDetails"), Prop(Prop(Some(err), "response"), "errorDetails"))
  }

  /** `parseRetryDelaySeconds`: the whole seconds of the first RetryInfo
      entry's delay, or null. */
  function ParseRetryDelaySeconds(err: Json): (r: Option<nat>)
    ensures r.Some? ==>
      && ErrorDetails(err).Some? && ErrorDetails(err).value.JArr?
      && var ds := ErrorDetails(err).value.elems;
         exists i :: 0 <= i < |ds|
           && TestEntry(ds[i]) == Matches
           && (forall j :: 0 <= j < i ==> TestEntry(ds[j]) == NoMatch)
           && r == DelayOf(ds[i])
  {
    match ErrorDetails(err)
    case Some(JArr(ds)) =>
      (match FindRetryInfo(ds, 0)
       case Found(i) => DelayOf(ds[i])
       case _ => None)
    case _ => None
  }

  /** The first RetryInfo entry decides: its delay is used when it parses, and
      nothing after it is looked at even when it does not. */
  lemma FirstRetryInfoDecides(err: Json, i: nat)
    requires ErrorDetails(err).Some? && ErrorDetails(err).value.JArr?
    requires i < |ErrorDetails(err).value.elems|
    requires TestEntry(ErrorDetails(err).value.elems[i]) == Matches
    requires forall j :: 0 <= j < i ==> TestEntry(ErrorDetails(err).value.elems[j]) == NoMatch
    ensures ParseRetryDelaySeconds(err) == DelayOf(ErrorDetails(err).value.elems[i])
  {
    var ds := ErrorDetails(err).value.elems;
    assert FindRetryInfo(ds, 0) == Found(i) by {
      FindFirst(ds, 0, i);
    }
  }

  lemma {:induction false} FindFirst(ds: seq<Json>, from: nat, i: nat)
    requires from <= i < |ds|
    requires TestEntry(ds[i]) == Matches
    requires forall j :: from <= j < i ==> TestEntry(ds[j]) == NoMatch
    ensures FindRetryInfo(ds, from) == Found(i)
    decreases i - from
  {
    if from < i {
      FindFirst(ds, from + 1, i);
    }
  }

  /** An entry whose type has no `includes` method, met before any RetryInfo
      entry, makes the whole parse null. */
  lemma CrashMeansNoDelay(err: Json, i: nat)
    requires ErrorDetails(err).Some? && ErrorDetails(err).value.JArr?
    requires i < |ErrorDetails(err).value.elems|
    requires TestEntry(ErrorDetails(err).value.elems[i]) == Throws
    requires forall j :: 0 <= j < i ==> TestEntry(ErrorDetails(err).value.elems[j]) == NoMatch
    ensures ParseRetryDelaySeconds(err) == None
  {
    var ds := ErrorDetails(err).value.elems;
    CrashAt(ds, 0, i);
  }

  lemma {:induction false} CrashAt(ds: seq<Json>, from: nat, i: nat)
    requires from <= i < |ds|
    requires TestEntry(ds[i]) == Throws
    requires forall j :: from <= j < i ==> TestEntry(ds[j]) == NoMatch
    ensures FindRetryInfo(ds, from) == Crashed
    decreases i - from
  {
    if from < i {
      CrashAt(ds, from + 1, i);
    }
  }

  /** `err.errorDetails` is used whenever it is truthy, so an empty array
      there hides `err.response.errorDetails` altogether. */
  lemma EmptyDetailsHideResponse(err: Json)
    requires err.JObj? && "errorDetails" in err.fields && err.fields["errorDetails"] == JArr([])
    ensures ParseRetryDelaySeconds(err) == None
  {
  }

  // ---------------------------------------------------------------------------
  // Backoff
  // ---------------------------------------------------------------------------

  /** The loop's `attempt < 3`. */
  const MaxAttempts: nat := 3

  /** The ceiling in `Math.min(delaySecs, 30)`. */
  const MaxDelaySeconds: nat := 30

  function Pow2(k: nat): (r: nat)
    ensures r >= 1
  {
    if k == 0 then 1 else 2 * Pow2(k - 1)
  }

  /** `parseRetryDelaySeconds(e) ?? (2 ** attempt) * 2`: the server's delay
      whenever there is one, zero included, and otherwise 2, 4, 8 seconds. */
  function DelaySeconds(err: Json, attempt: nat): nat {
    ParseRetryDelaySeconds(err).GetOr(Pow2(attempt) * 2)
  }

  /** The `sleep` argument after a 429 on `attempt`, in milliseconds. */
  function SleepMs(err: Json, attempt: nat): (ms: nat)
    ensures ms <= MaxDelaySeconds * 1000
    ensures ms % 1000 == 0
    ensures DelaySeconds(err, attempt) <= MaxDelaySeconds ==> ms == DelaySeconds(err, attempt) * 1000
    ensures DelaySeconds(err, attempt) > MaxDelaySeconds ==> ms == MaxDelaySeconds * 1000
  {
    var d := DelaySeconds(err, attempt);
    (if d < MaxDelaySeconds then d else MaxDelaySeconds) * 1000
  }

  /** A server delay of "0s" means no wait at all: `??` keeps the zero, where
      `||` would have replaced it by the exponential default. */
  lemma ZeroDelayIsHonoured(err: Json, attempt: nat)
    requires ParseRetryDelaySeconds(err) == Some(0)
    ensures SleepMs(err, attempt) == 0
  {
  }

  /** Without a server delay the waits are 2 s, 4 s and 8 s. */
  lemma DefaultBackoff(err: Json)
    requires ParseRetryDelaySeconds(err) == None
    ensures SleepMs(err, 0) == 2000
    ensures SleepMs(err, 1) == 4000
    ensures SleepMs(err, 2) == 8000
  {
    assert Pow2(2) == 4;
  }

  // ---------------------------------------------------------------------------
  // The attempt loop
  // ---------------------------------------------------------------------------

  /** What one call of the completion service produced: its text, or the
      value it threw. */
  datatype CallOutcome = Responded(text: string) | Threw(error: Json)

  datatype Generated = Returned(raw: string) | Failed(error: Thrown)

  /** The loop's result, the sleeps it requested (milliseconds, in order) and
      the number of calls it made. */
  datatype RetryRun = RetryRun(result: Generated, sleepsMs: seq<nat>, calls: nat)

  /** A call whose failure the loop retries. */
  predicate RateLimitedCall(o: CallOutcome) {
    o.Threw? && IsRateLimited(ServiceError(o.error))
  }

  /** The body of one `try`: trimmed text, or the empty-response error for
      blank text, or the thrown value. */
  function AttemptResult(o: CallOutcome): (g: Generated)
    ensures g.Returned? ==> g.raw != [] && o.Responded? && g.raw == Trim(o.text)
    ensures o.Responded? && !AllWhitespace(o.text) ==> g == Returned(Trim(o.text))
    ensures o.Threw? ==> g == Failed(ServiceError(o.error))
    ensures g.Failed? && g.error == EmptyResponse <==> o.Responded? && AllWhitespace(o.text)
  {
    match o
    case Responded(t) => var raw := Trim(t); if raw != [] then Returned(raw) else Failed(EmptyResponse)
    case Threw(e) => Failed(ServiceError(e))
  }

  /** Attempts `attempt`, `attempt + 1`, ... with the sleeps so far. A 429
      sleeps and goes round again; on the last attempt it still sleeps and
      then the error is thrown. */
  function Attempts(script: seq<CallOutcome>, attempt: nat, sleeps: seq<nat>): (run: RetryRun)
    requires attempt < MaxAttempts <= |script|
    ensures attempt < run.calls <= MaxAttempts
    ensures |sleeps| <= |run.sleepsMs| && run.sleepsMs[..|sleeps|] == sleeps
    ensures |run.sleepsMs| - |sleeps| <= run.calls - attempt
    decreases MaxAttempts - attempt
  {
    var o := script[attempt];
    if RateLimitedCall(o) then
      var slept := sleeps + [SleepMs(o.error, attempt)];
      if attempt + 1 < MaxAttempts then
        var run := Attempts(script, attempt + 1, slept);
        assert run.sleepsMs[..|sleeps|] == slept[..|sleeps|];
        run
      else RetryRun(Failed(ServiceError(o.error)), slept, attempt + 1)
    else RetryRun(AttemptResult(o), sleeps, attempt + 1)
  }

  /** `generateWithRetry`: at most three calls; every sleep is at most 30 s;
      a returned text is never blank. */
  function GenerateWithRetry(script: seq<CallOutcome>): (run: RetryRun)
    requires |script| >= MaxAttempts
    ensures 1 <= run.calls <= MaxAttempts
    ensures |run.sleepsMs| <= run.calls
    ensures run.result.Returned? ==> run.result.raw != []
  {
    Attempts(script, 0, [])
  }

  /** The loop, characterised call by call: every call before the last was
      rate limited; the loop stops early only on a call that was not; each
      429 (the third included) is followed by a sleep of the clamped delay
      for its attempt, and nothing else sleeps; and the result is what the
      last call produced. */
  predicate FollowsScript(script: seq<CallOutcome>, run: RetryRun) {
    && 1 <= run.calls <= MaxAttempts <= |script|
    && (forall i :: 0 <= i < run.calls - 1 ==> RateLimitedCall(script[i]))
    && (run.calls < MaxAttempts ==> !RateLimitedCall(script[run.calls - 1]))
    && |run.sleepsMs| == (if RateLimitedCall(script[run.calls - 1]) then run.calls else run.calls - 1)
    && (forall i :: 0 <= i < |run.sleepsMs| ==> script[i].Threw? && run.sleepsMs[i] == SleepMs(script[i].error, i))
    && run.result == AttemptResult(script[run.calls - 1])
  }

  lemma {:induction false} AttemptsSpec(script: seq<CallOutcome>, attempt: nat, sleeps: seq<nat>)
    requires attempt < MaxAttempts <= |script|
    requires |sleeps| == attempt
    requires forall i :: 0 <= i < attempt ==>
      RateLimitedCall(script[i]) && sleeps[i] == SleepMs(script[i].error, i)
    ensures FollowsScript(script, Attempts(script, attempt, sleeps))
    decreases MaxAttempts - attempt
  {
    var o := script[attempt];
    if !RateLimitedCall(o) {
      StopSpec(script, attempt, sleeps);
    } else if attempt + 1 == MaxAttempts {
      LastRateLimitSpec(script, attempt, sleeps);
    } else {
      var slept := sleeps + [SleepMs(o.error, attempt)];
      assert forall i :: 0 <= i < attempt + 1 ==>
        RateLimitedCall(script[i]) && slept[i] == SleepMs(script[i].error, i);
      AttemptsSpec(script, attempt + 1, slept);
      assert Attempts(script, attempt, sleeps) == Attempts(script, attempt + 1, slept);
    }
  }

  /** A call that is not rate limited ends the loop with its own result. */
  lemma StopSpec(script: seq<CallOutcome>, attempt: nat, sleeps: seq<nat>)
    requires attempt < MaxAttempts <= |script|
    requires |sleeps| == attempt
    requires forall i :: 0 <= i < attempt ==>
      RateLimitedCall(script[i]) && sleeps[i] == SleepMs(script[i].error, i)
    requires !RateLimitedCall(script[attempt])
    ensures FollowsScript(script, Attempts(script, attempt, sleeps))
  {
    assert Attempts(script, attempt, sleeps) == RetryRun(AttemptResult(script[attempt]), sleeps, attempt + 1);
  }

  /** A 429 on the last attempt still sleeps, then its error is thrown. */
  lemma LastRateLimitSpec(script: seq<CallOutcome>, attempt: nat, sleeps: seq<nat>)
    requires attempt + 1 == MaxAttempts <= |script|
    requires |sleeps| == attempt
    requires forall i :: 0 <= i < attempt ==>
      RateLimitedCall(script[i]) && sleeps[i] == SleepMs(script[i].error, i)
    requires RateLimitedCall(script[attempt])
    ensures FollowsScript(script, Attempts(script, attempt, sleeps))
  {
    var o := script[attempt];
    var slept := sleeps + [SleepMs(o.error, attempt)];
    var run := RetryRun(Failed(ServiceError(o.error)), slept, attempt + 1);
    LastAttempt(script, attempt, sleeps);
    forall i | 0 <= i < |slept|
      ensures script[i].Threw? && slept[i] == SleepMs(script[i].error, i)
    {
      if i < attempt {
        assert slept[i] == sleeps[i];
      }
    }
    assert run.result == AttemptResult(o);
  }

  /** The last attempt, rate limited: one more sleep, then the error. */
  lemma LastAttempt(script: seq<CallOutcome>, attempt: nat, sleeps: seq<nat>)
    requires attempt + 1 == MaxAttempts <= |script|
    requires RateLimitedCall(script[attempt])
    ensures Attempts(script, attempt, sleeps)
      == RetryRun(Failed(ServiceError(script[attempt].error)), sleeps + [SleepMs(script[attempt].error, attempt)], MaxAttempts)
  {
  }

  lemma GenerateWithRetrySpec(script: seq<CallOutcome>)
    requires |script| >= MaxAttempts
    ensures FollowsScript(script, GenerateWithRetry(script))
  {
    AttemptsSpec(script, 0, []);
  }

  /** Three 429s in a row: exactly three calls, three sleeps (the last one
      before giving up), and the third error is thrown. */
  lemma ThreeRateLimits(script: seq<CallOutcome>)
    requires |script| >= MaxAttempts
    requires RateLimitedCall(script[0]) && RateLimitedCall(script[1]) && RateLimitedCall(script[2])
    ensures GenerateWithRetry(script).calls == 3
    ensures |GenerateWithRetry(script).sleepsMs| == 3
    ensures GenerateWithRetry(script).result == Failed(ServiceError(script[2].error))
  {
    GenerateWithRetrySpec(script);
  }

  /** A failure that is not a 429 on the first call ends the loop at once:
      one call, no sleep, and that error is rethrown. The blank-output error
      is such a failure. */
  lemma OtherFailureStops(script: seq<CallOutcome>)
    requires |script| >= MaxAttempts
    requires !RateLimitedCall(script[0])
    ensures GenerateWithRetry(script).calls == 1
    ensures GenerateWithRetry(script).sleepsMs == []
    ensures script[0].Threw? ==> GenerateWithRetry(script).result == Failed(ServiceError(script[0].error))
    ensures script[0].Responded? && AllWhitespace(script[0].text) ==>
      GenerateWithRetry(script).result == Failed(EmptyResponse)
  {
  }

  /** A server-provided delay is waited (up to 30 s) before the second call. */
  lemma ServerDelayBeforeSecondCall(script: seq<CallOutcome>, secs: nat)
    requires |script| >= MaxAttempts
    requires RateLimitedCall(script[0])
    requires ParseRetryDelaySeconds(script[0].error) == Some(secs)
    ensures GenerateWithRetry(script).calls >= 2
    ensures GenerateWithRetry(script).sleepsMs[0] == (if secs < MaxDelaySeconds then secs else MaxDelaySeconds) * 1000
  {
    GenerateWithRetrySpec(script);
  }

  /** In the worst case the loop sleeps 90 s in all. */
  lemma TotalSleepBounded(script: seq<CallOutcome>)
    requires |script| >= MaxAttempts
    ensures Sum(GenerateWithRetry(script).sleepsMs) <= MaxAttempts * MaxDelaySeconds * 1000
  {
    var run := GenerateWithRetry(script);
    GenerateWithRetrySpec(script);
    SleepsWithinCap(script, run);
    CappedSum(run.sleepsMs);
  }

  /** At most three sleeps of at most 30 s each add up to at most 90 s. */
  lemma CappedSum(xs: seq<nat>)
    requires |xs| <= MaxAttempts
    requires forall i :: 0 <= i < |xs| ==> xs[i] <= MaxDelaySeconds * 1000
    ensures Sum(xs) <= MaxAttempts * MaxDelaySeconds * 1000
  {
    SumBounded(xs, MaxDelaySeconds * 1000);
    assert |xs| * (MaxDelaySeconds * 1000) <= MaxAttempts * (MaxDelaySeconds * 1000);
  }

  lemma SleepsWithinCap(script: seq<CallOutcome>, run: RetryRun)
    requires FollowsScript(script, run)
    ensures forall i :: 0 <= i < |run.sleepsMs| ==> run.sleepsMs[i] <= MaxDelaySeconds * 1000
  {
    forall i | 0 <= i < |run.sleepsMs|
      ensures run.sleepsMs[i] <= MaxDelaySeconds * 1000
    {
      assert run.sleepsMs[i] == SleepMs(script[i].error, i);
    }
  }

  function Sum(xs: seq<nat>): nat {
    if |xs| == 0 then 0 else xs[0] + Sum(xs[1..])
  }

  lemma {:induction false} SumBounded(xs: seq<nat>, bound: nat)
    requires forall i :: 0 <= i < |xs| ==> xs[i] <= bound
    ensures Sum(xs) <= |xs| * bound
  {
    if |xs| > 0 {
      SumBounded(xs[1..], bound);
    }
  }
}
