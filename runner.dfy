/** The Runner: the registries of tests and browsers, and the driver loop that runs
    every registered test in every supported browser, one result from the queue per
    step.  The HTTP server, its thread and the interrupt trap are not modelled; the
    results the `/results` callback pushes are given as the sequence `queue`, in the
    order they arrive, and the clock as a function from the step number to the
    formatted time. */
module Driver {
  import opened Results
  import opened Urls
  import opened Browsers

  /** An argument of Runner#browser: a symbol, or a browser object. */
  datatype BrowserArg = Named(symbol: string) | Given(browser: Browser)

  /** What the driver does, in order.  Each names the browser (or the result) involved;
      the native commands behind setup, visit and teardown are Browsers.Setup,
      Browsers.Visit and Browsers.Teardown. */
  datatype Event =
    | DoSetup(browser: Browser)
    | DoVisit(browser: Browser, url: string)
    | DoPop(result: TestResult)
    | DoTeardown(browser: Browser)

  /** How `define` ends: after the whole matrix, blocked for ever in `@queue.pop`
      (there is no timeout), or with the NoMethodError raised by calling `supported?`
      on a registered value that is not a browser. */
  datatype Status = Finished | Blocked | Crashed(symbol: string)

  /** Runner#run's answer: the path was appended, or the "Missing test file" error. */
  datatype Registration = Registered | Missing(message: string)

  /** The whole observable effect of one `define`. */
  datatype Outcome = Outcome(trace: seq<Event>, popped: nat, status: Status, success: bool)

  /** The `case` of Runner#browser. */
  function Resolve(arg: BrowserArg): Browser
  {
    match arg
    case Named("firefox") => Firefox(FirefoxDefaultPath)
    case Named("safari") => Safari
    case Named("ie") => IE(IEDefaultPath)
    case Named("konqueror") => Konqueror
    case Named(s) => Unrecognized(s)
    case Given(b) => b
  }

  /** An argument Runner#browser turns into a browser object: one of the four known
      symbols, or an object that is already a browser. */
  predicate KnownArg(arg: BrowserArg)
  {
    (arg.Named? && arg.symbol in {"firefox", "safari", "ie", "konqueror"}) ||
    (arg.Given? && !arg.browser.Unrecognized?)
  }

  /** The registered value is a browser exactly for the known arguments, and
      registering an already registered browser again adds the same browser. */
  lemma ResolveClassifies(arg: BrowserArg)
    ensures !Resolve(arg).Unrecognized? <==> KnownArg(arg)
    ensures Resolve(Given(Resolve(arg))) == Resolve(arg)
  {
  }

  /** The browsers registered by a sequence of Runner#browser calls. */
  function ResolveAll(args: seq<BrowserArg>): (bs: seq<Browser>)
    ensures |bs| == |args| && forall k :: 0 <= k < |args| ==> bs[k] == Resolve(args[k])
  {
    seq(|args|, k requires 0 <= k < |args| => Resolve(args[k]))
  }

  // ---- the schedule of steps ----

  predicate NoUnrecognized(bs: seq<Browser>)
  {
    forall k :: 0 <= k < |bs| ==> !bs[k].Unrecognized?
  }

  /** Index of the first registered value that is not a browser, or |bs|. */
  function FirstUnrecognized(bs: seq<Browser>): (r: nat)
    ensures r <= |bs| && NoUnrecognized(bs[..r])
    ensures r < |bs| ==> bs[r].Unrecognized?
  {
    if bs == [] || bs[0].Unrecognized? then 0
    else
      var r := 1 + FirstUnrecognized(bs[1..]);
      assert forall k :: 1 <= k < r ==> bs[..r][k] == bs[1..][..r - 1][k - 1];
      r
  }

  /** The browsers the loop gets to: those before the first non-browser value. */
  function Reached(bs: seq<Browser>): (r: seq<Browser>)
    ensures NoUnrecognized(r) && |r| <= |bs| && r == bs[..|r|]
    ensures |r| < |bs| ==> bs[|r|].Unrecognized?
  {
    bs[..FirstUnrecognized(bs)]
  }

  /** One browser's steps: every test, in registration order. */
  function Row(b: Browser, tests: seq<string>): (r: seq<(Browser, string)>)
    ensures |r| == |tests| && forall j :: 0 <= j < |tests| ==> r[j] == (b, tests[j])
  {
    seq(|tests|, j requires 0 <= j < |tests| => (b, tests[j]))
  }

  /** The (browser, test) steps in the order the nested loops take them: the browsers
      in registration order, unsupported ones skipped. */
  function Schedule(bs: seq<Browser>, tests: seq<string>, host: string): seq<(Browser, string)>
    requires NoUnrecognized(bs)
  {
    if bs == [] then []
    else
      var b := bs[|bs| - 1];
      Schedule(bs[..|bs| - 1], tests, host) + (if Supported(b, host) then Row(b, tests) else [])
  }

  /** The supported browsers among `bs`, in order. */
  function SupportedBrowsers(bs: seq<Browser>, host: string): seq<Browser>
    requires NoUnrecognized(bs)
  {
    if bs == [] then []
    else
      var b := bs[|bs| - 1];
      SupportedBrowsers(bs[..|bs| - 1], host) + (if Supported(b, host) then [b] else [])
  }

  /** The events of one step: setup, visit, one pop, teardown. */
  function StepEvents(b: Browser, url: string, r: TestResult): seq<Event>
  {
    [DoSetup(b), DoVisit(b, url), DoPop(r), DoTeardown(b)]
  }

  /** The visit URL of step `k`. */
  function StepUrl(sched: seq<(Browser, string)>, clock: nat -> string, flag: string, k: nat): string
    requires k < |sched|
  {
    VisitUrl(sched[k].1, clock(k), flag)
  }

  /** The events of the first `n` steps, step `k` consuming `queue[k]`. */
  function Trace(sched: seq<(Browser, string)>, queue: seq<TestResult>, clock: nat -> string, flag: string, n: nat): seq<Event>
    requires n <= |sched| && n <= |queue|
  {
    if n == 0 then []
    else Trace(sched, queue, clock, flag, n - 1) +
         StepEvents(sched[n - 1].0, StepUrl(sched, clock, flag, n - 1), queue[n - 1])
  }

  /** The success flag after `n` pops: the flag it started with if nothing was popped,
      otherwise the last popped result's pass?. */
  function LastPass(queue: seq<TestResult>, n: nat, initial: bool): bool
    requires n <= |queue|
  {
    if n == 0 then initial else queue[n - 1].Pass()
  }

  /** What `define` does, as a function of the registries, the host, the auto-close
      flag, the clock, the results that arrive and the flag's value before. */
  function DefineSpec(browsers: seq<Browser>, tests: seq<string>, host: string, flag: string,
                      clock: nat -> string, queue: seq<TestResult>, initial: bool): Outcome
  {
    var reached := Reached(browsers);
    var sched := Schedule(reached, tests, host);
    if |queue| < |sched| then
      var k := |queue|;
      var b := sched[k].0;
      Outcome(Trace(sched, queue, clock, flag, k) + [DoSetup(b), DoVisit(b, StepUrl(sched, clock, flag, k))],
              k, Blocked, LastPass(queue, k, initial))
    else
      Outcome(Trace(sched, queue, clock, flag, |sched|), |sched|,
              if |reached| < |browsers| then Crashed(browsers[|reached|].symbol) else Finished,
              LastPass(queue, |sched|, initial))
  }

  // ---- the Runner object ----

  class Runner {
    var name: string
    var tests: seq<string>
    var browsers: seq<Browser>
    var result: bool

    /** Runner#initialize, up to the configuration block: empty registries and a
        success flag that starts true.  The source then yields itself to the block and
        calls `define`; here the caller registers and then calls Define. */
    constructor (name: string)
      ensures this.name == name && tests == [] && browsers == [] && result
    {
      this.name := name;
      tests := [];
      browsers := [];
      result := true;
    }

    /** Runner#successful? */
    function Successful(): bool
      reads this
    {
      result
    }

    /** Runner#run: register test `test` by the path of its page, which must exist
        below `railsRoot` (`fileExists` stands for File.exists?). */
    method Run(test: string, railsRoot: string, fileExists: string -> bool) returns (r: Registration)
      modifies this`tests
      ensures fileExists(railsRoot + TestPath(test)) ==>
                r == Registered && tests == old(tests) + [TestPath(test)]
      ensures !fileExists(railsRoot + TestPath(test)) ==>
                r == Missing("Missing test file " + TestPath(test) + " for " + test) && tests == old(tests)
    {
      var url := TestPath(test);
      if !fileExists(railsRoot + url) {
        return Missing("Missing test file " + url + " for " + test);
      }
      tests := tests + [url];
      r := Registered;
    }

    /** Runner#browser: register a browser by symbol or object. */
    method RegisterBrowser(arg: BrowserArg)
      modifies this`browsers
      ensures browsers == old(browsers) + [Resolve(arg)]
    {
      var b := Resolve(arg);
      browsers := browsers + [b];
    }

    /** Runner#define: for each registered browser that is supported on `host`, for
        each registered test, set up, visit, pop one result (blocking while none has
        arrived), overwrite the success flag with its pass? and tear down. */
    method Define(host: string, env: map<string, string>, clock: nat -> string, queue: seq<TestResult>)
      returns (trace: seq<Event>, popped: nat, status: Status)
      modifies this`result
      ensures Outcome(trace, popped, status, result) ==
                DefineSpec(browsers, tests, host, AlwaysCloseWindows(env), clock, queue, old(result))
    {
      ghost var reached := Reached(browsers);
      ghost var sched := Schedule(reached, tests, host);
      var flag := AlwaysCloseWindows(env);
      trace, popped, status := [], 0, Finished;
      var i := 0;
      while i < |browsers|
        invariant 0 <= i <= |browsers| && i <= |reached|
        invariant NoUnrecognized(browsers[..i])
        invariant popped <= |sched| && popped <= |queue|
        invariant Schedule(browsers[..i], tests, host) == sched[..popped]
        invariant trace == Trace(sched, queue, clock, flag, popped)
        invariant result == LastPass(queue, popped, old(result))
      {
        var b := browsers[i];
        if b.Unrecognized? {
          assert i == |reached| && browsers[..i] == reached;
          DefineRanAll(browsers, tests, host, flag, clock, queue, old(result), sched, i);
          status := Crashed(b.symbol);
          return;
        }
        BrowserStep(browsers, i, tests, host, sched, popped);
        if Supported(b, host) {
          var blocked;
          trace, popped, blocked := RunRow(b, flag, clock, queue, sched, old(result), trace, popped);
          if blocked {
            DefineBlocked(browsers, tests, host, flag, clock, queue, old(result), sched);
            status := Blocked;
            return;
          }
        }
        i := i + 1;
      }
      assert browsers[..i] == browsers;
      DefineRanAll(browsers, tests, host, flag, clock, queue, old(result), sched, i);
    }

    /** The inner `@tests.each` of Runner#define for one supported browser `b`, starting
        at step `start` of the schedule: each test is set up, visited, popped and torn
        down, unless the results run out, in which case it stops blocked right after
        the visit. */
    method RunRow(b: Browser, flag: string, clock: nat -> string, queue: seq<TestResult>,
                  ghost sched: seq<(Browser, string)>, ghost initial: bool,
                  trace0: seq<Event>, start: nat)
      returns (trace: seq<Event>, popped: nat, blocked: bool)
      modifies this`result
      requires start + |tests| <= |sched| && start <= |queue|
      requires forall j :: 0 <= j < |tests| ==> sched[start + j] == (b, tests[j])
      requires trace0 == Trace(sched, queue, clock, flag, start)
      requires result == LastPass(queue, start, initial)
      ensures start <= popped <= start + |tests| && popped <= |queue|
      ensures blocked ==> popped == |queue| < start + |tests| && sched[popped] == (b, tests[popped - start])
      ensures blocked ==> trace == Trace(sched, queue, clock, flag, popped) + [DoSetup(b), DoVisit(b, StepUrl(sched, clock, flag, popped))]
      ensures !blocked ==> popped == start + |tests| && trace == Trace(sched, queue, clock, flag, popped)
      ensures result == LastPass(queue, popped, initial)
    {
      trace, popped := trace0, start;
      var j := 0;
      while j < |tests|
        invariant 0 <= j <= |tests|
        invariant popped == start + j && popped <= |queue|
        invariant trace == Trace(sched, queue, clock, flag, popped)
        invariant result == LastPass(queue, popped, initial)
      {
        assert sched[popped] == (b, tests[j]);
        var url := VisitUrl(tests[j], clock(popped), flag);
        trace := trace + [DoSetup(b), DoVisit(b, url)];
        if popped == |queue| {
          return trace, popped, true;
        }
        var r := queue[popped];
        TraceStep(sched, queue, clock, flag, popped);
        popped := popped + 1;
        trace := trace + [DoPop(r), DoTeardown(b)];
        result := r.Pass();
        j := j + 1;
      }
      blocked := false;
    }
  }

  /** Browser `i`, a real browser reached by the loop, adds its row of steps (if it is
      supported) at position `popped` of the schedule, right after the steps of the
      browsers before it. */
  lemma BrowserStep(bs: seq<Browser>, i: nat, tests: seq<string>, host: string,
                    sched: seq<(Browser, string)>, popped: nat)
    requires i < |Reached(bs)| && sched == Schedule(Reached(bs), tests, host)
    requires NoUnrecognized(bs[..i]) && popped <= |sched| && Schedule(bs[..i], tests, host) == sched[..popped]
    ensures !bs[i].Unrecognized? && NoUnrecognized(bs[..i + 1])
    ensures Supported(bs[i], host) ==>
              popped + |tests| <= |sched| && forall j :: 0 <= j < |tests| ==> sched[popped + j] == (bs[i], tests[j])
    ensures var n := popped + if Supported(bs[i], host) then |tests| else 0;
            n <= |sched| && Schedule(bs[..i + 1], tests, host) == sched[..n]
  {
    var m := |Reached(bs)|;
    var next := NextRow(bs, i, m, tests, host);
    if Supported(bs[i], host) {
      RowInSchedule(bs, i, m, tests, host);
    }
  }

  /** `define` blocked in the pop of step |queue|, right after that step's visit. */
  lemma DefineBlocked(browsers: seq<Browser>, tests: seq<string>, host: string, flag: string,
                      clock: nat -> string, queue: seq<TestResult>, initial: bool, sched: seq<(Browser, string)>)
    requires sched == Schedule(Reached(browsers), tests, host) && |queue| < |sched|
    ensures DefineSpec(browsers, tests, host, flag, clock, queue, initial) ==
              Outcome(Trace(sched, queue, clock, flag, |queue|) +
                        [DoSetup(sched[|queue|].0), DoVisit(sched[|queue|].0, StepUrl(sched, clock, flag, |queue|))],
                      |queue|, Blocked, LastPass(queue, |queue|, initial))
  {
  }

  /** `define` ran every step and then stopped at the non-browser value at `i`, or at
      the end of the browsers when `i` is their number. */
  lemma DefineRanAll(browsers: seq<Browser>, tests: seq<string>, host: string, flag: string,
                     clock: nat -> string, queue: seq<TestResult>, initial: bool, sched: seq<(Browser, string)>, i: nat)
    requires i == |Reached(browsers)| && sched == Schedule(Reached(browsers), tests, host) && |sched| <= |queue|
    ensures DefineSpec(browsers, tests, host, flag, clock, queue, initial) ==
              Outcome(Trace(sched, queue, clock, flag, |sched|), |sched|,
                      if i < |browsers| then Crashed(browsers[i].symbol) else Finished,
                      LastPass(queue, |sched|, initial))
  {
  }

  /** One more step of the trace: setup and visit, then the pop and the teardown. */
  lemma TraceStep(sched: seq<(Browser, string)>, queue: seq<TestResult>, clock: nat -> string, flag: string, n: nat)
    requires n < |sched| && n < |queue|
    ensures Trace(sched, queue, clock, flag, n + 1) ==
              Trace(sched, queue, clock, flag, n) + [DoSetup(sched[n].0), DoVisit(sched[n].0, StepUrl(sched, clock, flag, n))] +
              [DoPop(queue[n]), DoTeardown(sched[n].0)]
  {
  }

  /** Browser `i` (a real browser, before the first non-browser value) adds its row of
      steps, if it is supported, right after the steps of the browsers before it. */
  lemma NextRow(bs: seq<Browser>, i: nat, m: nat, tests: seq<string>, host: string) returns (next: seq<(Browser, string)>)
    requires i < m <= |bs| && NoUnrecognized(bs[..m])
    ensures NoUnrecognized(bs[..i]) && NoUnrecognized(bs[..i + 1]) && !bs[i].Unrecognized?
    ensures next == Schedule(bs[..i + 1], tests, host)
    ensures next == Schedule(bs[..i], tests, host) + (if Supported(bs[i], host) then Row(bs[i], tests) else [])
    ensures var c := Schedule(bs[..m], tests, host); |next| <= |c| && next == c[..|next|]
  {
    assert bs[..m][i] == bs[i];
    assert bs[..i + 1][..i] == bs[..i];
    assert forall k :: 0 <= k < i + 1 ==> bs[..i + 1][k] == bs[..m][k];
    SchedulePrefix(bs, i + 1, m, tests, host);
    next := Schedule(bs[..i + 1], tests, host);
  }

  /** The steps of a supported browser `i` follow those of the browsers before it. */
  lemma RowInSchedule(bs: seq<Browser>, i: nat, m: nat, tests: seq<string>, host: string)
    requires i < m <= |bs| && NoUnrecognized(bs[..m])
    requires !bs[i].Unrecognized? && Supported(bs[i], host)
    ensures NoUnrecognized(bs[..i])
    ensures var base, c := |Schedule(bs[..i], tests, host)|, Schedule(bs[..m], tests, host);
            base + |tests| <= |c| &&
            forall j :: 0 <= j < |tests| ==> c[base + j] == (bs[i], tests[j])
  {
    var next := NextRow(bs, i, m, tests, host);
    var base, c := |Schedule(bs[..i], tests, host)|, Schedule(bs[..m], tests, host);
    forall j | 0 <= j < |tests| ensures c[base + j] == (bs[i], tests[j]) {
      assert c[base + j] == next[base + j];
    }
  }

  /** The schedule of a prefix of the reached browsers is a prefix of the whole
      schedule. */
  lemma {:induction false} SchedulePrefix(bs: seq<Browser>, i: nat, m: nat, tests: seq<string>, host: string)
    requires i <= m <= |bs| && NoUnrecognized(bs[..m])
    ensures NoUnrecognized(bs[..i])
    ensures var a, c := Schedule(bs[..i], tests, host), Schedule(bs[..m], tests, host);
            |a| <= |c| && a == c[..|a|]
    decreases m
  {
    assert forall k :: 0 <= k < i ==> bs[..i][k] == bs[..m][k];
    if i < m {
      assert bs[..m][..m - 1] == bs[..m - 1];
      assert NoUnrecognized(bs[..m - 1]) by {
        assert forall k :: 0 <= k < m - 1 ==> bs[..m - 1][k] == bs[..m][k];
      }
      SchedulePrefix(bs, i, m - 1, tests, host);
    }
  }
}
