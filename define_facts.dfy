/** What one run of Runner#define guarantees, stated about Driver.DefineSpec (which
    Driver.Runner.Define is proved to compute): which steps run and in which order,
    how many results are consumed, that unsupported browsers are left alone, and what
    the success flag ends up holding. */
module DefineFacts {
  import opened Results
  import opened Urls
  import opened Browsers
  import opened Driver

  // ---- the schedule ----

  /** A step of a browser among `bs` that is supported on `host`, running one of
      `tests`. */
  predicate SupportedStep(step: (Browser, string), bs: seq<Browser>, tests: seq<string>, host: string)
  {
    step.0 in bs && !step.0.Unrecognized? && Supported(step.0, host) && step.1 in tests
  }

  /** Every step of the schedule belongs to a registered, supported browser and a
      registered test. */
  lemma {:induction false} ScheduleSupported(bs: seq<Browser>, tests: seq<string>, host: string)
    requires NoUnrecognized(bs)
    ensures forall k :: 0 <= k < |Schedule(bs, tests, host)| ==>
              SupportedStep(Schedule(bs, tests, host)[k], bs, tests, host)
  {
    if bs != [] {
      var init, b := bs[..|bs| - 1], bs[|bs| - 1];
      ScheduleSupported(init, tests, host);
      var s, s0 := Schedule(bs, tests, host), Schedule(init, tests, host);
      forall k | 0 <= k < |s|
        ensures SupportedStep(s[k], bs, tests, host)
      {
        assert bs == init + [b];
        if k < |s0| {
          assert s[k] == s0[k];
          assert s0[k].0 in init && Supported(s0[k].0, host);
        } else {
          assert Supported(b, host);
          assert s[k] == (b, tests[k - |s0|]);
        }
      }
    }
  }

  lemma MulSucc(n: nat, m: nat, t: nat)
    requires m == n + 1
    ensures m * t == n * t + t
  {
  }

  lemma {:induction false} MulStep(p: nat, n: nat, t: nat)
    requires p < n
    ensures p * t + t <= n * t
    decreases n
  {
    MulSucc(n - 1, n, t);
    if p < n - 1 {
      MulStep(p, n - 1, t);
    }
  }

  /** `s` runs every test of `tests` on every browser of `sb`, browser-major: step
      `p * |tests| + j` is browser `sb[p]` running test `tests[j]`. */
  predicate BrowserMajor(s: seq<(Browser, string)>, sb: seq<Browser>, tests: seq<string>)
  {
    |s| == |sb| * |tests| &&
    forall p, j :: 0 <= p < |sb| && 0 <= j < |tests| ==> StepIs(s, sb, tests, p, j)
  }

  /** Step `p * |tests| + j` of `s` is browser `sb[p]` running test `tests[j]`. */
  predicate StepIs(s: seq<(Browser, string)>, sb: seq<Browser>, tests: seq<string>, p: nat, j: nat)
    requires p < |sb| && j < |tests|
  {
    p * |tests| + j < |s| && s[p * |tests| + j] == (sb[p], tests[j])
  }

  /** Appending one browser's row keeps the schedule browser-major. */
  lemma AppendRow(s: seq<(Browser, string)>, sb: seq<Browser>, b: Browser, tests: seq<string>)
    requires BrowserMajor(s, sb, tests)
    ensures BrowserMajor(s + Row(b, tests), sb + [b], tests)
  {
    MulSucc(|sb|, |sb + [b]|, |tests|);
    forall p, j | 0 <= p < |sb| + 1 && 0 <= j < |tests|
      ensures StepIs(s + Row(b, tests), sb + [b], tests, p, j)
    {
      if p < |sb| {
        EarlierRow(s, sb, b, tests, p, j);
      } else {
        LastRow(s, sb, b, tests, p, j);
      }
    }
  }

  lemma LastRow(s: seq<(Browser, string)>, sb: seq<Browser>, b: Browser, tests: seq<string>, p: nat, j: nat)
    requires |s| == |sb| * |tests| && p == |sb| && j < |tests|
    ensures StepIs(s + Row(b, tests), sb + [b], tests, p, j)
  {
    assert (s + Row(b, tests))[|s| + j] == Row(b, tests)[j];
  }

  lemma EarlierRow(s: seq<(Browser, string)>, sb: seq<Browser>, b: Browser, tests: seq<string>, p: nat, j: nat)
    requires BrowserMajor(s, sb, tests) && p < |sb| && j < |tests|
    ensures StepIs(s + Row(b, tests), sb + [b], tests, p, j)
  {
    MulStep(p, |sb|, |tests|);
    assert StepIs(s, sb, tests, p, j);
  }

  /** The schedule is the supported browsers times the tests, browser-major. */
  lemma {:induction false} ScheduleShape(bs: seq<Browser>, tests: seq<string>, host: string)
    requires NoUnrecognized(bs)
    ensures BrowserMajor(Schedule(bs, tests, host), SupportedBrowsers(bs, host), tests)
  {
    if bs != [] {
      var init, b := bs[..|bs| - 1], bs[|bs| - 1];
      ScheduleShape(init, tests, host);
      if Supported(b, host) {
        assert Schedule(bs, tests, host) == Schedule(init, tests, host) + Row(b, tests);
        assert SupportedBrowsers(bs, host) == SupportedBrowsers(init, host) + [b];
        AppendRow(Schedule(init, tests, host), SupportedBrowsers(init, host), b, tests);
      } else {
        assert Schedule(bs, tests, host) == Schedule(init, tests, host);
        assert SupportedBrowsers(bs, host) == SupportedBrowsers(init, host);
      }
    }
  }

  /** The supported browsers are taken in registration order and none is missed:
      the `p`-th of them is registered at position `idx[p]`, these positions increase,
      and every supported browser's position is among them. */
  lemma {:induction false} SupportedInOrder(bs: seq<Browser>, host: string) returns (idx: seq<nat>)
    requires NoUnrecognized(bs)
    ensures |idx| == |SupportedBrowsers(bs, host)|
    ensures forall p :: 0 <= p < |idx| ==> idx[p] < |bs| && bs[idx[p]] == SupportedBrowsers(bs, host)[p]
    ensures forall p :: 0 <= p < |idx| ==> Supported(bs[idx[p]], host)
    ensures forall p, q :: 0 <= p < q < |idx| ==> idx[p] < idx[q]
    ensures forall i :: 0 <= i < |bs| && Supported(bs[i], host) ==> i in idx
  {
    if bs == [] {
      idx := [];
    } else {
      var init, b := bs[..|bs| - 1], bs[|bs| - 1];
      var idx0 := SupportedInOrder(init, host);
      var sb, sb0 := SupportedBrowsers(bs, host), SupportedBrowsers(init, host);
      assert forall k :: 0 <= k < |init| ==> init[k] == bs[k];
      if Supported(b, host) {
        idx := idx0 + [|bs| - 1];
        assert sb == sb0 + [b];
        assert forall i :: 0 <= i < |bs| - 1 && Supported(bs[i], host) ==> i in idx0;
      } else {
        idx := idx0;
        assert sb == sb0;
        assert forall i :: 0 <= i < |bs| - 1 && Supported(bs[i], host) ==> i in idx0;
      }
    }
  }

  // ---- the trace ----

  /** Each step adds four events. */
  lemma {:induction false} TraceLength(sched: seq<(Browser, string)>, queue: seq<TestResult>,
                                       clock: nat -> string, flag: string, n: nat)
    requires n <= |sched| && n <= |queue|
    ensures |Trace(sched, queue, clock, flag, n)| == 4 * n
  {
    if n > 0 {
      TraceLength(sched, queue, clock, flag, n - 1);
    }
  }

  /** `tr` holds the first `n` steps, four events each, step `s` being exactly setup,
      visit, the pop of `queue[s]` and teardown. */
  predicate StepsInOrder(tr: seq<Event>, sched: seq<(Browser, string)>, queue: seq<TestResult>,
                         clock: nat -> string, flag: string, n: nat)
    requires n <= |sched| && n <= |queue|
  {
    |tr| == 4 * n &&
    forall s :: 0 <= s < n ==>
      tr[4 * s .. 4 * s + 4] == StepEvents(sched[s].0, StepUrl(sched, clock, flag, s), queue[s])
  }

  /** The trace of the first `n` steps is laid out step by step. */
  lemma {:induction false} TraceShape(sched: seq<(Browser, string)>, queue: seq<TestResult>,
                                      clock: nat -> string, flag: string, n: nat)
    requires n <= |sched| && n <= |queue|
    ensures StepsInOrder(Trace(sched, queue, clock, flag, n), sched, queue, clock, flag, n)
  {
    if n > 0 {
      TraceShape(sched, queue, clock, flag, n - 1);
      var tr0 := Trace(sched, queue, clock, flag, n - 1);
      var last := StepEvents(sched[n - 1].0, StepUrl(sched, clock, flag, n - 1), queue[n - 1]);
      assert Trace(sched, queue, clock, flag, n) == tr0 + last;
      AppendStep(tr0, last, sched, queue, clock, flag, n - 1);
    }
  }

  lemma AppendStep(tr: seq<Event>, last: seq<Event>, sched: seq<(Browser, string)>, queue: seq<TestResult>,
                   clock: nat -> string, flag: string, n: nat)
    requires n < |sched| && n < |queue| && StepsInOrder(tr, sched, queue, clock, flag, n)
    requires last == StepEvents(sched[n].0, StepUrl(sched, clock, flag, n), queue[n])
    ensures StepsInOrder(tr + last, sched, queue, clock, flag, n + 1)
  {
    var tr1 := tr + last;
    forall s | 0 <= s < n + 1
      ensures tr1[4 * s .. 4 * s + 4] == StepEvents(sched[s].0, StepUrl(sched, clock, flag, s), queue[s])
    {
      if s < n {
        assert tr1[4 * s .. 4 * s + 4] == tr[4 * s .. 4 * s + 4];
      } else {
        assert tr1[4 * s ..] == last;
      }
    }
  }

  /** Every setup, visit and teardown in the first `n` steps is addressed to the
      browser of one of those steps. */
  lemma {:induction false} TraceBrowsers(sched: seq<(Browser, string)>, queue: seq<TestResult>,
                                         clock: nat -> string, flag: string, n: nat)
    requires n <= |sched| && n <= |queue|
    ensures forall e :: e in Trace(sched, queue, clock, flag, n) && !e.DoPop? ==>
              exists s :: 0 <= s < n && e.browser == sched[s].0
  {
    if n > 0 {
      TraceBrowsers(sched, queue, clock, flag, n - 1);
      var tr0 := Trace(sched, queue, clock, flag, n - 1);
      var last := StepEvents(sched[n - 1].0, StepUrl(sched, clock, flag, n - 1), queue[n - 1]);
      assert Trace(sched, queue, clock, flag, n) == tr0 + last;
      forall e: Event | e in tr0 + last && !e.DoPop?
        ensures exists s :: 0 <= s < n && e.browser == sched[s].0
      {
        if e in tr0 {
          var s :| 0 <= s < n - 1 && e.browser == sched[s].0;
        } else {
          assert e.browser == sched[n - 1].0;
        }
      }
    }
  }

  // ---- define ----

  /** The number of results `define` consumes is the number of supported, reached
      browsers times the number of tests, unless the results run out first, in which
      case it blocks; each completed step leaves four events and a blocked one two. */
  lemma DefinePops(browsers: seq<Browser>, tests: seq<string>, host: string, flag: string,
                   clock: nat -> string, queue: seq<TestResult>, initial: bool)
    ensures var o := DefineSpec(browsers, tests, host, flag, clock, queue, initial);
            var steps := |SupportedBrowsers(Reached(browsers), host)| * |tests|;
            o.popped == (if |queue| < steps then |queue| else steps) &&
            (o.status == Blocked <==> |queue| < steps) &&
            |o.trace| == 4 * o.popped + (if o.status == Blocked then 2 else 0)
  {
    var sched := Schedule(Reached(browsers), tests, host);
    ScheduleShape(Reached(browsers), tests, host);
    var o := DefineSpec(browsers, tests, host, flag, clock, queue, initial);
    TraceLength(sched, queue, clock, flag, o.popped);
  }

  /** How `define` ends once enough results have arrived: normally when every value
      registered is a browser, and with the error of the first registered value that
      is not one otherwise. */
  lemma DefineStatus(browsers: seq<Browser>, tests: seq<string>, host: string, flag: string,
                     clock: nat -> string, queue: seq<TestResult>, initial: bool)
    ensures var o := DefineSpec(browsers, tests, host, flag, clock, queue, initial);
            (o.status == Finished ==> NoUnrecognized(browsers)) &&
            (o.status.Crashed? ==>
               exists i :: 0 <= i < |browsers| && browsers[i] == Unrecognized(o.status.symbol) &&
                           NoUnrecognized(browsers[..i])) &&
            (o.status != Blocked ==> (o.status == Finished <==> NoUnrecognized(browsers)))
  {
    var o := DefineSpec(browsers, tests, host, flag, clock, queue, initial);
    var r := Reached(browsers);
    if o.status.Crashed? {
      var i := |r|;
      assert browsers[i] == Unrecognized(o.status.symbol);
      assert browsers[..i] == r;
    }
  }

  /** A runner whose browsers were all registered by known symbols or browser objects
      never crashes in `define`; once enough results have arrived, it finishes
      normally exactly when that is so. */
  lemma KnownBrowsersNeverCrash(args: seq<BrowserArg>, tests: seq<string>, host: string, flag: string,
                                clock: nat -> string, queue: seq<TestResult>, initial: bool)
    ensures var o := DefineSpec(ResolveAll(args), tests, host, flag, clock, queue, initial);
            ((forall k :: 0 <= k < |args| ==> KnownArg(args[k])) ==> !o.status.Crashed?) &&
            (o.status != Blocked ==> (o.status == Finished <==> forall k :: 0 <= k < |args| ==> KnownArg(args[k])))
  {
    var bs := ResolveAll(args);
    forall k | 0 <= k < |args|
      ensures !bs[k].Unrecognized? <==> KnownArg(args[k])
    {
      ResolveClassifies(args[k]);
    }
    DefineStatus(bs, tests, host, flag, clock, queue, initial);
  }

  /** The steps run browser-major: the step for the `p`-th supported browser and the
      `j`-th test is number `p * |tests| + j`, and it is set up, visited with that test's
      URL and that step's clock reading, pops that step's result, and is torn down. */
  lemma DefineStepOrder(browsers: seq<Browser>, tests: seq<string>, host: string, flag: string,
                        clock: nat -> string, queue: seq<TestResult>, initial: bool)
    ensures var o := DefineSpec(browsers, tests, host, flag, clock, queue, initial);
            var sb := SupportedBrowsers(Reached(browsers), host);
            forall p, j :: 0 <= p < |sb| && 0 <= j < |tests| && p * |tests| + j < o.popped ==>
              4 * (p * |tests| + j) + 4 <= |o.trace| &&
              o.trace[4 * (p * |tests| + j) .. 4 * (p * |tests| + j) + 4] ==
                StepEvents(sb[p], VisitUrl(tests[j], clock(p * |tests| + j), flag), queue[p * |tests| + j])
  {
    var o := DefineSpec(browsers, tests, host, flag, clock, queue, initial);
    var sb := SupportedBrowsers(Reached(browsers), host);
    var sched := Schedule(Reached(browsers), tests, host);
    ScheduleShape(Reached(browsers), tests, host);
    TraceShape(sched, queue, clock, flag, o.popped);
    var tr := Trace(sched, queue, clock, flag, o.popped);
    assert o.trace[..|tr|] == tr;
    forall p, j | 0 <= p < |sb| && 0 <= j < |tests| && p * |tests| + j < o.popped
      ensures 4 * (p * |tests| + j) + 4 <= |o.trace| &&
              o.trace[4 * (p * |tests| + j) .. 4 * (p * |tests| + j) + 4] ==
                StepEvents(sb[p], VisitUrl(tests[j], clock(p * |tests| + j), flag), queue[p * |tests| + j])
    {
      var s := p * |tests| + j;
      assert StepIs(sched, sb, tests, p, j);
      assert o.trace[4 * s .. 4 * s + 4] == tr[4 * s .. 4 * s + 4];
    }
  }

  /** When the results run out, the last two events are the setup and the visit of the
      step whose pop never returns. */
  lemma DefineBlockedTail(browsers: seq<Browser>, tests: seq<string>, host: string, flag: string,
                          clock: nat -> string, queue: seq<TestResult>, initial: bool)
    ensures var o := DefineSpec(browsers, tests, host, flag, clock, queue, initial);
            var sched := Schedule(Reached(browsers), tests, host);
            o.status == Blocked ==>
              o.popped == |queue| < |sched| && |o.trace| == 4 * o.popped + 2 &&
              o.trace[4 * o.popped ..] ==
                [DoSetup(sched[o.popped].0), DoVisit(sched[o.popped].0, VisitUrl(sched[o.popped].1, clock(o.popped), flag))]
  {
    var o := DefineSpec(browsers, tests, host, flag, clock, queue, initial);
    var sched := Schedule(Reached(browsers), tests, host);
    if o.status == Blocked {
      TraceLength(sched, queue, clock, flag, o.popped);
    }
  }

  /** Browsers that are not supported on `host`, and registered values past the first
      non-browser, receive no setup, visit or teardown: every such event names a
      supported browser the loop reached. */
  lemma DefineSkipsUnsupported(browsers: seq<Browser>, tests: seq<string>, host: string, flag: string,
                               clock: nat -> string, queue: seq<TestResult>, initial: bool)
    ensures var o := DefineSpec(browsers, tests, host, flag, clock, queue, initial);
            forall e :: e in o.trace && !e.DoPop? ==>
              e.browser in Reached(browsers) && !e.browser.Unrecognized? && Supported(e.browser, host)
  {
    var o := DefineSpec(browsers, tests, host, flag, clock, queue, initial);
    var sched := Schedule(Reached(browsers), tests, host);
    ScheduleSupported(Reached(browsers), tests, host);
    TraceBrowsers(sched, queue, clock, flag, o.popped);
    var tr := Trace(sched, queue, clock, flag, o.popped);
    forall e | e in o.trace && !e.DoPop?
      ensures e.browser in Reached(browsers) && !e.browser.Unrecognized? && Supported(e.browser, host)
    {
      if e in tr {
        var s :| 0 <= s < o.popped && e.browser == sched[s].0;
      } else {
        assert e.browser == sched[o.popped].0;
      }
    }
  }

  /** The success flag is overwritten by every pop: afterwards it is the pass? of the
      last result popped, which is the last pop event of the trace, and it keeps its
      value before `define` when nothing was popped. */
  lemma DefineSuccess(browsers: seq<Browser>, tests: seq<string>, host: string, flag: string,
                      clock: nat -> string, queue: seq<TestResult>, initial: bool)
    ensures var o := DefineSpec(browsers, tests, host, flag, clock, queue, initial);
            (o.popped == 0 ==> o.success == initial && forall e :: e in o.trace ==> !e.DoPop?) &&
            (o.popped > 0 ==>
               4 * o.popped <= |o.trace| && o.trace[4 * o.popped - 2] == DoPop(queue[o.popped - 1]) &&
               o.success == queue[o.popped - 1].Pass() &&
               forall k :: 4 * o.popped - 2 < k < |o.trace| ==> !o.trace[k].DoPop?)
  {
    var o := DefineSpec(browsers, tests, host, flag, clock, queue, initial);
    var sched := Schedule(Reached(browsers), tests, host);
    var tr := Trace(sched, queue, clock, flag, o.popped);
    var tail := o.trace[|tr|..];
    assert o.trace == tr + tail;
    LastPop(sched, queue, clock, flag, o.popped, tail, o.trace);
  }

  /** In the first `n` steps followed by events that pop nothing, the last pop is the
      third event of step `n - 1`, and it pops `queue[n - 1]`. */
  lemma LastPop(sched: seq<(Browser, string)>, queue: seq<TestResult>, clock: nat -> string, flag: string,
                n: nat, tail: seq<Event>, tr: seq<Event>)
    requires n <= |sched| && n <= |queue|
    requires (forall e :: e in tail ==> !e.DoPop?) && tr == Trace(sched, queue, clock, flag, n) + tail
    ensures n == 0 ==> forall e :: e in tr ==> !e.DoPop?
    ensures n > 0 ==> 4 * n <= |tr| && tr[4 * n - 2] == DoPop(queue[n - 1]) &&
                      forall k :: 4 * n - 2 < k < |tr| ==> !tr[k].DoPop?
  {
    if n > 0 {
      TraceLength(sched, queue, clock, flag, n - 1);
      var last := StepEvents(sched[n - 1].0, StepUrl(sched, clock, flag, n - 1), queue[n - 1]);
      assert tr == Trace(sched, queue, clock, flag, n - 1) + last + tail;
      assert tr[4 * n - 2] == last[2];
      assert tr[4 * n - 1] == last[3];
      forall k | 4 * n - 1 < k < |tr|
        ensures !tr[k].DoPop?
      {
        assert tr[k] == tail[k - 4 * n];
      }
    }
  }

  /** The flag is not "every result passed": with one Konqueror browser on a Linux
      host and two tests, a failing first result followed by a passing one leaves it
      true. */
  lemma LaterPassMasksFailure(host: string, a: string, b: string, flag: string, clock: nat -> string)
    requires Linux(host)
    ensures var failing, passing := TestResult(3, 0, 1, 1), TestResult(2, 0, 0, 1);
            var o := DefineSpec([Konqueror], [a, b], host, flag, clock, [failing, passing], true);
            failing.Fail() && o.status == Finished && o.popped == 2 &&
            o.trace[2] == DoPop(failing) && o.success
  {
    var failing, passing := TestResult(3, 0, 1, 1), TestResult(2, 0, 0, 1);
    var bs, queue := [Konqueror], [failing, passing];
    assert bs[..0] == [];
    assert Reached(bs) == bs;
    var sched := Schedule(bs, [a, b], host);
    assert Supported(Konqueror, host);
    assert sched == Schedule(bs[..0], [a, b], host) + Row(Konqueror, [a, b]);
    assert Schedule(bs[..0], [a, b], host) == [];
    assert sched == Row(Konqueror, [a, b]);
    TraceShape(sched, queue, clock, flag, 2);
    assert Trace(sched, queue, clock, flag, 2)[0..4][2] == DoPop(failing);
  }
}
