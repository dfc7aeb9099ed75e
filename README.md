# JavaScript test runner — a Dafny model

`lib/javascript_test.rb` drives browser-side JavaScript unit tests. A `Runner`
keeps two registries, the pages of the tests and the browsers that should run them.
It serves the pages from a local web server on port 4711. For every supported browser
and every test it then:

- sets the browser up;
- sends it to the test page, with a URL that names the server's `/results` callback;
- waits on a queue until the page reports back its four counters;
- records whether that report passed;
- tears the browser down.

The project models this core:

- `strings.dfy` (module `Strings`): the Ruby string operations the core relies on.
  These are `String#include?`, `String#gsub` with a literal pattern and a replacement taken literally, `Integer#to_s`
  and `String#to_i`. The module also proves the round trip `to_i(to_s(n)) == n`.
- `results.dfy` (module `Results`): the `Result` struct, with `fail?`, `pass?` and
  `to_s`. It also covers how the `/results` handler builds a `Result` from the query
  parameters: a missing or non-numeric parameter gives 0.
- `urls.dfy` (module `Urls`): the fixed server address, the path a test is registered
  under, the URL each browser visits, and `always_close_windows`.
- `browsers.dfy` (module `Browsers`): the four browser variants plus caller-supplied
  ones, the host predicates (`macos?`, `windows?`, `linux?`) and each variant's
  `supported?`. The native commands that `setup`, `visit` and `teardown` issue are
  values of type `Effect`: a shell command, IE's warning banner, or the AppleScript
  exception. `IERewrite` is the `gsub` that IE's CrossOver launch applies to the
  callback address.
- `runner.dfy` (module `Driver`): the `Runner` class, with these members:
  - its constructor;
  - `Run`, which registers a test or reports a missing file;
  - `RegisterBrowser`, which maps a symbol to a variant or passes the value through;
  - `Define`, the nested driver loop, with its inner loop `RunRow`.

  `Define` is proved to compute `DefineSpec`. That is a function of the registries,
  the host, the auto-close flag, the clock readings, the results that arrive on the
  queue, and the success flag before the call.
- `define_facts.dfy` (module `DefineFacts`): what one `define` guarantees, proved
  about `DefineSpec`:
  - steps run browser by browser and, within a browser, test by test;
  - unsupported browsers are never set up, visited or torn down;
  - one result is consumed per step;
  - `define` blocks for good when results stop arriving;
  - unless it blocked earlier, it crashes at the first registered value that is not a browser;
  - the success flag ends as the `pass?` of the last popped result.

The web server, its thread, the interrupt trap, the shell and the clock are outside
the model. The model takes them as inputs:

- the host string;
- the environment map;
- a predicate standing for `File.exists?`;
- whether an `Internet Explorer.app` was found under `$HOME`;
- a function from step number to the formatted time;
- the sequence of results the callback pushes, in arrival order.

Two behaviours of the code are kept as written, although one might expect a per-step
timeout and a success flag that stays false once a step fails:

- `@queue.pop` has no timeout. When fewer results arrive than there are steps,
  `define` never returns. The model ends that run with status `Blocked`, after the
  setup and visit of the step whose pop does not return.
- `@result = result.pass?` overwrites the flag on every step, so `successful?` tells
  whether the *last* step passed. It does not tell whether every step passed: a failure
  followed by a pass yields `true`.

Both are stated as lemmas, `DefineFacts.DefineBlockedTail` and
`DefineFacts.DefineSuccess`. `DefineFacts.LaterPassMasksFailure` is a concrete run in
which a failure is followed by a pass.

## Model

| member | source | states |
|---|---|---|
| Strings.Includes | lib/javascript_test.rb:18-28 | `include?` holds exactly when the substring occurs at some index of the host string |
| Strings.Gsub | lib/javascript_test.rb:101 | definition of `gsub` with a literal pattern; its properties are in `GsubNoMatch`, `GsubUnchangedIff`, `GsubLengthBound` and `GsubSkip` |
| Strings.GsubUnchangedIff | lib/javascript_test.rb:101 | for a non-empty pattern whose replacement has a different length, `gsub` leaves a string unchanged if and only if the pattern never occurs in it |
| Strings.GsubNoMatch | lib/javascript_test.rb:101 | a string with no occurrence of the pattern comes out of `gsub` unchanged |
| Strings.GsubLengthBound | lib/javascript_test.rb:101 | a replacement at least as long as the pattern never shortens the string; one no longer than the pattern never lengthens it |
| Strings.GsubSkip | lib/javascript_test.rb:101 | a prefix in which no match starts is copied unchanged and the rest is rewritten on its own |
| Strings.IntToString | lib/javascript_test.rb:157 | the decimal text of a counter is non-empty, starts with a digit or '-', and holds no ',' or ':' |
| Strings.ToIOfIntToString | lib/javascript_test.rb:175 | `to_i` reads back exactly the integer that `to_s` wrote, negative ones included |
| Strings.IntToStringInjective | lib/javascript_test.rb:157 | distinct integers have distinct decimal texts |
| Strings.ToI | lib/javascript_test.rb:175 | definition of base-10 `to_i`; its properties are in `Strings.ToIOfIntToString` and `Strings.ToINonNumeric` |
| Strings.ToINonNumeric | lib/javascript_test.rb:175 | text that, after leading white space, does not begin with a digit or a sign reads as 0 |
| Results.TestResult.Fail | lib/javascript_test.rb:148-150 | definition of `fail?`; its properties are in `Results.ToStringPrefix` and `DefineFacts.LaterPassMasksFailure` |
| Results.TestResult.Pass | lib/javascript_test.rb:152-154 | definition of `pass?`; its properties are in `Results.DecodeMissing` and `DefineFacts.DefineSuccess` |
| Results.TestResult.ToString | lib/javascript_test.rb:156-158 | definition of `to_s`; its properties are in `Results.ToStringPrefix` and `Results.ToStringInjective` |
| Results.Param | lib/javascript_test.rb:175 | definition of `req.query[key].to_i`; its properties are in `Results.DecodeMissing` and `Results.DecodeNonNumeric` |
| Results.DecodeResult | lib/javascript_test.rb:175 | definition of the `Result` the handler pushes; its properties are in `Results.DecodeOfReport`, `Results.DecodeMissing` and `Results.DecodeNonNumeric` |
| Results.ToStringPrefix | lib/javascript_test.rb:156-158 | the console line starts with "FAIL! " exactly for failing results; otherwise, or right after that marker, it starts with "Errors: " |
| Results.ToStringInjective | lib/javascript_test.rb:156-158 | two results with the same console line have the same four counters |
| Results.DecodeOfReport | lib/javascript_test.rb:174-176 | the handler decodes a page's report of a result, sent as decimal parameters, back to that very result |
| Results.DecodeMissing | lib/javascript_test.rb:175 | each missing parameter gives 0; a report with neither errors nor failures passes |
| Results.DecodeNonNumeric | lib/javascript_test.rb:175 | a present but non-numeric parameter gives 0 instead of an error |
| Urls.TestPath | lib/javascript_test.rb:226 | definition of a test's page path; its properties are in `Driver.Runner.Run` and `Browsers.IEVisitOfRegisteredTest` |
| Urls.VisitUrl | lib/javascript_test.rb:199 | definition of the visit URL; its properties are in `Urls.VisitUrlTargetsServer`, `Urls.VisitUrlDistinguishesTimestamps`, `Urls.VisitUrlCloseFlag` and `Browsers.IERewriteOfVisitUrl` |
| Urls.AlwaysCloseWindows | lib/javascript_test.rb:214-216 | definition of `always_close_windows` as interpolated into the URL; its properties are in `Urls.VisitUrlCloseFlag` |
| Urls.VisitUrlCloseFlag | lib/javascript_test.rb:214-216 | the visit URL ends in "&alwaysCloseWindows=true" exactly when the variable is set, to any value, and otherwise ends in "&alwaysCloseWindows=" with an empty value |
| Urls.VisitUrlTargetsServer | lib/javascript_test.rb:199 | the visit URL starts with the server address and the test path, and names the server's own `/results` callback |
| Urls.VisitUrlDistinguishesTimestamps | lib/javascript_test.rb:199 | two visits of one test with different clock readings get different URLs |
| Browsers.MacOS | lib/javascript_test.rb:18-20 | definition of `macos?`; its properties are in `Browsers.SupportRules` |
| Browsers.Windows | lib/javascript_test.rb:22-24 | definition of `windows?`; its properties are in `Browsers.SupportRules` |
| Browsers.Linux | lib/javascript_test.rb:26-28 | definition of `linux?`; its properties are in `Browsers.SupportRules` and `Browsers.LinuxHost` |
| Browsers.Supported | lib/javascript_test.rb:8-113 | definition of each variant's `supported?`; its properties are in `Browsers.SupportRules`, `Browsers.LinuxHost` and `DefineFacts.DefineSkipsUnsupported` |
| Browsers.AppleScript | lib/javascript_test.rb:30-33 | definition of `applescript`; its properties are in `Browsers.SupportedNeverRaises` |
| Browsers.OsxIEInstall | lib/javascript_test.rb:95-97 | definition of `has_an_osx_ie_install?`; its properties are in `Browsers.IEVisitOfRegisteredTest` |
| Browsers.IERewrite | lib/javascript_test.rb:101 | definition of IE's address rewrite; its properties are in `Browsers.IERewriteOfVisitUrl` |
| Browsers.IERewriteIsLiteral | lib/javascript_test.rb:101 | the replacement text holds no backslash, so Ruby inserts it literally, as `Strings.Gsub` does |
| Browsers.Setup | lib/javascript_test.rb:9-89 | definition of each variant's `setup`; its properties are in `Browsers.SupportedNeverRaises` |
| Browsers.Visit | lib/javascript_test.rb:41-117 | definition of each variant's `visit`; its properties are in `Browsers.VisitNeverRaises`, `Browsers.VisitDeliversUrl`, `Browsers.FirefoxVisitCount` and `Browsers.IEVisitOfRegisteredTest` |
| Browsers.Teardown | lib/javascript_test.rb:11-67 | definition of each variant's `teardown`; its properties are in `Browsers.SupportedNeverRaises` |
| Browsers.SupportRules | lib/javascript_test.rb:8-113 | Firefox runs everywhere, Safari only on Darwin hosts, IE on Windows or Darwin hosts, Konqueror only on Linux hosts; a custom browser answers for itself |
| Browsers.LinuxHost | lib/javascript_test.rb:110-113 | on a Linux host that names neither Darwin nor Windows, Konqueror and Firefox are supported and Safari and IE are not |
| Browsers.SupportedNeverRaises | lib/javascript_test.rb:30-117 | no setup, visit or teardown of a supported browser raises; on a host where Safari is unsupported, each of its three operations raises the AppleScript error |
| Browsers.VisitNeverRaises | lib/javascript_test.rb:36-117 | the visit of a supported browser never raises |
| Browsers.FirefoxVisitShells | lib/javascript_test.rb:41-45 | every effect of Firefox's visit is a shell command |
| Browsers.IEVisitShells | lib/javascript_test.rb:99-103 | every effect of IE's visit is a shell command |
| Browsers.VisitDeliversUrl | lib/javascript_test.rb:52-117 | Konqueror, and Safari on macOS, issue exactly one command, and the text of that command contains the URL |
| Browsers.FirefoxVisitCount | lib/javascript_test.rb:41-45 | Firefox issues one launch per matching host predicate, so on an unrecognised host it does nothing |
| Browsers.IERewriteOfVisitUrl | lib/javascript_test.rb:101 | on a visit URL whose test path, timestamp and flag hold no ':' and whose path's second character is not 'r' (true of every `TestPath` of a name without ':'), the rewrite replaces exactly the embedded callback address by its encoded form and leaves everything else unchanged |
| Browsers.IEVisitOfRegisteredTest | lib/javascript_test.rb:99-103 | for a test registered under a name without ':' and a clock reading without ':', IE on Windows gets the URL unchanged and the CrossOver launch gets it with only the callback encoded |
| Driver.Resolve | lib/javascript_test.rb:234-246 | definition of the `case` in `browser`; its properties are in `Driver.ResolveClassifies` and `DefineFacts.KnownBrowsersNeverCrash` |
| Driver.ResolveClassifies | lib/javascript_test.rb:233-249 | the registered value is a browser exactly when the argument is one of the four known symbols or already a browser object; registering a registered browser again adds the same browser |
| Driver.FirstUnrecognized | lib/javascript_test.rb:195-196 | the loop reaches the values before the first one that is not a browser, and stops at that one |
| Driver.DefineSpec | lib/javascript_test.rb:187-212 | definition of what one `define` does; its properties are in the `DefineFacts` lemmas, and `Driver.Runner.Define` is proved to compute it |
| Driver.Runner.Successful | lib/javascript_test.rb:183-185 | definition of `successful?`, the flag itself; its value after `define` is given by `DefineFacts.DefineSuccess` |
| Driver.Runner.constructor | lib/javascript_test.rb:163-167 | a new runner has its name, no tests, no browsers and a success flag of true |
| Driver.Runner.Run | lib/javascript_test.rb:225-231 | an existing page's path is appended to the tests; a missing one gives the "Missing test file" error and registers nothing |
| Driver.Runner.RegisterBrowser | lib/javascript_test.rb:233-249 | exactly the resolved browser is appended to the registry |
| Driver.Runner.Define | lib/javascript_test.rb:187-212 | trace, results consumed, final status and success flag are exactly those of `DefineSpec` |
| Driver.Runner.RunRow | lib/javascript_test.rb:197-204 | one browser's tests run in order, starting at the given schedule position; when the results run out it stops right after that step's visit |
| DefineFacts.ScheduleSupported | lib/javascript_test.rb:195-197 | every scheduled step pairs a registered browser that is supported on the host with a registered test |
| DefineFacts.ScheduleShape | lib/javascript_test.rb:195-197 | step `p * |tests| + j` is test `j` in the `p`-th supported browser, and there are no other steps |
| DefineFacts.SupportedInOrder | lib/javascript_test.rb:195-196 | the browsers the loop runs are supported ones, taken in registration order, and no supported browser is skipped |
| DefineFacts.TraceLength | lib/javascript_test.rb:197-204 | each completed step leaves four events |
| DefineFacts.TraceShape | lib/javascript_test.rb:197-204 | completed step `s` is, in order, setup, visit with that step's URL, the pop of the `s`-th result, and teardown |
| DefineFacts.TraceBrowsers | lib/javascript_test.rb:197-204 | every setup, visit and teardown concerns the browser of a step already taken |
| DefineFacts.DefinePops | lib/javascript_test.rb:195-204 | the number of results consumed is the smaller of the results that arrive and the supported steps; `define` blocks exactly when results are missing |
| DefineFacts.DefineStatus | lib/javascript_test.rb:195-196 | unless it blocks first for want of results, `define` finishes normally exactly when every registered value is a browser, and otherwise crashes on the first value that is not one |
| DefineFacts.KnownBrowsersNeverCrash | lib/javascript_test.rb:195-249 | a runner whose browsers were all registered by known symbols or browser objects never crashes in `define`; when enough results arrive it finishes normally exactly then |
| DefineFacts.DefineStepOrder | lib/javascript_test.rb:195-204 | the step of the `p`-th supported browser and the `j`-th test sets up, visits its URL with that step's clock reading, pops its result and tears down |
| DefineFacts.DefineBlockedTail | lib/javascript_test.rb:198-200 | when results run out, the run ends with the setup and visit of the step whose pop never returns |
| DefineFacts.DefineSkipsUnsupported | lib/javascript_test.rb:195-207 | browsers not supported on the host, and values past the first non-browser, never receive setup, visit or teardown |
| DefineFacts.DefineSuccess | lib/javascript_test.rb:200-202 | after `define` the flag is the `pass?` of the last result popped, or its old value if nothing was popped, and no pop follows that last one |
| DefineFacts.LastPop | lib/javascript_test.rb:200-202 | in a trace of completed steps followed by pop-free events, the last pop is that of the last completed step |
| DefineFacts.LaterPassMasksFailure | lib/javascript_test.rb:202 | a failing first test followed by a passing second one leaves `successful?` true |

## Left out

- The WEBrick server and its `mount`: serving files with the no-cache headers of `NonCachingFileHandler` is I/O.
- The logging overrides of WEBrick are not modelled: they are I/O.
- The `"OK"` body the `/results` handler answers with is not modelled: it is I/O.
- WEBrick's percent-decoding of the query string is not modelled. The handler here receives the decoded parameters as a map.
- The server thread, `trap("INT")`, `@server.shutdown` and `t.join` are not modelled: they are concurrency and process control. A run interrupted by Ctrl-C is therefore not modelled.
- The `puts` lines are not modelled: "`<test> on <browser>: <result>`", "Skipping ..." and IE's text banner are console I/O. Each browser's `to_s` name exists only for these lines, so it is left out as well. IE's banner stays in the model as the `Banner` effect.
- `system` is not executed. Each command is kept as a `Shell` effect; its exit status is ignored, as in the source.
- `Config::CONFIG['host']` is an input string.
- `Dir.glob` of `$HOME` for "Internet Explorer.app" is the `installed` input.
- `File.exists?` is the `fileExists` input, and `RAILS_ROOT` is the `railsRoot` input.
- `"%.6f" % Time.now.to_f` is floating-point formatting of the clock. It is the `clock` input, indexed by step number.
- Custom browsers are not modelled in detail. What their `setup`, `visit` and `teardown` do is their own code: the model gives them no effects, and their `supported?` answer is a field.
- A custom browser that inherits only the base `visit`-less `Browser` is not told apart from one that defines `visit`. The NoMethodError such an object would raise is not modelled.
- In `Runner#initialize`, the block and the call to `define` are not modelled as one step. The constructor yields an empty runner; the caller registers tests and browsers and then calls `Define`.
- The queue is seen only through the results it delivers, in order. Its blocking on an empty queue is the `Blocked` status.
- Strings.Gsub: the replacement is copied literally. Ruby expands backslash sequences in a `gsub` replacement (`\0`, `\&`, `\1`, `\\`, ...), and that expansion is not modelled. The one replacement in the core, at line 101, contains no backslash (`Browsers.IERewriteIsLiteral`), so `IERewrite` is unaffected.
- Strings.GsubUnchangedIff: describes Ruby's `gsub` only for replacements without a backslash, for the reason given for `Strings.Gsub`.
- Strings.GsubLengthBound: describes Ruby's `gsub` only for replacements without a backslash; Ruby turns two backslashes into one.
- Strings.GsubSkip: describes Ruby's `gsub` only for replacements without a backslash; `` \` `` and `\'` refer to text outside the match.
- How a shell splits a `Shell` command is not modelled. Konqueror's command, Firefox's Windows and Linux commands and IE's Windows command pass the URL unquoted (IE's and Firefox's Windows commands pass the program path, with its spaces, unquoted as well), so a shell would cut them at the first `&`. `VisitDeliversUrl` speaks only of the command text.
- The constructor takes the name as an argument; Ruby's default `name=:test` is not modelled. The source never reads `@name`.
- Strings.ToI: models base-10 `String#to_i` as white space, one sign, then digits with single underscores between them. The optional `0d` prefix that Ruby also accepts is not modelled, so `ToI("0d5")` is 0 where Ruby gives 5. No page sends such a value.
