/** The browser variants: which host each one runs on, and the native commands its
    setup, visit and teardown issue. */
module Browsers {
  import opened Strings
  import opened Urls

  /** A registered browser.  `Custom` is a caller-supplied browser object whose own
      `supported?` answer is `isSupported` and whose lifecycle effects are its own;
      `Unrecognized` is a value that `Runner#browser` passed through unchanged but that
      is not a browser object at all (such as an unknown symbol). */
  datatype Browser =
    | Firefox(path: string)
    | Safari
    | IE(path: string)
    | Konqueror
    | Custom(name: string, isSupported: bool)
    | Unrecognized(symbol: string)

  const FirefoxDefaultPath := "c:\\Program Files\\Mozilla Firefox\\firefox.exe"
  const IEDefaultPath := "C:\\Program Files\\Internet Explorer\\IEXPLORE.EXE"

  // ---- the host, from the Ruby configuration's host triple ----

  predicate MacOS(host: string) { Includes(host, "darwin") }

  predicate Windows(host: string) { Includes(host, "mswin") }

  predicate Linux(host: string) { Includes(host, "linux") }

  /** `supported?` of each variant on `host`.  An Unrecognized value has no such
      method; the driver raises before asking it. */
  predicate Supported(b: Browser, host: string)
    requires !b.Unrecognized?
  {
    match b
    case Firefox(_) => true
    case Safari => MacOS(host)
    case IE(_) => Windows(host) || MacOS(host)
    case Konqueror => Linux(host)
    case Custom(_, s) => s
  }

  /** The support rules, stated as substring facts about the host string. */
  lemma SupportRules(host: string, path: string, tag: string, s: bool)
    ensures Supported(Firefox(path), host)
    ensures Supported(Safari, host) <==> exists i :: OccursAt(host, "darwin", i)
    ensures Supported(IE(path), host) <==>
              (exists i :: OccursAt(host, "mswin", i)) || (exists i :: OccursAt(host, "darwin", i))
    ensures Supported(Konqueror, host) <==> exists i :: OccursAt(host, "linux", i)
    ensures Supported(Custom(tag, s), host) == s
  {
  }

  /** On a Linux host only Firefox, Konqueror and custom browsers that say so are
      supported, provided the host names neither Darwin nor Windows. */
  lemma LinuxHost(host: string, path: string)
    requires Linux(host) && !MacOS(host) && !Windows(host)
    ensures Supported(Konqueror, host) && Supported(Firefox(path), host)
    ensures !Supported(Safari, host) && !Supported(IE(path), host)
  {
  }

  // ---- what the lifecycle operations do ----

  /** One effect of a lifecycle operation: a shell command run with `system`, the
      warning banner IE's setup prints on Windows, or an exception. */
  datatype Effect = Shell(command: string) | Banner | Raise(message: string)

  /** Browser#applescript: only possible on macOS. */
  function AppleScript(host: string, script: string): seq<Effect>
  {
    if MacOS(host) then [Shell("osascript -e '" + script + "' 2>&1 >/dev/null")]
    else [Raise("Can't run AppleScript on " + host)]
  }

  /** IEBrowser#has_an_osx_ie_install?; `installed` stands for the search of the home
      directory for "Internet Explorer.app". */
  predicate OsxIEInstall(host: string, installed: bool)
  {
    MacOS(host) && installed
  }

  /** The callback URL as rewritten for Internet Explorer under CrossOver. */
  const EncodedResultsUrl := "http%3A%5C%5Clocalhost%3A4711%5Cresults"

  /** The replacement holds no backslash, so Ruby's expansion of backslash sequences in
      a `gsub` replacement leaves it as it is and Strings.Gsub applies. */
  lemma IERewriteIsLiteral()
    ensures '\\' !in EncodedResultsUrl
  {
  }

  /** IEBrowser#visit's `url.gsub(...)`. */
  function IERewrite(url: string): string
  {
    Gsub(url, ResultsUrl, EncodedResultsUrl)
  }

  function Setup(b: Browser, host: string): seq<Effect>
    requires !b.Unrecognized?
  {
    match b
    case Safari => AppleScript(host, "tell application \"Safari\" to make new document")
    case IE(_) => if Windows(host) then [Banner] else []
    case _ => []
  }

  function Visit(b: Browser, host: string, ieInstalled: bool, url: string): seq<Effect>
    requires !b.Unrecognized?
  {
    match b
    case Firefox(path) =>
      (if MacOS(host) then [Shell("open -g -b 'org.mozilla.firefox' '" + url + "'")] else []) +
      (if Windows(host) then [Shell(path + " " + url)] else []) +
      (if Linux(host) then [Shell("firefox " + url)] else [])
    case Safari =>
      AppleScript(host, "tell application \"Safari\" to set URL of front document to \"" + url + "\"")
    case IE(path) =>
      (if Windows(host) then [Shell(path + " " + url)] else []) +
      (if OsxIEInstall(host, ieInstalled)
       then [Shell("open -g -b 'com.codeweavers.CrossOverHelper.win98.Internet Explorer' '" + IERewrite(url) + "'")]
       else [])
    case Konqueror => [Shell("kfmclient openURL " + url)]
    case Custom(_, _) => []
  }

  function Teardown(b: Browser, host: string): seq<Effect>
    requires !b.Unrecognized?
  {
    match b
    case Safari => AppleScript(host, "tell application \"Safari\" to close front document")
    case _ => []
  }

  predicate NoRaise(effects: seq<Effect>)
  {
    forall k :: 0 <= k < |effects| ==> !effects[k].Raise?
  }

  /** A supported browser's lifecycle never raises: Safari is driven through
      AppleScript only when it is supported, which means the host is macOS.  Off macOS
      Safari's operations would raise. */
  lemma SupportedNeverRaises(b: Browser, host: string, ieInstalled: bool, url: string)
    requires !b.Unrecognized?
    ensures Supported(b, host) ==>
              NoRaise(Setup(b, host)) && NoRaise(Visit(b, host, ieInstalled, url)) && NoRaise(Teardown(b, host))
    ensures b == Safari && !Supported(b, host) ==>
              Setup(b, host) == Visit(b, host, ieInstalled, url) == Teardown(b, host) == [Raise("Can't run AppleScript on " + host)]
  {
    if Supported(b, host) {
      VisitNeverRaises(b, host, ieInstalled, url);
    }
  }

  lemma VisitNeverRaises(b: Browser, host: string, ieInstalled: bool, url: string)
    requires !b.Unrecognized? && Supported(b, host)
    ensures NoRaise(Visit(b, host, ieInstalled, url))
  {
    match b
    case Firefox(path) => FirefoxVisitShells(path, host, ieInstalled, url);
    case IE(path) => IEVisitShells(path, host, ieInstalled, url);
    case _ =>
  }

  lemma FirefoxVisitShells(path: string, host: string, ieInstalled: bool, url: string)
    ensures forall k :: 0 <= k < |Visit(Firefox(path), host, ieInstalled, url)| ==>
              Visit(Firefox(path), host, ieInstalled, url)[k].Shell?
  {
  }

  lemma IEVisitShells(path: string, host: string, ieInstalled: bool, url: string)
    ensures forall k :: 0 <= k < |Visit(IE(path), host, ieInstalled, url)| ==>
              Visit(IE(path), host, ieInstalled, url)[k].Shell?
  {
  }

  /** Konqueror and Safari (on macOS) hand the visit URL itself to exactly one
      command. */
  lemma VisitDeliversUrl(b: Browser, host: string, ieInstalled: bool, url: string)
    requires b == Konqueror || (b == Safari && MacOS(host))
    ensures |Visit(b, host, ieInstalled, url)| == 1
    ensures Visit(b, host, ieInstalled, url)[0].Shell?
    ensures Includes(Visit(b, host, ieInstalled, url)[0].command, url)
  {
    if b == Konqueror {
      IncludesMiddle("kfmclient openURL ", url, "");
      assert "kfmclient openURL " + url + "" == "kfmclient openURL " + url;
    } else {
      var a := "tell application \"Safari\" to set URL of front document to \"";
      var cmd := "osascript -e '" + (a + url + "\"") + "' 2>&1 >/dev/null";
      var k := |"osascript -e '" + a|;
      assert cmd[k..k + |url|] == url;
      assert OccursAt(cmd, url, k);
    }
  }

  /** Firefox issues one command per operating-system family the host string names,
      so on a host that names none of them (a BSD, say) its visit does nothing, while
      it still counts as supported. */
  lemma FirefoxVisitCount(path: string, host: string, ieInstalled: bool, url: string)
    ensures |Visit(Firefox(path), host, ieInstalled, url)| ==
              (if MacOS(host) then 1 else 0) + (if Windows(host) then 1 else 0) + (if Linux(host) then 1 else 0)
    ensures !MacOS(host) && !Windows(host) && !Linux(host) ==>
              Visit(Firefox(path), host, ieInstalled, url) == [] && Supported(Firefox(path), host)
  {
  }

  // ---- the IE rewrite of a visit URL ----

  /** The visit URL with its callback address in IE's encoded form. */
  function EncodedVisitUrl(test: string, ts: string, flag: string): string
  {
    BaseUrl + test + "?resultsURL=" + EncodedResultsUrl + "&t=" + ts + "&alwaysCloseWindows=" + flag
  }

  lemma BaseColons(j: int)
    requires 0 <= j < |BaseUrl| && BaseUrl[j] == ':'
    ensures j == 4 || j == 16
  {
    var r := "//localhost" + [':'] + "4711";
    assert BaseUrl == "http" + [':'] + r;
    CharAfterPrefix("http", ':', r, j);
    if j > 4 {
      CharAfterPrefix("//localhost", ':', "4711", j - 5);
    }
  }

  lemma ResultsUrlChars()
    ensures |ResultsUrl| == 29
    ensures ResultsUrl[4] == ':' && ResultsUrl[16] == ':' && ResultsUrl[21] == '/' && ResultsUrl[22] == 'r'
    ensures forall j :: 0 <= j < |ResultsUrl| && ResultsUrl[j] == ':' ==> j == 4 || j == 16
  {
    forall j | 0 <= j < |ResultsUrl| && ResultsUrl[j] == ':' ensures j == 4 || j == 16 {
      if j < 21 {
        assert BaseUrl[j] == ResultsUrl[j];
        BaseColons(j);
      } else {
      }
    }
  }

  /** Where ':' stands in a visit URL whose test path, timestamp and flag hold none. */
  lemma VisitUrlColons(test: string, ts: string, flag: string, j: int)
    requires ':' !in test && ':' !in ts && ':' !in flag
    requires 0 <= j < |VisitUrl(test, ts, flag)| && VisitUrl(test, ts, flag)[j] == ':'
    ensures j == 4 || j == 16 || j == 37 + |test| || j == 49 + |test|
  {
    var url := VisitUrl(test, ts, flag);
    var n := |test|;
    ResultsUrlChars();
    if j < 21 {
      assert BaseUrl[j] == url[j];
      BaseColons(j);
    } else if j < 21 + n {
    } else if j < 33 + n {
    } else if j < 62 + n {
      assert ResultsUrl[j - 33 - n] == url[j];
    } else if j < 65 + n {
    } else if j < 65 + n + |ts| {
    } else if j < 85 + n + |ts| {
    } else {
    }
  }

  lemma VisitUrlSplit(test: string, ts: string, flag: string)
    ensures VisitUrl(test, ts, flag) ==
              (BaseUrl + test + "?resultsURL=") + (ResultsUrl + ("&t=" + ts + "&alwaysCloseWindows=" + flag))
    ensures EncodedVisitUrl(test, ts, flag) ==
              (BaseUrl + test + "?resultsURL=") + (EncodedResultsUrl + ("&t=" + ts + "&alwaysCloseWindows=" + flag))
  {
  }

  /** The characters a match of the callback URL at `i` fixes. */
  lemma MatchChars(url: string, i: int)
    requires OccursAt(url, ResultsUrl, i)
    ensures url[i + 4] == ':' && url[i + 16] == ':' && url[i + 21] == '/' && url[i + 22] == 'r'
  {
    ResultsUrlChars();
    assert url[i + 4] == url[i..i + 29][4];
    assert url[i + 16] == url[i..i + 29][16];
    assert url[i + 21] == url[i..i + 29][21];
    assert url[i + 22] == url[i..i + 29][22];
  }

  /** No match of the callback URL starts before the embedded one. */
  lemma NoEarlierMatch(test: string, ts: string, flag: string, i: int)
    requires ':' !in test && ':' !in ts && ':' !in flag
    requires |test| < 2 || test[1] != 'r'
    requires 0 <= i < 33 + |test|
    ensures !OccursAt(VisitUrl(test, ts, flag), ResultsUrl, i)
  {
    var url := VisitUrl(test, ts, flag);
    if OccursAt(url, ResultsUrl, i) {
      MatchChars(url, i);
      VisitUrlColons(test, ts, flag, i + 4);
      VisitUrlColons(test, ts, flag, i + 16);
    }
  }

  /** For a test path whose second character is not the 'r' of "/results" and with no
      ':' in the test path, the timestamp or the flag, IE's rewrite replaces exactly the
      embedded callback URL and nothing else. */
  lemma IERewriteOfVisitUrl(test: string, ts: string, flag: string)
    requires ':' !in test && ':' !in ts && ':' !in flag
    requires |test| < 2 || test[1] != 'r'
    ensures IERewrite(VisitUrl(test, ts, flag)) == EncodedVisitUrl(test, ts, flag)
  {
    var url := VisitUrl(test, ts, flag);
    var x := BaseUrl + test + "?resultsURL=";
    var y := "&t=" + ts + "&alwaysCloseWindows=" + flag;
    VisitUrlSplit(test, ts, flag);
    forall i | 0 <= i < |x| ensures !OccursAt(x + (ResultsUrl + y), ResultsUrl, i) {
      NoEarlierMatch(test, ts, flag, i);
    }
    assert ':' !in y;
    forall i ensures !OccursAt(y, ResultsUrl, i) {
      if OccursAt(y, ResultsUrl, i) {
        MatchChars(y, i);
      }
    }
    GsubSkip(x, ResultsUrl + y, ResultsUrl, EncodedResultsUrl);
    GsubHit(ResultsUrl, y, EncodedResultsUrl);
    GsubNoMatch(y, ResultsUrl, EncodedResultsUrl);
  }

  /** For a test registered under a name without ':', the CrossOver launch of IE on
      macOS receives the visit URL with the callback address encoded and nothing else
      changed, whereas IE on Windows receives the visit URL unchanged. */
  lemma IEVisitOfRegisteredTest(path: string, host: string, ieInstalled: bool, name: string, ts: string, env: map<string, string>)
    requires ':' !in name && ':' !in ts
    ensures var test, flag := TestPath(name), AlwaysCloseWindows(env);
            var url := VisitUrl(test, ts, flag);
            Visit(IE(path), host, ieInstalled, url) ==
              (if Windows(host) then [Shell(path + " " + url)] else []) +
              (if OsxIEInstall(host, ieInstalled)
               then [Shell("open -g -b 'com.codeweavers.CrossOverHelper.win98.Internet Explorer' '" +
                           EncodedVisitUrl(test, ts, flag) + "'")]
               else [])
  {
    var test := TestPath(name);
    assert test[1] == 't';
    assert ':' !in test;
    IERewriteOfVisitUrl(test, ts, AlwaysCloseWindows(env));
  }
}
