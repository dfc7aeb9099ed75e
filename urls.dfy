/** The addresses the harness builds: where a registered test lives, the URL each
    browser is sent to, the callback URL embedded in it, and the auto-close flag. */
module Urls {
  import opened Strings

  /** The server always listens on localhost:4711. */
  const BaseUrl := "http://localhost:4711"

  /** The path of the result callback mounted on the server. */
  const ResultsPath := "/results"

  /** The callback address a test page reports to. */
  const ResultsUrl := BaseUrl + ResultsPath

  /** Runner#run: the server path of the page for test `name`. */
  function TestPath(name: string): string
  {
    "/test/javascript/" + name + "_test.html"
  }

  /** Runner#always_close_windows interpolated into a URL: `true if ENV[...]` is
      either true or nil, and nil interpolates as the empty string.  Any value of the
      variable, even an empty one, is truthy in Ruby. */
  function AlwaysCloseWindows(env: map<string, string>): (flag: string)
    ensures flag == "true" || flag == ""
    ensures flag == "true" <==> "AlwaysCloseWindows" in env
  {
    if "AlwaysCloseWindows" in env then "true" else ""
  }

  /** The URL handed to a browser's visit for server path `test`, with the clock
      reading `ts` and the auto-close flag `flag`. */
  function VisitUrl(test: string, ts: string, flag: string): string
  {
    BaseUrl + test + "?resultsURL=" + ResultsUrl + "&t=" + ts + "&alwaysCloseWindows=" + flag
  }

  /** The visit URL's last parameter tells the page to close its window exactly when
      the variable is set: the URL then ends in "&alwaysCloseWindows=true", and
      otherwise in "&alwaysCloseWindows=" with nothing after it. */
  lemma VisitUrlCloseFlag(test: string, ts: string, env: map<string, string>)
    ensures var url, tail := VisitUrl(test, ts, AlwaysCloseWindows(env)), "&alwaysCloseWindows=true";
            |tail| <= |url| && (url[|url| - |tail|..] == tail <==> "AlwaysCloseWindows" in env)
    ensures var url, tail := VisitUrl(test, ts, AlwaysCloseWindows(env)), "&alwaysCloseWindows=";
            "AlwaysCloseWindows" !in env ==> url[|url| - |tail|..] == tail
  {
    var front := BaseUrl + test + "?resultsURL=" + ResultsUrl + "&t=" + ts;
    var url := VisitUrl(test, ts, AlwaysCloseWindows(env));
    if "AlwaysCloseWindows" in env {
      assert url == front + "&alwaysCloseWindows=true";
    } else {
      assert url == front + "&alwaysCloseWindows=";
      assert url[|url| - 1] == '=';
    }
  }

  /** The visit URL is the server address followed by the test path, and it names the
      server's own `/results` callback as the place to report to. */
  lemma VisitUrlTargetsServer(test: string, ts: string, flag: string)
    ensures VisitUrl(test, ts, flag)[..|BaseUrl + test|] == BaseUrl + test
    ensures Includes(VisitUrl(test, ts, flag), ResultsUrl)
  {
    var url := VisitUrl(test, ts, flag);
    var x := BaseUrl + test + "?resultsURL=";
    var y := "&t=" + ts + "&alwaysCloseWindows=" + flag;
    assert url == x + ResultsUrl + y;
    IncludesMiddle(x, ResultsUrl, y);
  }

  /** Two visits of the same test with different clock readings get different URLs,
      so a browser cannot answer the second from its cache. */
  lemma VisitUrlDistinguishesTimestamps(test: string, ts1: string, ts2: string, flag: string)
    requires VisitUrl(test, ts1, flag) == VisitUrl(test, ts2, flag)
    ensures ts1 == ts2
  {
    var p := BaseUrl + test + "?resultsURL=" + ResultsUrl + "&t=";
    var tail := "&alwaysCloseWindows=" + flag;
    assert VisitUrl(test, ts1, flag) == p + (ts1 + tail);
    assert VisitUrl(test, ts2, flag) == p + (ts2 + tail);
    DropPrefix(p, ts1 + tail, ts2 + tail);
    assert |ts1| == |ts2|;
    assert ts1 == (ts1 + tail)[..|ts1|] == (ts2 + tail)[..|ts2|] == ts2;
  }
}
