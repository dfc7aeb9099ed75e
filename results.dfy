/** The Result a test page reports: four counters, its pass/fail classification, its
    console text, and how the `/results` callback builds it from the query string. */
module Results {
  import opened Strings

  /** One report: assertions made, errors, failures and tests run.  The counters are
      plain integers because String#to_i may produce negative ones. */
  datatype TestResult = TestResult(assertions: int, errors: int, failures: int, tests: int)
  {
    /** Result#fail? */
    predicate Fail()
    {
      errors > 0 || failures > 0
    }

    /** Result#pass? */
    predicate Pass()
    {
      !Fail()
    }

    /** Result#to_s, the line printed for each step.  (The source spells the third
        label "Assertations".) */
    function ToString(): string
    {
      (if Fail() then "FAIL! " else "") +
      ("Errors: " + (IntToString(errors) +
      (", Failures: " + (IntToString(failures) +
      (", Assertations: " + (IntToString(assertions) +
      (", Tests: " + IntToString(tests))))))))
    }
  }

  predicate StartsWith(s: string, prefix: string)
  {
    |prefix| <= |s| && s[..|prefix|] == prefix
  }

  /** The printed line starts with "FAIL! " exactly for failing results; a passing
      result's line starts directly with "Errors: ", a failing one's right after the
      marker. */
  lemma ToStringPrefix(r: TestResult)
    ensures StartsWith(r.ToString(), "FAIL! ") <==> r.Fail()
    ensures r.Pass() ==> StartsWith(r.ToString(), "Errors: ")
    ensures r.Fail() ==> StartsWith(r.ToString()[6..], "Errors: ")
  {
    var s := r.ToString();
    if r.Fail() {
      assert s[..6] == "FAIL! ";
      assert s[6..][..8] == "Errors: ";
    } else {
      assert s[..8] == "Errors: ";
      assert s[5] == 's';
    }
  }

  /** Distinct results print as distinct lines: the console line determines all four
      counters. */
  lemma ToStringInjective(r1: TestResult, r2: TestResult)
    requires r1.ToString() == r2.ToString()
    ensures r1 == r2
  {
    ToStringPrefix(r1);
    ToStringPrefix(r2);
    var m := if r1.Fail() then "FAIL! " else "";
    assert r1.Fail() == r2.Fail();
    var e1, f1, a1, t1 := IntToString(r1.errors), IntToString(r1.failures), IntToString(r1.assertions), IntToString(r1.tests);
    var e2, f2, a2, t2 := IntToString(r2.errors), IntToString(r2.failures), IntToString(r2.assertions), IntToString(r2.tests);
    var tail1 := ", Failures: " + (f1 + (", Assertations: " + (a1 + (", Tests: " + t1))));
    var tail2 := ", Failures: " + (f2 + (", Assertations: " + (a2 + (", Tests: " + t2))));
    DropPrefix(m, "Errors: " + (e1 + tail1), "Errors: " + (e2 + tail2));
    DropPrefix("Errors: ", e1 + tail1, e2 + tail2);
    SplitAt(',', e1, tail1, e2, tail2);
    var mid1 := ", Assertations: " + (a1 + (", Tests: " + t1));
    var mid2 := ", Assertations: " + (a2 + (", Tests: " + t2));
    DropPrefix(", Failures: ", f1 + mid1, f2 + mid2);
    SplitAt(',', f1, mid1, f2, mid2);
    var end1, end2 := ", Tests: " + t1, ", Tests: " + t2;
    DropPrefix(", Assertations: ", a1 + end1, a2 + end2);
    SplitAt(',', a1, end1, a2, end2);
    DropPrefix(", Tests: ", t1, t2);
    IntToStringInjective(r1.errors, r2.errors);
    IntToStringInjective(r1.failures, r2.failures);
    IntToStringInjective(r1.assertions, r2.assertions);
    IntToStringInjective(r1.tests, r2.tests);
  }

  // ---- the /results callback ----

  /** `req.query[key].to_i`: a missing parameter is nil, and nil.to_i is 0. */
  function Param(query: map<string, string>, key: string): int
  {
    if key in query then ToI(query[key]) else 0
  }

  /** The Result the `/results` handler pushes, built from an already-decoded query
      string in the order assertions, errors, failures, tests. */
  function DecodeResult(query: map<string, string>): TestResult
  {
    TestResult(Param(query, "assertions"), Param(query, "errors"),
               Param(query, "failures"), Param(query, "tests"))
  }

  /** The query a test page sends when it reports `r`, each counter in decimal. */
  function Report(r: TestResult): map<string, string>
  {
    map["assertions" := IntToString(r.assertions), "errors" := IntToString(r.errors),
        "failures" := IntToString(r.failures), "tests" := IntToString(r.tests)]
  }

  /** Decoding a report gives back the reported result. */
  lemma DecodeOfReport(r: TestResult)
    ensures DecodeResult(Report(r)) == r
  {
    ToIOfIntToString(r.assertions);
    ToIOfIntToString(r.errors);
    ToIOfIntToString(r.failures);
    ToIOfIntToString(r.tests);
  }

  /** Each missing parameter decodes to 0; with no errors and no failures parameters the
      result passes. */
  lemma DecodeMissing(query: map<string, string>)
    ensures "assertions" !in query ==> DecodeResult(query).assertions == 0
    ensures "errors" !in query ==> DecodeResult(query).errors == 0
    ensures "failures" !in query ==> DecodeResult(query).failures == 0
    ensures "tests" !in query ==> DecodeResult(query).tests == 0
    ensures "errors" !in query && "failures" !in query ==> DecodeResult(query).Pass()
  {
  }

  /** A parameter that is present but not a number, such as "abc", also decodes to 0. */
  lemma DecodeNonNumeric(query: map<string, string>, key: string)
    requires key in query
    requires var t := DropSpace(query[key]); t == [] || (!IsDigit(t[0]) && t[0] != '-' && t[0] != '+')
    ensures Param(query, key) == 0
  {
    ToINonNumeric(query[key]);
  }
}
