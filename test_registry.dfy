/** The test registry: a map from test names to niladic test functions, and
    `run_test`, which runs a test by name and reports it. */
module TestRegistry {

  /** Identifies a registered test function. */
  type TestId = nat

  /** How a test function ends: it returns, or it panics with a message. */
  datatype TestBehaviour = Returns | Panics(message: string)

  /** What `run_test` does for a name. */
  datatype TestRun =
    | Passed(name: string, test: TestId)
    | Failed(name: string, test: TestId, message: string)
    | NotFound(name: string)

  /** The lookup and the call `run_test` makes; how the test ends is given by
      `behaviour`. */
  function Run(tests: map<string, TestId>, name: string, behaviour: TestId -> TestBehaviour): TestRun {
    if name !in tests then NotFound(name)
    else match behaviour(tests[name])
      case Returns => Passed(name, tests[name])
      case Panics(msg) => Failed(name, tests[name], msg)
  }

  /** The lines `run_test` prints: the `[ok]` line after a test that returned,
      nothing after a panic (the panic ends the kernel), and the `not found` line
      for an unknown name. */
  function Report(r: TestRun): (printed: seq<string>)
    ensures r.Failed? <==> printed == []
    ensures !r.Failed? ==> |printed| == 1
  {
    match r
    case Passed(name, _) => ["Test " + name + " [ok]"]
    case Failed(_, _, _) => []
    case NotFound(name) => ["Test " + name + " not found"]
  }

  /** The shared `TEST_REGISTRY`. */
  class Registry {
    var tests: map<string, TestId>

    constructor()
      ensures tests == map[]
    {
      tests := map[];
    }

    /** `register_test`: inserts or replaces exactly one entry. */
    method RegisterTest(name: string, test: TestId)
      modifies this
      ensures tests == old(tests)[name := test]
    {
      tests := tests[name := test];
    }

    /** `run_test`: what happens and what is printed; the registry is not
        changed (the method modifies nothing). */
    method RunTest(name: string, behaviour: TestId -> TestBehaviour) returns (r: TestRun, printed: seq<string>)
      ensures r == Run(tests, name, behaviour)
      ensures printed == Report(r)
    {
      if name in tests {
        var test := tests[name];
        var ending := behaviour(test);
        if ending.Returns? {
          r := Passed(name, test);
        } else {
          r := Failed(name, test, ending.message);
        }
      } else {
        r := NotFound(name);
      }
      printed := Report(r);
    }
  }

  /** `[ok]` is printed exactly when the name is registered and its test returns. */
  lemma OkExactlyWhenReturns(tests: map<string, TestId>, name: string, behaviour: TestId -> TestBehaviour)
    ensures ("Test " + name + " [ok]" in Report(Run(tests, name, behaviour)))
        <==> name in tests && behaviour(tests[name]) == Returns
  {
    var ok := "Test " + name + " [ok]";
    var missing := "Test " + name + " not found";
    var k := |"Test " + name + " "|;
    assert ok[k] == '[' && missing[k] == 'n';
  }

  /** A test that was just registered is the one run under its name. */
  lemma RunRegistered(tests: map<string, TestId>, name: string, test: TestId, behaviour: TestId -> TestBehaviour)
    ensures Run(tests[name := test], name, behaviour) ==
      if behaviour(test) == Returns then Passed(name, test)
      else Failed(name, test, behaviour(test).message)
  {
  }

  /** Registering another name does not change what a name runs. */
  lemma RunIgnoresOtherEntries(tests: map<string, TestId>, other: string, test: TestId,
                               name: string, behaviour: TestId -> TestBehaviour)
    requires other != name
    ensures Run(tests[other := test], name, behaviour) == Run(tests, name, behaviour)
  {
  }
}
