/** Runs put together, and the run that brings the command thread up. */
module CmdRuns {
  import opened CmdProtocol

  lemma RunOne(s: St, a: Action, rest: seq<Action>)
    ensures Run(s, [a] + rest) == Run(Step(s, a), rest)
  {
    hide Step;
    assert ([a] + rest)[1..] == rest;
  }

  lemma {:induction false} RunTwo(s: St, a: seq<Action>, b: seq<Action>)
    ensures Run(s, a + b) == Run(Run(s, a), b)
    decreases |a|
  {
    hide Step;
    if a == [] {
      assert a + b == b;
    } else {
      assert (a + b)[0] == a[0] && (a + b)[1..] == a[1..] + b;
      RunTwo(Step(s, a[0]), a[1..], b);
    }
  }

  lemma OneAct(s: St, a: Action)
    ensures Run(s, [a]) == Step(s, a)
  {
    hide Step;
    assert [a][1..] == [] && Run(Step(s, a), []) == Step(s, a);
  }

  const QUIET := Env(false, false, true, H2C_SUCCESS)

  /** The first steps: the thread comes up and goes to its semaphore. */
  const UP := [ThreadAct(QUIET), ThreadAct(QUIET), ThreadAct(QUIET), HwInit(true)]

  function Up(lclk: bool): St {
    Init(lclk).(running := true, term := 1, hwInit := true, pc := Sema)
  }

  lemma {:induction false} ComesUp(lclk: bool)
    ensures Run(Init(lclk), UP) == Up(lclk)
  {
    var a := Step(Init(lclk), UP[0]);
    var b := Step(a, UP[1]);
    var c := Step(b, UP[2]);
    assert Step(c, UP[3]) == Up(lclk);
    hide Step;
    assert UP == [UP[0]] + ([UP[1]] + ([UP[2]] + ([UP[3]] + [])));
    RunOne(Init(lclk), UP[0], [UP[1]] + ([UP[2]] + ([UP[3]] + [])));
    RunOne(a, UP[1], [UP[2]] + ([UP[3]] + []));
    RunOne(b, UP[2], [UP[3]] + []);
    RunOne(c, UP[3], []);
  }
}
