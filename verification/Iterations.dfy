/**
 What the publisher hands out, iteration by iteration: one list to the user
 interface, and one more as a message exactly if that iteration publishes.
 */
module Iterations {
  import opened Acquisition

  /** A publication without its contents. */
  datatype Line = Line(kind: Kind, iteration: nat)

  function Lines(ps: seq<Publication>): (lines: seq<Line>)
    ensures |lines| == |ps|
  {
    if ps == [] then [] else Lines(ps[..|ps| - 1]) + [Line(ps[|ps| - 1].kind, ps[|ps| - 1].iteration)]
  }

  /** The answers to the question whether publishing is enabled, in order. */
  function Decisions(acts: seq<Action>): seq<bool> {
    if acts == [] then []
    else
      var last := acts[|acts| - 1];
      Decisions(acts[..|acts| - 1]) + (if last.Decide? then [last.publish] else [])
  }

  /** What complete iterations with these decisions hand out. */
  function Schedule(decisions: seq<bool>): seq<Line> {
    if decisions == [] then []
    else
      var k := |decisions| - 1;
      Schedule(decisions[..k]) + [Line(Ui, k)] + (if decisions[k] then [Line(Zmq, k)] else [])
  }

  function Count(lines: seq<Line>, line: Line): nat {
    if lines == [] then 0 else Count(lines[..|lines| - 1], line) + (if lines[|lines| - 1] == line then 1 else 0)
  }

  lemma {:induction false} CountAppend(lines: seq<Line>, last: Line, line: Line)
    ensures Count(lines + [last], line) == Count(lines, line) + (if last == line then 1 else 0)
  {
    assert (lines + [last])[..|lines|] == lines;
  }

  /** One list for the user interface per iteration, and one message exactly where publishing was enabled. */
  lemma {:induction false} ScheduleCounts(decisions: seq<bool>, k: nat)
    ensures Count(Schedule(decisions), Line(Ui, k)) == if k < |decisions| then 1 else 0
    ensures Count(Schedule(decisions), Line(Zmq, k)) == if k < |decisions| && decisions[k] then 1 else 0
    decreases |decisions|
  {
    if decisions != [] {
      var n := |decisions| - 1;
      var before, shown := Schedule(decisions[..n]), Schedule(decisions[..n]) + [Line(Ui, n)];
      ScheduleCounts(decisions[..n], k);
      CountAppend(before, Line(Ui, n), Line(Ui, k));
      CountAppend(before, Line(Ui, n), Line(Zmq, k));
      CountAppend(shown, Line(Zmq, n), Line(Ui, k));
      CountAppend(shown, Line(Zmq, n), Line(Zmq, k));
      assert Schedule(decisions) == if decisions[n] then shown + [Line(Zmq, n)] else shown;
    }
  }

  /** The log, given the decisions so far; the running iteration may be incomplete. */
  ghost predicate OnSchedule(s: State, decisions: seq<bool>) {
    var n := |decisions|;
    match s.publisher
    case PDecide => s.iteration == n && Lines(s.published) == Schedule(decisions) + [Line(Ui, n)]
    case PZmq(_) =>
      && n > 0 && s.iteration == n - 1 && decisions[n - 1]
      && Lines(s.published) + [Line(Zmq, n - 1)] == Schedule(decisions)
    case PUnlock => n > 0 && s.iteration == n - 1 && Lines(s.published) == Schedule(decisions)
    case _ => s.iteration == n && Lines(s.published) == Schedule(decisions)
  }

  lemma {:induction false} LinesAppend(ps: seq<Publication>, p: Publication)
    ensures Lines(ps + [p]) == Lines(ps) + [Line(p.kind, p.iteration)]
  {
    assert (ps + [p])[..|ps|] == ps;
  }

  lemma {:induction false} ScheduleAppend(decisions: seq<bool>, publish: bool)
    ensures Schedule(decisions + [publish])
         == Schedule(decisions) + [Line(Ui, |decisions|)] + (if publish then [Line(Zmq, |decisions|)] else [])
  {
    assert (decisions + [publish])[..|decisions|] == decisions;
  }

  lemma ScheduleKept(bus: Bus, s: State, a: Action, decisions: seq<bool>)
    requires Inv(bus, s) && OnSchedule(s, decisions) && Enabled(bus, s, a)
    requires !a.Callback? && !a.Send? && !a.Decide?
    ensures OnSchedule(Apply(bus, s, a), decisions)
  {
  }

  lemma ScheduleStep(bus: Bus, s: State, a: Action, decisions: seq<bool>)
    requires Inv(bus, s) && OnSchedule(s, decisions) && Enabled(bus, s, a)
    ensures OnSchedule(Apply(bus, s, a), decisions + (if a.Decide? then [a.publish] else []))
  {
    if a.Decide? {
      ScheduleAppend(decisions, a.publish);
      var shown := Schedule(decisions) + [Line(Ui, |decisions|)];
      assert !a.publish ==> shown + [] == shown;
    } else {
      assert decisions + [] == decisions;
      if a.Callback? {
        LinesAppend(s.published, Publication(Ui, s.iteration, s.publisher.shown));
      } else if a.Send? {
        LinesAppend(s.published, Publication(Zmq, s.iteration, s.publisher.built));
      } else {
        ScheduleKept(bus, s, a, decisions);
      }
    }
  }

  /**
   In every run the log is exactly what the decisions made so far demand: a message
   is sent in an iteration if and only if publishing was enabled in it, after the
   list for the user interface, and neither is left out or repeated.
   */
  lemma {:induction false} LogFollowsDecisions(bus: Bus, states: seq<State>, acts: seq<Action>, n: nat)
    requires IsRun(bus, states, acts) && n <= |acts|
    ensures Inv(bus, states[n]) && OnSchedule(states[n], Decisions(acts[..n]))
  {
    if n == 0 {
      assert acts[..0] == [];
    } else {
      var s, a := states[n - 1], acts[n - 1];
      LogFollowsDecisions(bus, states, acts, n - 1);
      InvStep(bus, s, a);
      ScheduleStep(bus, s, a, Decisions(acts[..n - 1]));
      assert acts[..n][..n - 1] == acts[..n - 1];
      assert states[n - 1 + 1] == Apply(bus, s, a);
      var decided := Decisions(acts[..n - 1]);
      assert decided + [] == decided;
    }
  }
}
