/** The states ongoing and completed of a task, as its redundancy, its gold answers and its runs change. */
module TaskState {
  datatype State = Ongoing | Completed | Other

  // `gold` is whether the task has gold answers (Python's truth of the field).
  datatype View = View(answers: int, runs: nat, gold: bool, calibration: int, state: State)

  function Bit(b: bool): int {
    if b then 1 else 0
  }

  /** ---- What the operations do ---- */

  // The update of state and calibration once the other fields are set; `was` is what `answers`
  // held before.
  function Updated(v: View, was: int): View {
    var reopened := v.state == Completed && (v.gold || (was < v.answers && v.runs < v.answers));
    var open := if reopened then Ongoing else v.state;
    v.(state := if open == Ongoing && !v.gold && v.runs >= v.answers then Completed else open,
       calibration := Bit(v.gold))
  }

  function Marked(v: View, goldAnswers: bool): View {
    if !goldAnswers then v
    else v.(gold := true, calibration := 1, state := if v.state == Completed then Ongoing else v.state)
  }

  function Marking(v: View): bool {
    v.calibration != 1 && v.runs >= v.answers
  }

  // A submission to a task that is not gold is rejected once it has enough runs.
  function Rejected(v: View): bool {
    v.calibration == 0 && v.runs >= v.answers
  }

  function Submitted(v: View): View {
    var more := v.(runs := v.runs + 1);
    if Rejected(v) then v else if Marking(more) then more.(state := Completed) else more
  }

  class Task {
    var answers: int
    var runs: nat
    var gold: bool
    var calibration: int
    var state: State

    constructor (answers: int)
      ensures Seen() == Created(answers)
      ensures this.answers == answers && runs == 0 && !gold && calibration == 0 && state == Ongoing
    {
      this.answers, runs, gold, calibration, state := answers, 0, false, 0, Ongoing;
    }

    function Seen(): View
      reads this
    {
      View(answers, runs, gold, calibration, state)
    }

    method UpdateAttribute(was: int)
      modifies this`state, this`calibration
      ensures Seen() == Updated(old(Seen()), was)
      ensures calibration == (if gold then 1 else 0)
      ensures old(state) == Other ==> state == Other
      ensures old(state) != Other && gold ==> state == Ongoing
      ensures old(state) != Other && !gold ==>
                state == if runs >= answers || (old(state) == Completed && answers <= was) then Completed else Ongoing
    {
      var goldTask := gold;
      if state == Completed {
        if goldTask || (was < answers && runs < answers) {
          state := Ongoing;
        }
      }
      if state == Ongoing {
        if !goldTask && runs >= answers {
          state := Completed;
        }
      }
      calibration := if goldTask then 1 else 0;
    }

    // Updating through the API: the payload may replace the answers and the gold answers.
    method Put(answers: int, gold: bool)
      modifies this
      ensures Seen() == Next(old(Seen()), Update(answers, gold))
      ensures this.answers == answers && this.gold == gold && runs == old(runs)
      ensures calibration == (if gold then 1 else 0)
      ensures old(state) == Other ==> state == Other
      ensures old(state) != Other && gold ==> state == Ongoing
      ensures old(state) != Other && !gold ==>
                state == if runs >= answers || (old(state) == Completed && answers <= old(this.answers)) then Completed
                         else Ongoing
    {
      var was := this.answers;
      this.answers, this.gold := answers, gold;
      UpdateAttribute(was);
    }

    method SetGoldAnswers(goldAnswers: bool)
      modifies this
      ensures Seen() == Next(old(Seen()), MarkGold(goldAnswers))
      ensures answers == old(answers) && runs == old(runs)
      ensures goldAnswers ==> gold && calibration == 1 && state != Completed
      ensures goldAnswers && old(state) != Completed ==> state == old(state)
      ensures goldAnswers && old(state) == Completed ==> state == Ongoing
      ensures !goldAnswers ==> gold == old(gold) && calibration == old(calibration) && state == old(state)
    {
      if !goldAnswers {
        return;
      }
      gold := true;
      calibration := 1;
      if state == Completed {
        state := Ongoing;
      }
    }

    method MarkIfComplete() returns (marked: bool)
      modifies this`state
      ensures marked <==> calibration != 1 && runs >= answers
      ensures state == if marked then Completed else old(state)
    {
      if calibration == 1 {
        return false;
      }
      marked := runs >= answers;
      if marked {
        state := Completed;
      }
    }

    method Submit() returns (accepted: bool)
      modifies this
      ensures Seen() == Next(old(Seen()), Submission)
      ensures accepted <==> old(calibration) != 0 || old(runs) < old(answers)
      ensures answers == old(answers) && gold == old(gold) && calibration == old(calibration)
      ensures runs == if accepted then old(runs) + 1 else old(runs)
      ensures state == if accepted && calibration != 1 && runs >= answers then Completed else old(state)
    {
      if calibration == 0 && runs >= answers {
        return false;
      }
      runs := runs + 1;
      var _ := MarkIfComplete();
      accepted := true;
    }
  }

  /** ---- What they keep ---- */

  // Gold exactly when calibration is 1; a gold task is not completed; another task is completed
  // exactly when its runs reach its answers.
  predicate Consistent(v: View) {
    && (v.calibration == 1 <==> v.gold) && 0 <= v.calibration <= 1
    && v.state != Other
    && (v.gold ==> v.state != Completed)
    && (!v.gold ==> (v.state == Completed <==> v.runs >= v.answers))
  }

  // An update makes a task consistent unless the task is completed short of the answers now asked
  // for and the number asked for was not raised.
  lemma UpdateIsConsistentIff(v: View, was: int)
    requires v.state != Other
    ensures Consistent(Updated(v, was)) <==> !(v.state == Completed && !v.gold && v.runs < v.answers <= was)
  {
  }

  function Created(answers: int): View {
    View(answers, 0, false, 0, Ongoing)
  }

  datatype Step = Update(answers: int, gold: bool) | MarkGold(goldAnswers: bool) | Submission

  function Next(v: View, step: Step): View {
    match step
    case Update(answers, gold) => Updated(v.(answers := answers, gold := gold), v.answers)
    case MarkGold(goldAnswers) => Marked(v, goldAnswers)
    case Submission => Submitted(v)
  }

  function After(v: View, steps: seq<Step>): View
    decreases |steps|
  {
    if steps == [] then v else After(Next(v, steps[0]), steps[1..])
  }

  lemma {:induction false} RunKeepsConsistent(v: View, steps: seq<Step>)
    requires Consistent(v)
    ensures Consistent(After(v, steps))
    decreases |steps|
  {
    if steps != [] {
      RunKeepsConsistent(Next(v, steps[0]), steps[1..]);
    }
  }

  // Over every sequence of updates, gold markings and submissions; a task created with nothing to
  // answer is consistent only after a first update.
  lemma AlwaysConsistentIff(answers: int, steps: seq<Step>)
    ensures answers > 0 ==> Consistent(After(Created(answers), steps))
    ensures Consistent(Created(answers)) <==> answers > 0
    ensures steps != [] && steps[0].Update? ==> Consistent(After(Created(answers), steps))
  {
    if answers > 0 {
      RunKeepsConsistent(Created(answers), steps);
    } else if steps != [] && steps[0].Update? {
      RunKeepsConsistent(Next(Created(answers), steps[0]), steps[1..]);
    }
  }

  // After the last update, submissions are accepted until the answers asked for are reached, the
  // one that reaches them completes the task, and the rest change nothing.
  lemma {:induction false} SubmissionsStop(v: View, steps: seq<Step>)
    requires Consistent(v) && !v.gold && forall step | step in steps :: step == Submission
    ensures var end, room := After(v, steps), if v.runs < v.answers then v.answers - v.runs else 0;
      && end.runs == v.runs + (if |steps| < room then |steps| else room)
      && (end.state == Completed <==> |steps| >= room)
      && end.answers == v.answers && !end.gold
    decreases |steps|
  {
    if steps != [] {
      assert steps[0] in steps && forall step | step in steps[1..] :: step in steps;
      SubmissionsStop(Next(v, steps[0]), steps[1..]);
    }
  }

  // The runs of a gold task grow without end.
  lemma {:induction false} GoldNeverStops(v: View, steps: seq<Step>)
    requires Consistent(v) && v.gold && forall step | step in steps :: step == Submission
    ensures After(v, steps) == v.(runs := v.runs + |steps|)
    decreases |steps|
  {
    if steps != [] {
      assert steps[0] in steps && forall step | step in steps[1..] :: step in steps;
      GoldNeverStops(Next(v, steps[0]), steps[1..]);
    }
  }
}
