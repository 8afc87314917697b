/**
 What a task's accepted commands say about it (crates/workflow-core/src/task.rs:69-142).
 */
module TaskHistory {
  import opened Wrappers
  import opened TaskMachine

  predicate Accepts(t: Task, c: Command) {
    Applied(t, c).1.Success?
  }

  function Run(t: Task, cs: seq<Command>): Task
    decreases |cs|
  {
    if cs == [] then t else Run(Applied(t, cs[0]).0, cs[1..])
  }

  /** The accepted commands of a run. */
  function Accepted(t: Task, cs: seq<Command>): seq<Command>
    decreases |cs|
  {
    if cs == [] then []
    else (if Accepts(t, cs[0]) then [cs[0]] else []) + Accepted(Applied(t, cs[0]).0, cs[1..])
  }

  function Starts(cs: seq<Command>): nat {
    if cs == [] then 0 else (if cs[|cs| - 1].Start? then 1 else 0) + Starts(cs[..|cs| - 1])
  }

  /** The command that leads into a state of work, and where it must have come from. */
  ghost predicate Stage(s: State, cs: seq<Command>)
    decreases |cs|
  {
    match s
    case Pending => cs == []
    case Ready => cs != [] && (cs[|cs| - 1] in {DependenciesSatisfied, Unblock, VerificationFailed(true)})
    case Leased => cs != [] && cs[|cs| - 1] == Lease && Stage(Ready, cs[..|cs| - 1])
    case Running => cs != [] && cs[|cs| - 1] == Start && Stage(Leased, cs[..|cs| - 1])
    case Verifying => cs != [] && cs[|cs| - 1] == SubmitCandidate && Stage(Running, cs[..|cs| - 1])
    case Completed => cs != [] && cs[|cs| - 1] == VerificationPassed(true) && Stage(Verifying, cs[..|cs| - 1])
    case Failed => cs != [] && cs[|cs| - 1] == VerificationFailed(false) && Stage(Verifying, cs[..|cs| - 1])
    case Blocked => cs != [] && cs[|cs| - 1] == Block
    case Cancelled => cs != [] && cs[|cs| - 1] == Cancel
  }

  lemma StageExtends(s: State, cs: seq<Command>, c: Command)
    ensures (cs + [c])[..|cs|] == cs && (cs + [c])[|cs|] == c
    ensures Starts(cs + [c]) == (if c.Start? then 1 else 0) + Starts(cs)
  {
  }

  /** The task is what its history says. */
  ghost predicate Told(t: Task, cs: seq<Command>) {
    Stage(t.state, cs) && t.attempts == if Starts(cs) <= MAX_U32 then Starts(cs) else MAX_U32
  }

  lemma ToldKept(t: Task, cs: seq<Command>, c: Command)
    requires Told(t, cs) && Accepts(t, c)
    ensures Told(Applied(t, c).0, cs + [c])
  {
    StageExtends(t.state, cs, c);
  }

  lemma {:induction false} ToldOverRuns(t: Task, done: seq<Command>, cs: seq<Command>)
    requires Told(t, done)
    ensures Told(Run(t, cs), done + Accepted(t, cs))
    decreases |cs|
  {
    if cs == [] {
      assert done + [] == done;
    } else {
      hide Told;
      var rest := Accepted(Applied(t, cs[0]).0, cs[1..]);
      if Accepts(t, cs[0]) {
        ToldKept(t, done, cs[0]);
        ToldOverRuns(Applied(t, cs[0]).0, done + [cs[0]], cs[1..]);
        assert done + ([cs[0]] + rest) == done + [cs[0]] + rest;
      } else {
        assert Applied(t, cs[0]).0 == t;
        ToldOverRuns(t, done, cs[1..]);
        assert [] + rest == rest;
      }
    }
  }

  /** In every run of a new task its attempts are the starts it has accepted, and it is
      completed only right after being leased, started, submitted and verified with
      every mandatory gate passed. */
  lemma HistoryDecides(cs: seq<Command>)
    ensures var (t, all) := (Run(NEW, cs), Accepted(NEW, cs));
            && Told(t, all)
            && (t.state.Completed? ==>
                  |all| >= 4 && all[|all| - 4..] == [Lease, Start, SubmitCandidate, VerificationPassed(true)])
  {
    assert Told(NEW, []);
    ToldOverRuns(NEW, [], cs);
    var all := Accepted(NEW, cs);
    assert [] + all == all;
    if Run(NEW, cs).state.Completed? { LastFour(all); }
  }

  lemma LastFour(cs: seq<Command>)
    requires Stage(Completed, cs)
    ensures |cs| >= 4 && cs[|cs| - 4..] == [Lease, Start, SubmitCandidate, VerificationPassed(true)]
  {
    var verifying := cs[..|cs| - 1];
    assert Stage(Verifying, verifying);
    var running := verifying[..|verifying| - 1];
    assert Stage(Running, running);
    var leased := running[..|running| - 1];
    assert Stage(Leased, leased) && Stage(Ready, leased[..|leased| - 1]);
  }

  // ---- completion stays possible

  function Forward(s: State): Command {
    match s
    case Pending => DependenciesSatisfied
    case Ready => Lease
    case Leased => Start
    case Running => SubmitCandidate
    case Blocked => Unblock
    case _ => VerificationPassed(true)
  }

  function Distance(s: State): nat {
    match s
    case Blocked => 6
    case Pending => 5
    case Ready => 4
    case Leased => 3
    case Running => 2
    case Verifying => 1
    case _ => 0
  }

  lemma {:induction false} CanComplete(t: Task) returns (cs: seq<Command>)
    requires !Terminal(t.state) || t.state.Completed?
    ensures Run(t, cs).state.Completed?
    decreases Distance(t.state)
  {
    if t.state.Completed? {
      cs := [];
    } else {
      var rest := CanComplete(Applied(t, Forward(t.state)).0);
      cs := [Forward(t.state)] + rest;
      assert cs[1..] == rest;
    }
  }

  lemma {:induction false} TerminalStays(t: Task, cs: seq<Command>)
    requires Terminal(t.state)
    ensures Run(t, cs) == t
    decreases |cs|
  {
    if cs != [] { TerminalStays(t, cs[1..]); }
  }

  /** A task can still be completed exactly when it has not failed or been cancelled. */
  lemma CompletableExactly(t: Task)
    ensures (exists cs :: Run(t, cs).state.Completed?) <==> !t.state.Failed? && !t.state.Cancelled?
  {
    if t.state.Failed? || t.state.Cancelled? {
      forall cs ensures !Run(t, cs).state.Completed? { TerminalStays(t, cs); }
    } else {
      var cs := CanComplete(t);
    }
  }

  // ---- what is accepted

  function PlacesOf(c: Command): set<State> {
    match c
    case DependenciesSatisfied => {Pending}
    case Lease => {Ready}
    case Start => {Leased}
    case SubmitCandidate => {Running}
    case VerificationPassed(_) => {Verifying}
    case VerificationFailed(_) => {Verifying}
    case Unblock => {Blocked}
    case Block => {Pending, Ready, Leased, Running, Verifying}
    case Cancel => {Pending, Ready, Leased, Running, Verifying, Blocked}
  }

  /** A task accepts a command exactly in its place, a verification only with all
      mandatory gates passed, and what it refuses does not change it. */
  lemma AcceptedExactly(t: Task, c: Command)
    ensures Accepts(t, c) <==> t.state in PlacesOf(c) && c != VerificationPassed(false)
    ensures Applied(t, c).1 == Failure(MandatoryGateFailed) <==> c == VerificationPassed(false) && t.state.Verifying?
    ensures !Accepts(t, c) ==> Applied(t, c).0 == t
  {
    match t.state {
      case Completed =>
      case Failed =>
      case Cancelled =>
      case _ =>
    }
  }
}
