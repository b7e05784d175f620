/** The daemon's command and result queues: listeners submit commands, workers run
    them, senders deliver results, in any interleaving.  Each queue is guarded by
    the lock (so a push or a pop is one step) and by a counting semaphore that is
    posted after a push and waited on before a pop. */
module DaemonQueues {

  datatype Command = Command(fd: int, text: string)

  datatype Result = Result(fd: int, output: string)

  /** A worker between two of its steps. */
  datatype Worker = Resting | Admitted | Running(command: Command) | Pushed

  /** pushing[p]: listener p has pushed and not posted yet.  fetching[d]: sender d has
      waited and not popped yet.  The last six fields are the history; broken says
      that some pop met an empty queue. */
  datatype State = State(
    commands: seq<Command>, commandSem: nat,
    results: seq<Result>, resultSem: nat,
    pushing: seq<bool>, workers: seq<Worker>, fetching: seq<bool>,
    submitted: seq<Command>, taken: seq<Command>, finished: seq<Command>,
    produced: seq<Result>, delivered: seq<Result>, broken: bool)

  datatype Event =
    | Submit(p: nat, command: Command)
    | PostCommand(p: nat)
    | WaitCommand(w: nat)
    | PopCommand(w: nat)
    | Finish(w: nat, output: string)
    | PostResult(w: nat)
    | WaitResult(d: nat)
    | PopResult(d: nat)

  /** May the event happen now?  Each thread goes through its own steps in order,
      and a wait needs a token. */
  predicate Enabled(s: State, e: Event) {
    match e
    case Submit(p, _) => p < |s.pushing| && !s.pushing[p]
    case PostCommand(p) => p < |s.pushing| && s.pushing[p]
    case WaitCommand(w) => w < |s.workers| && s.workers[w] == Resting && s.commandSem > 0
    case PopCommand(w) => w < |s.workers| && s.workers[w] == Admitted
    case Finish(w, _) => w < |s.workers| && s.workers[w].Running?
    case PostResult(w) => w < |s.workers| && s.workers[w] == Pushed
    case WaitResult(d) => d < |s.fetching| && !s.fetching[d] && s.resultSem > 0
    case PopResult(d) => d < |s.fetching| && s.fetching[d]
  }

  function Step(s: State, e: Event): State
    requires Enabled(s, e)
  {
    match e
    case Submit(p, c) =>
      s.(commands := s.commands + [c], submitted := s.submitted + [c], pushing := s.pushing[p := true])
    case PostCommand(p) =>
      s.(commandSem := s.commandSem + 1, pushing := s.pushing[p := false])
    case WaitCommand(w) =>
      s.(commandSem := s.commandSem - 1, workers := s.workers[w := Admitted])
    case PopCommand(w) =>
      if s.commands == [] then s.(broken := true)
      else s.(commands := s.commands[1..], taken := s.taken + [s.commands[0]],
              workers := s.workers[w := Running(s.commands[0])])
    case Finish(w, output) =>
      var r := Result(s.workers[w].command.fd, output);
      s.(results := s.results + [r], finished := s.finished + [s.workers[w].command], produced := s.produced + [r],
         workers := s.workers[w := Pushed])
    case PostResult(w) =>
      s.(resultSem := s.resultSem + 1, workers := s.workers[w := Resting])
    case WaitResult(d) =>
      s.(resultSem := s.resultSem - 1, fetching := s.fetching[d := true])
    case PopResult(d) =>
      if s.results == [] then s.(broken := true)
      else s.(results := s.results[1..], delivered := s.delivered + [s.results[0]],
              fetching := s.fetching[d := false])
  }

  // ----- counting -----

  function Trues(b: seq<bool>, n: nat): nat
    requires n <= |b|
  {
    if n == 0 then 0 else Trues(b, n - 1) + if b[n - 1] then 1 else 0
  }

  lemma {:induction false} TruesSet(b: seq<bool>, n: nat, i: nat, x: bool)
    requires n <= |b| && i < |b| && b[i] == !x
    ensures Trues(b[i := x], n) == Trues(b, n) + if i < n then (if x then 1 else -1) else 0
  {
    if n > 0 {
      TruesSet(b, n - 1, i, x);
    }
  }

  lemma {:induction false} TruesSome(b: seq<bool>, n: nat, i: nat)
    requires i < n <= |b| && b[i]
    ensures Trues(b, n) > 0
  {
    if i < n - 1 {
      TruesSome(b, n - 1, i);
    }
  }

  /** Workers in this phase. */
  function In(ws: seq<Worker>, p: Worker, n: nat): nat
    requires n <= |ws|
  {
    if n == 0 then 0 else In(ws, p, n - 1) + if ws[n - 1] == p then 1 else 0
  }

  lemma {:induction false} InSet(ws: seq<Worker>, p: Worker, n: nat, i: nat, x: Worker)
    requires n <= |ws| && i < |ws|
    ensures In(ws[i := x], p, n) ==
            In(ws, p, n) + if i < n then (if x == p then 1 else 0) - (if ws[i] == p then 1 else 0) else 0
  {
    if n > 0 {
      InSet(ws, p, n - 1, i, x);
    }
  }

  lemma {:induction false} InSome(ws: seq<Worker>, p: Worker, n: nat, i: nat)
    requires i < n <= |ws| && ws[i] == p
    ensures In(ws, p, n) > 0
  {
    if i < n - 1 {
      InSome(ws, p, n - 1, i);
    }
  }

  // ----- connections -----

  function One(b: bool): nat { if b then 1 else 0 }

  /** How many of these commands came from connection f. */
  function CommandsOf(cs: seq<Command>, f: int): nat {
    if cs == [] then 0 else One(cs[0].fd == f) + CommandsOf(cs[1..], f)
  }

  function ResultsOf(rs: seq<Result>, f: int): nat {
    if rs == [] then 0 else One(rs[0].fd == f) + ResultsOf(rs[1..], f)
  }

  function RunsFor(w: Worker, f: int): nat { One(w.Running? && w.command.fd == f) }

  function RunningOf(ws: seq<Worker>, n: nat, f: int): nat
    requires n <= |ws|
  {
    if n == 0 then 0 else RunningOf(ws, n - 1, f) + RunsFor(ws[n - 1], f)
  }

  lemma {:induction false} CommandsAppend(cs: seq<Command>, c: Command, f: int)
    ensures CommandsOf(cs + [c], f) == CommandsOf(cs, f) + One(c.fd == f)
  {
    if cs == [] {
      assert cs + [c] == [c] && [c][1..] == [];
    } else {
      CommandsAppend(cs[1..], c, f);
      assert (cs + [c])[1..] == cs[1..] + [c];
    }
  }

  lemma {:induction false} ResultsAppend(rs: seq<Result>, r: Result, f: int)
    ensures ResultsOf(rs + [r], f) == ResultsOf(rs, f) + One(r.fd == f)
  {
    if rs == [] {
      assert rs + [r] == [r] && [r][1..] == [];
    } else {
      ResultsAppend(rs[1..], r, f);
      assert (rs + [r])[1..] == rs[1..] + [r];
    }
  }

  lemma {:induction false} RunningSet(ws: seq<Worker>, n: nat, i: nat, x: Worker, f: int)
    requires n <= |ws| && i < |ws|
    ensures RunningOf(ws[i := x], n, f) == RunningOf(ws, n, f) + if i < n then RunsFor(x, f) - RunsFor(ws[i], f) else 0
  {
    if n > 0 {
      RunningSet(ws, n - 1, i, x, f);
    }
  }

  // ----- what every step keeps -----

  /** A queue holds one element for each token, each push not yet posted, and each
      wait not yet followed by its pop. */
  predicate Guarded(s: State) {
    && |s.commands| == s.commandSem + Trues(s.pushing, |s.pushing|) + In(s.workers, Admitted, |s.workers|)
    && |s.results| == s.resultSem + In(s.workers, Pushed, |s.workers|) + Trues(s.fetching, |s.fetching|)
  }

  /** First in, first out: what left a queue, then what is in it, is what entered. */
  predicate InOrder(s: State) {
    s.taken + s.commands == s.submitted && s.delivered + s.results == s.produced
  }

  /** For each connection, its submitted commands are those queued, those being run,
      and those answered by a result, queued or delivered. */
  ghost predicate Conserved(s: State) { forall f :: ConservedOf(s, f) }

  predicate ConservedOf(s: State, f: int) {
    CommandsOf(s.submitted, f) ==
    CommandsOf(s.commands, f) + RunningOf(s.workers, |s.workers|, f) + ResultsOf(s.results, f) + ResultsOf(s.delivered, f)
  }

  /** The worker runs this very command. */
  function Runs(w: Worker, c: Command): nat { One(w == Running(c)) }

  function RunningCopies(ws: seq<Worker>, n: nat, c: Command): nat
    requires n <= |ws|
  {
    if n == 0 then 0 else RunningCopies(ws, n - 1, c) + Runs(ws[n - 1], c)
  }

  lemma {:induction false} CopiesSet(ws: seq<Worker>, n: nat, i: nat, x: Worker, c: Command)
    requires n <= |ws| && i < |ws|
    ensures RunningCopies(ws[i := x], n, c) == RunningCopies(ws, n, c) + if i < n then Runs(x, c) - Runs(ws[i], c) else 0
  {
    if n > 0 {
      CopiesSet(ws, n - 1, i, x, c);
    }
  }

  /** Whole commands are conserved: each is queued, run by a worker, or finished, as often
      as it was submitted. */
  predicate KeptOf(s: State, c: Command) {
    Copies(s.submitted, c) == Copies(s.commands, c) + RunningCopies(s.workers, |s.workers|, c) + Copies(s.finished, c)
  }

  function Copies(cs: seq<Command>, c: Command): nat { multiset(cs)[c] }

  /** The i-th result answers the connection of the i-th finished command. */
  predicate Answers(s: State) {
    |s.produced| == |s.finished| && forall i :: 0 <= i < |s.produced| ==> s.produced[i].fd == s.finished[i].fd
  }

  ghost predicate Inv(s: State) {
    && Guarded(s) && InOrder(s) && Conserved(s) && !s.broken
    && (forall c :: KeptOf(s, c)) && Answers(s)
  }

  lemma KeptKept(s: State, e: Event, c: Command)
    requires KeptOf(s, c) && Enabled(s, e)
    ensures KeptOf(Step(s, e), c)
  {
    hide RunningCopies, Copies;
    var n := |s.workers|;
    match e
    case Submit(_, x) =>
      BagAppend(s.submitted, x, c);
      BagAppend(s.commands, x, c);
    case WaitCommand(w) => CopiesSet(s.workers, n, w, Admitted, c);
    case PopCommand(w) =>
      if s.commands != [] {
        CopiesSet(s.workers, n, w, Running(s.commands[0]), c);
        BagHead(s.commands, c);
      }
    case Finish(w, _) =>
      CopiesSet(s.workers, n, w, Pushed, c);
      BagAppend(s.finished, s.workers[w].command, c);
    case PostResult(w) => CopiesSet(s.workers, n, w, Resting, c);
    case _ =>
  }

  lemma BagAppend(cs: seq<Command>, x: Command, c: Command)
    ensures Copies(cs + [x], c) == Copies(cs, c) + One(x == c)
  {
  }

  lemma BagHead(cs: seq<Command>, c: Command)
    requires cs != []
    ensures Copies(cs, c) == One(cs[0] == c) + Copies(cs[1..], c)
  {
    assert cs == [cs[0]] + cs[1..];
  }

  lemma AnswersKept(s: State, e: Event)
    requires Answers(s) && Enabled(s, e)
    ensures Answers(Step(s, e))
  {
  }

  lemma GuardedKept(s: State, e: Event)
    requires Guarded(s) && Enabled(s, e)
    ensures Guarded(Step(s, e)) && Step(s, e).broken == s.broken
  {
    hide Trues, In;
    var n := |s.workers|;
    match e
    case Submit(p, _) => TruesSet(s.pushing, |s.pushing|, p, true);
    case PostCommand(p) => TruesSet(s.pushing, |s.pushing|, p, false);
    case WaitCommand(w) =>
      InSet(s.workers, Admitted, n, w, Admitted);
      InSet(s.workers, Pushed, n, w, Admitted);
    case PopCommand(w) =>
      InSome(s.workers, Admitted, n, w);
      InSet(s.workers, Admitted, n, w, Running(s.commands[0]));
      InSet(s.workers, Pushed, n, w, Running(s.commands[0]));
    case Finish(w, _) =>
      InSet(s.workers, Admitted, n, w, Pushed);
      InSet(s.workers, Pushed, n, w, Pushed);
    case PostResult(w) =>
      InSet(s.workers, Admitted, n, w, Resting);
      InSet(s.workers, Pushed, n, w, Resting);
    case WaitResult(d) => TruesSet(s.fetching, |s.fetching|, d, true);
    case PopResult(d) =>
      TruesSome(s.fetching, |s.fetching|, d);
      TruesSet(s.fetching, |s.fetching|, d, false);
  }

  lemma OrderKept(s: State, e: Event)
    requires InOrder(s) && Enabled(s, e)
    ensures InOrder(Step(s, e))
  {
    var u := Step(s, e);
    assert u.taken + u.commands == u.submitted;
    assert u.delivered + u.results == u.produced;
  }

  lemma ConservedKept(s: State, e: Event, f: int)
    requires ConservedOf(s, f) && Enabled(s, e)
    ensures ConservedOf(Step(s, e), f)
  {
    var n := |s.workers|;
    match e
    case Submit(_, c) =>
      CommandsAppend(s.commands, c, f);
      CommandsAppend(s.submitted, c, f);
    case WaitCommand(w) => RunningSet(s.workers, n, w, Admitted, f);
    case PopCommand(w) =>
      if s.commands != [] {
        RunningSet(s.workers, n, w, Running(s.commands[0]), f);
      }
    case Finish(w, output) =>
      RunningSet(s.workers, n, w, Pushed, f);
      ResultsAppend(s.results, Result(s.workers[w].command.fd, output), f);
    case PostResult(w) => RunningSet(s.workers, n, w, Resting, f);
    case PopResult(_) =>
      if s.results != [] {
        ResultsAppend(s.delivered, s.results[0], f);
      }
    case _ =>
  }

  // ----- runs -----

  function Start(listeners: nat, workers: nat, senders: nat): State {
    State([], 0, [], 0, seq(listeners, _ => false), seq(workers, _ => Resting), seq(senders, _ => false),
          [], [], [], [], [], false)
  }

  /** The state after a sequence of events, each taken only when it is enabled. */
  function Run(s: State, es: seq<Event>): State
    decreases |es|
  {
    if es == [] then s else Run(Next(s, es[0]), es[1..])
  }

  lemma {:induction false} NoTrues(b: seq<bool>, n: nat)
    requires n <= |b| && forall i :: 0 <= i < |b| ==> !b[i]
    ensures Trues(b, n) == 0
  {
    if n > 0 {
      NoTrues(b, n - 1);
    }
  }

  lemma {:induction false} AllResting(ws: seq<Worker>, n: nat)
    requires n <= |ws| && forall i :: 0 <= i < |ws| ==> ws[i] == Resting
    ensures In(ws, Admitted, n) == 0 && In(ws, Pushed, n) == 0 && forall f :: RunningOf(ws, n, f) == 0
  {
    if n > 0 {
      AllResting(ws, n - 1);
    }
  }

  lemma StartInv(listeners: nat, workers: nat, senders: nat)
    ensures Inv(Start(listeners, workers, senders))
  {
    var s := Start(listeners, workers, senders);
    NoTrues(s.pushing, listeners);
    NoTrues(s.fetching, senders);
    AllResting(s.workers, workers);
    forall c ensures KeptOf(s, c) {
      NoneRuns(s.workers, workers, c);
    }
  }

  lemma {:induction false} NoneRuns(ws: seq<Worker>, n: nat, c: Command)
    requires n <= |ws| && forall i :: 0 <= i < |ws| ==> ws[i] == Resting
    ensures RunningCopies(ws, n, c) == 0
  {
    if n > 0 {
      NoneRuns(ws, n - 1, c);
    }
  }

  // ----- what the events say -----

  function Next(s: State, e: Event): State { if Enabled(s, e) then Step(s, e) else s }

  /** The commands of the Submit events that happen, in order. */
  function Submissions(s: State, es: seq<Event>): seq<Command>
    decreases |es|
  {
    if es == [] then []
    else (if Enabled(s, es[0]) && es[0].Submit? then [es[0].command] else []) + Submissions(Next(s, es[0]), es[1..])
  }

  /** The outputs of the Finish events that happen, in order. */
  function Outputs(s: State, es: seq<Event>): seq<string>
    decreases |es|
  {
    if es == [] then []
    else (if Enabled(s, es[0]) && es[0].Finish? then [es[0].output] else []) + Outputs(Next(s, es[0]), es[1..])
  }

  function OutputsOf(rs: seq<Result>): (r: seq<string>)
    ensures |r| == |rs| && forall i :: 0 <= i < |rs| ==> r[i] == rs[i].output
  {
    seq(|rs|, i requires 0 <= i < |rs| => rs[i].output)
  }

  /** The history is what the events say: nothing else is submitted. */
  lemma {:induction false} SubmittedIs(s: State, es: seq<Event>)
    ensures Run(s, es).submitted == s.submitted + Submissions(s, es)
    decreases |es|
  {
    if es != [] {
      var u := Next(s, es[0]);
      SubmittedIs(u, es[1..]);
      var c := if Enabled(s, es[0]) && es[0].Submit? then [es[0].command] else [];
      assert u.submitted == s.submitted + c;
      hide Next, Step, Enabled;
      assert s.submitted + c + Submissions(u, es[1..]) == s.submitted + (c + Submissions(u, es[1..]));
    }
  }

  /** And nothing else is produced. */
  lemma {:induction false} ProducedIs(s: State, es: seq<Event>)
    ensures OutputsOf(Run(s, es).produced) == OutputsOf(s.produced) + Outputs(s, es)
    decreases |es|
  {
    if es != [] {
      var u := Next(s, es[0]);
      ProducedIs(u, es[1..]);
      var o := if Enabled(s, es[0]) && es[0].Finish? then [es[0].output] else [];
      assert OutputsOf(u.produced) == OutputsOf(s.produced) + o;
      hide Next, Step, Enabled;
      assert OutputsOf(s.produced) + o + Outputs(u, es[1..]) == OutputsOf(s.produced) + (o + Outputs(u, es[1..]));
    }
  }

  lemma {:induction false} RunKeeps(s: State, es: seq<Event>)
    requires Inv(s)
    ensures Inv(Run(s, es))
    decreases |es|
  {
    if es != [] {
      if Enabled(s, es[0]) {
        GuardedKept(s, es[0]);
        OrderKept(s, es[0]);
        forall f ensures ConservedOf(Step(s, es[0]), f) {
          ConservedKept(s, es[0], f);
        }
        forall c ensures KeptOf(Step(s, es[0]), c) {
          KeptKept(s, es[0], c);
        }
        AnswersKept(s, es[0]);
        RunKeeps(Step(s, es[0]), es[1..]);
      } else {
        RunKeeps(s, es[1..]);
      }
    }
  }

  /** In every interleaving: no pop meets an empty queue; the i-th command to be taken
      is the i-th submitted and the i-th result delivered the i-th produced; every
      submitted command is queued, run by a worker or finished, as often as it was
      submitted; the i-th result has the connection of the i-th finished command and
      the output it finished with; and no connection is lost or served twice. */
  lemma EveryRunSafe(listeners: nat, workers: nat, senders: nat, es: seq<Event>)
    ensures var r := Run(Start(listeners, workers, senders), es);
            && !r.broken
            && r.taken <= r.submitted && r.delivered <= r.produced
            && Conserved(r)
            && r.submitted == Submissions(Start(listeners, workers, senders), es)
            && (forall c :: multiset(r.submitted)[c] ==
                  multiset(r.commands)[c] + RunningCopies(r.workers, |r.workers|, c) + multiset(r.finished)[c])
            && |r.produced| == |r.finished| == |Outputs(Start(listeners, workers, senders), es)|
            && forall i :: 0 <= i < |r.produced| ==>
                 r.produced[i] == Result(r.finished[i].fd, Outputs(Start(listeners, workers, senders), es)[i])
  {
    var r := Run(Start(listeners, workers, senders), es);
    SubmittedIs(Start(listeners, workers, senders), es);
    ProducedIs(Start(listeners, workers, senders), es);
    StartInv(listeners, workers, senders);
    RunKeeps(Start(listeners, workers, senders), es);
    forall c ensures multiset(r.submitted)[c] ==
      multiset(r.commands)[c] + RunningCopies(r.workers, |r.workers|, c) + multiset(r.finished)[c]
    {
      assert KeptOf(r, c);
    }
    forall i | 0 <= i < |r.produced| ensures r.produced[i].output == Outputs(Start(listeners, workers, senders), es)[i] {
      assert OutputsOf(r.produced)[i] == r.produced[i].output;
    }
  }

  /** Once the queues are empty and the workers rest, every command has been answered on
      its own connection. */
  lemma EveryRunDrains(listeners: nat, workers: nat, senders: nat, es: seq<Event>)
    requires var r := Run(Start(listeners, workers, senders), es);
             && r.commands == [] && r.results == []
             && forall i :: 0 <= i < |r.workers| ==> r.workers[i] == Resting
    ensures var r := Run(Start(listeners, workers, senders), es);
            && r.taken == r.submitted && r.delivered == r.produced
            && forall f :: ResultsOf(r.delivered, f) == CommandsOf(r.submitted, f)
  {
    var r := Run(Start(listeners, workers, senders), es);
    StartInv(listeners, workers, senders);
    RunKeeps(Start(listeners, workers, senders), es);
    AllResting(r.workers, |r.workers|);
    forall f ensures ResultsOf(r.delivered, f) == CommandsOf(r.submitted, f) {
      assert ConservedOf(r, f);
    }
  }

  /** Nothing gets stuck: while a command is queued and no listener is between its push
      and its post, some worker can pop, or any resting worker can go on. */
  lemma CommandsMove(s: State, w: nat)
    requires Inv(s) && s.commands != [] && w < |s.workers| && s.workers[w] == Resting
    requires forall p :: 0 <= p < |s.pushing| ==> !s.pushing[p]
    ensures Enabled(s, WaitCommand(w)) || exists v :: 0 <= v < |s.workers| && Enabled(s, PopCommand(v))
  {
    NoTrues(s.pushing, |s.pushing|);
    if s.commandSem == 0 {
      var v := AdmittedOne(s.workers, |s.workers|);
      assert Enabled(s, PopCommand(v));
    }
  }

  lemma {:induction false} AdmittedOne(ws: seq<Worker>, n: nat) returns (v: nat)
    requires n <= |ws| && In(ws, Admitted, n) > 0
    ensures v < n && ws[v] == Admitted
  {
    v := n - 1;
    if ws[n - 1] != Admitted {
      v := AdmittedOne(ws, n - 1);
    }
  }
}
