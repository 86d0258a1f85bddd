/** How the proxy hands jobs to workers, and takes them back when a worker closes.  Every
    handler runs as one atomic step; a job is named by its full header key. */
module Jobs {
  import opened ByteSeq

  type JobId = nat
  type WorkerId = nat

  /** The posted `process_job` calls, the completions the proxy has posted itself, the jobs each
      worker has started, the workers still valid, and the completions called so far. */
  datatype State = State(queue: multiset<JobId>, posted: multiset<JobId>,
                         started: map<WorkerId, set<JobId>>, valid: set<WorkerId>,
                         completed: multiset<JobId>)

  /** A processed job goes to the worker the policies name, if they name a valid one: a job the
      proxy has already answered is completed by another post, any other is started. */
  datatype Event =
    | Join(worker: WorkerId)
    | Schedule(job: JobId)
    | Process(job: JobId, choice: Option<WorkerId>, answered: bool)
    | Finish(job: JobId)
    | Respond(worker: WorkerId, job: JobId)
    | Close(worker: WorkerId)

  const START := State(multiset{}, multiset{}, map[], {}, multiset{})

  predicate Enabled(s: State, e: Event) {
    match e
    case Join(w) => w !in s.started
    case Schedule(_) => true
    case Process(j, _, _) => j in s.queue
    case Finish(j) => j in s.posted
    case Respond(w, _) => w in s.started
    case Close(w) => w in s.started
  }

  /** Every job of a closing worker is posted again; the worker keeps its own list. */
  function Step(s: State, e: Event): State
    requires Enabled(s, e)
  {
    match e
    case Join(w) => s.(started := s.started[w := {}], valid := s.valid + {w})
    case Schedule(j) => s.(queue := s.queue + multiset{j})
    case Process(j, choice, answered) =>
      if choice.None? || choice.value !in s.valid || choice.value !in s.started then s
      else if answered then s.(queue := s.queue - multiset{j}, posted := s.posted + multiset{j})
      else s.(queue := s.queue - multiset{j},
              started := s.started[choice.value := s.started[choice.value] + {j}])
    case Finish(j) => s.(posted := s.posted - multiset{j}, completed := s.completed + multiset{j})
    case Respond(w, j) =>
      if j !in s.started[w] then s
      else s.(started := s.started[w := s.started[w] - {j}], completed := s.completed + multiset{j})
    case Close(w) => s.(valid := s.valid - {w}, queue := s.queue + multiset(s.started[w]))
  }

  /** The two handlers with work to do; the others change one table as `Step` says. */
  class Launcher {
    var queue: multiset<JobId>
    var posted: multiset<JobId>
    var started: map<WorkerId, set<JobId>>
    var valid: set<WorkerId>
    var completed: multiset<JobId>

    ghost function View(): State
      reads this
    {
      State(queue, posted, started, valid, completed)
    }

    constructor ()
      ensures View() == START
    {
      queue, posted, started, valid, completed := multiset{}, multiset{}, map[], {}, multiset{};
    }

    method ProcessJob(j: JobId, choice: Option<WorkerId>, answered: bool)
      requires Enabled(View(), Process(j, choice, answered))
      modifies this
      ensures View() == Step(old(View()), Process(j, choice, answered))
    {
      queue := queue - multiset{j};
      if choice.None? || choice.value !in valid || choice.value !in started {
        queue := queue + multiset{j};
        assert queue == old(queue);
        return;
      }
      if answered {
        posted := posted + multiset{j};
      } else {
        started := started[choice.value := started[choice.value] + {j}];
      }
    }

    method CloseWorker(w: WorkerId)
      requires Enabled(View(), Close(w))
      modifies this
      ensures View() == Step(old(View()), Close(w))
    {
      valid := valid - {w};
      var todo := started[w];
      while todo != {}
        invariant posted == old(posted) && started == old(started) && completed == old(completed)
        invariant todo <= started[w] && queue + multiset(todo) == old(queue) + multiset(started[w])
        invariant valid == old(valid) - {w}
        decreases |todo|
      {
        var j :| j in todo;
        assert multiset(todo) == multiset(todo - {j}) + multiset{j};
        queue := queue + multiset{j};
        todo := todo - {j};
      }
    }
  }

  // ----- runs

  predicate ValidRun(s: State, es: seq<Event>)
    decreases |es|
  {
    es == [] || (Enabled(s, es[0]) && ValidRun(Step(s, es[0]), es[1..]))
  }

  function Run(s: State, es: seq<Event>): State
    requires ValidRun(s, es)
    decreases |es|
  {
    if es == [] then s else Run(Step(s, es[0]), es[1..])
  }

  /** The job is posted, held by a valid worker, or has had its completion called. */
  predicate Kept(s: State, j: JobId) {
    || j in s.queue || j in s.posted || j in s.completed
    || exists w :: w in s.valid && w in s.started && j in s.started[w]
  }

  lemma StepKeeps(s: State, e: Event, j: JobId)
    requires Enabled(s, e) && (Kept(s, j) || e == Schedule(j))
    ensures Kept(Step(s, e), j)
  {
    var s' := Step(s, e);
    if j !in s.queue && j !in s.posted && j !in s.completed && e != Schedule(j) {
      var w :| w in s.valid && w in s.started && j in s.started[w];
      assert (e.Close? && e.worker == w) || e == Respond(w, j) ||
             (w in s'.valid && w in s'.started && j in s'.started[w]);
    } else if e.Process? && e.job == j && j !in s'.queue && j !in s'.posted {
      var w := e.choice.value;
      assert w in s'.valid && w in s'.started && j in s'.started[w];
    }
  }

  /** No job is lost: in every run of schedules, posted calls, responses and worker closes, a
      scheduled job is still posted, held by a valid worker, or completed. */
  lemma {:induction false} NoJobIsLost(s: State, es: seq<Event>, j: JobId)
    requires ValidRun(s, es) && (Kept(s, j) || Schedule(j) in es)
    ensures Kept(Run(s, es), j)
    decreases |es|
  {
    if es != [] {
      if Kept(s, j) || es[0] == Schedule(j) {
        StepKeeps(s, es[0], j);
      }
      NoJobIsLost(Step(s, es[0]), es[1..], j);
    }
  }

  // ----- how often a job completes

  function Holders(started: map<WorkerId, set<JobId>>, j: JobId): set<WorkerId> {
    set w | w in started && j in started[w]
  }

  /** The places a job is in: posted calls, posted completions, workers and past completions. */
  function Copies(s: State, j: JobId): nat {
    s.queue[j] + s.posted[j] + |Holders(s.started, j)| + s.completed[j]
  }

  lemma HoldersAfter(started: map<WorkerId, set<JobId>>, w: WorkerId, jobs: set<JobId>, j: JobId)
    ensures Holders(started[w := jobs], j) == if j in jobs then Holders(started, j) + {w} else Holders(started, j) - {w}
  {
  }

  /** A job in one place stays in one place, unless it is scheduled again or a worker that holds
      it closes: the closed worker keeps it while it is posted again. */
  lemma CopiedExactlyWhen(s: State, e: Event, j: JobId)
    requires Enabled(s, e) && Copies(s, j) == 1
    ensures Copies(Step(s, e), j) == 1 <==> e != Schedule(j) && !(e.Close? && j in s.started[e.worker])
  {
    match e {
      case Join(w) =>
        HoldersAfter(s.started, w, {}, j);
      case Process(k, choice, answered) =>
        if choice.Some? && choice.value in s.started {
          HoldersAfter(s.started, choice.value, s.started[choice.value] + {k}, j);
        }
      case Respond(w, k) =>
        HoldersAfter(s.started, w, s.started[w] - {k}, j);
      case _ =>
    }
  }

  predicate NeverTakenBack(s: State, es: seq<Event>, j: JobId)
    requires ValidRun(s, es)
    decreases |es|
  {
    es == [] || (es[0] != Schedule(j) && !(es[0].Close? && j in s.started[es[0].worker])
                 && NeverTakenBack(Step(s, es[0]), es[1..], j))
  }

  // ----- which place a job is in

  /** Every call that processes the job finds it answered by the proxy. */
  predicate AlwaysAnswered(es: seq<Event>, j: JobId) {
    forall i :: 0 <= i < |es| && es[i].Process? && es[i].job == j ==> es[i].answered
  }

  /** A job the proxy answers itself never reaches a worker. */
  lemma {:induction false} AnsweredIsNeverHeld(s: State, es: seq<Event>, j: JobId)
    requires ValidRun(s, es) && AlwaysAnswered(es, j) && Holders(s.started, j) == {}
    ensures Holders(Run(s, es).started, j) == {}
    decreases |es|
  {
    if es != [] {
      StepHolds(s, es[0], j);
      AnsweredIsNeverHeld(Step(s, es[0]), es[1..], j);
    }
  }

  lemma ProcessHolds(s: State, k: JobId, choice: Option<WorkerId>, answered: bool, j: JobId)
    requires k in s.queue
    ensures Holders(Step(s, Process(k, choice, answered)).started, j) ==
            Holders(s.started, j) + if k == j && !answered && Usable(s, choice) then {choice.value} else {}
  {
    if !answered && Usable(s, choice) {
      HoldersAfter(s.started, choice.value, s.started[choice.value] + {k}, j);
    }
  }

  lemma RespondHolds(s: State, w: WorkerId, k: JobId, j: JobId)
    requires w in s.started
    ensures Holders(Step(s, Respond(w, k)).started, j) == Holders(s.started, j) - if k == j then {w} else {}
  {
    if k in s.started[w] {
      HoldersAfter(s.started, w, s.started[w] - {k}, j);
    }
  }

  /** Only a call that finds the job unanswered puts it on a worker, the named one if it is valid;
      only the worker's own response takes it off. */
  lemma StepHolds(s: State, e: Event, j: JobId)
    requires Enabled(s, e)
    ensures Holders(Step(s, e).started, j) ==
            Holders(s.started, j)
            + (if e.Process? && e.job == j && !e.answered && Usable(s, e.choice) then {e.choice.value} else {})
            - if e.Respond? && e.job == j then {e.worker} else {}
  {
    match e {
      case Join(w) => HoldersAfter(s.started, w, {}, j);
      case Process(k, choice, answered) => ProcessHolds(s, k, choice, answered, j);
      case Respond(w, k) => RespondHolds(s, w, k, j);
      case _ =>
    }
  }

  predicate Usable(s: State, choice: Option<WorkerId>) {
    choice.Some? && choice.value in s.valid && choice.value in s.started
  }

  lemma {:induction false} JoinsOnce(s: State, es: seq<Event>, w: WorkerId)
    requires ValidRun(s, es) && w in s.started
    ensures Join(w) !in es
    decreases |es|
  {
    if es != [] {
      JoinsOnce(Step(s, es[0]), es[1..], w);
    }
  }

  /** In every run the valid workers are those that have joined and not closed. */
  lemma {:induction false} ValidExactlyWhen(s: State, es: seq<Event>, w: WorkerId)
    requires ValidRun(s, es) && s.valid <= s.started.Keys
    ensures w in Run(s, es).valid <==> (w in s.valid || Join(w) in es) && Close(w) !in es
    decreases |es|
  {
    if es != [] {
      var next := Step(s, es[0]);
      assert es == [es[0]] + es[1..];
      ValidExactlyWhen(next, es[1..], w);
      if w in next.started {
        JoinsOnce(next, es[1..], w);
      }
    }
  }

  /** A completion is called exactly by a posted one, or by the response of a worker that holds
      the job. */
  lemma StepCompletes(s: State, e: Event, j: JobId)
    requires Enabled(s, e)
    ensures Step(s, e).completed[j] == s.completed[j] +
            if e == Finish(j) || (e.Respond? && e.job == j && e.worker in Holders(s.started, j)) then 1 else 0
  {
  }

  /** An answered job with a worker to hand is completed by its posted completion, and no
      worker's list changes. */
  lemma AnsweredCompletes(s: State, w: WorkerId, j: JobId)
    requires j in s.queue && w in s.valid && w in s.started
    ensures var es := [Process(j, Some(w), true)] + ([Finish(j)] + []);
            && ValidRun(s, es) && Run(s, es).started == s.started
            && Run(s, es).completed[j] == s.completed[j] + 1 && Run(s, es).queue[j] == s.queue[j] - 1
  {
    var e := Process(j, Some(w), true);
    OneMore(Step(s, e), Finish(j), []);
    OneMore(s, e, [Finish(j)] + []);
  }

  /** An unanswered job is completed by the response of the worker it goes to. */
  lemma ResponseCompletes(s: State, w: WorkerId, j: JobId)
    requires j in s.queue && w in s.valid && w in s.started && j !in s.started[w]
    ensures var es := [Process(j, Some(w), false)] + ([Respond(w, j)] + []);
            && ValidRun(s, es) && Run(s, es).started == s.started
            && Run(s, es).completed[j] == s.completed[j] + 1 && Run(s, es).queue[j] == s.queue[j] - 1
  {
    var e := Process(j, Some(w), false);
    OneMore(Step(s, e), Respond(w, j), []);
    OneMore(s, e, [Respond(w, j)] + []);
    assert s.started[w] + {j} - {j} == s.started[w];
    assert s.started[w := s.started[w]] == s.started;
  }

  predicate OnePlaceThroughout(s: State, es: seq<Event>, j: JobId)
    requires ValidRun(s, es)
    decreases |es|
  {
    Copies(s, j) == 1 && (es != [] ==> OnePlaceThroughout(Step(s, es[0]), es[1..], j))
  }

  /** In every run a job is in one place in every state exactly when it is not scheduled again
      and no worker closes while it holds the job. */
  lemma {:induction false} OnePlaceExactlyWhen(s: State, es: seq<Event>, j: JobId)
    requires ValidRun(s, es) && Copies(s, j) == 1
    ensures OnePlaceThroughout(s, es, j) <==> NeverTakenBack(s, es, j)
    decreases |es|
  {
    if es != [] {
      CopiedExactlyWhen(s, es[0], j);
      if Copies(Step(s, es[0]), j) == 1 {
        OnePlaceExactlyWhen(Step(s, es[0]), es[1..], j);
      }
    }
  }

  /** A scheduled job completes at most once in every run in which no worker closes while it
      holds the job. */
  lemma {:induction false} CompletesAtMostOnce(s: State, es: seq<Event>, j: JobId)
    requires ValidRun(s, es) && Copies(s, j) == 1 && NeverTakenBack(s, es, j)
    ensures Copies(Run(s, es), j) == 1 && Run(s, es).completed[j] <= 1
    decreases |es|
  {
    if es != [] {
      CopiedExactlyWhen(s, es[0], j);
      CompletesAtMostOnce(Step(s, es[0]), es[1..], j);
    }
  }

  /** From every state: a response that is handled after its worker has closed completes the
      job, and so does the worker that gets it next. */
  lemma LateResponseCompletesTwice(s: State, a: WorkerId, b: WorkerId, j: JobId)
    requires a != b && a in s.started && b in s.started && b in s.valid
    requires j in s.started[a] && j !in s.started[b]
    ensures var es := [Close(a)] + ([Respond(a, j)] + ([Process(j, Some(b), false)] + ([Respond(b, j)] + [])));
            ValidRun(s, es) && Run(s, es).completed[j] == s.completed[j] + 2
  {
    var s1 := Step(s, Close(a));
    var s2 := Step(s1, Respond(a, j));
    var s3 := Step(s2, Process(j, Some(b), false));
    OneMore(s3, Respond(b, j), []);
    OneMore(s2, Process(j, Some(b), false), [Respond(b, j)] + []);
    OneMore(s1, Respond(a, j), [Process(j, Some(b), false)] + ([Respond(b, j)] + []));
    OneMore(s, Close(a), [Respond(a, j)] + ([Process(j, Some(b), false)] + ([Respond(b, j)] + [])));
  }

  lemma OneMore(s: State, e: Event, es: seq<Event>)
    requires Enabled(s, e) && ValidRun(Step(s, e), es)
    ensures ValidRun(s, [e] + es) && Run(s, [e] + es) == Run(Step(s, e), es)
  {
    assert ([e] + es)[1..] == es;
  }
}
